/** The two-pass rewriter of guest code: the first pass lists the instructions to replace and sizes the patch
    section, the second writes one trampoline per instruction into it and redirects the instruction there.
    The patch section lies immediately before the text; positions are counted in words from its start. */
module Patcher {
  import opened Instructions
  import opened Paging

  const SaveCtxSize: nat := 34
  const LoadCtxSize: nat := 34
  const RescaleClockSize: nat := 16
  const MainSvcTrampolineSize: nat := 17
  const TpidrEl0: int := 0x5E82
  const TpidrroEl0: int := 0x5E83
  const CntfrqEl0: int := 0x5F00
  const CntpctEl0: int := 0x5F01
  const CntvctEl0: int := 0x5F02
  const TegraX1Freq: int := 19200000

  /** Words of the main trampoline around the instructions that load the handler address. */
  const MainHead: seq<int> := [0xF90007FE, 0xD53BD041, 0xF9415022, 0xD51BD042, 0x910003E2, 0xF9415423, 0x9100007F,
    0xA9BF0BE1]
  const MainTail: seq<int> := [0xD63F0040, 0xA8C10BE1, 0xD51BD041, 0x9100005F, 0xF94007FE, 0xD65F03C0]

  /** The code and addresses of the host that the patcher copies in. */
  datatype Host = Host(saveCtx: seq<int>, loadCtx: seq<int>, rescaleClock: seq<int>, svcHandler: int, rescale: bool) {
    predicate Valid() {
      && |saveCtx| == SaveCtxSize && |loadCtx| == LoadCtxSize && |rescaleClock| == RescaleClockSize
      && 0 < svcHandler < Shift(4)
    }
  }

  function LoadSequence(register: int, value: int, halves: nat): (r: seq<int>)
    ensures |r| == halves
  {
    seq(halves, i => MoveAt(register, value, i))
  }

  function NonZero(words: seq<int>): seq<int> {
    if words == [] then []
    else NonZero(words[..|words| - 1]) + if words[|words| - 1] == 0 then [] else [words[|words| - 1]]
  }

  /** The main SVC trampoline; the handler address takes one word per half word that is not zero. */
  function MainTrampoline(host: Host): seq<int> {
    MainHead + NonZero(LoadSequence(2, host.svcHandler, 4)) + MainTail
  }

  function Header(host: Host): seq<int> {
    host.saveCtx + MainTrampoline(host) + host.loadCtx
  }

  function NonZeroHalves(value: int): nat {
    (if Half(value, 0) == 0 then 0 else 1) + (if Half(value, 1) == 0 then 0 else 1) +
    (if Half(value, 2) == 0 then 0 else 1) + (if Half(value, 3) == 0 then 0 else 1)
  }

  /** The main trampoline has the size that the first pass and the branches to LoadCtx assume exactly when the
      handler address has three half words that are not zero. */
  lemma MainTrampolineSize(host: Host)
    requires host.Valid()
    ensures |MainTrampoline(host)| == |MainHead| + NonZeroHalves(host.svcHandler) + |MainTail|
    ensures |MainTrampoline(host)| == MainSvcTrampolineSize <==> NonZeroHalves(host.svcHandler) == 3
  {
    var v := host.svcHandler;
    var s := LoadSequence(2, v, 4);
    MoveAtIsWord(2, v, 0);
    MoveAtIsWord(2, v, 1);
    MoveAtIsWord(2, v, 2);
    MoveAtIsWord(2, v, 3);
    assert s[..4] == s && s[..4][..3] == s[..3] && s[..3][..2] == s[..2] && s[..2][..1] == s[..1] && s[..1][..0] == [];
    assert |NonZero(s[..1])| == if Half(v, 0) == 0 then 0 else 1;
    assert |NonZero(s[..2])| == |NonZero(s[..1])| + if Half(v, 1) == 0 then 0 else 1;
    assert |NonZero(s[..3])| == |NonZero(s[..2])| + if Half(v, 2) == 0 then 0 else 1;
  }

  predicate TlsLoad(w: int) {
    !IsSvc(w) && IsMrs(w) && (SystemRegister(w) == TpidrroEl0 || SystemRegister(w) == TpidrEl0)
  }

  predicate ClockLoad(w: int, sys: int) {
    !IsSvc(w) && IsMrs(w) && SystemRegister(w) == sys
  }

  predicate TlsStore(w: int) {
    !IsSvc(w) && !IsMrs(w) && IsMsr(w) && SystemRegister(w) == TpidrEl0
  }

  /** The instructions that have to be replaced. */
  predicate Listed(host: Host, w: int) {
    || IsSvc(w) || TlsLoad(w) || TlsStore(w)
    || ClockLoad(w, CntpctEl0)
    || (host.rescale && ClockLoad(w, CntfrqEl0))
  }

  /** The instruction at text position offset returns here: the word behind it. */
  function Return(at: int, patchWords: int, offset: int): int {
    EncodeB(patchWords - at + offset + 1)
  }

  /** The code that replaces an instruction, when it starts at position at of the patch section. */
  function Trampoline(host: Host, w: int, at: nat, patchWords: int, offset: int): seq<int> {
    if IsSvc(w) then
      [0xF81F0FFE, EncodeBL(-(at + 1)), EncodeMovz(0, SvcValue(w), 0, 0), EncodeBL(-(at + 3) + SaveCtxSize),
       EncodeBL(-(at + 4) + SaveCtxSize + MainSvcTrampolineSize), 0xF84107FE, Return(at + 6, patchWords, offset)]
    else if TlsLoad(w) then
      var load := [0xD53BD040, if SystemRegister(w) == TpidrroEl0 then 0xF9415800 else 0xF9415C00];
      if Register(w) != 0
      then [0xF81F0FE0] + load + [EncodeMov(Register(w), 0), 0xF84107E0, Return(at + 5, patchWords, offset)]
      else load + [Return(at + 2, patchWords, offset)]
    else if host.rescale && ClockLoad(w, CntpctEl0) then
      host.rescaleClock + [0xF94003E0 + Register(w), 0x910083FF,
        Return(at + |host.rescaleClock| + 2, patchWords, offset)]
    else if host.rescale && ClockLoad(w, CntfrqEl0) then
      LoadSequence(Register(w), TegraX1Freq, 2) + [Return(at + 2, patchWords, offset)]
    else if TlsStore(w) then
      // the choice of scratch registers looks at the system register instead of the source register
      if SystemRegister(w) != 0 && SystemRegister(w) != 1
      then [0xA9BF07E0, 0xD53BD040, EncodeMov(1, Register(w)), 0xF9015C01, 0xA8C107E0,
        Return(at + 5, patchWords, offset)]
      else [0xA9BF0FE2, 0xD53BD042, EncodeMov(3, Register(w)), 0xF9015C03, 0xA8C10FE2,
        Return(at + 5, patchWords, offset)]
    else []
  }

  /** What the text holds in place of the instruction. */
  function Patched(host: Host, w: int, at: nat, patchWords: int, offset: int): int {
    if Trampoline(host, w, at, patchWords, offset) != [] then EncodeB(-(patchWords - at + offset))
    else if ClockLoad(w, CntpctEl0) then EncodeMrs(CntvctEl0, Register(w))
    else w
  }

  predicate OffsetsIn(text: seq<int>, offsets: seq<nat>) {
    forall i :: 0 <= i < |offsets| ==> offsets[i] < |text|
  }

  ghost predicate Increasing(offsets: seq<nat>) {
    forall i, j :: 0 <= i < j < |offsets| ==> offsets[i] < offsets[j]
  }

  /** The patch section after the first n listed instructions have been given their trampolines. */
  ghost function Image(host: Host, text: seq<int>, offsets: seq<nat>, patchWords: int, n: nat): (r: seq<int>)
    requires OffsetsIn(text, offsets) && n <= |offsets|
  {
    if n == 0 then Header(host)
    else
      var before := Image(host, text, offsets, patchWords, n - 1);
      before + Trampoline(host, text[offsets[n - 1]], |before|, patchWords, offsets[n - 1])
  }

  /** The number of words that the replacement of an instruction takes. */
  function Size(host: Host, w: int): nat { |Trampoline(host, w, 0, 0, 0)| }

  function Total(host: Host, text: seq<int>, offsets: seq<nat>): nat
    requires OffsetsIn(text, offsets)
  {
    if offsets == [] then 0
    else
      var front := offsets[..|offsets| - 1];
      assert OffsetsIn(text, front);
      Total(host, text, front) + Size(host, text[offsets[|offsets| - 1]])
  }

  lemma SizeOfTrampoline(host: Host, w: int, at: nat, patchWords: int, offset: int)
    ensures |Trampoline(host, w, at, patchWords, offset)| == Size(host, w)
  {
  }

  lemma {:induction false} ImageSize(host: Host, text: seq<int>, offsets: seq<nat>, patchWords: int, n: nat)
    requires OffsetsIn(text, offsets) && n <= |offsets|
    ensures OffsetsIn(text, offsets[..n])
    ensures |Image(host, text, offsets, patchWords, n)| == |Header(host)| + Total(host, text, offsets[..n])
  {
    if n > 0 {
      ImageSize(host, text, offsets, patchWords, n - 1);
      assert offsets[..n][..n - 1] == offsets[..n - 1];
      var before := Image(host, text, offsets, patchWords, n - 1);
      SizeOfTrampoline(host, text[offsets[n - 1]], |before|, patchWords, offsets[n - 1]);
    }
  }

  lemma TotalSnoc(host: Host, text: seq<int>, offsets: seq<nat>, offset: nat)
    requires OffsetsIn(text, offsets) && offset < |text|
    ensures OffsetsIn(text, offsets + [offset])
    ensures Total(host, text, offsets + [offset]) == Total(host, text, offsets) + Size(host, text[offset])
  {
    assert (offsets + [offset])[..|offsets|] == offsets;
  }

  /** One instruction of the first pass: whether it is listed, and the words counted for it. */
  method Count(host: Host, w: int) returns (listed: bool, words: nat)
    requires host.Valid()
    ensures listed <==> Listed(host, w)
    ensures words == if listed then Size(host, w) else 0
  {
    if IsSvc(w) {
      return true, 7;
    } else if IsMrs(w) {
      if SystemRegister(w) == TpidrroEl0 || SystemRegister(w) == TpidrEl0 {
        return true, if Register(w) != 0 then 6 else 3;
      } else {
        if host.rescale {
          if SystemRegister(w) == CntpctEl0 {
            return true, RescaleClockSize + 3;
          } else if SystemRegister(w) == CntfrqEl0 {
            return true, 3;
          }
        } else if SystemRegister(w) == CntpctEl0 {
          return true, 0;
        }
      }
    } else if IsMsr(w) && SystemRegister(w) == TpidrEl0 {
      return true, 6;
    }
    return false, 0;
  }

  /** The first pass lists exactly the instructions that need replacing, in order, and reserves exactly the words
      that the second pass will write, rounded up to whole pages. */
  method GetPatchData(host: Host, text: seq<int>) returns (size: nat, offsets: seq<nat>)
    requires host.Valid()
    ensures OffsetsIn(text, offsets) && Increasing(offsets)
    ensures forall i :: 0 <= i < |text| ==> (i in offsets <==> Listed(host, text[i]))
    ensures size == AlignUp((SaveCtxSize + LoadCtxSize + MainSvcTrampolineSize + Total(host, text, offsets)) * 4)
  {
    hide Total, Size, Listed;
    var words := SaveCtxSize + LoadCtxSize + MainSvcTrampolineSize;
    offsets := [];
    NothingListed(host, text);
    for i := 0 to |text|
      invariant OffsetsIn(text, offsets) && Increasing(offsets)
      invariant forall j :: 0 <= j < |offsets| ==> offsets[j] < i
      invariant forall j :: 0 <= j < i ==> (j in offsets <==> Listed(host, text[j]))
      invariant words == SaveCtxSize + LoadCtxSize + MainSvcTrampolineSize + Total(host, text, offsets)
    {
      var listed, extra := Count(host, text[i]);
      words := words + extra;
      if listed {
        TotalSnoc(host, text, offsets, i);
        offsets := offsets + [i];
      }
    }
    size := AlignUp(words * 4);
  }

  lemma NothingListed(host: Host, text: seq<int>)
    ensures Total(host, text, []) == 0
  {
  }

  /** Copies words into the patch section. */
  method Emit(patch: array<int>, at: nat, words: seq<int>) returns (next: nat)
    requires at + |words| <= patch.Length
    modifies patch
    ensures next == at + |words| && patch[..next] == old(patch[..at]) + words
  {
    forall i | 0 <= i < |words| {
      patch[at + i] := words[i];
    }
    next := at + |words|;
  }

  method EmitNonZero(patch: array<int>, at: nat, words: seq<int>) returns (next: nat)
    requires at + |words| <= patch.Length
    modifies patch
    ensures next == at + |NonZero(words)| <= patch.Length && patch[..next] == old(patch[..at]) + NonZero(words)
  {
    next := at;
    for i := 0 to |words|
      invariant at <= next <= at + i
      invariant patch[..next] == old(patch[..at]) + NonZero(words[..i])
    {
      assert words[..i + 1][..i] == words[..i];
      if words[i] != 0 {
        patch[next] := words[i];
        next := next + 1;
      }
    }
    assert words[..|words|] == words;
  }

  /** The code shared by all trampolines: context save, main SVC trampoline, context load. */
  method EmitHeader(host: Host, patch: array<int>) returns (at: nat)
    requires host.Valid() && |Header(host)| <= patch.Length
    modifies patch
    ensures at == |Header(host)| && patch[..at] == Header(host)
  {
    hide NonZero, LoadSequence;
    at := Emit(patch, 0, host.saveCtx);
    at := Emit(patch, at, MainHead);
    var moves := MoveRegister(2, host.svcHandler, 4);
    assert moves == LoadSequence(2, host.svcHandler, 4) by { LoadSequenceIs(moves, 2, host.svcHandler, 4); }
    at := EmitNonZero(patch, at, moves);
    at := Emit(patch, at, MainTail);
    at := Emit(patch, at, host.loadCtx);
  }

  lemma LoadSequenceIs(words: seq<int>, register: int, value: int, halves: nat)
    requires |words| == halves && forall i :: 0 <= i < halves ==> words[i] == MoveAt(register, value, i)
    ensures words == LoadSequence(register, value, halves)
  {
  }

  method EmitSvc(host: Host, patch: array<int>, at: nat, w: int, offset: nat) returns (next: nat)
    requires IsSvc(w) && at + 7 <= patch.Length
    modifies patch
    ensures next <= patch.Length && patch[..next] == old(patch[..at]) + Trampoline(host, w, at, patch.Length, offset)
  {
    next := Emit(patch, at, [0xF81F0FFE]); // STR LR, [SP, #-16]!
    next := Emit(patch, next, [EncodeBL(0 - next)]); // SaveCtx
    next := Emit(patch, next, [EncodeMovz(0, SvcValue(w), 0, 0)]);
    next := Emit(patch, next, [EncodeBL(0 - next + SaveCtxSize)]); // main SVC trampoline
    next := Emit(patch, next, [EncodeBL(0 - next + SaveCtxSize + MainSvcTrampolineSize)]); // LoadCtx
    next := Emit(patch, next, [0xF84107FE]); // LDR LR, [SP], #16
    next := Emit(patch, next, [EncodeB(patch.Length - next + offset + 1)]);
  }

  method EmitTlsLoad(host: Host, patch: array<int>, at: nat, w: int, offset: nat) returns (next: nat)
    requires TlsLoad(w) && at + Size(host, w) <= patch.Length
    modifies patch
    ensures next <= patch.Length && patch[..next] == old(patch[..at]) + Trampoline(host, w, at, patch.Length, offset)
  {
    next := at;
    if Register(w) != 0 {
      next := Emit(patch, next, [0xF81F0FE0]); // STR X0, [SP, #-16]!
    }
    next := EmitTlsFetch(patch, next, w);
    if Register(w) != 0 {
      next := Emit(patch, next, [EncodeMov(Register(w), 0)]);
      next := Emit(patch, next, [0xF84107E0]); // LDR X0, [SP], #16
    }
    next := Emit(patch, next, [EncodeB(patch.Length - next + offset + 1)]);
  }

  method EmitTlsFetch(patch: array<int>, at: nat, w: int) returns (next: nat)
    requires at + 2 <= patch.Length
    modifies patch
    ensures next == at + 2
    ensures patch[..next] == old(patch[..at]) +
      [0xD53BD040, if SystemRegister(w) == TpidrroEl0 then 0xF9415800 else 0xF9415C00]
  {
    next := Emit(patch, at, [0xD53BD040]); // MRS X0, TPIDR_EL0
    if SystemRegister(w) == TpidrroEl0 {
      next := Emit(patch, next, [0xF9415800]); // LDR X0, [X0, #0x2B0]
    } else {
      next := Emit(patch, next, [0xF9415C00]); // LDR X0, [X0, #0x2B8]
    }
  }

  method EmitClockLoad(host: Host, patch: array<int>, at: nat, w: int, offset: nat) returns (next: nat)
    requires host.Valid() && host.rescale && (ClockLoad(w, CntpctEl0) || ClockLoad(w, CntfrqEl0))
    requires at + Size(host, w) <= patch.Length
    modifies patch
    ensures next <= patch.Length && patch[..next] == old(patch[..at]) + Trampoline(host, w, at, patch.Length, offset)
  {
    if SystemRegister(w) == CntpctEl0 {
      next := Emit(patch, at, host.rescaleClock);
      next := Emit(patch, next, [0xF94003E0 + Register(w)]); // LDR XOUT, [SP]
      next := Emit(patch, next, [0x910083FF]); // ADD SP, SP, #32
    } else {
      var moves := MoveRegister(Register(w), TegraX1Freq, 2);
      LoadSequenceIs(moves, Register(w), TegraX1Freq, 2);
      next := Emit(patch, at, moves);
    }
    next := Emit(patch, next, [EncodeB(patch.Length - next + offset + 1)]);
  }

  method EmitTlsStore(host: Host, patch: array<int>, at: nat, w: int, offset: nat) returns (next: nat)
    requires TlsStore(w) && at + 6 <= patch.Length
    modifies patch
    ensures next <= patch.Length && patch[..next] == old(patch[..at]) + Trampoline(host, w, at, patch.Length, offset)
  {
    var x0x1 := SystemRegister(w) != 0 && SystemRegister(w) != 1;
    next := Emit(patch, at, [if x0x1 then 0xA9BF07E0 else 0xA9BF0FE2]); // STP X(0/2), X(1/3), [SP, #-16]!
    next := Emit(patch, next, [if x0x1 then 0xD53BD040 else 0xD53BD042]); // MRS X(0/2), TPIDR_EL0
    next := Emit(patch, next, [EncodeMov(if x0x1 then 1 else 3, Register(w))]);
    next := Emit(patch, next, [if x0x1 then 0xF9015C01 else 0xF9015C03]); // STR X(1/3), [X0, #0x2B8]
    next := Emit(patch, next, [if x0x1 then 0xA8C107E0 else 0xA8C10FE2]); // LDP X(0/2), X(1/3), [SP], #16
    next := Emit(patch, next, [EncodeB(patch.Length - next + offset + 1)]);
  }

  /** Replaces one listed instruction. */
  method PatchOne(host: Host, text: array<int>, patch: array<int>, at: nat, offset: nat) returns (next: nat)
    requires host.Valid() && text != patch && offset < text.Length && at + Size(host, text[offset]) <= patch.Length
    modifies text, patch
    ensures next <= patch.Length
    ensures patch[..next] == old(patch[..at]) + Trampoline(host, old(text[offset]), at, patch.Length, offset)
    ensures text[..] == old(text[..])[offset := Patched(host, old(text[offset]), at, patch.Length, offset)]
  {
    var w := text[offset];
    SizeOfTrampoline(host, w, at, patch.Length, offset);
    var branch := EncodeB(-(patch.Length - at + offset));
    next := at;
    if IsSvc(w) {
      text[offset] := branch;
      next := EmitSvc(host, patch, at, w, offset);
    } else if IsMrs(w) {
      if SystemRegister(w) == TpidrroEl0 || SystemRegister(w) == TpidrEl0 {
        text[offset] := branch;
        next := EmitTlsLoad(host, patch, at, w, offset);
      } else {
        if host.rescale {
          if SystemRegister(w) == CntpctEl0 || SystemRegister(w) == CntfrqEl0 {
            text[offset] := branch;
            next := EmitClockLoad(host, patch, at, w, offset);
          }
        } else if SystemRegister(w) == CntpctEl0 {
          text[offset] := EncodeMrs(CntvctEl0, Register(w));
        }
      }
    } else if IsMsr(w) && SystemRegister(w) == TpidrEl0 {
      text[offset] := branch;
      next := EmitTlsStore(host, patch, at, w, offset);
    }
  }

  /** The text after the second pass: listed words replaced, all others untouched. */
  ghost predicate IsPatchedText(host: Host, was: seq<int>, now: seq<int>, offsets: seq<nat>, patchWords: int, n: nat)
    requires OffsetsIn(was, offsets) && n <= |offsets|
  {
    && |now| == |was|
    && (forall j :: 0 <= j < n ==>
          now[offsets[j]] == Patched(host, was[offsets[j]], |Image(host, was, offsets, patchWords, j)|, patchWords,
            offsets[j]))
    && (forall k :: 0 <= k < |was| && k !in offsets[..n] ==> now[k] == was[k])
  }

  lemma {:induction false} TotalPrefix(host: Host, text: seq<int>, offsets: seq<nat>, i: nat)
    requires OffsetsIn(text, offsets) && i <= |offsets|
    ensures OffsetsIn(text, offsets[..i]) && Total(host, text, offsets[..i]) <= Total(host, text, offsets)
    decreases |offsets|
  {
    if i == |offsets| {
      assert offsets[..i] == offsets;
    } else {
      var front := offsets[..|offsets| - 1];
      TotalPrefix(host, text, front, i);
      assert front[..i] == offsets[..i];
    }
  }

  /** The second pass writes the image of all trampolines, never beyond the counted words, and changes only
      listed words of the text. */
  method PatchCode(host: Host, text: array<int>, patch: array<int>, offsets: seq<nat>)
    requires host.Valid() && text != patch
    requires OffsetsIn(text[..], offsets) && Increasing(offsets)
    requires |Header(host)| + Total(host, text[..], offsets) <= patch.Length
    modifies text, patch
    ensures OffsetsIn(old(text[..]), offsets)
    ensures Image(host, old(text[..]), offsets, patch.Length, |offsets|) <= patch[..]
    ensures |Image(host, old(text[..]), offsets, patch.Length, |offsets|)| == |Header(host)| +
      Total(host, old(text[..]), offsets)
    ensures IsPatchedText(host, old(text[..]), text[..], offsets, patch.Length, |offsets|)
  {
    hide Trampoline, Patched, Header, Total, Size;
    ghost var was := text[..];
    ghost var words := patch.Length;
    var at := EmitHeader(host, patch);
    for i := 0 to |offsets|
      invariant at <= patch.Length && at == |Image(host, was, offsets, words, i)|
      invariant patch[..at] == Image(host, was, offsets, words, i)
      invariant IsPatchedText(host, was, text[..], offsets, words, i)
    {
      NextFits(host, was, offsets, words, i);
      NotYetPatched(offsets, i);
      assert text[offsets[i]] == was[offsets[i]];
      ghost var before := text[..];
      at := PatchOne(host, text, patch, at, offsets[i]);
      PatchedTextSnoc(host, was, before, text[..], offsets, words, i);
    }
    ImageSize(host, was, offsets, words, |offsets|);
    assert offsets[..|offsets|] == offsets;
  }

  lemma NotYetPatched(offsets: seq<nat>, i: nat)
    requires Increasing(offsets) && i < |offsets|
    ensures offsets[i] !in offsets[..i]
  {
  }

  lemma NextFits(host: Host, text: seq<int>, offsets: seq<nat>, words: int, i: nat)
    requires OffsetsIn(text, offsets) && i < |offsets|
    ensures |Image(host, text, offsets, words, i)| + Size(host, text[offsets[i]]) <= |Header(host)| +
      Total(host, text, offsets)
  {
    ImageSize(host, text, offsets, words, i);
    TotalPrefix(host, text, offsets, i + 1);
    assert offsets[..i + 1][..i] == offsets[..i];
  }

  lemma PatchedTextSnoc(host: Host, was: seq<int>, before: seq<int>, now: seq<int>, offsets: seq<nat>, words: int,
                        i: nat)
    requires OffsetsIn(was, offsets) && Increasing(offsets) && i < |offsets|
    requires IsPatchedText(host, was, before, offsets, words, i)
    requires now == before[offsets[i] := Patched(host, was[offsets[i]], |Image(host, was, offsets, words, i)|, words,
      offsets[i])]
    ensures IsPatchedText(host, was, now, offsets, words, i + 1)
  {
    hide Trampoline, Patched, Image;
    assert offsets[..i + 1] == offsets[..i] + [offsets[i]];
    forall k | 0 <= k < |was| && k !in offsets[..i + 1] ensures now[k] == was[k] {
      assert k !in offsets[..i] && k != offsets[i];
    }
  }

  /** The two passes agree: what the second pass writes is what the first one counted, and lies within the section
      it sized, exactly when the main trampoline has the assumed size; with a longer one the count is exceeded. */
  lemma CountedIsWritten(host: Host, text: seq<int>, offsets: seq<nat>, patchWords: int, size: nat)
    requires host.Valid() && OffsetsIn(text, offsets)
    requires size == AlignUp((SaveCtxSize + LoadCtxSize + MainSvcTrampolineSize + Total(host, text, offsets)) * 4)
    ensures
      var written, counted :=
        |Image(host, text, offsets, patchWords, |offsets|)|,
          SaveCtxSize + LoadCtxSize + MainSvcTrampolineSize + Total(host, text, offsets);
      && written == counted + NonZeroHalves(host.svcHandler) - 3
      && (written <= counted ==> written * 4 <= size)
  {
    ImageSize(host, text, offsets, patchWords, |offsets|);
    MainTrampolineSize(host);
    hide Image, Total, MainTrampoline, NonZeroHalves;
    assert offsets[..|offsets|] == offsets;
  }

  // ---- what the layout means for control flow

  /** The position that a branch at the given position goes to. */
  function Target(position: int, w: int): int {
    var i := Decode(w);
    if i.Branch? then position + i.offset else position + 1
  }

  predicate IsBranch(w: int, link: bool) {
    var i := Decode(w);
    i.Branch? && i.link == link
  }

  /** All positions lie within reach of a branch. */
  predicate InReach(patchWords: int, textWords: int) {
    0 <= patchWords && 0 <= textWords && patchWords + textWords < 0x200_0000
  }

  lemma BranchGoes(position: int, target: int, link: bool)
    requires -0x200_0000 <= target - position < 0x200_0000
    ensures var w := if link then EncodeBL(target - position) else EncodeB(target - position);
      IsBranch(w, link) && Target(position, w) == target
  {
    BranchRoundTrip(target - position);
  }

  /** A replaced instruction branches to its trampoline, and the trampoline ends in a branch back to the
      instruction behind it; the trampoline of an SVC calls the shared code on the way. */
  lemma TrampolineControlFlow(host: Host, w: int, at: nat, patchWords: int, offset: nat, textWords: int)
    requires InReach(patchWords, textWords) && offset < textWords
    requires at + Size(host, w) <= patchWords && Size(host, w) > 0
    ensures
      var code := Trampoline(host, w, at, patchWords, offset);
      && code != []
      && IsBranch(Patched(host, w, at, patchWords, offset), false)
      && Target(patchWords + offset, Patched(host, w, at, patchWords, offset)) == at
      && IsBranch(code[|code| - 1], false)
      && Target(at + |code| - 1, code[|code| - 1]) == patchWords + offset + 1
    ensures
      var code := Trampoline(host, w, at, patchWords, offset);
      IsSvc(w) ==>
      && |code| == 7
      && IsBranch(code[1], true) && Target(at + 1, code[1]) == 0
      && IsBranch(code[3], true) && Target(at + 3, code[3]) == SaveCtxSize
      && IsBranch(code[4], true) && Target(at + 4, code[4]) == SaveCtxSize + MainSvcTrampolineSize
  {
    hide Decode, EncodeB, EncodeBL, EncodeMov, EncodeMovz, IsBranch, Target;
    SizeOfTrampoline(host, w, at, patchWords, offset);
    var code := Trampoline(host, w, at, patchWords, offset);
    var last := at + |code| - 1;
    BranchGoes(patchWords + offset, at, false);
    assert at - (patchWords + offset) == -(patchWords - at + offset);
    BranchGoes(last, patchWords + offset + 1, false);
    assert code[|code| - 1] == EncodeB(patchWords + offset + 1 - last) by {
      LastReturns(host, w, at, patchWords, offset);
    }
    if IsSvc(w) {
      BranchGoes(at + 1, 0, true);
      BranchGoes(at + 3, SaveCtxSize, true);
      BranchGoes(at + 4, SaveCtxSize + MainSvcTrampolineSize, true);
    }
  }

  lemma LastReturns(host: Host, w: int, at: nat, patchWords: int, offset: int)
    requires Size(host, w) > 0
    ensures var code := Trampoline(host, w, at, patchWords, offset);
      |code| == Size(host, w) && code[|code| - 1] == EncodeB(patchWords + offset + 1 - (at + |code| - 1))
  {
    hide EncodeB, EncodeBL, EncodeMov, EncodeMovz;
  }

  lemma {:induction false} ImageGrows(host: Host, text: seq<int>, offsets: seq<nat>, patchWords: int, i: nat, j: nat)
    requires OffsetsIn(text, offsets) && i <= j <= |offsets|
    ensures Header(host) <= Image(host, text, offsets, patchWords, i) <= Image(host, text, offsets, patchWords, j)
    decreases j
  {
    hide Trampoline, Header;
    if i < j {
      ImageGrows(host, text, offsets, patchWords, i, j - 1);
    } else if j > 0 {
      ImageGrows(host, text, offsets, patchWords, j - 1, j - 1);
    }
  }

  /** Where the trampoline of the i-th listed instruction starts. */
  ghost function Start(host: Host, text: seq<int>, offsets: seq<nat>, patchWords: int, i: nat): nat
    requires OffsetsIn(text, offsets) && i <= |offsets|
  {
    |Image(host, text, offsets, patchWords, i)|
  }

  /** Trampolines lie behind the shared code, one after the other, and none reaches into another. */
  lemma TrampolinesDisjoint(host: Host, text: seq<int>, offsets: seq<nat>, patchWords: int, i: nat, j: nat)
    requires OffsetsIn(text, offsets) && i < j < |offsets|
    ensures |Header(host)| <= Start(host, text, offsets, patchWords, i)
    ensures Start(host, text, offsets, patchWords, i) +
      Size(host, text[offsets[i]]) <= Start(host, text, offsets, patchWords, j)
  {
    hide Trampoline, Header, Size;
    ImageGrows(host, text, offsets, patchWords, 0, i);
    ImageGrows(host, text, offsets, patchWords, i + 1, j);
    SizeOfTrampoline(host, text[offsets[i]], Start(host, text, offsets, patchWords, i), patchWords, offsets[i]);
  }

  /** The shared code is where the branches of SVC trampolines expect it. */
  lemma HeaderLayout(host: Host)
    requires host.Valid() && NonZeroHalves(host.svcHandler) == 3
    ensures |Header(host)| == SaveCtxSize + MainSvcTrampolineSize + LoadCtxSize
    ensures |host.saveCtx| == SaveCtxSize && |MainTrampoline(host)| == MainSvcTrampolineSize
    ensures |host.loadCtx| == LoadCtxSize
    ensures Header(host)[..SaveCtxSize] == host.saveCtx
    ensures Header(host)[SaveCtxSize..SaveCtxSize + MainSvcTrampolineSize] == MainTrampoline(host)
    ensures Header(host)[SaveCtxSize + MainSvcTrampolineSize..] == host.loadCtx
  {
    MainTrampolineSize(host);
    hide NonZero, LoadSequence, MainTrampoline;
  }

  /** The word at a position of the loaded program: the patch section followed by the text. */
  function At(patch: seq<int>, text: seq<int>, position: int): int {
    if 0 <= position < |patch| then patch[position]
    else if |patch| <= position < |patch| + |text| then text[position - |patch|]
    else 0
  }

  /** The i-th listed instruction goes through its own trampoline and on to the next instruction, or is replaced
      in place. */
  ghost predicate GoesThrough(host: Host, w: int, o: nat, start: nat, patch: seq<int>, now: seq<int>) {
    var end := start + Size(host, w);
    && end <= |patch| && patch[start..end] == Trampoline(host, w, start, |patch|, o)
    && if Size(host, w) > 0
       then
         && IsBranch(At(patch, now, |patch| + o), false) && Target(|patch| + o, At(patch, now, |patch| + o)) == start
         && IsBranch(At(patch, now, end - 1), false) && Target(end - 1, At(patch, now, end - 1)) == |patch| + o + 1
       else At(patch, now, |patch| + o) == Patched(host, w, start, |patch|, o)
  }

  /** The code lies in the patch section at this place. */
  ghost predicate Lies(patch: seq<int>, at: int, code: seq<int>) {
    0 <= at && at + |code| <= |patch| && patch[at..at + |code|] == code
  }

  /** The word at the position calls a place where this code lies. */
  ghost predicate Calls(patch: seq<int>, now: seq<int>, position: int, code: seq<int>) {
    var w := At(patch, now, position);
    IsBranch(w, true) && Lies(patch, Target(position, w), code)
  }

  /** The trampoline of a system call saves the context, runs the main trampoline and loads the context, by calls of
      the shared code as it was written. */
  ghost predicate CallsShared(host: Host, start: nat, patch: seq<int>, now: seq<int>) {
    && Calls(patch, now, start + 1, host.saveCtx)
    && Calls(patch, now, start + 3, MainTrampoline(host))
    && Calls(patch, now, start + 4, host.loadCtx)
  }

  /** Every program that the second pass produces: an instruction with a trampoline branches to its own, whose
      last word branches to the next instruction; and the trampolines of system calls reach the shared code, given
      that the main trampoline has the size that the layout assumes. */
  lemma PatchedProgram(host: Host, was: seq<int>, now: seq<int>, patch: seq<int>, offsets: seq<nat>, i: nat)
    requires OffsetsIn(was, offsets) && i < |offsets| && InReach(|patch|, |was|)
    requires Image(host, was, offsets, |patch|, |offsets|) <= patch
    requires IsPatchedText(host, was, now, offsets, |patch|, |offsets|)
    ensures GoesThrough(host, was[offsets[i]], offsets[i], Start(host, was, offsets, |patch|, i), patch, now)
    ensures IsSvc(was[offsets[i]]) && host.Valid() && NonZeroHalves(host.svcHandler) == 3 ==>
      CallsShared(host, Start(host, was, offsets, |patch|, i), patch, now)
  {
    hide Image, IsSvc, CallsShared, NonZeroHalves, Host.Valid, GoesThrough, IsPatchedText, InReach;
    RedirectedThrough(host, was, now, patch, offsets, i);
    if IsSvc(was[offsets[i]]) && host.Valid() && NonZeroHalves(host.svcHandler) == 3 {
      SvcReachesShared(host, was, now, patch, offsets, i);
    }
  }

  lemma RedirectedThrough(host: Host, was: seq<int>, now: seq<int>, patch: seq<int>, offsets: seq<nat>, i: nat)
    requires OffsetsIn(was, offsets) && i < |offsets| && InReach(|patch|, |was|)
    requires Image(host, was, offsets, |patch|, |offsets|) <= patch
    requires IsPatchedText(host, was, now, offsets, |patch|, |offsets|)
    ensures GoesThrough(host, was[offsets[i]], offsets[i], Start(host, was, offsets, |patch|, i), patch, now)
  {
    hide Trampoline, Patched, Header, Size, Target, IsBranch, Image;
    var w, o, start := was[offsets[i]], offsets[i], Start(host, was, offsets, |patch|, i);
    TrampolineInPlace(host, was, patch, offsets, i);
    assert At(patch, now, |patch| + o) == now[o] == Patched(host, w, start, |patch|, o);
    if Size(host, w) > 0 {
      TrampolineControlFlow(host, w, start, |patch|, o, |was|);
    }
  }

  lemma SvcReachesShared(host: Host, was: seq<int>, now: seq<int>, patch: seq<int>, offsets: seq<nat>, i: nat)
    requires OffsetsIn(was, offsets) && i < |offsets| && InReach(|patch|, |was|)
    requires Image(host, was, offsets, |patch|, |offsets|) <= patch
    requires IsSvc(was[offsets[i]]) && host.Valid() && NonZeroHalves(host.svcHandler) == 3
    ensures CallsShared(host, Start(host, was, offsets, |patch|, i), patch, now)
  {
    hide Trampoline, Header, Target, IsBranch, Image, Start, MainTrampoline, NonZeroHalves, IsSvc, Size, Calls;
    hide Host.Valid, Lies, InReach;
    var w, o, start := was[offsets[i]], offsets[i], Start(host, was, offsets, |patch|, i);
    var code := Trampoline(host, w, start, |patch|, o);
    TrampolineLies(host, was, patch, offsets, i);
    SharedLies(host, was, patch, offsets);
    CallsCode(patch, now, start, code, 1, 0, host.saveCtx);
    CallsCode(patch, now, start, code, 3, SaveCtxSize, MainTrampoline(host));
    CallsCode(patch, now, start, code, 4, SaveCtxSize + MainSvcTrampolineSize, host.loadCtx);
  }

  lemma TrampolineLies(host: Host, was: seq<int>, patch: seq<int>, offsets: seq<nat>, i: nat)
    requires OffsetsIn(was, offsets) && i < |offsets| && InReach(|patch|, |was|) && IsSvc(was[offsets[i]])
    requires Image(host, was, offsets, |patch|, |offsets|) <= patch
    ensures
      var start := Start(host, was, offsets, |patch|, i);
      var code := Trampoline(host, was[offsets[i]], start, |patch|, offsets[i]);
      && |code| == 7 && Lies(patch, start, code)
      && IsBranch(code[1], true) && Target(start + 1, code[1]) == 0
      && IsBranch(code[3], true) && Target(start + 3, code[3]) == SaveCtxSize
      && IsBranch(code[4], true) && Target(start + 4, code[4]) == SaveCtxSize + MainSvcTrampolineSize
  {
    hide Trampoline, Target, IsBranch, Image, IsSvc, Size;
    TrampolineInPlace(host, was, patch, offsets, i);
    SvcHasTrampoline(host, was[offsets[i]]);
    TrampolineControlFlow(host, was[offsets[i]], Start(host, was, offsets, |patch|, i), |patch|, offsets[i], |was|);
  }

  lemma SvcHasTrampoline(host: Host, w: int)
    requires IsSvc(w)
    ensures Size(host, w) > 0
  {
  }

  lemma SharedLies(host: Host, was: seq<int>, patch: seq<int>, offsets: seq<nat>)
    requires OffsetsIn(was, offsets) && host.Valid() && NonZeroHalves(host.svcHandler) == 3
    requires Image(host, was, offsets, |patch|, |offsets|) <= patch
    ensures Lies(patch, 0, host.saveCtx) && Lies(patch, SaveCtxSize, MainTrampoline(host))
    ensures Lies(patch, SaveCtxSize + MainSvcTrampolineSize, host.loadCtx)
  {
    hide Header, Image, MainTrampoline, NonZeroHalves, Host.Valid, Lies;
    assert Header(host) <= patch by {
      ImageGrows(host, was, offsets, |patch|, |offsets|, |offsets|);
      PrefixOfPrefix(Header(host), Image(host, was, offsets, |patch|, |offsets|), patch);
    }
    HeaderLayout(host);
    PartLies(Header(host), patch, 0, host.saveCtx);
    PartLies(Header(host), patch, SaveCtxSize, MainTrampoline(host));
    PartLies(Header(host), patch, SaveCtxSize + MainSvcTrampolineSize, host.loadCtx);
  }

  lemma PrefixOfPrefix(s: seq<int>, t: seq<int>, u: seq<int>)
    requires s <= t <= u
    ensures s <= u
  {
  }

  lemma PartLies(header: seq<int>, patch: seq<int>, at: nat, code: seq<int>)
    requires header <= patch && at + |code| <= |header| && header[at..at + |code|] == code
    ensures Lies(patch, at, code)
  {
    assert patch[at..at + |code|] == header[at..at + |code|];
  }

  /** A branch with link in code that lies in the patch section calls what lies at its target. */
  lemma CallsCode(patch: seq<int>, now: seq<int>, start: nat, code: seq<int>, j: nat, target: int, callee: seq<int>)
    requires Lies(patch, start, code) && j < |code|
    requires IsBranch(code[j], true) && Target(start + j, code[j]) == target && Lies(patch, target, callee)
    ensures Calls(patch, now, start + j, callee)
  {
    hide IsBranch, Target;
    assert patch[start..start + |code|][j] == patch[start + j];
  }

  lemma TrampolineInPlace(host: Host, was: seq<int>, patch: seq<int>, offsets: seq<nat>, i: nat)
    requires OffsetsIn(was, offsets) && i < |offsets|
    requires Image(host, was, offsets, |patch|, |offsets|) <= patch
    ensures
      var start := Start(host, was, offsets, |patch|, i);
      var code := Trampoline(host, was[offsets[i]], start, |patch|, offsets[i]);
      && |code| == Size(host, was[offsets[i]]) && start + |code| <= |patch| && patch[start..start + |code|] == code
      && (code != [] ==> patch[start + |code| - 1] == code[|code| - 1])
  {
    hide Trampoline, Header, Size;
    var start := Start(host, was, offsets, |patch|, i);
    ImageGrows(host, was, offsets, |patch|, i + 1, |offsets|);
    SizeOfTrampoline(host, was[offsets[i]], start, |patch|, offsets[i]);
    var code := Trampoline(host, was[offsets[i]], start, |patch|, offsets[i]);
    var image := Image(host, was, offsets, |patch|, i);
    assert Image(host, was, offsets, |patch|, i + 1) == image + code;
    assert image + code <= patch;
    assert patch[start..start + |code|] == (image + code)[start..start + |code|];
  }

  // ---- both passes

  /** What control flow sees of the i-th listed instruction. */
  ghost predicate Redirected(host: Host, was: seq<int>, now: seq<int>, patch: seq<int>, offsets: seq<nat>, i: nat)
    requires OffsetsIn(was, offsets) && i < |offsets|
  {
    var w, o, start := was[offsets[i]], offsets[i], Start(host, was, offsets, |patch|, i);
    && GoesThrough(host, w, o, start, patch, now)
    && (IsSvc(w) && NonZeroHalves(host.svcHandler) == 3 ==> CallsShared(host, start, patch, now))
  }

  /** The section that the first pass asks for holds what the second writes, unless the main trampoline is longer than
      assumed and the counted words fill whole pages. */
  lemma SectionHolds(host: Host, text: seq<int>, offsets: seq<nat>)
    requires host.Valid() && OffsetsIn(text, offsets)
    ensures
      var counted := SaveCtxSize + LoadCtxSize + MainSvcTrampolineSize + Total(host, text, offsets);
      |Header(host)| + Total(host, text, offsets) <= AlignUp(counted * 4) / 4 <==>
      NonZeroHalves(host.svcHandler) <= 3 || !IsAligned(counted * 4)
  {
    hide Total, MainTrampoline, NonZeroHalves, AlignUp, IsAligned;
    HeaderSize(host);
    var counted := SaveCtxSize + LoadCtxSize + MainSvcTrampolineSize + Total(host, text, offsets);
    FitsPages(counted, counted + NonZeroHalves(host.svcHandler) - 3);
  }

  lemma HeaderSize(host: Host)
    requires host.Valid()
    ensures NonZeroHalves(host.svcHandler) <= 4
    ensures |Header(host)| == SaveCtxSize + LoadCtxSize + MainSvcTrampolineSize + NonZeroHalves(host.svcHandler) - 3
  {
    MainTrampolineSize(host);
    hide MainTrampoline;
  }

  /** What is at most one word longer than counted fits into the pages of the count unless it is longer and they are
      full. */
  lemma FitsPages(counted: int, written: int)
    requires written <= counted + 1
    ensures written <= AlignUp(counted * 4) / 4 <==> written <= counted || !IsAligned(counted * 4)
  {
    hide AlignUp;
    var size := AlignUp(counted * 4);
    var pages := size / PageSize;
    assert size == pages * PageSize;
    assert size / 4 == pages * 1024;
    if IsAligned(counted * 4) {
      var full := counted * 4 / PageSize;
      assert counted * 4 == full * PageSize;
      assert full == pages;
    }
  }

  /** Both passes over a program, as its loader makes them, the section as large as the first pass asks for.  Unless
      that is overrun, exactly the words to replace are redirected, each through a trampoline of its own and on to the
      next word, and system calls reach the shared code if the main trampoline has just the assumed size. */
  method PatchProgram(host: Host, text: array<int>) returns (overrun: bool, patch: array<int>, offsets: seq<nat>)
    requires host.Valid()
    modifies text
    ensures fresh(patch) && OffsetsIn(old(text[..]), offsets) && Increasing(offsets)
    ensures forall k :: 0 <= k < text.Length ==> (k in offsets <==> Listed(host, old(text[k])))
    ensures overrun <==>
      NonZeroHalves(host.svcHandler) > 3 &&
      IsAligned((SaveCtxSize + LoadCtxSize + MainSvcTrampolineSize + Total(host, old(text[..]), offsets)) * 4)
    ensures forall k :: 0 <= k < text.Length && (overrun || k !in offsets) ==> text[k] == old(text[k])
    ensures !overrun && InReach(patch.Length, text.Length) ==> forall i :: 0 <= i < |offsets| ==>
      Redirected(host, old(text[..]), text[..], patch[..], offsets, i)
  {
    hide Total, Listed, Image, Redirected, InReach, NonZeroHalves, Header, Increasing;
    var size;
    size, offsets := GetPatchData(host, text[..]);
    patch := new int[size / 4];
    ghost var was := text[..];
    assert forall k :: 0 <= k < text.Length ==> was[k] == text[k];
    SectionHolds(host, was, offsets);
    overrun := |Header(host)| + Total(host, text[..], offsets) > patch.Length;
    if !overrun {
      PatchCode(host, text, patch, offsets);
      assert offsets[..|offsets|] == offsets;
      if InReach(patch.Length, text.Length) {
        forall i | 0 <= i < |offsets| ensures Redirected(host, was, text[..], patch[..], offsets, i) {
          PatchedProgram(host, was, text[..], patch[..], offsets, i);
          IsRedirected(host, was, text[..], patch[..], offsets, i);
        }
      }
    }
  }

  lemma IsRedirected(host: Host, was: seq<int>, now: seq<int>, patch: seq<int>, offsets: seq<nat>, i: nat)
    requires OffsetsIn(was, offsets) && i < |offsets|
    requires GoesThrough(host, was[offsets[i]], offsets[i], Start(host, was, offsets, |patch|, i), patch, now)
    requires IsSvc(was[offsets[i]]) && NonZeroHalves(host.svcHandler) == 3 ==>
      CallsShared(host, Start(host, was, offsets, |patch|, i), patch, now)
    ensures Redirected(host, was, now, patch, offsets, i)
  {
    hide GoesThrough, CallsShared, NonZeroHalves, IsSvc;
  }
}
