/** A system call on the patched program: from the replaced instruction to the handler of the host and back, and reads
    of the counter.  The code that saves and loads the context and the handler itself are given by what they do. */
module SvcCalls {
  import opened Common
  import opened GuestCpu
  import opened Instructions
  import opened Patcher

  const HostTpidrSlot: int := 0x2A0 // ThreadContext::hostTpidrEl0
  const HostSpSlot: int := 0x2A8 // ThreadContext::hostSp
  const ContextSize: int := 0x2C0
  const SavedRegisters: int := 19

  /** Some number of instructions leads from one state to the other. */
  ghost predicate Reaches(patch: seq<int>, now: seq<int>, c: Cpu, d: Cpu)
    requires c.Valid()
  {
    exists n: nat :: Run(patch, now, c, n) == Some(d)
  }

  lemma {:induction false} RunOn(patch: seq<int>, now: seq<int>, c: Cpu, n: nat, m: nat)
    requires c.Valid() && Run(patch, now, c, n).Some?
    ensures Run(patch, now, c, n + m) == Run(patch, now, Run(patch, now, c, n).value, m)
    decreases n
  {
    hide Step, Decode, At;
    if n > 0 {
      var next := Step(c, Decode(At(patch, now, c.pc))).value;
      RunOn(patch, now, next, n - 1, m);
      assert n + m - 1 == (n - 1) + m;
    }
  }

  lemma ReachesOn(patch: seq<int>, now: seq<int>, c: Cpu, d: Cpu, e: Cpu)
    requires c.Valid() && d.Valid() && Reaches(patch, now, c, d) && Reaches(patch, now, d, e)
    ensures Reaches(patch, now, c, e)
  {
    hide Run;
    var n: nat :| Run(patch, now, c, n) == Some(d);
    var m: nat :| Run(patch, now, d, m) == Some(e);
    RunOn(patch, now, c, n, m);
  }

  /** One instruction. */
  lemma ReachesNext(patch: seq<int>, now: seq<int>, c: Cpu, i: Instruction, d: Cpu)
    requires c.Valid() && Decode(At(patch, now, c.pc)) == i && Step(c, i) == Some(d)
    ensures Reaches(patch, now, c, d)
  {
    hide Step, Decode, At;
    assert Run(patch, now, d, 0) == Some(d);
    assert Run(patch, now, c, 1) == Some(d);
  }

  lemma ReachesItself(patch: seq<int>, now: seq<int>, c: Cpu)
    requires c.Valid()
    ensures Reaches(patch, now, c, c)
  {
    assert Run(patch, now, c, 0) == Some(c);
  }

  // ---- words

  lemma LinkWords()
    ensures Decode(0xF81F0FFE) == StorePre(30, 31, -16) && Decode(0xF84107FE) == LoadPost(30, 31, 16)
    ensures Decode(0xF90007FE) == StoreOffset(30, 31, 8) && Decode(0xF94007FE) == LoadOffset(30, 31, 8)
  {
    PushLinkWord();
    PopLinkWord();
    StoreLinkWord();
    LoadLinkWord();
  }

  lemma PushLinkWord()
    ensures Decode(0xF81F0FFE) == StorePre(30, 31, -16)
  {
    var w := 0xF81F0FFE;
    assert w / 0x400_0000 == 0x3E && w / 0x10_0000 == 0xF81 && w / 0x80_0000 == 0x1F0 && w / 0x20_0000 == 0x7C0;
    assert w / 0x40_0000 == 0x3E0 && w % 32 == 30 && w / 32 % 32 == 31 && w / 0x400 % 4 == 3;
    assert w / 0x1000 % 512 == 496;
  }

  lemma PopLinkWord()
    ensures Decode(0xF84107FE) == LoadPost(30, 31, 16)
  {
    var w := 0xF84107FE;
    assert w / 0x400_0000 == 0x3E && w / 0x10_0000 == 0xF84 && w / 0x80_0000 == 0x1F0 && w / 0x20_0000 == 0x7C2;
    assert w / 0x40_0000 == 0x3E1 && w % 32 == 30 && w / 32 % 32 == 31 && w / 0x400 % 4 == 1;
    assert w / 0x1000 % 512 == 16;
  }

  lemma StoreLinkWord()
    ensures Decode(0xF90007FE) == StoreOffset(30, 31, 8)
  {
    var w := 0xF90007FE;
    assert w / 0x400_0000 == 0x3E && w / 0x10_0000 == 0xF90 && w / 0x80_0000 == 0x1F2 && w / 0x20_0000 == 0x7C8;
    assert w / 0x40_0000 == 0x3E4 && w % 32 == 30 && w / 32 % 32 == 31 && w / 0x400 % 0x1000 == 1;
  }

  lemma LoadLinkWord()
    ensures Decode(0xF94007FE) == LoadOffset(30, 31, 8)
  {
    var w := 0xF94007FE;
    assert w / 0x400_0000 == 0x3E && w / 0x10_0000 == 0xF94 && w / 0x80_0000 == 0x1F2 && w / 0x20_0000 == 0x7CA;
    assert w / 0x40_0000 == 0x3E5 && w % 32 == 30 && w / 32 % 32 == 31 && w / 0x400 % 0x1000 == 1;
  }

  lemma TpidrWords()
    ensures Decode(0xD53BD041) == Mrs(TpidrEl0, 1)
    ensures Decode(0xD51BD041) == Msr(TpidrEl0, 1) && Decode(0xD51BD042) == Msr(TpidrEl0, 2)
  {
    assert 0xD53BD041 / 0x400_0000 == 0x35 && 0xD53BD041 / 0x10_0000 == 0xD53;
    assert 0xD51BD041 / 0x400_0000 == 0x35 && 0xD51BD041 / 0x10_0000 == 0xD51;
    assert 0xD51BD042 / 0x400_0000 == 0x35 && 0xD51BD042 / 0x10_0000 == 0xD51;
  }

  lemma HostTpidrWord()
    ensures Decode(0xF9415022) == LoadOffset(2, 1, HostTpidrSlot)
  {
    var w := 0xF9415022;
    assert w / 0x400_0000 == 0x3E && w / 0x10_0000 == 0xF94 && w / 0x80_0000 == 0x1F2 && w / 0x20_0000 == 0x7CA;
    assert w / 0x40_0000 == 0x3E5 && w % 32 == 2 && w / 32 % 32 == 1 && w / 0x400 % 0x1000 == 84;
  }

  lemma HostSpWord()
    ensures Decode(0xF9415423) == LoadOffset(3, 1, HostSpSlot)
  {
    var w := 0xF9415423;
    assert w / 0x400_0000 == 0x3E && w / 0x10_0000 == 0xF94 && w / 0x80_0000 == 0x1F2 && w / 0x20_0000 == 0x7CA;
    assert w / 0x40_0000 == 0x3E5 && w % 32 == 3 && w / 32 % 32 == 1 && w / 0x400 % 0x1000 == 85;
  }

  lemma AddDecodes(w: int)
    requires w / 0x40_0000 == 0x244
    ensures Decode(w) == AddImmediate(w % 32, w / 32 % 32, w / 0x400 % 0x1000)
  {
    assert w / 0x400_0000 == w / 0x40_0000 / 16;
    assert w / 0x80_0000 == w / 0x40_0000 / 2;
    assert w / 0x10_0000 / 4 == w / 0x40_0000;
    assert w / 0x20_0000 / 2 == w / 0x40_0000;
  }

  lemma StackWords()
    ensures Decode(0x910003E2) == AddImmediate(2, 31, 0) && Decode(0x9100007F) == AddImmediate(31, 3, 0)
    ensures Decode(0x9100005F) == AddImmediate(31, 2, 0) && Decode(0x910083FF) == AddImmediate(31, 31, 32)
  {
    AddDecodes(0x910003E2);
    AddDecodes(0x9100007F);
    AddDecodes(0x9100005F);
    AddDecodes(0x910083FF);
  }

  lemma PairWords()
    ensures Decode(0xA9BF0BE1) == StorePairPre(1, 2, 31, -16) && Decode(0xA8C10BE1) == LoadPairPost(1, 2, 31, 16)
  {
    var w := 0xA9BF0BE1;
    assert w / 0x400_0000 == 0x2A && w / 0x10_0000 == 0xA9B && w / 0x80_0000 == 0x153 && w / 0x20_0000 == 0x54D;
    assert w / 0x40_0000 == 0x2A6 && w % 32 == 1 && w / 32 % 32 == 31 && w / 0x400 % 32 == 2 && w / 0x8000 % 128 == 126;
    var v := 0xA8C10BE1;
    assert v / 0x400_0000 == 0x2A && v / 0x10_0000 == 0xA8C && v / 0x80_0000 == 0x151 && v / 0x20_0000 == 0x546;
    assert v / 0x40_0000 == 0x2A3 && v % 32 == 1 && v / 32 % 32 == 31 && v / 0x400 % 32 == 2 && v / 0x8000 % 128 == 2;
  }

  lemma CallWords()
    ensures Decode(0xD63F0040) == CallRegister(2) && Decode(0xD65F03C0) == ReturnTo(30)
  {
    var w := 0xD63F0040;
    assert w / 0x400_0000 == 0x35 && w / 0x10_0000 == 0xD63 && w / 0x80_0000 == 0x1AC && w / 0x20_0000 == 0x6B1;
    assert w / 0x40_0000 == 0x358 && w / 0x400 == 0x35_8FC0 && w % 32 == 0 && w / 32 % 32 == 2;
    var v := 0xD65F03C0;
    assert v / 0x400_0000 == 0x35 && v / 0x10_0000 == 0xD65 && v / 0x80_0000 == 0x1AC && v / 0x20_0000 == 0x6B2;
    assert v / 0x40_0000 == 0x359 && v / 0x400 == 0x35_97C0 && v % 32 == 0 && v / 32 % 32 == 30;
  }

  // ---- the main trampoline

  /** Code that lies in the program at the current position runs. */
  lemma ReachesStraight(patch: seq<int>, now: seq<int>, c: Cpu, code: seq<Instruction>, d: Cpu)
    requires c.Valid() && RunAll(c, code) == Some(d)
    requires forall i :: 0 <= i < |code| ==> Straight(code[i]) && Decode(At(patch, now, c.pc + i)) == code[i]
    ensures Reaches(patch, now, c, d) && d.pc == c.pc + |code|
  {
    hide Decode, At, Step;
    RunStraight(patch, now, c, code, |code|);
    assert Run(patch, now, d, 0) == Some(d);
  }

  lemma {:induction false} RunAllOn(c: Cpu, first: seq<Instruction>, second: seq<Instruction>)
    requires c.Valid() && RunAll(c, first).Some?
    ensures RunAll(c, first + second) == RunAll(RunAll(c, first).value, second)
    decreases |first|
  {
    hide Step;
    if first == [] {
      assert first + second == second;
    } else {
      RunAllOn(Step(c, first[0]).value, first[1..], second);
      assert (first + second)[1..] == first[1..] + second;
    }
  }

  /** The stack pointer that the host keeps for the thread, as far as the state tells. */
  function HostSp(c: Cpu): int { c.memory(c.tpidr + HostSpSlot) }

  function HostTpidr(c: Cpu): int { c.memory(c.tpidr + HostTpidrSlot) }

  function HeadCode(): seq<Instruction> {
    [StoreOffset(30, 31, 8), Mrs(TpidrEl0, 1), LoadOffset(2, 1, HostTpidrSlot), Msr(TpidrEl0, 2)]
    + [AddImmediate(2, 31, 0), LoadOffset(3, 1, HostSpSlot), AddImmediate(31, 3, 0), StorePairPre(1, 2, 31, -16)]
  }

  lemma HeadDecoded(i: nat)
    requires i < |MainHead|
    ensures |MainHead| == |HeadCode()| && Straight(HeadCode()[i]) && Decode(MainHead[i]) == HeadCode()[i]
  {
    LinkWords();
    TpidrWords();
    HostTpidrWord();
    HostSpWord();
    StackWords();
    PairWords();
    hide Decode;
  }

  /** The link register is kept on the guest's stack and the thread pointer register is the host's again. */
  lemma HeadLeavesGuest(c: Cpu) returns (d: Cpu)
    requires c.Valid() && c.sp + 8 != c.tpidr + HostTpidrSlot
    ensures RunAll(c, [StoreOffset(30, 31, 8), Mrs(TpidrEl0, 1), LoadOffset(2, 1, HostTpidrSlot), Msr(TpidrEl0, 2)]) ==
      Some(d)
    ensures d.Valid() && d.x == c.x[1 := c.tpidr][2 := HostTpidr(c)] && d.sp == c.sp && d.tpidr == HostTpidr(c)
    ensures d.memory(c.sp + 8) == c.x[30] && forall a :: a != c.sp + 8 ==> d.memory(a) == c.memory(a)
  {
    hide RunAll;
    var i0, i1, i2, i3 := StoreOffset(30, 31, 8), Mrs(TpidrEl0, 1), LoadOffset(2, 1, HostTpidrSlot), Msr(TpidrEl0, 2);
    var c1 := Step(c, i0).value;
    var c2 := Step(c1, i1).value;
    var c3 := Step(c2, i2).value;
    d := Step(c3, i3).value;
    assert [i0, i1, i2, i3] == [i0] + ([i1] + ([i2] + ([i3] + [])));
    RunAllStep(c, i0, [i1] + ([i2] + ([i3] + [])));
    RunAllStep(c1, i1, [i2] + ([i3] + []));
    RunAllStep(c2, i2, [i3] + []);
    RunAllStep(c3, i3, []);
  }

  /** The stack is the host's, and holds the thread context and the guest's stack pointer. */
  lemma HeadEntersHost(c: Cpu, ctx: int) returns (d: Cpu)
    requires c.Valid() && c.x[1] == ctx
    ensures
      var code := [AddImmediate(2, 31, 0), LoadOffset(3, 1, HostSpSlot), AddImmediate(31, 3, 0),
        StorePairPre(1, 2, 31, -16)];
      RunAll(c, code) == Some(d)
    ensures var host := c.memory(ctx + HostSpSlot);
      && d.Valid() && d.x == c.x[2 := c.sp][3 := host] && d.sp == host - 16 && d.tpidr == c.tpidr
      && d.memory(host - 16) == ctx && d.memory(host - 8) == c.sp
      && forall a :: a != host - 16 && a != host - 8 ==> d.memory(a) == c.memory(a)
  {
    hide RunAll;
    var i0, i1, i2 := AddImmediate(2, 31, 0), LoadOffset(3, 1, HostSpSlot), AddImmediate(31, 3, 0);
    var i3 := StorePairPre(1, 2, 31, -16);
    var c1 := Step(c, i0).value;
    var c2 := Step(c1, i1).value;
    var c3 := Step(c2, i2).value;
    d := Step(c3, i3).value;
    assert [i0, i1, i2, i3] == [i0] + ([i1] + ([i2] + ([i3] + [])));
    RunAllStep(c, i0, [i1] + ([i2] + ([i3] + [])));
    RunAllStep(c1, i1, [i2] + ([i3] + []));
    RunAllStep(c2, i2, [i3] + []);
    RunAllStep(c3, i3, []);
  }

  /** The words that are not zero, of the first k that load a value into a register. */
  function Loading(register: int, value: int, k: nat): seq<int>
    requires k <= 4
  {
    NonZero(LoadSequence(register, value, 4)[..k])
  }

  lemma LoadingMore(register: int, value: int, k: nat)
    requires 0 < k <= 4
    ensures Loading(register, value, k) ==
      Loading(register, value, k - 1) + if MoveAt(register, value, k - 1) == 0 then []
        else [MoveAt(register, value, k - 1)]
  {
    hide MoveAt;
    var words := LoadSequence(register, value, 4);
    assert words[..k][..k - 1] == words[..k - 1] && words[..k][k - 1] == MoveAt(register, value, k - 1);
  }

  lemma LowNothing(value: int)
    ensures Low(value, 0) == 0
  {
  }

  /** One of the words, where the half words below it are loaded. */
  lemma MoveRuns(patch: seq<int>, now: seq<int>, c: Cpu, register: int, value: int, i: int)
    requires c.Valid() && 0 <= register < 31 && 0 <= value && 0 <= i < 4
    requires At(patch, now, c.pc) == MoveAt(register, value, i) != 0
    requires Low(value, i) != 0 ==> c.x[register] == Low(value, i)
    ensures Reaches(patch, now, c, c.Set(register, Low(value, i + 1)).(pc := c.pc + 1))
  {
    hide Decode, At, Reaches, Low, Half, Shift, EncodeMovz, EncodeMovk, Step;
    LowStep(value, i);
    MovzRoundTrip(register, Half(value, i), i);
    MovkRoundTrip(register, Half(value, i), i);
    var move := if Low(value, i) == 0 then Movz(register, Half(value, i), i) else Movk(register, Half(value, i), i);
    MoveSteps(c, move, register);
    assert MoveWide(move, c.Get(register)) == Low(value, i + 1);
    ReachesNext(patch, now, c, move, c.Set(register, Low(value, i + 1)).Next());
  }

  /** They load what executing all of them would. */
  lemma {:induction false} LoadingRuns(patch: seq<int>, now: seq<int>, c: Cpu, register: int, value: int, k: nat)
    requires c.Valid() && 0 <= register < 31 && 0 <= value && k <= 4
    requires forall i :: 0 <= i < |Loading(register, value, k)| ==>
      At(patch, now, c.pc + i) == Loading(register, value, k)[i]
    ensures Reaches(patch, now, c,
      c.Set(register, if Low(value, k) != 0 then Low(value, k) else c.x[register])
       .(pc := c.pc + |Loading(register, value, k)|))
  {
    hide Decode, At, Reaches, Low, Half, Shift, EncodeMovz, EncodeMovk, MoveWide, Step;
    if k == 0 {
      LowNothing(value);
      assert c.x[register := c.x[register]] == c.x;
      ReachesItself(patch, now, c);
    } else {
      var before, word := Loading(register, value, k - 1), MoveAt(register, value, k - 1);
      LoadingMore(register, value, k);
      assert forall i :: 0 <= i < |before| ==> before[i] == Loading(register, value, k)[i];
      LoadingRuns(patch, now, c, register, value, k - 1);
      LowStep(value, k - 1);
      MoveAtIsWord(register, value, k - 1);
      var held := if Low(value, k - 1) != 0 then Low(value, k - 1) else c.x[register];
      var d := c.Set(register, held).(pc := c.pc + |before|);
      if word != 0 {
        assert Loading(register, value, k)[|before|] == word;
        MoveRuns(patch, now, d, register, value, k - 1);
        var e := d.Set(register, Low(value, k)).(pc := d.pc + 1);
        assert e.x == c.x[register := Low(value, k)];
        ReachesOn(patch, now, c, d, e);
      }
    }
  }

  /** Where the call of the handler lies in the main trampoline. */
  function CallAt(host: Host): int { |MainHead| + |Loading(2, host.svcHandler, 4)| }

  lemma MainParts(host: Host, i: nat)
    requires i < CallAt(host) + |MainTail|
    ensures |MainTrampoline(host)| == CallAt(host) + |MainTail|
    ensures MainTrampoline(host)[i] ==
      if i < |MainHead| then MainHead[i]
      else if i < CallAt(host) then Loading(2, host.svcHandler, 4)[i - |MainHead|] else MainTail[i - CallAt(host)]
  {
    hide NonZero;
    assert LoadSequence(2, host.svcHandler, 4)[..4] == LoadSequence(2, host.svcHandler, 4);
  }

  lemma MainLies(host: Host, patch: seq<int>, now: seq<int>, m: int, i: nat)
    requires Lies(patch, m, MainTrampoline(host)) && i < |MainTrampoline(host)|
    ensures At(patch, now, m + i) == MainTrampoline(host)[i]
  {
    hide MainTrampoline;
    assert patch[m + i] == patch[m..m + |MainTrampoline(host)|][i];
  }

  /** The main trampoline comes to call the handler: at its address, with what W0 asked for, the thread context in X1,
      on the host's stack and with the host's thread pointer. */
  lemma MainAsks(host: Host, patch: seq<int>, now: seq<int>, m: int, c: Cpu) returns (asked: Cpu)
    requires host.Valid() && Lies(patch, m, MainTrampoline(host)) && c.Valid() && c.pc == m
    requires c.sp + 8 != c.tpidr + HostTpidrSlot && c.sp + 8 != c.tpidr + HostSpSlot
    ensures asked.Valid() && Reaches(patch, now, c, asked) && asked.pc == m + CallAt(host)
    ensures Decode(At(patch, now, asked.pc)) == CallRegister(2)
    ensures asked.x == c.x[1 := c.tpidr][2 := host.svcHandler][3 := HostSp(c)]
    ensures asked.sp == HostSp(c) - 16 && asked.tpidr == HostTpidr(c)
    ensures asked.memory(HostSp(c) - 16) == c.tpidr && asked.memory(HostSp(c) - 8) == c.sp
    ensures c.sp + 8 != HostSp(c) - 16 && c.sp + 8 != HostSp(c) - 8 ==> asked.memory(c.sp + 8) == c.x[30]
    ensures forall a :: a != c.sp + 8 && a != HostSp(c) - 16 && a != HostSp(c) - 8 ==> asked.memory(a) == c.memory(a)
  {
    hide Decode, At, Reaches, MainTrampoline, Step, RunAll, Loading, Lies, Low;
    var d := HeadRuns(host, patch, now, m, c);
    forall i | 0 <= i < |Loading(2, host.svcHandler, 4)|
      ensures At(patch, now, d.pc + i) == Loading(2, host.svcHandler, 4)[i]
    {
      MainParts(host, |MainHead| + i);
      MainLies(host, patch, now, m, |MainHead| + i);
    }
    LoadingRuns(patch, now, d, 2, host.svcHandler, 4);
    WholeValue(host.svcHandler);
    asked := d.Set(2, host.svcHandler).(pc := d.pc + |Loading(2, host.svcHandler, 4)|);
    ReachesOn(patch, now, c, d, asked);
    MainParts(host, CallAt(host));
    MainLies(host, patch, now, m, CallAt(host));
    CallWords();
  }

  lemma WholeValue(value: int)
    requires 0 < value < Shift(4)
    ensures Low(value, 4) == value
  {
  }

  lemma HeadRuns(host: Host, patch: seq<int>, now: seq<int>, m: int, c: Cpu) returns (d: Cpu)
    requires host.Valid() && Lies(patch, m, MainTrampoline(host)) && c.Valid() && c.pc == m
    requires c.sp + 8 != c.tpidr + HostTpidrSlot && c.sp + 8 != c.tpidr + HostSpSlot
    ensures d.Valid() && Reaches(patch, now, c, d) && d.pc == m + |MainHead|
    ensures d.x == c.x[1 := c.tpidr][2 := c.sp][3 := HostSp(c)]
    ensures d.sp == HostSp(c) - 16 && d.tpidr == HostTpidr(c)
    ensures d.memory(HostSp(c) - 16) == c.tpidr && d.memory(HostSp(c) - 8) == c.sp
    ensures c.sp + 8 != HostSp(c) - 16 && c.sp + 8 != HostSp(c) - 8 ==> d.memory(c.sp + 8) == c.x[30]
    ensures forall a :: a != c.sp + 8 && a != HostSp(c) - 16 && a != HostSp(c) - 8 ==> d.memory(a) == c.memory(a)
  {
    hide Decode, At, Reaches, MainTrampoline, Step, RunAll, Lies, Loading;
    var left := HeadLeavesGuest(c);
    d := HeadEntersHost(left, c.tpidr);
    RunAllOn(c, HeadCode()[..4], HeadCode()[4..]);
    assert HeadCode()[..4] + HeadCode()[4..] == HeadCode();
    forall i | 0 <= i < |HeadCode()|
      ensures Straight(HeadCode()[i]) && Decode(At(patch, now, c.pc + i)) == HeadCode()[i]
    {
      MainParts(host, i);
      MainLies(host, patch, now, m, i);
      HeadDecoded(i);
    }
    ReachesStraight(patch, now, c, HeadCode(), d);
  }

  function TailCode(): seq<Instruction> {
    [LoadPairPost(1, 2, 31, 16), Msr(TpidrEl0, 1), AddImmediate(31, 2, 0), LoadOffset(30, 31, 8)]
  }

  lemma TailDecoded(i: nat)
    requires i < |TailCode()|
    ensures |MainTail| == 6 && Straight(TailCode()[i]) && Decode(MainTail[i + 1]) == TailCode()[i]
    ensures Decode(MainTail[5]) == ReturnTo(30)
  {
    LinkWords();
    TpidrWords();
    StackWords();
    PairWords();
    CallWords();
    hide Decode;
  }

  lemma TailRuns(c: Cpu, ctx: int, sp: int, link: int)
    requires c.Valid() && c.memory(c.sp) == ctx && c.memory(c.sp + 8) == sp && c.memory(sp + 8) == link
    ensures RunAll(c, TailCode()) ==
      Some(c.(x := c.x[1 := ctx][2 := sp][30 := link], tpidr := ctx, sp := sp, pc := c.pc + 4))
  {
    hide RunAll;
    var i0, i1, i2, i3 := LoadPairPost(1, 2, 31, 16), Msr(TpidrEl0, 1), AddImmediate(31, 2, 0), LoadOffset(30, 31, 8);
    var c1 := Step(c, i0).value;
    var c2 := Step(c1, i1).value;
    var c3 := Step(c2, i2).value;
    var c4 := Step(c3, i3).value;
    assert [i0, i1, i2, i3] == [i0] + ([i1] + ([i2] + ([i3] + [])));
    RunAllStep(c, i0, [i1] + ([i2] + ([i3] + [])));
    RunAllStep(c1, i1, [i2] + ([i3] + []));
    RunAllStep(c2, i2, [i3] + []);
    RunAllStep(c3, i3, []);
  }

  /** Behind the call of the handler, the main trampoline goes back to the guest's stack and thread context and to
      where it was called from. */
  lemma MainReturns(host: Host, patch: seq<int>, now: seq<int>, m: int, c: Cpu, ctx: int, sp: int, link: int)
    requires host.Valid() && Lies(patch, m, MainTrampoline(host)) && c.Valid() && c.pc == m + CallAt(host) + 1
    requires c.memory(c.sp) == ctx && c.memory(c.sp + 8) == sp && c.memory(sp + 8) == link
    ensures Reaches(patch, now, c,
      c.(x := c.x[1 := ctx][2 := sp][30 := link], tpidr := ctx, sp := sp, pc := link))
  {
    hide Decode, At, Reaches, MainTrampoline, Step, RunAll, Lies, Loading;
    TailRuns(c, ctx, sp, link);
    var d := c.(x := c.x[1 := ctx][2 := sp][30 := link], tpidr := ctx, sp := sp, pc := c.pc + 4);
    TailDecoded(0);
    forall i | 0 <= i < |TailCode()|
      ensures Straight(TailCode()[i]) && Decode(At(patch, now, c.pc + i)) == TailCode()[i]
    {
      MainParts(host, CallAt(host) + 1 + i);
      MainLies(host, patch, now, m, CallAt(host) + 1 + i);
      TailDecoded(i);
    }
    ReachesStraight(patch, now, c, TailCode(), d);
    MainParts(host, CallAt(host) + 5);
    MainLies(host, patch, now, m, CallAt(host) + 5);
    ReturnSteps(d);
    ReachesNext(patch, now, d, ReturnTo(30), d.(pc := link));
    ReachesOn(patch, now, c, d, d.(pc := link));
  }

  lemma ReturnSteps(c: Cpu)
    requires c.Valid()
    ensures Step(c, ReturnTo(30)) == Some(c.(pc := c.x[30]))
  {
  }

  // ---- a system call

  /** A patched program in which the word at text position o, a system call, has its trampoline at start. */
  ghost predicate SvcPatched(host: Host, w: int, o: nat, start: nat, patch: seq<int>, now: seq<int>) {
    IsSvc(w) && GoesThrough(host, w, o, start, patch, now) && CallsShared(host, start, patch, now)
  }

  /** Where the branch at a position goes. */
  function Place(patch: seq<int>, now: seq<int>, position: int): int {
    Target(position, At(patch, now, position))
  }

  function SvcCode(w: int, i: nat): Instruction {
    if i == 0 then StorePre(30, 31, -16) else if i == 2 then Movz(0, SvcValue(w), 0) else LoadPost(30, 31, 16)
  }

  lemma SvcWords(host: Host, w: int, o: nat, start: nat, patch: seq<int>, now: seq<int>)
    requires SvcPatched(host, w, o, start, patch, now)
    ensures IsBranch(At(patch, now, |patch| + o), false) && Place(patch, now, |patch| + o) == start
    ensures Decode(At(patch, now, start)) == SvcCode(w, 0) && IsBranch(At(patch, now, start + 1), true)
    ensures Decode(At(patch, now, start + 2)) == SvcCode(w, 2) && IsBranch(At(patch, now, start + 3), true)
    ensures IsBranch(At(patch, now, start + 4), true) && Decode(At(patch, now, start + 5)) == SvcCode(w, 5)
    ensures IsBranch(At(patch, now, start + 6), false) && Place(patch, now, start + 6) == |patch| + o + 1
    ensures Lies(patch, Place(patch, now, start + 1), host.saveCtx)
    ensures Lies(patch, Place(patch, now, start + 3), MainTrampoline(host))
    ensures Lies(patch, Place(patch, now, start + 4), host.loadCtx)
  {
    hide Decode, At, IsBranch, Target, Lies, MainTrampoline, GoesThrough, EncodeB, EncodeBL, EncodeMovz, SvcValue;
    SvcHasTrampoline(host, w);
    GoesThroughDetour(host, w, o, start, patch, now);
    LinkWords();
    SvcNumber(w);
    MovzShortRoundTrip(0, SvcValue(w), 0);
    var words := Trampoline(host, w, start, |patch|, o);
    assert At(patch, now, start + 0) == words[0] && At(patch, now, start + 2) == words[2];
    assert At(patch, now, start + 5) == words[5] && At(patch, now, start + 6) == words[6];
  }

  lemma SvcNumber(w: int)
    ensures 0 <= SvcValue(w) < 0x1_0000
  {
  }

  /** At the entry of the code that saves the context: the link register is on the guest's stack. */
  function Entering(c: Cpu, start: nat, place: int): Cpu
    requires c.Valid()
  {
    c.Poke(c.sp - 16, c.x[30]).(x := c.x[30 := start + 2], sp := c.sp - 16, pc := place)
  }

  lemma SvcEnters(host: Host, w: int, o: nat, start: nat, patch: seq<int>, now: seq<int>, c: Cpu)
    requires SvcPatched(host, w, o, start, patch, now) && c.Valid() && c.pc == |patch| + o
    ensures Reaches(patch, now, c, Entering(c, start, Place(patch, now, start + 1)))
  {
    hide Decode, At, IsBranch, Reaches, SvcPatched, Target, Lies;
    SvcWords(host, w, o, start, patch, now);
    var c1 := c.(pc := start);
    BranchSteps(c, At(patch, now, c.pc));
    ReachesNext(patch, now, c, Decode(At(patch, now, c.pc)), c1);
    var c2 := c1.Poke(c.sp - 16, c.x[30]).(sp := c.sp - 16).Next();
    ReachesNext(patch, now, c1, SvcCode(w, 0), c2);
    ReachesOn(patch, now, c, c1, c2);
    LinkSteps(c2, At(patch, now, c2.pc));
    var c3 := Entering(c, start, Place(patch, now, start + 1));
    ReachesNext(patch, now, c2, Decode(At(patch, now, c2.pc)), c3);
    ReachesOn(patch, now, c, c2, c3);
  }

  lemma LinkSteps(c: Cpu, w: int)
    requires c.Valid() && IsBranch(w, true)
    ensures Step(c, Decode(w)) == Some(c.(x := c.x[30 := c.pc + 1], pc := Target(c.pc, w)))
  {
    hide Decode;
  }

  /** With the context saved, the main trampoline is called with the number of the system call. */
  lemma SvcCallsMain(host: Host, w: int, o: nat, start: nat, patch: seq<int>, now: seq<int>, c: Cpu)
    requires SvcPatched(host, w, o, start, patch, now) && c.Valid() && c.pc == start + 2
    ensures Reaches(patch, now, c,
      c.(x := c.x[0 := SvcValue(w)][30 := start + 4], pc := Place(patch, now, start + 3)))
  {
    hide Decode, At, IsBranch, Reaches, SvcPatched, Target, Lies, SvcValue;
    SvcWords(host, w, o, start, patch, now);
    var c1 := c.(x := c.x[0 := SvcValue(w)]).Next();
    ReachesNext(patch, now, c, SvcCode(w, 2), c1);
    LinkSteps(c1, At(patch, now, c1.pc));
    var c2 := c.(x := c.x[0 := SvcValue(w)][30 := start + 4], pc := Place(patch, now, start + 3));
    ReachesNext(patch, now, c1, Decode(At(patch, now, c1.pc)), c2);
    ReachesOn(patch, now, c, c1, c2);
  }

  lemma SvcLoads(host: Host, w: int, o: nat, start: nat, patch: seq<int>, now: seq<int>, c: Cpu)
    requires SvcPatched(host, w, o, start, patch, now) && c.Valid() && c.pc == start + 4
    ensures Reaches(patch, now, c, c.(x := c.x[30 := start + 5], pc := Place(patch, now, start + 4)))
  {
    hide Decode, At, IsBranch, Reaches, SvcPatched, Target, Lies;
    SvcWords(host, w, o, start, patch, now);
    LinkSteps(c, At(patch, now, c.pc));
    ReachesNext(patch, now, c, Decode(At(patch, now, c.pc)),
                c.(x := c.x[30 := start + 5], pc := Place(patch, now, start + 4)));
  }

  /** The link register comes back from the guest's stack, and the guest goes on behind the system call. */
  lemma SvcLeaves(host: Host, w: int, o: nat, start: nat, patch: seq<int>, now: seq<int>, c: Cpu)
    requires SvcPatched(host, w, o, start, patch, now) && c.Valid() && c.pc == start + 5
    ensures Reaches(patch, now, c, c.(x := c.x[30 := c.memory(c.sp)], sp := c.sp + 16, pc := |patch| + o + 1))
  {
    hide Decode, At, IsBranch, Reaches, SvcPatched, Target, Lies;
    SvcWords(host, w, o, start, patch, now);
    var c1 := c.(x := c.x[30 := c.memory(c.sp)], sp := c.sp + 16).Next();
    ReachesNext(patch, now, c, SvcCode(w, 5), c1);
    BranchSteps(c1, At(patch, now, c1.pc));
    ReachesNext(patch, now, c1, Decode(At(patch, now, c1.pc)), c1.(pc := |patch| + o + 1));
    ReachesOn(patch, now, c, c1, c1.(pc := |patch| + o + 1));
  }

  /** Registers in the range are the same. */
  ghost predicate Agree(a: Cpu, b: Cpu, from: int, to: int)
    requires a.Valid() && b.Valid() && 0 <= from <= to <= 31
  {
    forall i :: from <= i < to ==> a.x[i] == b.x[i]
  }

  /** The address is in the thread context. */
  predicate InContext(ctx: int, a: int) { ctx <= a < ctx + ContextSize }

  /** The code that saves the context: X0 to X18 go to the thread context, X2 and up survive, memory elsewhere changes
      at most in the cell below the link register on the stack. */
  ghost predicate Saves(b: Cpu, a: Cpu) {
    && b.Valid() && a.Valid() && a.pc == b.x[30] && a.sp == b.sp && a.tpidr == b.tpidr && Agree(a, b, 2, 31)
    && (forall i :: 0 <= i < SavedRegisters ==> a.memory(b.tpidr + 8 * i) == b.x[i])
    && HostSp(a) == HostSp(b) && HostTpidr(a) == HostTpidr(b)
    && forall address :: !InContext(b.tpidr, address) && address != b.sp + 8 ==> a.memory(address) == b.memory(address)
  }

  /** The code that loads it: X0 to X18 come from the thread context, everything else as before. */
  ghost predicate Loads(b: Cpu, a: Cpu) {
    && b.Valid() && a.Valid() && a.pc == b.x[30] && a.sp == b.sp && a.tpidr == b.tpidr
    && Agree(a, b, SavedRegisters, 31)
    && (forall i :: 0 <= i < SavedRegisters ==> a.x[i] == b.memory(b.tpidr + 8 * i))
    && forall address :: !InContext(b.tpidr, address) && address != b.sp + 8 ==> a.memory(address) == b.memory(address)
  }

  /** The handler: it returns behind its call with the registers that a callee preserves, and leaves the cells alone
      that the trampolines have put on the two stacks. */
  ghost predicate Serves(b: Cpu, a: Cpu, guestSp: int) {
    && b.Valid() && a.Valid() && a.pc == b.pc + 1 && a.sp == b.sp && a.tpidr == b.tpidr
    && Agree(a, b, SavedRegisters, 30)
    && a.memory(b.sp) == b.memory(b.sp) && a.memory(b.sp + 8) == b.memory(b.sp + 8)
    && a.memory(guestSp - 16) == b.memory(guestSp - 16) && a.memory(guestSp - 8) == b.memory(guestSp - 8)
  }

  /** The cells that the trampolines use on either stack are apart from each other and from the thread context. */
  ghost predicate Separate(c: Cpu) {
    && !InContext(c.tpidr, c.sp - 16) && c.sp - 16 != HostSp(c) - 16 && c.sp - 16 != HostSp(c) - 8
    && !InContext(c.tpidr, c.sp - 8) && c.sp - 8 != HostSp(c) - 16 && c.sp - 8 != HostSp(c) - 8
    && !InContext(c.tpidr, HostSp(c) - 16) && !InContext(c.tpidr, HostSp(c) - 8)
  }

  /** What the trampolines have put aside of the guest's state while the handler runs. */
  ghost predicate PutAside(c: Cpu, start: nat, b: Cpu) {
    && c.Valid() && b.Valid() && b.sp == HostSp(c) - 16 && Agree(b, c, SavedRegisters, 30)
    && b.memory(b.sp) == c.tpidr && b.memory(b.sp + 8) == c.sp - 16
    && b.memory(c.sp - 16) == c.x[30] && b.memory(c.sp - 8) == start + 4
  }

  /** Every patched system call comes to the handler of the host: its number is in X0, the thread context in X1 and
      holds the guest's X0 to X18, and stack and thread pointer are the host's. */
  lemma SvcAsks(host: Host, w: int, o: nat, start: nat, patch: seq<int>, now: seq<int>, c: Cpu, saved: Cpu)
    returns (asked: Cpu)
    requires SvcPatched(host, w, o, start, patch, now) && host.Valid() && c.Valid() && c.pc == |patch| + o
    requires Separate(c)
    requires Saves(Entering(c, start, Place(patch, now, start + 1)), saved)
    ensures Reaches(patch, now, c, Entering(c, start, Place(patch, now, start + 1)))
    ensures asked.Valid() && Reaches(patch, now, saved, asked)
    ensures Decode(At(patch, now, asked.pc)) == CallRegister(2) && asked.x[2] == host.svcHandler
    ensures asked.pc == Place(patch, now, start + 3) + CallAt(host)
    ensures asked.x[0] == SvcValue(w) && asked.x[1] == c.tpidr && asked.tpidr == HostTpidr(c)
    ensures forall i :: 0 <= i < SavedRegisters ==> asked.memory(c.tpidr + 8 * i) == c.x[i]
    ensures PutAside(c, start, asked)
  {
    hide Decode, At, IsBranch, Reaches, SvcPatched, Target, SvcValue, MainTrampoline, CallAt, Host.Valid, Lies;
    hide PutAside;
    SvcEnters(host, w, o, start, patch, now, c);
    SvcWords(host, w, o, start, patch, now);
    SvcCallsMain(host, w, o, start, patch, now, saved);
    var called := saved.(x := saved.x[0 := SvcValue(w)][30 := start + 4], pc := Place(patch, now, start + 3));
    asked := MainAsks(host, patch, now, Place(patch, now, start + 3), called);
    ReachesOn(patch, now, saved, called, asked);
    AskedIs(c, start, Entering(c, start, Place(patch, now, start + 1)), saved, asked);
  }

  lemma AskedIs(c: Cpu, start: nat, entering: Cpu, saved: Cpu, asked: Cpu)
    requires c.Valid() && Separate(c) && entering == Entering(c, start, entering.pc) && Saves(entering, saved)
    requires asked.Valid() && Agree(asked, saved, 4, 30)
    requires asked.sp == HostSp(saved) - 16 && asked.tpidr == HostTpidr(saved)
    requires asked.memory(HostSp(saved) - 16) == saved.tpidr && asked.memory(HostSp(saved) - 8) == saved.sp
    requires saved.sp + 8 != HostSp(saved) - 16 && saved.sp + 8 != HostSp(saved) - 8 ==>
      asked.memory(saved.sp + 8) == start + 4
    requires forall a :: a != saved.sp + 8 && a != HostSp(saved) - 16 && a != HostSp(saved) - 8 ==>
      asked.memory(a) == saved.memory(a)
    ensures HostSp(saved) == HostSp(c) && asked.tpidr == HostTpidr(c) && PutAside(c, start, asked)
    ensures forall i :: 0 <= i < SavedRegisters ==> asked.memory(c.tpidr + 8 * i) == c.x[i]
  {
    assert HostSp(entering) == HostSp(c) && HostTpidr(entering) == HostTpidr(c);
    forall i | 0 <= i < SavedRegisters ensures asked.memory(c.tpidr + 8 * i) == c.x[i] {
      assert InContext(c.tpidr, c.tpidr + 8 * i);
      assert saved.memory(entering.tpidr + 8 * i) == entering.x[i] == c.x[i];
    }
  }

  /** Behind the call of the handler. */
  function Restoring(c: Cpu, start: nat, served: Cpu, place: int): Cpu
    requires c.Valid() && served.Valid()
  {
    served.(x := served.x[1 := c.tpidr][2 := c.sp - 16][30 := start + 5], tpidr := c.tpidr, sp := c.sp - 16,
      pc := place)
  }

  /** When the handler has returned, the guest goes on behind the system call with X0 to X18 as the handler left them in
      the thread context, and everything else of it as it was. */
  lemma SvcReturns(host: Host, w: int, o: nat, start: nat, patch: seq<int>, now: seq<int>, c: Cpu, served: Cpu,
                   loaded: Cpu) returns (done: Cpu)
    requires SvcPatched(host, w, o, start, patch, now) && host.Valid() && Separate(c) && PutAside(c, start, served)
    requires served.pc == Place(patch, now, start + 3) + CallAt(host) + 1
    requires Loads(Restoring(c, start, served, Place(patch, now, start + 4)), loaded)
    ensures Reaches(patch, now, served, Restoring(c, start, served, Place(patch, now, start + 4)))
    ensures Reaches(patch, now, loaded, done) && done.Valid() && done.pc == |patch| + o + 1
    ensures done.sp == c.sp && done.tpidr == c.tpidr && Agree(done, c, SavedRegisters, 31)
    ensures forall i :: 0 <= i < SavedRegisters ==> done.x[i] == served.memory(c.tpidr + 8 * i)
  {
    hide Decode, At, IsBranch, Reaches, SvcPatched, Target, MainTrampoline, CallAt, Host.Valid, Lies;
    SvcWords(host, w, o, start, patch, now);
    MainReturns(host, patch, now, Place(patch, now, start + 3), served, c.tpidr, c.sp - 16, start + 4);
    var back := served.(x := served.x[1 := c.tpidr][2 := c.sp - 16][30 := start + 4], tpidr := c.tpidr, sp := c.sp - 16,
                        pc := start + 4);
    SvcLoads(host, w, o, start, patch, now, back);
    var restoring := Restoring(c, start, served, Place(patch, now, start + 4));
    assert back.x[30 := start + 5] == restoring.x;
    ReachesOn(patch, now, served, back, restoring);
    SvcLeaves(host, w, o, start, patch, now, loaded);
    done := loaded.(x := loaded.x[30 := loaded.memory(loaded.sp)], sp := loaded.sp + 16, pc := |patch| + o + 1);
  }

  /** What is put aside while the handler is asked is still aside when it returns. */
  lemma StillAside(c: Cpu, start: nat, asked: Cpu, served: Cpu)
    requires PutAside(c, start, asked) && Serves(asked, served, c.sp)
    ensures PutAside(c, start, served)
  {
  }

  // ---- reads of the counter

  /** Where the counter of the host runs at the guest's frequency, a read of the physical counter is one of the virtual
      counter into the same register. */
  lemma CounterReplaced(host: Host, w: int, o: nat, start: nat, patch: seq<int>, now: seq<int>)
    requires !host.rescale && ClockLoad(w, CntpctEl0) && GoesThrough(host, w, o, start, patch, now)
    ensures Decode(At(patch, now, |patch| + o)) == Mrs(CntvctEl0, Register(w))
  {
    hide Decode, At, EncodeB;
    MrsRoundTrip(CntvctEl0, Register(w));
  }

  /** The code that rescales the counter: the value is at the stack pointer, which is 32 bytes lower. */
  ghost predicate Rescales(b: Cpu, a: Cpu, value: int) {
    && b.Valid() && a.Valid() && a.pc == b.pc + RescaleClockSize && a.x == b.x && a.sp == b.sp - 32 &&
      a.tpidr == b.tpidr
    && a.memory(a.sp) == value
    && forall address :: !(b.sp - 32 <= address < b.sp) ==> a.memory(address) == b.memory(address)
  }

  lemma LoadResultWord(r: int)
    requires 0 <= r < 32
    ensures Decode(0xF94003E0 + r) == LoadOffset(r, 31, 0)
  {
    var w := 0xF94003E0 + r;
    assert w / 32 == 0xF94003E0 / 32 && w % 32 == r;
    assert w / 0x400_0000 == 0x3E && w / 0x10_0000 == 0xF94 && w / 0x80_0000 == 0x1F2 && w / 0x20_0000 == 0x7CA;
    assert w / 0x40_0000 == 0x3E5 && w / 32 % 32 == 31 && w / 0x400 % 0x1000 == 0;
  }

  lemma CounterWords(host: Host, w: int, o: nat, start: nat, patch: seq<int>, now: seq<int>)
    requires host.Valid() && host.rescale && ClockLoad(w, CntpctEl0) && GoesThrough(host, w, o, start, patch, now)
    ensures IsBranch(At(patch, now, |patch| + o), false) && Place(patch, now, |patch| + o) == start
    ensures Lies(patch, start, host.rescaleClock)
    ensures Decode(At(patch, now, start + RescaleClockSize)) == LoadOffset(Register(w), 31, 0)
    ensures Decode(At(patch, now, start + RescaleClockSize + 1)) == AddImmediate(31, 31, 32)
    ensures IsBranch(At(patch, now, start + RescaleClockSize + 2), false)
    ensures Place(patch, now, start + RescaleClockSize + 2) == |patch| + o + 1
  {
    hide Decode, At, IsBranch, Target, EncodeB;
    GoesThroughDetour(host, w, o, start, patch, now);
    LoadResultWord(Register(w));
    StackWords();
    var words := Trampoline(host, w, start, |patch|, o);
    assert At(patch, now, start + RescaleClockSize) == words[RescaleClockSize];
    assert At(patch, now, start + (RescaleClockSize + 1)) == words[RescaleClockSize + 1];
    assert At(patch, now, start + (RescaleClockSize + 2)) == words[RescaleClockSize + 2];
    assert patch[start..start + RescaleClockSize] == words[..RescaleClockSize] == host.rescaleClock;
  }

  /** Where it runs at another frequency, a patched read of the counter yields the rescaled one and changes nothing else
      above the stack pointer. */
  lemma CounterEmulated(host: Host, w: int, o: nat, start: nat, patch: seq<int>, now: seq<int>, c: Cpu, rescaled: Cpu,
                        value: int) returns (done: Cpu)
    requires host.Valid() && host.rescale && ClockLoad(w, CntpctEl0) && GoesThrough(host, w, o, start, patch, now)
    requires c.Valid() && c.pc == |patch| + o && Rescales(c.(pc := start), rescaled, value)
    ensures Reaches(patch, now, c, c.(pc := start)) && Lies(patch, start, host.rescaleClock)
    ensures Reaches(patch, now, rescaled, done) && done.pc == c.pc + 1 && done.sp == c.sp && done.tpidr == c.tpidr
    ensures done.x == c.Set(Register(w), value).x
    ensures forall address :: !(c.sp - 32 <= address < c.sp) ==> done.memory(address) == c.memory(address)
  {
    hide Decode, At, IsBranch, Target, Reaches, GoesThrough, Lies;
    CounterWords(host, w, o, start, patch, now);
    BranchSteps(c, At(patch, now, c.pc));
    ReachesNext(patch, now, c, Decode(At(patch, now, c.pc)), c.(pc := start));
    var c1 := rescaled.Set(Register(w), value).Next();
    ReachesNext(patch, now, rescaled, LoadOffset(Register(w), 31, 0), c1);
    var c2 := c1.(sp := c.sp).Next();
    ReachesNext(patch, now, c1, AddImmediate(31, 31, 32), c2);
    ReachesOn(patch, now, rescaled, c1, c2);
    BranchSteps(c2, At(patch, now, c2.pc));
    done := c2.(pc := c.pc + 1);
    ReachesNext(patch, now, c2, Decode(At(patch, now, c2.pc)), done);
    ReachesOn(patch, now, rescaled, c2, done);
  }

  const Magic: int := 30787 + 29108 * 0x1_0000 + 23236 * 0x1_0000_0000 + 2684 * 0x1_0000_0000_0000

  /** An unsigned division, which yields zero for the divisor zero. */
  function Udiv(x: int, y: int): int { if y == 0 then 0 else x / y }

  /** The arithmetic of that code: division of the frequency by a multiplication, then the count in units of 10
      microseconds, then 192 ticks for each. */
  function Rescaled(count: int, frequency: int): int {
    var units := Udiv(count, frequency / 32 * Magic / 0x1_0000_0000_0000_0000 / 128);
    (units + units * 2) * 64
  }

  /** The multiplication divides every 64-bit frequency by 100000 exactly. */
  lemma MagicDivides(frequency: int)
    requires 0 <= frequency < 0x1_0000_0000_0000_0000
    ensures frequency / 32 * Magic / 0x1_0000_0000_0000_0000 / 128 == frequency / 100000
  {
    var n := frequency / 32;
    var q, r := n / 3125, n % 3125;
    var power := 0x80_0000_0000_0000_0000; // 2^71
    assert 3125 * Magic == power + 2527;
    assert n * Magic == q * power + (2527 * q + r * Magic);
    assert 0 <= 2527 * q + r * Magic < power;
    assert n * Magic / power == q;
    assert n * Magic / 0x1_0000_0000_0000_0000 / 128 == n * Magic / power;
    assert frequency / 100000 == q;
  }

  /** The rescaled count is that of a counter at the guest's frequency, less than 192 ticks late, if the host counts at
      its frequency rounded down to 100 kHz. */
  lemma RescaledCounts(count: nat, frequency: int)
    requires 100000 <= frequency < 0x1_0000_0000_0000_0000
    ensures var r, rounded := Rescaled(count, frequency), frequency / 100000 * 100000;
      r * rounded <= count * TegraX1Freq < (r + 192) * rounded
  {
    MagicDivides(frequency);
    RescaledUnits(count, frequency / 100000);
  }

  /** The rescaled count is on time, which is never early and less than 192 ticks late, for every count if and only if
      the frequency is a multiple of 100 kHz. */
  lemma RescaledOnTime(frequency: int)
    requires 0 < frequency < 0x1_0000_0000_0000_0000
    ensures (forall count: nat :: OnTime(Rescaled(count, frequency), count, frequency)) <==> frequency % 100000 == 0
  {
    hide Rescaled;
    var unit := frequency / 100000;
    if frequency % 100000 == 0 {
      forall count: nat ensures OnTime(Rescaled(count, frequency), count, frequency) {
        RescaledCounts(count, frequency);
      }
    } else if unit == 0 {
      RescaledStops(192 * frequency, frequency);
      assert !OnTime(Rescaled(192 * frequency, frequency), 192 * frequency, frequency);
    } else {
      RescaledEarly(frequency);
      assert !OnTime(Rescaled(unit, frequency), unit, frequency);
    }
  }

  ghost predicate OnTime(r: int, count: int, frequency: int) {
    r * frequency <= count * TegraX1Freq < (r + 192) * frequency
  }

  /** Below 100 kHz the guest's counter stands still. */
  lemma RescaledStops(count: int, frequency: int)
    requires 0 <= frequency < 100000
    ensures Rescaled(count, frequency) == 0
  {
    MagicDivides(frequency);
  }

  lemma RescaledEarly(frequency: int)
    requires 100000 <= frequency < 0x1_0000_0000_0000_0000 && frequency % 100000 != 0
    ensures Rescaled(frequency / 100000, frequency) == 192
    ensures 192 * frequency > frequency / 100000 * TegraX1Freq
  {
    MagicDivides(frequency);
  }

  lemma RescaledUnits(count: nat, unit: int)
    requires unit > 0
    ensures var r := count / unit * 192;
      r * (unit * 100000) <= count * TegraX1Freq < (r + 192) * (unit * 100000)
  {
    var units := count / unit;
    var whole := units * unit;
    assert whole <= count < whole + unit;
    assert units * 192 * (unit * 100000) == whole * TegraX1Freq;
    assert (units * 192 + 192) * (unit * 100000) == (whole + unit) * TegraX1Freq;
  }
}
