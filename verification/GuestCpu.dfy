/** Execution of the trampolines on an AArch64 core: what the guest observes in place of the replaced system
    register accesses. */
module GuestCpu {
  import opened Instructions
  import opened Common
  import opened Patcher

  /** The registers and memory that the trampolines touch; memory is seen as 64-bit cells by address, and pc counts
      words from the start of the patch section.  While guest code runs, tpidr holds the thread context. */
  datatype Cpu = Cpu(pc: int, x: seq<int>, sp: int, tpidr: int, memory: int -> int) {
    predicate Valid() { |x| == 31 }

    /** Register 31 reads as zero and ignores writes. */
    function Get(r: int): int
      requires Valid() && 0 <= r < 32
    {
      if r == 31 then 0 else x[r]
    }

    function Set(r: int, value: int): Cpu
      requires Valid() && 0 <= r < 32
    {
      if r == 31 then this else this.(x := x[r := value])
    }

    /** As a base register, register 31 is the stack pointer. */
    function Base(r: int): int
      requires Valid() && 0 <= r < 32
    {
      if r == 31 then sp else x[r]
    }

    function Poke(address: int, value: int): Cpu {
      var memory := memory;
      this.(memory := a => if a == address then value else memory(a))
    }

    function Next(): Cpu { this.(pc := pc + 1) }
  }

  const TpidrroEl0Slot: int := 0x2B0 // ThreadContext::tpidrroEl0
  const TpidrEl0Slot: int := 0x2B8 // ThreadContext::tpidrEl0

  predicate InRange(i: Instruction) {
    match i
    case Branch(_, _) => true
    case Mrs(_, rt) => 0 <= rt < 32
    case Msr(_, rt) => 0 <= rt < 32
    case Movz(rd, _, _) => 0 <= rd < 32
    case Movk(rd, _, _) => 0 <= rd < 32
    case MovRegister(rd, rm) => 0 <= rd < 32 && 0 <= rm < 32
    case LoadOffset(rt, rn, _) => 0 <= rt < 32 && 0 <= rn < 32
    case StoreOffset(rt, rn, _) => 0 <= rt < 32 && 0 <= rn < 32
    case LoadPost(rt, rn, _) => 0 <= rt < 32 && rn == 31
    case StorePre(rt, rn, _) => 0 <= rt < 32 && rn == 31
    case LoadPairPost(rt, rt2, rn, _) => 0 <= rt < 32 && 0 <= rt2 < 32 && rn == 31
    case StorePairPre(rt, rt2, rn, _) => 0 <= rt < 32 && 0 <= rt2 < 32 && rn == 31
    case AddImmediate(rd, rn, _) => 0 <= rd < 32 && 0 <= rn < 32
    case ReturnTo(rn) => 0 <= rn < 32
    case _ => false
  }

  /** One instruction; None when it is not one of those modelled. */
  function Step(cpu: Cpu, i: Instruction): (r: Option<Cpu>)
    requires cpu.Valid()
    ensures r.Some? ==> r.value.Valid()
  {
    if !InRange(i) then None else
    match i
    case Branch(offset, link) => Some((if link then cpu.Set(30, cpu.pc + 1) else cpu).(pc := cpu.pc + offset))
    case Mrs(sys, rt) => if sys == TpidrEl0 then Some(cpu.Set(rt, cpu.tpidr).Next()) else None
    case Msr(sys, rt) => if sys == TpidrEl0 then Some(cpu.(tpidr := cpu.Get(rt)).Next()) else None
    case Movz(rd, _, _) => Some(cpu.Set(rd, MoveWide(i, cpu.Get(rd))).Next())
    case Movk(rd, _, _) => Some(cpu.Set(rd, MoveWide(i, cpu.Get(rd))).Next())
    case MovRegister(rd, rm) => Some(cpu.Set(rd, cpu.Get(rm)).Next())
    case LoadOffset(rt, rn, offset) => Some(cpu.Set(rt, cpu.memory(cpu.Base(rn) + offset)).Next())
    case StoreOffset(rt, rn, offset) => Some(cpu.Poke(cpu.Base(rn) + offset, cpu.Get(rt)).Next())
    case LoadPost(rt, _, offset) => Some(cpu.Set(rt, cpu.memory(cpu.sp)).(sp := cpu.sp + offset).Next())
    case StorePre(rt, _, offset) => Some(cpu.Poke(cpu.sp + offset, cpu.Get(rt)).(sp := cpu.sp + offset).Next())
    case LoadPairPost(rt, rt2, _, offset) =>
      Some(cpu.Set(rt, cpu.memory(cpu.sp)).Set(rt2, cpu.memory(cpu.sp + 8)).(sp := cpu.sp + offset).Next())
    case StorePairPre(rt, rt2, _, offset) =>
      var to := cpu.sp + offset;
      Some(cpu.Poke(to, cpu.Get(rt)).Poke(to + 8, cpu.Get(rt2)).(sp := to).Next())
    case AddImmediate(rd, rn, imm12) =>
      Some((if rd == 31 then cpu.(sp := cpu.Base(rn) + imm12) else cpu.Set(rd, cpu.Base(rn) + imm12)).Next())
    case ReturnTo(rn) => Some(cpu.(pc := cpu.Get(rn)))
    case _ => None
  }

  /** Executes n instructions of the loaded program. */
  function Run(patch: seq<int>, text: seq<int>, cpu: Cpu, n: nat): (r: Option<Cpu>)
    requires cpu.Valid()
    ensures r.Some? ==> r.value.Valid()
    decreases n
  {
    if n == 0 then Some(cpu)
    else match Step(cpu, Decode(At(patch, text, cpu.pc)))
      case None => None
      case Some(next) => Run(patch, text, next, n - 1)
  }

  /** Executes a straight sequence of instructions. */
  function RunAll(cpu: Cpu, code: seq<Instruction>): (r: Option<Cpu>)
    requires cpu.Valid()
    ensures r.Some? ==> r.value.Valid()
    decreases |code|
  {
    if code == [] then Some(cpu)
    else match Step(cpu, code[0])
      case None => None
      case Some(next) => RunAll(next, code[1..])
  }

  /** The instruction falls through to the next one. */
  predicate Straight(i: Instruction) { !i.Branch? && !i.ReturnTo? }

  /** A program that holds straight code at the current position executes it. */
  lemma {:induction false} RunStraight(patch: seq<int>, text: seq<int>, cpu: Cpu, code: seq<Instruction>, n: nat)
    requires cpu.Valid() && |code| <= n
    requires forall i :: 0 <= i < |code| ==> Straight(code[i]) && Decode(At(patch, text, cpu.pc + i)) == code[i]
    requires RunAll(cpu, code).Some?
    ensures Run(patch, text, cpu, n) == Run(patch, text, RunAll(cpu, code).value, n - |code|)
    ensures RunAll(cpu, code).value.pc == cpu.pc + |code|
    decreases |code|
  {
    hide Decode, At;
    if code != [] {
      var next := Step(cpu, code[0]).value;
      assert Decode(At(patch, text, cpu.pc + 0)) == code[0];
      assert next.pc == cpu.pc + 1;
      forall i | 0 <= i < |code[1..]| ensures Decode(At(patch, text, next.pc + i)) == code[1..][i] {
        assert code[1..][i] == code[i + 1];
        assert next.pc + i == cpu.pc + (i + 1);
      }
      RunStraight(patch, text, next, code[1..], n - 1);
    }
  }

  // ---- the fixed words of the trampolines

  lemma PushWord()
    ensures Decode(0xF81F0FE0) == StorePre(0, 31, -16)
  {
    var w := 0xF81F0FE0;
    assert w / 0x400_0000 == 0x3E;
    assert w / 0x10_0000 == 0xF81;
    assert w / 0x80_0000 == 0x1F0;
    assert w / 0x20_0000 == 0x7C0;
    assert w / 0x40_0000 == 0x3E0;
    assert w % 32 == 0;
    assert w / 32 % 32 == 31;
    assert w / 0x400 % 4 == 3;
    assert w / 0x1000 % 512 == 496;
  }

  lemma PopWord()
    ensures Decode(0xF84107E0) == LoadPost(0, 31, 16)
  {
    var w := 0xF84107E0;
    assert w / 0x400_0000 == 0x3E;
    assert w / 0x10_0000 == 0xF84;
    assert w / 0x80_0000 == 0x1F0;
    assert w / 0x20_0000 == 0x7C2;
    assert w / 0x40_0000 == 0x3E1;
    assert w % 32 == 0;
    assert w / 32 % 32 == 31;
    assert w / 0x400 % 4 == 1;
    assert w / 0x1000 % 512 == 16;
  }

  lemma PushPairWord()
    ensures Decode(0xA9BF07E0) == StorePairPre(0, 1, 31, -16)
  {
    var w := 0xA9BF07E0;
    assert w / 0x400_0000 == 0x2A;
    assert w / 0x10_0000 == 0xA9B;
    assert w / 0x80_0000 == 0x153;
    assert w / 0x20_0000 == 0x54D;
    assert w / 0x40_0000 == 0x2A6;
    assert w % 32 == 0;
    assert w / 32 % 32 == 31;
    assert w / 0x400 % 32 == 1;
    assert w / 0x8000 % 128 == 126;
  }

  lemma PopPairWord()
    ensures Decode(0xA8C107E0) == LoadPairPost(0, 1, 31, 16)
  {
    var w := 0xA8C107E0;
    assert w / 0x400_0000 == 0x2A;
    assert w / 0x10_0000 == 0xA8C;
    assert w / 0x80_0000 == 0x151;
    assert w / 0x20_0000 == 0x546;
    assert w / 0x40_0000 == 0x2A3;
    assert w % 32 == 0;
    assert w / 32 % 32 == 31;
    assert w / 0x400 % 32 == 1;
    assert w / 0x8000 % 128 == 2;
  }

  lemma LoadReadOnlyWord()
    ensures Decode(0xF9415800) == LoadOffset(0, 0, TpidrroEl0Slot)
  {
    var w := 0xF9415800;
    assert w / 0x400_0000 == 0x3E;
    assert w / 0x10_0000 == 0xF94;
    assert w / 0x80_0000 == 0x1F2;
    assert w / 0x20_0000 == 0x7CA;
    assert w / 0x40_0000 == 0x3E5;
    assert w % 32 == 0;
    assert w / 32 % 32 == 0;
    assert w / 0x400 % 0x1000 == 86;
  }

  lemma LoadReadWriteWord()
    ensures Decode(0xF9415C00) == LoadOffset(0, 0, TpidrEl0Slot)
  {
    var w := 0xF9415C00;
    assert w / 0x400_0000 == 0x3E;
    assert w / 0x10_0000 == 0xF94;
    assert w / 0x80_0000 == 0x1F2;
    assert w / 0x20_0000 == 0x7CA;
    assert w / 0x40_0000 == 0x3E5;
    assert w % 32 == 0;
    assert w / 32 % 32 == 0;
    assert w / 0x400 % 0x1000 == 87;
  }

  lemma StoreWord()
    ensures Decode(0xF9015C01) == StoreOffset(1, 0, TpidrEl0Slot)
  {
    var w := 0xF9015C01;
    assert w / 0x400_0000 == 0x3E;
    assert w / 0x10_0000 == 0xF90;
    assert w / 0x80_0000 == 0x1F2;
    assert w / 0x20_0000 == 0x7C8;
    assert w / 0x40_0000 == 0x3E4;
    assert w % 32 == 1;
    assert w / 32 % 32 == 0;
    assert w / 0x400 % 0x1000 == 87;
  }

  lemma TpidrWord()
    ensures Decode(0xD53BD040) == Mrs(TpidrEl0, 0)
  {
    var w := 0xD53BD040;
    assert w / 0x400_0000 == 0x35;
    assert w / 0x10_0000 == 0xD53;
  }

  /** The words lie at start, control gets there from text position o, and their last one branches behind o. */
  ghost predicate Detour(patch: seq<int>, now: seq<int>, o: nat, start: nat, words: seq<int>) {
    && words != []
    && (forall i :: 0 <= i < |words| ==> At(patch, now, start + i) == words[i])
    && IsBranch(At(patch, now, |patch| + o), false) && Target(|patch| + o, At(patch, now, |patch| + o)) == start
    && IsBranch(words[|words| - 1], false) && Target(start + |words| - 1, words[|words| - 1]) == |patch| + o + 1
  }

  lemma GoesThroughDetour(host: Host, w: int, o: nat, start: nat, patch: seq<int>, now: seq<int>)
    requires GoesThrough(host, w, o, start, patch, now) && Size(host, w) > 0
    ensures Detour(patch, now, o, start, Trampoline(host, w, start, |patch|, o))
  {
    hide Trampoline, Size, IsBranch, Target;
    SizeOfTrampoline(host, w, start, |patch|, o);
    forall i | 0 <= i < Size(host, w) ensures At(patch, now, start + i) == Trampoline(host, w, start, |patch|, o)[i] {
      assert patch[start + i] == patch[start..start + Size(host, w)][i];
    }
  }

  /** Running a replaced instruction: a branch to the trampoline, its straight code, and a branch to the next
      instruction. */
  lemma RunThrough(patch: seq<int>, now: seq<int>, o: nat, start: nat, words: seq<int>, cpu: Cpu,
                   code: seq<Instruction>)
    requires cpu.Valid() && cpu.pc == |patch| + o && Detour(patch, now, o, start, words) && |words| == |code| + 1
    requires forall i :: 0 <= i < |code| ==> Straight(code[i]) && Decode(words[i]) == code[i]
    requires RunAll(cpu.(pc := start), code).Some?
    ensures Run(patch, now, cpu, |code| + 2) == Some(RunAll(cpu.(pc := start), code).value.(pc := |patch| + o + 1))
  {
    hide Decode, Step, RunAll, At, Target, IsBranch;
    var entered := cpu.(pc := start);
    BranchSteps(cpu, At(patch, now, cpu.pc));
    assert Run(patch, now, cpu, |code| + 2) == Run(patch, now, entered, |code| + 1);
    RunStraight(patch, now, entered, code, |code| + 1);
    var left := RunAll(entered, code).value;
    assert At(patch, now, start + |code|) == words[|code|];
    BranchSteps(left, At(patch, now, left.pc));
    assert Run(patch, now, left, 1) == Some(left.(pc := |patch| + o + 1));
  }

  lemma BranchSteps(cpu: Cpu, w: int)
    requires cpu.Valid() && IsBranch(w, false)
    ensures Step(cpu, Decode(w)) == Some(cpu.(pc := Target(cpu.pc, w)))
  {
    hide Decode;
  }

  /** Where the thread context keeps the value of an emulated register. */
  function Slot(w: int): int {
    if SystemRegister(w) == TpidrroEl0 then TpidrroEl0Slot else TpidrEl0Slot
  }

  function LoadCode(w: int): seq<Instruction> {
    var load := [Mrs(TpidrEl0, 0), LoadOffset(0, 0, Slot(w))];
    if Register(w) != 0
    then [StorePre(0, 31, -16)] + load + [MovRegister(Register(w), 0), LoadPost(0, 31, 16)]
    else load
  }

  lemma LoadCodeDecoded(host: Host, w: int, at: nat, patchWords: int, o: int)
    requires TlsLoad(w)
    ensures |Trampoline(host, w, at, patchWords, o)| == |LoadCode(w)| + 1
    ensures forall i :: 0 <= i < |LoadCode(w)| ==>
      Straight(LoadCode(w)[i]) && Decode(Trampoline(host, w, at, patchWords, o)[i]) == LoadCode(w)[i]
  {
    PushWord();
    PopWord();
    LoadReadOnlyWord();
    LoadReadWriteWord();
    StoreWord();
    TpidrWord();
    MovRoundTrip(Register(w), 0);
    hide Decode, EncodeMov, EncodeB;
  }

  lemma RunAllStep(cpu: Cpu, i: Instruction, rest: seq<Instruction>)
    requires cpu.Valid() && Step(cpu, i).Some?
    ensures RunAll(cpu, [i] + rest) == RunAll(Step(cpu, i).value, rest)
    ensures RunAll(Step(cpu, i).value, []) == Some(Step(cpu, i).value)
  {
    assert ([i] + rest)[1..] == rest;
  }

  lemma LoadCodeRuns(w: int, cpu: Cpu)
    requires cpu.Valid() && TlsLoad(w)
    requires Register(w) != 0 ==> cpu.sp - 16 != cpu.tpidr + Slot(w)
    ensures var r := RunAll(cpu, LoadCode(w));
      && r.Some? && r.value.sp == cpu.sp && r.value.tpidr == cpu.tpidr
      && r.value.x == cpu.Set(Register(w), cpu.memory(cpu.tpidr + Slot(w))).x
      && forall a :: a != cpu.sp - 16 ==> r.value.memory(a) == cpu.memory(a)
  {
    hide RunAll;
    var mrs, load := Mrs(TpidrEl0, 0), LoadOffset(0, 0, Slot(w));
    if Register(w) == 0 {
      assert LoadCode(w) == [mrs] + ([load] + []);
      RunAllStep(cpu, mrs, [load] + []);
      RunAllStep(Step(cpu, mrs).value, load, []);
    } else {
      var push, mov, pop := StorePre(0, 31, -16), MovRegister(Register(w), 0), LoadPost(0, 31, 16);
      assert LoadCode(w) == [push] + ([mrs] + ([load] + ([mov] + ([pop] + []))));
      RunAllStep(cpu, push, [mrs] + ([load] + ([mov] + ([pop] + []))));
      ScratchLoadRuns(cpu, Register(w), Slot(w));
    }
  }

  /** The middle of the trampoline with X0 saved on the stack. */
  lemma ScratchLoadRuns(cpu: Cpu, rt: int, slot: int)
    requires cpu.Valid() && 0 < rt < 32 && cpu.sp - 16 != cpu.tpidr + slot
    ensures
      var push, mrs, load, mov, pop := StorePre(0, 31, -16), Mrs(TpidrEl0, 0), LoadOffset(0, 0, slot),
        MovRegister(rt, 0), LoadPost(0, 31, 16);
      var r := RunAll(Step(cpu, push).value, [mrs] + ([load] + ([mov] + ([pop] + []))));
      && r.Some? && r.value.sp == cpu.sp && r.value.tpidr == cpu.tpidr
      && r.value.x == cpu.Set(rt, cpu.memory(cpu.tpidr + slot)).x
      && forall a :: a != cpu.sp - 16 ==> r.value.memory(a) == cpu.memory(a)
  {
    hide RunAll;
    var push, mrs, load, mov, pop := StorePre(0, 31, -16), Mrs(TpidrEl0, 0), LoadOffset(0, 0, slot), MovRegister(rt, 0),
      LoadPost(0, 31, 16);
    var c1 := Step(cpu, push).value;
    RunAllStep(c1, mrs, [load] + ([mov] + ([pop] + [])));
    var c2 := Step(c1, mrs).value;
    RunAllStep(c2, load, [mov] + ([pop] + []));
    var c3 := Step(c2, load).value;
    assert c3.x == cpu.x[0 := cpu.memory(cpu.tpidr + slot)];
    RunAllStep(c3, mov, [pop] + []);
    var c4 := Step(c3, mov).value;
    RunAllStep(c4, pop, []);
    var c5 := Step(c4, pop).value;
    assert c5.x == cpu.Set(rt, cpu.memory(cpu.tpidr + slot)).x;
  }

  /** A patched read of a thread pointer register puts the value that the thread context keeps for it into the
      destination and falls through, with every other register, the stack pointer and all memory above the
      stack pointer as they were. */
  lemma TlsLoadEmulated(host: Host, w: int, o: nat, start: nat, patch: seq<int>, now: seq<int>, cpu: Cpu)
    requires TlsLoad(w) && GoesThrough(host, w, o, start, patch, now) && o < |now|
    requires cpu.Valid() && cpu.pc == |patch| + o
    requires Register(w) != 0 ==> cpu.sp - 16 != cpu.tpidr + Slot(w)
    ensures var r := Run(patch, now, cpu, Size(host, w) + 1);
      && r.Some? && r.value.pc == cpu.pc + 1 && r.value.sp == cpu.sp && r.value.tpidr == cpu.tpidr
      && r.value.x == cpu.Set(Register(w), cpu.memory(cpu.tpidr + Slot(w))).x
      && forall a :: a != cpu.sp - 16 ==> r.value.memory(a) == cpu.memory(a)
  {
    hide Decode, Trampoline, RunAll, Run, GoesThrough, LoadCode, Detour, Size;
    SizeOfTrampoline(host, w, start, |patch|, o);
    LoadCodeDecoded(host, w, start, |patch|, o);
    GoesThroughDetour(host, w, o, start, patch, now);
    LoadCodeRuns(w, cpu.(pc := start));
    RunThrough(patch, now, o, start, Trampoline(host, w, start, |patch|, o), cpu, LoadCode(w));
  }

  // ---- writes of the thread pointer register

  function StoreCode(w: int): seq<Instruction> {
    [StorePairPre(0, 1, 31, -16), Mrs(TpidrEl0, 0), MovRegister(1, Register(w)), StoreOffset(1, 0, TpidrEl0Slot),
      LoadPairPost(0, 1, 31, 16)]
  }

  lemma StoreCodeDecoded(host: Host, w: int, at: nat, patchWords: int, o: int)
    requires TlsStore(w)
    ensures |Trampoline(host, w, at, patchWords, o)| == |StoreCode(w)| + 1
    ensures forall i :: 0 <= i < |StoreCode(w)| ==>
      Straight(StoreCode(w)[i]) && Decode(Trampoline(host, w, at, patchWords, o)[i]) == StoreCode(w)[i]
  {
    PushPairWord();
    PopPairWord();
    LoadReadOnlyWord();
    LoadReadWriteWord();
    StoreWord();
    TpidrWord();
    MovRoundTrip(1, Register(w));
    hide Decode, EncodeMov, EncodeB;
  }

  /** The cell of the emulated register is not one of the two stack cells that the trampoline uses. */
  predicate Apart(cpu: Cpu) {
    cpu.tpidr + TpidrEl0Slot != cpu.sp - 16 && cpu.tpidr + TpidrEl0Slot != cpu.sp - 8
  }

  lemma StoreCodeRuns(w: int, cpu: Cpu)
    requires cpu.Valid() && Apart(cpu)
    ensures var r := RunAll(cpu, StoreCode(w));
      && r.Some? && r.value.sp == cpu.sp && r.value.tpidr == cpu.tpidr && r.value.x == cpu.x
      && r.value.memory(cpu.tpidr + TpidrEl0Slot) == (if Register(w) == 0 then cpu.tpidr else cpu.Get(Register(w)))
      && forall a :: a != cpu.sp - 16 && a != cpu.sp - 8 && a != cpu.tpidr + TpidrEl0Slot ==>
        r.value.memory(a) == cpu.memory(a)
  {
    var push, mrs, mov, store, pop :=
      StorePairPre(0, 1, 31, -16), Mrs(TpidrEl0, 0), MovRegister(1, Register(w)), StoreOffset(1, 0, TpidrEl0Slot),
        LoadPairPost(0, 1, 31, 16);
    hide RunAll, Step;
    assert StoreCode(w) == [push] + ([mrs] + ([mov] + ([store] + ([pop] + []))));
    var c1, c2, c3 := StoreHeadRuns(cpu, Register(w));
    RunAllStep(cpu, push, [mrs] + ([mov] + ([store] + ([pop] + []))));
    RunAllStep(c1, mrs, [mov] + ([store] + ([pop] + [])));
    RunAllStep(c2, mov, [store] + ([pop] + []));
    var c4, c5 := StoreTailRuns(cpu, c3);
    RunAllStep(c3, store, [pop] + []);
    RunAllStep(c4, pop, []);
  }

  /** X0 and X1 are saved, X0 then holds the thread context, and X1 the source as it is at that point. */
  lemma StoreHeadRuns(cpu: Cpu, source: int) returns (c1: Cpu, c2: Cpu, c3: Cpu)
    requires cpu.Valid() && 0 <= source < 32
    ensures Step(cpu, StorePairPre(0, 1, 31, -16)) == Some(c1) && c1.Valid()
    ensures Step(c1, Mrs(TpidrEl0, 0)) == Some(c2) && c2.Valid()
    ensures Step(c2, MovRegister(1, source)) == Some(c3) && c3.Valid()
    ensures c3.x == cpu.x[0 := cpu.tpidr][1 := if source == 0 then cpu.tpidr else cpu.Get(source)]
    ensures c3.sp == cpu.sp - 16 && c3.tpidr == cpu.tpidr
    ensures c3.memory(cpu.sp - 16) == cpu.x[0] && c3.memory(cpu.sp - 8) == cpu.x[1]
    ensures forall a :: a != cpu.sp - 16 && a != cpu.sp - 8 ==> c3.memory(a) == cpu.memory(a)
  {
    c1 := Step(cpu, StorePairPre(0, 1, 31, -16)).value;
    c2 := Step(c1, Mrs(TpidrEl0, 0)).value;
    c3 := Step(c2, MovRegister(1, source)).value;
  }

  lemma StoreTailRuns(cpu: Cpu, c3: Cpu) returns (c4: Cpu, c5: Cpu)
    requires cpu.Valid() && c3.Valid() && Apart(cpu)
    requires c3.x[0] == cpu.tpidr && c3.x[2..] == cpu.x[2..] && c3.sp == cpu.sp - 16 && c3.tpidr == cpu.tpidr
    requires c3.memory(cpu.sp - 16) == cpu.x[0] && c3.memory(cpu.sp - 8) == cpu.x[1]
    ensures Step(c3, StoreOffset(1, 0, TpidrEl0Slot)) == Some(c4) && c4.Valid()
    ensures Step(c4, LoadPairPost(0, 1, 31, 16)) == Some(c5) && c5.Valid()
    ensures c5.x == cpu.x && c5.sp == cpu.sp && c5.tpidr == cpu.tpidr
    ensures c5.memory(cpu.tpidr + TpidrEl0Slot) == c3.x[1]
    ensures forall a :: a != cpu.tpidr + TpidrEl0Slot ==> c5.memory(a) == c3.memory(a)
  {
    c4 := Step(c3, StoreOffset(1, 0, TpidrEl0Slot)).value;
    c5 := Step(c4, LoadPairPost(0, 1, 31, 16)).value;
    assert c5.x == [cpu.x[0], cpu.x[1]] + c3.x[2..];
    assert cpu.x == [cpu.x[0], cpu.x[1]] + cpu.x[2..];
  }

  /** A patched write of the thread pointer register falls through and restores every register, but stores the
      address of the thread context instead of the source when the source is X0. */
  lemma TlsStoreEmulated(host: Host, w: int, o: nat, start: nat, patch: seq<int>, now: seq<int>, cpu: Cpu)
    requires TlsStore(w) && GoesThrough(host, w, o, start, patch, now) && o < |now|
    requires cpu.Valid() && cpu.pc == |patch| + o && Apart(cpu)
    ensures var r := Run(patch, now, cpu, Size(host, w) + 1);
      && r.Some? && r.value.pc == cpu.pc + 1 && r.value.sp == cpu.sp && r.value.tpidr == cpu.tpidr && r.value.x == cpu.x
      && r.value.memory(cpu.tpidr + TpidrEl0Slot) == (if Register(w) == 0 then cpu.tpidr else cpu.Get(Register(w)))
      && forall a :: a != cpu.sp - 16 && a != cpu.sp - 8 && a != cpu.tpidr + TpidrEl0Slot ==>
        r.value.memory(a) == cpu.memory(a)
  {
    hide Decode, Trampoline, RunAll, Run, GoesThrough, StoreCode, Detour, Size;
    SizeOfTrampoline(host, w, start, |patch|, o);
    StoreCodeDecoded(host, w, start, |patch|, o);
    GoesThroughDetour(host, w, o, start, patch, now);
    StoreCodeRuns(w, cpu.(pc := start));
    RunThrough(patch, now, o, start, Trampoline(host, w, start, |patch|, o), cpu, StoreCode(w));
  }

  /** The trampoline has stored the value that the instruction was to write. */
  ghost predicate StoresSource(host: Host, w: int, patch: seq<int>, now: seq<int>, cpu: Cpu)
    requires cpu.Valid()
  {
    var r := Run(patch, now, cpu, Size(host, w) + 1);
    r.Some? && r.value.memory(cpu.tpidr + TpidrEl0Slot) == cpu.Get(Register(w))
  }

  /** Writes of the thread pointer register are emulated correctly, whatever the state, exactly when their source
      is not X0. */
  lemma TlsStoreCorrect(host: Host, w: int, o: nat, start: nat, patch: seq<int>, now: seq<int>)
    requires TlsStore(w) && GoesThrough(host, w, o, start, patch, now) && o < |now|
    ensures (forall cpu: Cpu :: cpu.Valid() && cpu.pc == |patch| + o && Apart(cpu) ==>
      StoresSource(host, w, patch, now, cpu)) <==>
      Register(w) != 0
  {
    hide Decode, Trampoline, RunAll, Run, GoesThrough, Size;
    forall cpu: Cpu | cpu.Valid() && cpu.pc == |patch| + o && Apart(cpu)
      ensures Register(w) != 0 ==> StoresSource(host, w, patch, now, cpu)
    {
      TlsStoreEmulated(host, w, o, start, patch, now, cpu);
    }
    var zeros := seq(31, _ => 0);
    var cpu := Cpu(|patch| + o, zeros, 0x1000, 0x8000, a => 0);
    assert cpu.Valid() && Apart(cpu);
    TlsStoreEmulated(host, w, o, start, patch, now, cpu);
    assert Register(w) == 0 ==> !StoresSource(host, w, patch, now, cpu);
  }

  // ---- reads of the counter frequency

  /** On a host whose counter runs at another frequency, a patched read of the counter frequency yields that of
      the guest's hardware and changes nothing else. */
  lemma FrequencyLoadEmulated(host: Host, w: int, o: nat, start: nat, patch: seq<int>, now: seq<int>, cpu: Cpu)
    requires host.rescale && ClockLoad(w, CntfrqEl0) && GoesThrough(host, w, o, start, patch, now) && o < |now|
    requires cpu.Valid() && cpu.pc == |patch| + o
    ensures Run(patch, now, cpu, Size(host, w) + 1) == Some(cpu.Set(Register(w), TegraX1Freq).Next())
  {
    hide Decode, Trampoline, RunAll, Run, GoesThrough, Detour, Size;
    FrequencyCodeDecoded(host, w, start, |patch|, o);
    SizeOfTrampoline(host, w, start, |patch|, o);
    GoesThroughDetour(host, w, o, start, patch, now);
    var code := [Movz(Register(w), 0xF800, 0), Movk(Register(w), 0x124, 1)];
    FrequencyCodeRuns(cpu.(pc := start), Register(w), code);
    RunThrough(patch, now, o, start, Trampoline(host, w, start, |patch|, o), cpu, code);
  }

  lemma FrequencyCodeRuns(cpu: Cpu, rd: int, code: seq<Instruction>)
    requires cpu.Valid() && 0 <= rd < 32 && code == [Movz(rd, 0xF800, 0), Movk(rd, 0x124, 1)]
    ensures RunAll(cpu, code) == Some(cpu.Set(rd, TegraX1Freq).(pc := cpu.pc + 2))
  {
    hide RunAll, MoveWide, Step;
    FrequencyHalves(rd, cpu.Get(rd));
    MoveSteps(cpu, code[0], rd);
    var c1 := cpu.Set(rd, 0xF800).Next();
    MoveSteps(c1, code[1], rd);
    var c2 := c1.Set(rd, MoveWide(code[1], c1.Get(rd))).Next();
    assert code == [code[0]] + ([code[1]] + []);
    RunAllStep(cpu, code[0], [code[1]] + []);
    RunAllStep(c1, code[1], []);
    assert c2 == cpu.Set(rd, TegraX1Freq).(pc := cpu.pc + 2) by {
      SetTwice(cpu, rd, 0xF800, TegraX1Freq);
    }
  }

  lemma MoveSteps(cpu: Cpu, i: Instruction, rd: int)
    requires cpu.Valid() && 0 <= rd < 32 && (i.Movz? || i.Movk?) && i.rd == rd
    ensures Step(cpu, i) == Some(cpu.Set(rd, MoveWide(i, cpu.Get(rd))).Next())
  {
    hide MoveWide;
  }

  lemma SetTwice(cpu: Cpu, rd: int, first: int, second: int)
    requires cpu.Valid() && 0 <= rd < 32
    ensures cpu.Set(rd, first).Next().Set(rd, second) == cpu.Set(rd, second).Next()
    ensures rd < 31 ==> cpu.Set(rd, first).Next().Get(rd) == first
    ensures rd == 31 ==> forall v :: cpu.Set(rd, first).Next().Set(rd, v) == cpu.Set(rd, second).Next()
  {
    if rd < 31 {
      assert cpu.x[rd := first][rd := second] == cpu.x[rd := second];
    }
  }

  lemma FrequencyHalves(rd: int, before: int)
    ensures MoveWide(Movz(rd, 0xF800, 0), before) == 0xF800
    ensures MoveWide(Movk(rd, 0x124, 1), 0xF800) == TegraX1Freq
  {
    assert Half(0xF800, 1) == 0;
  }

  lemma FrequencyCodeDecoded(host: Host, w: int, at: nat, patchWords: int, o: int)
    requires host.rescale && ClockLoad(w, CntfrqEl0)
    ensures var words := Trampoline(host, w, at, patchWords, o);
      && |words| == 3 && Decode(words[0]) == Movz(Register(w), 0xF800, 0) &&
        Decode(words[1]) == Movk(Register(w), 0x124, 1)
  {
    MovzRoundTrip(Register(w), 0xF800, 0);
    MovkRoundTrip(Register(w), 0x124, 1);
    hide Decode, EncodeMovz, EncodeMovk, EncodeB;
    assert Half(TegraX1Freq, 0) == 0xF800 && Low(TegraX1Freq, 0) == 0;
    assert Half(TegraX1Freq, 1) == 0x124 && Low(TegraX1Freq, 1) == 0xF800;
  }
}
