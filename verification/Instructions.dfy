/** The AArch64 instruction words that the code patcher recognises and emits: bit field encodings, their decoding
    (sections C4.1 and C6.2 of Arm DDI 0487), and the sequence that loads a constant into a register. */
module Instructions {

  const Word: int := 0x1_0000_0000
  const Branches: int := 0x400_0000 // 2^26, the modulus of a branch offset

  predicate IsWord(w: int) { 0 <= w < Word }

  // ---- fields of the instructions that are patched

  predicate IsSvc(w: int) { w % 32 == 0x1 && w / 0x20_0000 == 0x6A0 }

  function SvcValue(w: int): int { w / 32 % 0x1_0000 }

  predicate IsMrs(w: int) { w / 0x10_0000 == 0xD53 }

  predicate IsMsr(w: int) { w / 0x10_0000 == 0xD51 }

  /** The general purpose register of an MRS or MSR. */
  function Register(w: int): int { w % 32 }

  /** The system register of an MRS or MSR. */
  function SystemRegister(w: int): int { w / 32 % 0x8000 }

  /** The words with these fields: SVC #number is exactly 0xD4000001 with the number five bits up. */
  lemma SvcFields(w: int, number: int)
    requires 0 <= number < 0x1_0000
    ensures IsSvc(w) && SvcValue(w) == number <==> w == 0xD400_0001 + number * 32
  {
    if IsSvc(w) && SvcValue(w) == number {
      assert w / 32 == w / 0x20_0000 * 0x1_0000 + w / 32 % 0x1_0000;
    }
  }

  /** MRS and MSR are exactly 0xD5300000 and 0xD5100000 with the two registers filled in. */
  lemma SystemFields(w: int, systemRegister: int, register: int)
    requires 0 <= systemRegister < 0x8000 && 0 <= register < 32
    ensures IsMrs(w) && SystemRegister(w) == systemRegister && Register(w) == register
      <==> w == 0xD530_0000 + systemRegister * 32 + register
    ensures IsMsr(w) && SystemRegister(w) == systemRegister && Register(w) == register
      <==> w == 0xD510_0000 + systemRegister * 32 + register
  {
    assert w / 32 == w / 0x10_0000 * 0x8000 + w / 32 % 0x8000;
  }

  // ---- encoders

  function EncodeMrs(systemRegister: int, register: int): int {
    register + systemRegister * 32 + 0xD53 * 0x10_0000
  }

  /** A branch; the 26-bit field keeps the offset modulo 2^26. */
  function EncodeB(offset: int): int { offset % Branches + 0x5 * Branches }

  function EncodeBL(offset: int): int { offset % Branches + 0x25 * Branches }

  function EncodeMovz(register: int, imm16: int, hw: int, sf: int): int {
    register + imm16 * 32 + hw * 0x20_0000 + 0xA5 * 0x80_0000 + sf * 0x8000_0000
  }

  function EncodeMovk(register: int, imm16: int, hw: int, sf: int): int {
    register + imm16 * 32 + hw * 0x20_0000 + 0xE5 * 0x80_0000 + sf * 0x8000_0000
  }

  function EncodeMov(destination: int, source: int): int {
    destination + 0x1F * 32 + source * 0x1_0000 + 0x150 * 0x20_0000 + 0x8000_0000
  }

  // ---- decoding

  datatype Instruction =
    | Branch(offset: int, link: bool)
    | Mrs(systemRegister: int, rt: int)
    | Msr(systemRegister: int, rt: int)
    | Movz(rd: int, imm16: int, hw: int)
    | Movk(rd: int, imm16: int, hw: int)
    | MovRegister(rd: int, rm: int)
    | LoadOffset(rt: int, rn: int, offset: int)
    | StoreOffset(rt: int, rn: int, offset: int)
    | LoadPost(rt: int, rn: int, offset: int)
    | StorePre(rt: int, rn: int, offset: int)
    | LoadPairPost(rt: int, rt2: int, rn: int, offset: int)
    | StorePairPre(rt: int, rt2: int, rn: int, offset: int)
    | AddImmediate(rd: int, rn: int, imm12: int)
    | CallRegister(rn: int)
    | ReturnTo(rn: int)
    | Other(word: int)

  /** Two's complement reading of a field of the given modulus. */
  function Signed(x: int, modulus: int): int { if x >= modulus / 2 then x - modulus else x }

  /** Instructions that the trampolines use; anything else is left uninterpreted.  They are on 64-bit registers but for
      one form of MOVZ, which clears the upper half of the register as well. */
  function Decode(w: int): Instruction {
    if w / Branches == 0x5 then Branch(Signed(w % Branches, Branches), false)
    else if w / Branches == 0x25 then Branch(Signed(w % Branches, Branches), true)
    else if IsMrs(w) then Mrs(SystemRegister(w), Register(w))
    else if IsMsr(w) then Msr(SystemRegister(w), Register(w))
    else if w / 0x80_0000 == 0x1A5 || w / 0x40_0000 == 0x14A then Movz(w % 32, w / 32 % 0x1_0000, w / 0x20_0000 % 4)
    else if w / 0x80_0000 == 0x1E5 then Movk(w % 32, w / 32 % 0x1_0000, w / 0x20_0000 % 4)
    else if w / 0x20_0000 == 0x550 && w / 32 % 2048 == 0x1F then MovRegister(w % 32, w / 0x1_0000 % 32)
    else if w / 0x40_0000 == 0x3E5 then LoadOffset(w % 32, w / 32 % 32, w / 0x400 % 0x1000 * 8)
    else if w / 0x40_0000 == 0x3E4 then StoreOffset(w % 32, w / 32 % 32, w / 0x400 % 0x1000 * 8)
    else if w / 0x20_0000 == 0x7C2 && w / 0x400 % 4 == 1
      then LoadPost(w % 32, w / 32 % 32, Signed(w / 0x1000 % 512, 512))
    else if w / 0x20_0000 == 0x7C0 && w / 0x400 % 4 == 3
      then StorePre(w % 32, w / 32 % 32, Signed(w / 0x1000 % 512, 512))
    else if w / 0x40_0000 == 0x2A3
      then LoadPairPost(w % 32, w / 0x400 % 32, w / 32 % 32, Signed(w / 0x8000 % 128, 128) * 8)
    else if w / 0x40_0000 == 0x2A6
      then StorePairPre(w % 32, w / 0x400 % 32, w / 32 % 32, Signed(w / 0x8000 % 128, 128) * 8)
    else if w / 0x40_0000 == 0x244 then AddImmediate(w % 32, w / 32 % 32, w / 0x400 % 0x1000)
    else if w / 0x400 == 0x35_8FC0 && w % 32 == 0 then CallRegister(w / 32 % 32)
    else if w / 0x400 == 0x35_97C0 && w % 32 == 0 then ReturnTo(w / 32 % 32)
    else Other(w)
  }

  /** A branch goes where it was told exactly when the offset fits its field. */
  lemma BranchRoundTrip(offset: int)
    ensures IsWord(EncodeB(offset)) && IsWord(EncodeBL(offset))
    ensures Decode(EncodeB(offset)) == Branch(offset, false) <==> -0x200_0000 <= offset < 0x200_0000
    ensures Decode(EncodeBL(offset)) == Branch(offset, true) <==> -0x200_0000 <= offset < 0x200_0000
  {
    var field := offset % Branches;
    assert (field + 0x5 * Branches) / Branches == 0x5 && (field + 0x5 * Branches) % Branches == field;
    assert (field + 0x25 * Branches) / Branches == 0x25 && (field + 0x25 * Branches) % Branches == field;
  }

  lemma MovRoundTrip(destination: int, source: int)
    requires 0 <= destination < 32 && 0 <= source < 32
    ensures IsWord(EncodeMov(destination, source))
    ensures Decode(EncodeMov(destination, source)) == MovRegister(destination, source)
  {
    var w := EncodeMov(destination, source);
    assert w % 32 == destination;
    assert w / 0x1_0000 == source + 0x550 * 32;
    assert w / 0x20_0000 == 0x550;
    assert w / 32 == 0x1F + source * 2048 + 0x550 * 0x1_0000;
    MovDecodes(w);
  }

  lemma MovDecodes(w: int)
    requires w / 0x20_0000 == 0x550
    ensures w / 32 % 2048 == 0x1F ==> Decode(w) == MovRegister(w % 32, w / 0x1_0000 % 32)
  {
    assert w / 0x400_0000 == w / 0x20_0000 / 32;
    assert w / 0x80_0000 == w / 0x20_0000 / 4;
    assert w / 0x10_0000 / 2 == w / 0x20_0000;
  }

  lemma MrsRoundTrip(systemRegister: int, register: int)
    requires 0 <= systemRegister < 0x8000 && 0 <= register < 32
    ensures IsWord(EncodeMrs(systemRegister, register))
    ensures Decode(EncodeMrs(systemRegister, register)) == Mrs(systemRegister, register)
  {
  }

  lemma MoveWideFields(register: int, imm16: int, hw: int, opcode: int)
    requires 0 <= register < 32 && 0 <= imm16 < 0x1_0000 && 0 <= hw < 4
    ensures var w := register + imm16 * 32 + hw * 0x20_0000 + opcode * 0x80_0000;
      w / 0x80_0000 == opcode && w % 32 == register && w / 32 % 0x1_0000 == imm16 && w / 0x20_0000 % 4 == hw
  {
    var w := register + imm16 * 32 + hw * 0x20_0000 + opcode * 0x80_0000;
    assert w / 32 == imm16 + hw * 0x1_0000 + opcode * 0x4_0000;
    assert w / 0x20_0000 == hw + opcode * 4;
  }

  lemma MovzRoundTrip(register: int, imm16: int, hw: int)
    requires 0 <= register < 32 && 0 <= imm16 < 0x1_0000 && 0 <= hw < 4
    ensures IsWord(EncodeMovz(register, imm16, hw, 1)) && EncodeMovz(register, imm16, hw, 1) != 0
    ensures Decode(EncodeMovz(register, imm16, hw, 1)) == Movz(register, imm16, hw)
  {
    MoveWideFields(register, imm16, hw, 0x1A5);
    MoveWideDecodes(EncodeMovz(register, imm16, hw, 1));
  }

  /** The 32-bit form, in which the half word is one of two. */
  lemma MovzShortRoundTrip(register: int, imm16: int, hw: int)
    requires 0 <= register < 32 && 0 <= imm16 < 0x1_0000 && 0 <= hw < 2
    ensures IsWord(EncodeMovz(register, imm16, hw, 0))
    ensures Decode(EncodeMovz(register, imm16, hw, 0)) == Movz(register, imm16, hw)
  {
    MoveWideFields(register, imm16, hw, 0xA5);
    var w := EncodeMovz(register, imm16, hw, 0);
    assert w / 0x20_0000 == hw + 0xA5 * 4;
    assert w / 0x400_0000 == 0x14 && w / 0x40_0000 == 0x14A;
    assert w / 0x10_0000 / 2 == w / 0x20_0000;
  }

  lemma MovkRoundTrip(register: int, imm16: int, hw: int)
    requires 0 <= register < 32 && 0 <= imm16 < 0x1_0000 && 0 <= hw < 4
    ensures IsWord(EncodeMovk(register, imm16, hw, 1)) && EncodeMovk(register, imm16, hw, 1) != 0
    ensures Decode(EncodeMovk(register, imm16, hw, 1)) == Movk(register, imm16, hw)
  {
    MoveWideFields(register, imm16, hw, 0x1E5);
    MoveWideDecodes(EncodeMovk(register, imm16, hw, 1));
  }

  lemma MoveWideDecodes(w: int)
    ensures w / 0x80_0000 == 0x1A5 ==> Decode(w) == Movz(w % 32, w / 32 % 0x1_0000, w / 0x20_0000 % 4)
    ensures w / 0x80_0000 == 0x1E5 ==> Decode(w) == Movk(w % 32, w / 32 % 0x1_0000, w / 0x20_0000 % 4)
  {
    assert w / 0x400_0000 == w / 0x80_0000 / 8;
    assert w / 0x10_0000 / 8 == w / 0x80_0000;
  }

  // ---- loading a constant

  function Shift(i: int): (r: int)
    ensures r > 0
  {
    if i <= 0 then 1 else if i == 1 then 0x1_0000 else if i == 2 then 0x1_0000_0000
    else if i == 3 then 0x1_0000_0000_0000 else 0x1_0000_0000_0000_0000
  }

  function Half(value: int, i: int): int { value / Shift(i) % 0x1_0000 }

  /** The part of a value below half word i. */
  function Low(value: int, i: int): int { value % Shift(i) }

  /** The effect of one move-wide instruction on the 64-bit register it names. */
  function MoveWide(instruction: Instruction, register: int): int {
    match instruction
    case Movz(_, imm16, hw) => imm16 * Shift(hw)
    case Movk(_, imm16, hw) => register + (imm16 - Half(register, hw)) * Shift(hw)
    case _ => register
  }

  /** Executes the words that are not zero, which is what the emitter keeps of them. */
  ghost function RunMoves(words: seq<int>, register: int): int {
    if words == [] then register
    else
      var before := RunMoves(words[..|words| - 1], register);
      var last := words[|words| - 1];
      if last == 0 then before else MoveWide(Decode(last), before)
  }

  lemma LowStep(value: int, i: int)
    requires 0 <= value && 0 <= i < 4
    ensures Low(value, i + 1) == Low(value, i) + Half(value, i) * Shift(i)
    ensures Half(Low(value, i), i) == 0
    ensures 0 <= Half(value, i) < 0x1_0000 && 0 <= Low(value, i)
  {
    hide Low, Half, Shift;
    if i == 0 {
      LowStep0(value);
    } else if i == 1 {
      LowStep1(value);
    } else if i == 2 {
      LowStep2(value);
    } else {
      LowStep3(value);
    }
  }

  lemma LowStep0(value: int)
    ensures Low(value, 1) == Low(value, 0) + Half(value, 0) * Shift(0)
    ensures Half(Low(value, 0), 0) == 0 && 0 <= Half(value, 0) < 0x1_0000 && 0 <= Low(value, 0)
  {
  }

  lemma LowStep1(value: int)
    ensures Low(value, 2) == Low(value, 1) + Half(value, 1) * Shift(1)
    ensures Half(Low(value, 1), 1) == 0 && 0 <= Half(value, 1) < 0x1_0000 && 0 <= Low(value, 1)
  {
    assert value % 0x1_0000_0000 == value % 0x1_0000 + value / 0x1_0000 % 0x1_0000 * 0x1_0000;
    assert value % 0x1_0000 / 0x1_0000 == 0;
  }

  lemma LowStep2(value: int)
    ensures Low(value, 3) == Low(value, 2) + Half(value, 2) * Shift(2)
    ensures Half(Low(value, 2), 2) == 0 && 0 <= Half(value, 2) < 0x1_0000 && 0 <= Low(value, 2)
  {
    assert value % 0x1_0000_0000_0000 == value % 0x1_0000_0000 + value / 0x1_0000_0000 % 0x1_0000 * 0x1_0000_0000;
    assert value % 0x1_0000_0000 / 0x1_0000_0000 == 0;
  }

  lemma LowStep3(value: int)
    ensures Low(value, 4) == Low(value, 3) + Half(value, 3) * Shift(3)
    ensures Half(Low(value, 3), 3) == 0 && 0 <= Half(value, 3) < 0x1_0000 && 0 <= Low(value, 3)
  {
    assert value % 0x1_0000_0000_0000_0000 == value % 0x1_0000_0000_0000 +
      value / 0x1_0000_0000_0000 % 0x1_0000 * 0x1_0000_0000_0000;
    assert value % 0x1_0000_0000_0000 / 0x1_0000_0000_0000 == 0;
  }

  /** Appending the next instruction of the sequence extends the loaded part of the value. */
  lemma MoveExtends(words: seq<int>, register: int, value: int, i: int, before: int)
    requires 0 <= register < 32 && 0 <= value && 0 <= i < 4
    requires RunMoves(words, before) == if Low(value, i) != 0 then Low(value, i) else before
    ensures RunMoves(words + [MoveAt(register, value, i)], before) == if Low(value, i + 1) != 0 then Low(value, i + 1)
      else before
  {
    LowStep(value, i);
    RunMovesSnoc(words, MoveAt(register, value, i), before);
    MovzRoundTrip(register, Half(value, i), i);
    MovkRoundTrip(register, Half(value, i), i);
    hide Decode, EncodeMovz, EncodeMovk, Low, Half, Shift, RunMoves;
  }

  lemma LowNonZero(value: int, i: int)
    requires 0 <= value && 0 <= i < 4
    ensures Low(value, i + 1) != 0 <==> Low(value, i) != 0 || Half(value, i) != 0
  {
    LowStep(value, i);
  }

  lemma MoveAtIsWord(register: int, value: int, i: int)
    requires 0 <= register < 32 && 0 <= value && 0 <= i < 4
    ensures IsWord(MoveAt(register, value, i)) && (MoveAt(register, value, i) == 0 <==> Half(value, i) == 0)
  {
    LowStep(value, i);
    MovzRoundTrip(register, Half(value, i), i);
    MovkRoundTrip(register, Half(value, i), i);
  }

  /** What belongs at position i of the sequence that loads a value. */
  function MoveAt(register: int, value: int, i: int): int {
    if Half(value, i) == 0 then 0
    else if Low(value, i) == 0 then EncodeMovz(register, Half(value, i), i, 1)
    else EncodeMovk(register, Half(value, i), i, 1)
  }

  /** The instructions that load a value of the given number of half words.  Executing those that are not zero
      leaves the value in the register, whatever it held, exactly when the value is not zero: for zero nothing
      is emitted. */
  method MoveRegister(register: int, value: int, halves: nat) returns (instructions: seq<int>)
    requires 0 <= register < 32 && halves <= 4 && 0 <= value < Shift(halves)
    ensures |instructions| == halves
    ensures forall i :: 0 <= i < halves ==> instructions[i] == MoveAt(register, value, i)
    ensures forall i :: 0 <= i < halves ==> IsWord(instructions[i]) && (instructions[i] == 0 <==> Half(value, i) == 0)
    ensures forall before :: RunMoves(instructions, before) == if value == 0 then before else value
    ensures (forall before :: RunMoves(instructions, before) == value) <==> value != 0
  {
    hide RunMoves, Decode, EncodeMovz, EncodeMovk, Half, Low, Shift;
    instructions := [];
    var zeroed := false;
    MoveNothing(value);
    for offset := 0 to halves
      invariant |instructions| == offset
      invariant zeroed <==> Low(value, offset) != 0
      invariant forall i :: 0 <= i < offset ==> instructions[i] == MoveAt(register, value, i)
      invariant forall i :: 0 <= i < offset ==>
        IsWord(instructions[i]) && (instructions[i] == 0 <==> Half(value, i) == 0)
      invariant forall before :: RunMoves(instructions, before) == if zeroed then Low(value, offset) else before
    {
      LowNonZero(value, offset);
      MoveAtIsWord(register, value, offset);
      var offsetValue := Half(value, offset);
      var instruction := 0;
      if offsetValue != 0 {
        if zeroed {
          instruction := EncodeMovk(register, offsetValue, offset, 1);
        } else {
          instruction := EncodeMovz(register, offsetValue, offset, 1);
          zeroed := true;
        }
      }
      assert instruction == MoveAt(register, value, offset);
      forall before
        ensures RunMoves(instructions + [instruction], before) == if zeroed then Low(value, offset + 1) else before
      {
        MoveExtends(instructions, register, value, offset, before);
      }
      instructions := instructions + [instruction];
    }
    LowAll(value, halves);
    if value == 0 {
      assert RunMoves(instructions, 1) == 1;
    }
  }

  lemma LowAll(value: int, halves: nat)
    requires halves <= 4 && 0 <= value < Shift(halves)
    ensures Low(value, halves) == value
  {
  }

  lemma MoveNothing(value: int)
    ensures Low(value, 0) == 0
    ensures forall before :: RunMoves([], before) == before
  {
  }

  lemma RunMovesSnoc(words: seq<int>, w: int, before: int)
    ensures RunMoves(words + [w], before) ==
      if w == 0 then RunMoves(words, before) else MoveWide(Decode(w), RunMoves(words, before))
  {
    assert (words + [w])[..|words|] == words;
  }
}
