/**
 The instructions that the renderer may relocate, put together from their parts: what the length
 decoder must accept, and how long each of them is.
 */
module InstructionGrammar {
  import opened Common
  import opened LengthDecoder

  /** ModRM byte, SIB byte when there is one, displacement. */
  datatype Operands = NoOperands | Operands(modRm: Byte, sib: Option<Byte>, displacement: seq<Byte>)

  datatype Instruction = Instruction(prefixes: seq<Byte>, opcode: seq<Byte>, operands: Operands, immediate: seq<Byte>)

  function EncodeOperands(o: Operands): seq<Byte>
  {
    match o
    case NoOperands => []
    case Operands(modRm, sib, displacement) => [modRm] + (if sib.Some? then [sib.value] else []) + displacement
  }

  function Encode(i: Instruction): seq<Byte>
  {
    i.prefixes + i.opcode + EncodeOperands(i.operands) + i.immediate
  }

  // ---------- Well-formed parts ----------

  predicate IsRex(b: Byte)
  {
    0x40 <= b < 0x50
  }

  /** Operand size, REX, lock and repeat, segment overrides. */
  predicate IsPrefix(b: Byte)
  {
    || b == 0x66 || IsRex(b)
    || b == 0xf0 || b == 0xf2 || b == 0xf3
    || b == 0x26 || b == 0x2e || b == 0x36 || b == 0x3e || b == 0x64 || b == 0x65
  }

  predicate IsShort(prefixes: seq<Byte>)
  {
    exists k :: 0 <= k < |prefixes| && prefixes[k] == 0x66
  }

  /** The last REX byte has its W bit set. */
  predicate IsWide(prefixes: seq<Byte>)
  {
    exists k :: 0 <= k < |prefixes| && 0x48 <= prefixes[k] < 0x50 && NoRexAfter(prefixes, k)
  }

  predicate NoRexAfter(prefixes: seq<Byte>, k: int)
    requires 0 <= k < |prefixes|
  {
    forall j :: k < j < |prefixes| ==> !IsRex(prefixes[j])
  }

  /** ADD, OR, AND, SUB, XOR and CMP between a register and memory or a register, either way. */
  predicate IsArithmetic(b: Byte)
  {
    b < 0x40 && (b % 8 == 1 || b % 8 == 3) && b / 8 != 2 && b / 8 != 3
  }

  /** Which opcodes take operands, and how many bytes of immediate follow. */
  predicate Takes(opcode: seq<Byte>, wide: bool, short: bool, operands: bool, immediate: nat)
  {
    var word := if short then 2 else 4;
    if |opcode| == 2 then
      && opcode[0] == 0x0f && operands && immediate == 0
      && (opcode[1] == 0x1e || opcode[1] == 0x1f || opcode[1] == 0xb6 || opcode[1] == 0xb7
          || opcode[1] == 0xbe || opcode[1] == 0xbf)
    else
      && |opcode| == 1
      && var b := opcode[0];
      || (b / 16 == 5 && !operands && immediate == 0)                              // PUSH, POP
      || (b == 0x90 && !operands && immediate == 0)                                // NOP
      || (b == 0x68 && !operands && immediate == word)                             // PUSH immediate
      || (b == 0x6a && !operands && immediate == 1)
      || (0xb8 <= b <= 0xbf && !operands && immediate == if wide then 8 else word) // MOV immediate
      || (IsArithmetic(b) && operands && immediate == 0)
      || ((b == 0x63 || b == 0x85 || b == 0x87 || b == 0x89 || b == 0x8b || b == 0x8d) && operands && immediate == 0)
      || ((b == 0x80 || b == 0x82 || b == 0x83 || b == 0xc6) && operands && immediate == 1)
      || ((b == 0x81 || b == 0xc7) && operands && immediate == word)
  }

  /** A SIB byte and a displacement as the ModRM and SIB bytes ask for; nothing relative to the code. */
  predicate Fit(o: Operands)
  {
    o.Operands? ==>
      var mod, rm := o.modRm / 64, o.modRm % 8;
      && !(mod == 0 && rm == 5)
      && (o.sib.Some? <==> mod < 3 && rm == 4)
      && |o.displacement| ==
         (if mod == 1 then 1
          else if mod == 2 then 4
          else if mod == 0 && o.sib.Some? && o.sib.value % 8 == 5 then 4
          else 0)
  }

  predicate WellFormed(i: Instruction)
  {
    && (forall k :: 0 <= k < |i.prefixes| ==> IsPrefix(i.prefixes[k]))
    && Takes(i.opcode, IsWide(i.prefixes), IsShort(i.prefixes), i.operands.Operands?, |i.immediate|)
    && Fit(i.operands)
  }

  // ---------- Prefixes ----------

  lemma OnePrefixMore(code: seq<Byte>, k: nat)
    requires k < |code|
    ensures IsShort(code[..k + 1]) <==> IsShort(code[..k]) || code[k] == 0x66
    ensures IsWide(code[..k + 1]) <==> if IsRex(code[k]) then code[k] >= 0x48 else IsWide(code[..k])
  {
    var so, more := code[..k], code[..k + 1];
    assert forall j :: 0 <= j < k ==> so[j] == more[j];
    if IsShort(so) {
      var j :| 0 <= j < k && so[j] == 0x66;
      assert more[j] == 0x66;
    }
    if code[k] == 0x66 {
      assert more[k] == 0x66;
    }
    if IsRex(code[k]) {
      if code[k] >= 0x48 {
        assert NoRexAfter(more, k);
      }
      forall j | 0 <= j < k ensures !NoRexAfter(more, j) {
        assert IsRex(more[k]);
      }
    } else {
      forall j | 0 <= j < k ensures NoRexAfter(more, j) <==> NoRexAfter(so, j) {
      }
    }
  }

  /** Over prefixes the scan keeps exactly what they mean, and stops at the first other byte. */
  lemma {:induction false} ScanFinds(code: seq<Byte>, n: nat, k: nat)
    requires k <= n < |code| && !IsPrefix(code[n]) && code[n] != 0x67
    requires forall j :: 0 <= j < n ==> IsPrefix(code[j])
    ensures SkipPrefixes(code, k, IsWide(code[..k]), IsShort(code[..k])) ==
            Opcode(n, IsWide(code[..n]), IsShort(code[..n]))
    decreases n - k
  {
    if k < n {
      OnePrefixMore(code, k);
      ScanFinds(code, n, k + 1);
    }
  }

  /** Whatever the scan skips are prefixes. */
  lemma {:induction false} ScanSkips(code: seq<Byte>, k: nat)
    requires k <= |code| && forall j :: 0 <= j < k ==> IsPrefix(code[j])
    requires SkipPrefixes(code, k, IsWide(code[..k]), IsShort(code[..k])).Opcode?
    ensures var s := SkipPrefixes(code, k, IsWide(code[..k]), IsShort(code[..k]));
            && (forall j :: 0 <= j < s.cursor ==> IsPrefix(code[j]))
            && s.rexW == IsWide(code[..s.cursor]) && s.operand16 == IsShort(code[..s.cursor])
    decreases |code| - k
  {
    if k < |code| && IsPrefix(code[k]) {
      OnePrefixMore(code, k);
      ScanSkips(code, k + 1);
    }
  }

  // ---------- Every well-formed instruction has its own length ----------

  lemma FormMeans(opcode: seq<Byte>, wide: bool, short: bool, operands: bool, immediate: nat)
    requires Takes(opcode, wide, short, operands, immediate)
    ensures !IsPrefix(opcode[0]) && opcode[0] != 0x67
    ensures OpcodeForm(opcode[0], wide, short) ==
            if |opcode| == 2 then TwoByte else if operands then WithModRm(immediate) else Plain(immediate)
    ensures |opcode| == 2 ==> RelocatableSecondByte(opcode[1]) && operands && immediate == 0
  {
  }

  /** `part` stands in `code` at `at`. */
  ghost predicate StandsAt(part: seq<Byte>, code: seq<Byte>, at: nat)
  {
    at + |part| <= |code| && forall k :: 0 <= k < |part| ==> code[at + k] == part[k]
  }

  lemma OperandsLength(code: seq<Byte>, at: nat, o: Operands, immediate: nat)
    requires o.Operands? && Fit(o) && StandsAt(EncodeOperands(o), code, at)
    ensures ModRmLength(code, at, immediate) == Fits(code, at + |EncodeOperands(o)| + immediate)
  {
    var e := EncodeOperands(o);
    assert e[0] == o.modRm && code[at + 0] == e[0];
    if o.sib.Some? {
      assert e[1] == o.sib.value && code[at + 1] == e[1];
    }
  }

  lemma PartsStand(i: Instruction, rest: seq<Byte>)
    requires i.opcode != []
    ensures var code, n := Encode(i) + rest, |i.prefixes|;
            && n + |i.opcode| <= |code| && code[..n] == i.prefixes && code[n] == i.opcode[0]
            && (|i.opcode| == 2 ==> code[n + 1] == i.opcode[1])
            && StandsAt(EncodeOperands(i.operands), code, n + |i.opcode|)
  {
  }

  /** The length from the opcode on, given what was read of the prefixes. */
  lemma LengthFromOpcode(code: seq<Byte>, n: nat, wide: bool, short: bool, opcode: seq<Byte>, o: Operands, immediate: nat)
    requires n < |code| && Takes(opcode, wide, short, o.Operands?, immediate) && Fit(o)
    requires code[n] == opcode[0] && (|opcode| == 2 ==> n + 1 < |code| && code[n + 1] == opcode[1])
    requires StandsAt(EncodeOperands(o), code, n + |opcode|)
    ensures LengthFrom(code, Opcode(n, wide, short)) ==
            Fits(code, n + |opcode| + |EncodeOperands(o)| + immediate)
  {
    FormMeans(opcode, wide, short, o.Operands?, immediate);
    if o.Operands? {
      OperandsLength(code, n + |opcode|, o, immediate);
    }
  }

  /** The scan over the prefixes of an encoded instruction. */
  lemma PrefixesOf(prefixes: seq<Byte>, code: seq<Byte>)
    requires |prefixes| < |code| && code[..|prefixes|] == prefixes
    requires forall k :: 0 <= k < |prefixes| ==> IsPrefix(prefixes[k])
    requires !IsPrefix(code[|prefixes|]) && code[|prefixes|] != 0x67
    ensures SkipPrefixes(code, 0, false, false) == Opcode(|prefixes|, IsWide(prefixes), IsShort(prefixes))
  {
    forall j | 0 <= j < |prefixes| ensures IsPrefix(code[j]) {
      assert code[j] == prefixes[j];
    }
    assert code[..0] == [];
    ScanFinds(code, |prefixes|, 0);
  }

  /** The decoder gives every well-formed instruction exactly its own length, whatever follows it. */
  lemma DecodesEveryInstruction(i: Instruction, rest: seq<Byte>)
    requires WellFormed(i)
    ensures InstructionLength(Encode(i) + rest) == |Encode(i)| > 0
  {
    var code := Encode(i) + rest;
    var wide, short := IsWide(i.prefixes), IsShort(i.prefixes);
    FormMeans(i.opcode, wide, short, i.operands.Operands?, |i.immediate|);
    PartsStand(i, rest);
    PrefixesOf(i.prefixes, code);
    LengthFromOpcode(code, |i.prefixes|, wide, short, i.opcode, i.operands, |i.immediate|);
  }

  // ---------- And only those have one ----------

  lemma FormIsTaken(b: Byte, second: Byte, wide: bool, short: bool)
    ensures match OpcodeForm(b, wide, short)
            case Plain(immediate) => Takes([b], wide, short, false, immediate)
            case WithModRm(immediate) => Takes([b], wide, short, true, immediate)
            case TwoByte => RelocatableSecondByte(second) ==> Takes([b, second], wide, short, true, 0)
            case Refused => true
  {
  }

  lemma OperandsExist(code: seq<Byte>, at: nat, immediate: nat) returns (o: Operands)
    requires ModRmLength(code, at, immediate) > 0
    ensures o.Operands? && Fit(o) && StandsAt(EncodeOperands(o), code, at)
    ensures at + |EncodeOperands(o)| + immediate == ModRmLength(code, at, immediate) <= |code|
  {
    var modRm := code[at];
    var sib := if modRm / 64 < 3 && modRm % 8 == 4 then Some(code[at + 1]) else None;
    var start := at + if sib.Some? then 2 else 1;
    var size := if modRm / 64 == 1 then 1
                else if modRm / 64 == 2 then 4
                else if modRm / 64 == 0 && sib.Some? && sib.value % 8 == 5 then 4
                else 0;
    o := Operands(modRm, sib, code[start..start + size]);
  }

  /** The instruction that starts `code`, given where its parts begin. */
  lemma PutTogether(code: seq<Byte>, i: Instruction, n: nat)
    requires StandsAt(i.prefixes, code, 0) && StandsAt(i.opcode, code, |i.prefixes|)
    requires StandsAt(EncodeOperands(i.operands), code, |i.prefixes| + |i.opcode|)
    requires StandsAt(i.immediate, code, |i.prefixes| + |i.opcode| + |EncodeOperands(i.operands)|)
    requires n == |Encode(i)|
    ensures n <= |code| && code[..n] == Encode(i)
  {
  }

  /** Prefixes and opcode of an instruction that starts `code`. */
  ghost predicate Begins(code: seq<Byte>, n: nat, opcode: seq<Byte>)
  {
    n < |code| && (forall j :: 0 <= j < n ==> IsPrefix(code[j])) && StandsAt(opcode, code, n)
  }

  lemma WithoutOperands(code: seq<Byte>, n: nat, b: Byte, immediate: nat) returns (i: Instruction)
    requires Begins(code, n, [b]) && n + 1 + immediate <= |code|
    requires Takes([b], IsWide(code[..n]), IsShort(code[..n]), false, immediate)
    ensures WellFormed(i) && |Encode(i)| == n + 1 + immediate && code[..|Encode(i)|] == Encode(i)
  {
    i := Instruction(code[..n], [b], NoOperands, code[n + 1..n + 1 + immediate]);
    PutTogether(code, i, n + 1 + immediate);
  }

  lemma WithOperands(code: seq<Byte>, n: nat, opcode: seq<Byte>, immediate: nat) returns (i: Instruction)
    requires Begins(code, n, opcode) && ModRmLength(code, n + |opcode|, immediate) > 0
    requires Takes(opcode, IsWide(code[..n]), IsShort(code[..n]), true, immediate)
    ensures WellFormed(i) && |Encode(i)| == ModRmLength(code, n + |opcode|, immediate) <= |code|
    ensures code[..|Encode(i)|] == Encode(i)
  {
    var length := ModRmLength(code, n + |opcode|, immediate);
    var o := OperandsExist(code, n + |opcode|, immediate);
    i := Instruction(code[..n], opcode, o, code[length - immediate..length]);
    PutTogether(code, i, length);
  }

  /** What has a length is a well-formed instruction of that length. */
  lemma LengthIsOfInstruction(code: seq<Byte>) returns (i: Instruction)
    requires InstructionLength(code) > 0
    ensures WellFormed(i) && |Encode(i)| == InstructionLength(code) && code[..|Encode(i)|] == Encode(i)
  {
    var s := SkipPrefixes(code, 0, false, false);
    assert code[..0] == [];
    ScanSkips(code, 0);
    var n := s.cursor;
    FormIsTaken(code[n], if n + 1 < |code| then code[n + 1] else 0, s.rexW, s.operand16);
    match OpcodeForm(code[n], s.rexW, s.operand16)
    case Plain(immediate) =>
      i := WithoutOperands(code, n, code[n], immediate);
    case WithModRm(immediate) =>
      i := WithOperands(code, n, [code[n]], immediate);
    case TwoByte =>
      i := WithOperands(code, n, [code[n], code[n + 1]], 0);
  }

  /** So a length is given to code if and only if an instruction starts it. */
  lemma LengthIff(code: seq<Byte>, n: nat)
    requires n > 0
    ensures InstructionLength(code) == n <==>
              exists i :: WellFormed(i) && |Encode(i)| == n && n <= |code| && code[..n] == Encode(i)
  {
    if InstructionLength(code) == n {
      var i := LengthIsOfInstruction(code);
    }
    forall i | WellFormed(i) && |Encode(i)| == n && n <= |code| && code[..n] == Encode(i)
      ensures InstructionLength(code) == n
    {
      DecodesEveryInstruction(i, code[n..]);
      assert code == Encode(i) + code[n..];
    }
  }
}
