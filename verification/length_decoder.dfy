/**
 The renderer's x86 length decoder, the patch length it picks for a native prologue, and the
 trampoline that stands in for the displaced instructions. Everything is stated over the
 decoder's own grammar, not over the processor manual.
 */
module LengthDecoder {
  import opened Common
  import opened MdbgIo
  import opened HookProtocol
  import opened StraightLine

  const TRAMPOLINE_CAPACITY: nat := 128

  // ---------- The grammar ----------

  predicate IgnoredPrefix(b: Byte)
  {
    || b == 0xf0 || b == 0xf2 || b == 0xf3 || b == 0x2e || b == 0x36 || b == 0x3e
    || b == 0x26 || b == 0x64 || b == 0x65
  }

  predicate RexPrefix(b: Byte)
  {
    0x40 <= b <= 0x4f
  }

  predicate RexW(b: Byte)
  {
    b / 8 % 2 == 1
  }

  /** Where the prefixes end; the last REX byte decides `rexW`. */
  datatype Scan = NoOpcode | Opcode(cursor: nat, rexW: bool, operand16: bool)

  function SkipPrefixes(code: seq<Byte>, cursor: nat, rexW: bool, operand16: bool): (s: Scan)
    ensures s.Opcode? ==> cursor <= s.cursor < |code|
    decreases |code| - cursor
  {
    if cursor >= |code| then NoOpcode
    else if code[cursor] == 0x66 then SkipPrefixes(code, cursor + 1, rexW, true)
    else if code[cursor] == 0x67 then NoOpcode
    else if IgnoredPrefix(code[cursor]) then SkipPrefixes(code, cursor + 1, rexW, operand16)
    else if RexPrefix(code[cursor]) then SkipPrefixes(code, cursor + 1, RexW(code[cursor]), operand16)
    else Opcode(cursor, rexW, operand16)
  }

  /** What follows an opcode byte. */
  datatype Form = Plain(immediate: nat) | WithModRm(immediate: nat) | TwoByte | Refused

  predicate TakesModRmOnly(b: Byte)
  {
    || b == 0x01 || b == 0x03 || b == 0x09 || b == 0x0b || b == 0x21 || b == 0x23
    || b == 0x29 || b == 0x2b || b == 0x31 || b == 0x33 || b == 0x39 || b == 0x3b
    || b == 0x63 || b == 0x85 || b == 0x87 || b == 0x89 || b == 0x8b || b == 0x8d
  }

  predicate TakesModRmAndByte(b: Byte)
  {
    b == 0x80 || b == 0x82 || b == 0x83 || b == 0xc6
  }

  function OpcodeForm(opcode: Byte, rexW: bool, operand16: bool): Form
  {
    var word := if operand16 then 2 else 4;
    if 0x50 <= opcode <= 0x5f || opcode == 0x90 then Plain(0)
    else if opcode == 0x68 then Plain(word)
    else if opcode == 0x6a then Plain(1)
    else if 0xb8 <= opcode <= 0xbf then Plain(if rexW then 8 else word)
    else if TakesModRmOnly(opcode) then WithModRm(0)
    else if TakesModRmAndByte(opcode) then WithModRm(1)
    else if opcode == 0x81 || opcode == 0xc7 then WithModRm(word)
    else if opcode == 0x0f then TwoByte
    else Refused
  }

  predicate RelocatableSecondByte(b: Byte)
  {
    b == 0x1e || b == 0x1f || b == 0xb6 || b == 0xb7 || b == 0xbe || b == 0xbf
  }

  function Fits(code: seq<Byte>, n: nat): nat
  {
    if n <= |code| then n else 0
  }

  function Displacement(mod: nat): nat
  {
    if mod == 1 then 1 else if mod == 2 then 4 else 0
  }

  /** The instruction's length, given where its ModRM byte is and how long its immediate is. */
  function ModRmLength(code: seq<Byte>, cursor: nat, immediate: nat): nat
  {
    if cursor >= |code| then 0 else
    var mod, rm := code[cursor] / 64, code[cursor] % 8;
    if mod == 0 && rm == 5 then 0
    else if mod != 3 && rm == 4 then
      if cursor + 1 >= |code| then 0 else
      var noBase := if mod == 0 && code[cursor + 1] % 8 == 5 then 4 else 0;
      Fits(code, cursor + 2 + noBase + Displacement(mod) + immediate)
    else Fits(code, cursor + 1 + Displacement(mod) + immediate)
  }

  function LengthFrom(code: seq<Byte>, s: Scan): nat
    requires s.Opcode? ==> s.cursor < |code|
  {
    if s.NoOpcode? then 0 else
    match OpcodeForm(code[s.cursor], s.rexW, s.operand16)
    case Plain(immediate) => Fits(code, s.cursor + 1 + immediate)
    case WithModRm(immediate) => ModRmLength(code, s.cursor + 1, immediate)
    case TwoByte =>
      if s.cursor + 1 < |code| && RelocatableSecondByte(code[s.cursor + 1])
      then ModRmLength(code, s.cursor + 2, 0)
      else 0
    case Refused => 0
  }

  /** Zero when the first instruction of `code` is not one the renderer may relocate. */
  function InstructionLength(code: seq<Byte>): (n: nat)
    ensures n <= |code|
  {
    LengthFrom(code, SkipPrefixes(code, 0, false, false))
  }

  // ---------- The decoder ----------

  /** `decode_relocatable_instruction`. */
  method DecodeRelocatable(code: seq<Byte>, available: nat) returns (n: nat)
    requires available <= |code|
    ensures n == InstructionLength(code[..available])
  {
    ghost var view := code[..available];
    var cursor, rexW, operand16 := 0, false, false;
    while cursor < available
      invariant cursor <= available
      invariant SkipPrefixes(view, 0, false, false) == SkipPrefixes(view, cursor, rexW, operand16)
    {
      var byte := code[cursor];
      if byte == 0x66 {
        operand16 := true;
      } else if byte == 0x67 {
        return 0;
      } else if IgnoredPrefix(byte) {
      } else if RexPrefix(byte) {
        rexW := RexW(byte);
      } else {
        break;
      }
      cursor := cursor + 1;
    }
    if cursor >= available {
      return 0;
    }
    var opcode := code[cursor];
    cursor := cursor + 1;
    var word := if operand16 then 2 else 4;
    if 0x50 <= opcode <= 0x5f || opcode == 0x90 {
      return cursor;
    }
    if opcode == 0x68 {
      return if cursor + word <= available then cursor + word else 0;
    }
    if opcode == 0x6a {
      return if cursor + 1 <= available then cursor + 1 else 0;
    }
    if 0xb8 <= opcode <= 0xbf {
      var immediate := if rexW then 8 else word;
      return if cursor + immediate <= available then cursor + immediate else 0;
    }
    if opcode == 0xe8 || opcode == 0xe9 || opcode == 0xeb || 0x70 <= opcode <= 0x7f || 0xe0 <= opcode <= 0xe3 {
      return 0;
    }
    var immediate := 0;
    if TakesModRmAndByte(opcode) {
      immediate := 1;
    } else if opcode == 0x81 || opcode == 0xc7 {
      immediate := word;
    } else if opcode == 0x0f {
      if cursor >= available {
        return 0;
      }
      var second := code[cursor];
      cursor := cursor + 1;
      if !RelocatableSecondByte(second) {
        return 0;
      }
    } else if !TakesModRmOnly(opcode) {
      return 0;
    }
    n := DecodeOperands(code, available, cursor, immediate);
  }

  /** The tail of the decoder, from the ModRM byte on: SIB byte, displacement, immediate. */
  method DecodeOperands(code: seq<Byte>, available: nat, start: nat, immediate: nat) returns (n: nat)
    requires available <= |code|
    ensures n == ModRmLength(code[..available], start, immediate)
  {
    var cursor := start;
    if cursor >= available {
      return 0;
    }
    var mod, rm := code[cursor] / 64, code[cursor] % 8;
    cursor := cursor + 1;
    if mod != 3 && rm == 4 {
      if cursor >= available {
        return 0;
      }
      var base := code[cursor] % 8;
      cursor := cursor + 1;
      if mod == 0 && base == 5 {
        if cursor + 4 > available {
          return 0;
        }
        cursor := cursor + 4;
      }
    } else if mod == 0 && rm == 5 {
      return 0;
    }
    if mod == 1 {
      if cursor + 1 > available {
        return 0;
      }
      cursor := cursor + 1;
    } else if mod == 2 {
      if cursor + 4 > available {
        return 0;
      }
      cursor := cursor + 4;
    }
    if cursor + immediate > available {
      return 0;
    }
    return cursor + immediate;
  }

  // ---------- Self-delimiting ----------

  lemma {:induction false} PrefixesAgree(a: seq<Byte>, b: seq<Byte>, n: nat, cursor: nat, w: bool, o: bool)
    requires AgreeUpTo(a, b, n) && SkipPrefixes(a, cursor, w, o).Opcode?
    requires SkipPrefixes(a, cursor, w, o).cursor < n
    ensures SkipPrefixes(b, cursor, w, o) == SkipPrefixes(a, cursor, w, o)
    decreases n - cursor
  {
    assert a[cursor] == b[cursor];
    if a[cursor] == 0x66 {
      PrefixesAgree(a, b, n, cursor + 1, w, true);
    } else if IgnoredPrefix(a[cursor]) {
      PrefixesAgree(a, b, n, cursor + 1, w, o);
    } else if RexPrefix(a[cursor]) {
      PrefixesAgree(a, b, n, cursor + 1, RexW(a[cursor]), o);
    }
  }

  /** A positive length depends only on the bytes it counts: no other decoding shares them. */
  lemma SelfDelimiting(a: seq<Byte>, b: seq<Byte>)
    requires InstructionLength(a) > 0 && AgreeUpTo(a, b, InstructionLength(a))
    ensures InstructionLength(b) == InstructionLength(a)
  {
    var n, s := InstructionLength(a), SkipPrefixes(a, 0, false, false);
    assert s.cursor < n;
    PrefixesAgree(a, b, n, 0, false, false);
  }

  // ---------- The patch length ----------

  lemma DecoderSelfDelimits()
    ensures SelfDelimits(InstructionLength)
  {
    forall a, b | InstructionLength(a) > 0 && AgreeUpTo(a, b, InstructionLength(a))
      ensures InstructionLength(b) == InstructionLength(a)
    {
      SelfDelimiting(a, b);
    }
  }

  /** A method that is already a jump has no native prologue. */
  lemma DecoderRefusesJumps()
    ensures RefusesJumps(InstructionLength)
  {
    forall code: seq<Byte> | StartsWithJump(code) ensures InstructionLength(code) == 0 {
      assert code[0] == JUMP_PREFIX[0] == 0xff;
      assert SkipPrefixes(code, 0, false, false) == Opcode(0, false, false);
    }
  }

  /** `native_patch_length`: zero, or the least boundary that makes room for an absolute jump. */
  method NativePatchLength(code: Code) returns (length: nat)
    ensures length == 0 ==>
              forall n :: JUMP_SIZE <= n <= PATCH_SIZE ==> !Boundary(InstructionLength, code, n)
    ensures length != 0 ==>
              && JUMP_SIZE <= length <= PATCH_SIZE && Boundary(InstructionLength, code, length)
              && forall n :: JUMP_SIZE <= n < length ==> !Boundary(InstructionLength, code, n)
  {
    DecoderSelfDelimits();
    length := 0;
    while length < JUMP_SIZE
      invariant length <= PATCH_SIZE && Boundary(InstructionLength, code, length)
      invariant forall n :: JUMP_SIZE <= n < length ==> !Boundary(InstructionLength, code, n)
    {
      var decoded := DecodeRelocatable(code[length..], PATCH_SIZE - length);
      assert code[length..][..PATCH_SIZE - length] == code[length..];
      forall n | length < n <= PATCH_SIZE
        ensures decoded == 0 || n < length + decoded ==> !Boundary(InstructionLength, code, n)
        ensures n == length + decoded ==> Boundary(InstructionLength, code, n)
      {
        NextBoundary(InstructionLength, code, length, n);
      }
      if decoded == 0 {
        return 0;
      }
      length := length + decoded;
    }
  }

  // ---------- The trampoline ----------

  /** `prepare_trampoline`: displaced instructions, then a jump to what follows them. */
  method PrepareTrampoline(trampoline: array<Byte>, original: seq<Byte>, size: nat,
                           continuation: Option<Word64>)
    returns (ok: bool)
    requires size <= |original| && trampoline.Length >= TRAMPOLINE_CAPACITY
    modifies trampoline
    ensures ok <==> size != 0 && size + (if continuation.Some? then JUMP_SIZE else 0) <= TRAMPOLINE_CAPACITY
    ensures !ok ==> trampoline[..] == old(trampoline[..])
    ensures ok ==>
              var written := original[..size] +
                if continuation.Some? then JumpBytes(continuation.value) else [];
              trampoline[..] == written + old(trampoline[..])[|written|..]
  {
    var tail := if continuation.Some? then JumpBytes(continuation.value) else [];
    if size == 0 || size + |tail| > TRAMPOLINE_CAPACITY {
      return false;
    }
    forall i | 0 <= i < size {
      trampoline[i] := original[i];
    }
    forall i | 0 <= i < |tail| {
      trampoline[size + i] := tail[i];
    }
    ok := true;
  }

  /**
   The detour of a native prologue is transparent, whatever the instructions do: see
   `TrampolineStandsIn`, here with the renderer's own decoder and patch length.
   */
  lemma NativeDetour<S>(original: Memory, patched: Memory, effect: (S, seq<Byte>) -> S, state: S,
                        methodAddress: int, trampoline: int, hook: Word64, length: nat)
    returns (n: nat, reached: Cpu<S>)
    requires 0 <= methodAddress < TWO64 - PATCH_SIZE && JUMP_SIZE <= length <= PATCH_SIZE
    requires Boundary(InstructionLength, Window(original, methodAddress, PATCH_SIZE), length)
    requires Window(patched, trampoline, length) == Window(original, methodAddress, length)
    requires Window(patched, trampoline + length, JUMP_SIZE) == JumpBytes(methodAddress + length)
    requires Window(patched, methodAddress, PATCH_SIZE) ==
             HookedCode(Window(original, methodAddress, PATCH_SIZE), length, hook)
    ensures reached.pc == methodAddress + length
    ensures Run(InstructionLength, original, effect, Cpu(state, methodAddress), n) == Some(reached)
    ensures Run(InstructionLength, patched, effect, Cpu(state, trampoline), n + 1) == Some(reached)
    ensures Run(InstructionLength, patched, effect, Cpu(state, methodAddress), 1) == Some(Cpu(state, hook))
  {
    DecoderSelfDelimits();
    DecoderRefusesJumps();
    n, reached := TrampolineStandsIn(InstructionLength, original, patched, effect, state,
                                     methodAddress, trampoline, length);
    HookIsReached(InstructionLength, patched, effect, state, methodAddress, hook,
                  Window(original, methodAddress, PATCH_SIZE), length);
  }
}
