/**
 Straight-line code under any self-delimiting length decoder: instruction boundaries, and what
 running a copy of the instructions computes.
 */
module StraightLine {
  import opened Common
  import opened MdbgIo
  import opened HookProtocol

  /** Zero for a first instruction the decoder refuses. */
  type Decoder = seq<Byte> -> nat

  ghost predicate AgreeUpTo(a: seq<Byte>, b: seq<Byte>, n: nat)
  {
    n <= |a| && n <= |b| && forall i :: 0 <= i < n ==> a[i] == b[i]
  }

  /** A positive length depends only on the bytes it counts. */
  ghost predicate SelfDelimits(len: Decoder)
  {
    && (forall code :: len(code) <= |code|)
    && (forall a, b {:trigger AgreeUpTo(a, b, len(a))} :: len(a) > 0 && AgreeUpTo(a, b, len(a)) ==> len(b) == len(a))
  }

  predicate StartsWithJump(code: seq<Byte>)
  {
    JUMP_PREFIX <= code
  }

  ghost predicate RefusesJumps(len: Decoder)
  {
    forall code {:trigger StartsWithJump(code)} :: StartsWithJump(code) ==> len(code) == 0
  }

  /** `n` is a boundary: the first `n` bytes are whole instructions. */
  predicate Boundary(len: Decoder, code: seq<Byte>, n: nat)
    decreases n
  {
    n == 0 || (0 < len(code) <= n && len(code) <= |code| && Boundary(len, code[len(code)..], n - len(code)))
  }

  lemma {:induction false} BoundariesAfter(len: Decoder, code: seq<Byte>, m: nat, n: nat)
    requires Boundary(len, code, m) && m <= n
    ensures m <= |code| && (Boundary(len, code, n) <==> Boundary(len, code[m..], n - m))
    decreases m
  {
    if m == 0 {
      assert code[0..] == code;
    } else {
      var k := len(code);
      BoundariesAfter(len, code[k..], m - k, n - k);
      assert code[k..][m - k..] == code[m..];
    }
  }

  /** From one boundary, the decoder finds the next one or shows there is none. */
  lemma NextBoundary(len: Decoder, code: seq<Byte>, m: nat, n: nat)
    requires SelfDelimits(len) && Boundary(len, code, m) && m < n
    ensures m <= |code|
    ensures len(code[m..]) == 0 ==> !Boundary(len, code, n)
    ensures n < m + len(code[m..]) ==> !Boundary(len, code, n)
    ensures n == m + len(code[m..]) ==> Boundary(len, code, n)
  {
    BoundariesAfter(len, code, m, n);
  }

  // ---------- Running it ----------

  /** A machine whose instructions act on `state` without looking at where they are. */
  datatype Cpu<S> = Cpu(state: S, pc: int)

  /** One instruction: one the decoder knows, or an absolute jump. */
  function Execute<S>(len: Decoder, m: Memory, effect: (S, seq<Byte>) -> S, c: Cpu<S>): Option<Cpu<S>>
  {
    var code := Window(m, c.pc, PATCH_SIZE);
    var n := len(code);
    if 0 < n <= PATCH_SIZE then Some(Cpu(effect(c.state, code[..n]), c.pc + n))
    else if StartsWithJump(code) then Some(Cpu(c.state, FromBytes(code[6..14])))
    else None
  }

  function Run<S>(len: Decoder, m: Memory, effect: (S, seq<Byte>) -> S, c: Cpu<S>, steps: nat): Option<Cpu<S>>
    decreases steps
  {
    if steps == 0 then Some(c)
    else
      var next := Execute(len, m, effect, c);
      if next.None? then None else Run(len, m, effect, next.value, steps - 1)
  }

  /** How many instructions the first `n` bytes are, and what they do. */
  function InstructionCount(len: Decoder, code: seq<Byte>, n: nat): nat
    requires Boundary(len, code, n)
    decreases n
  {
    if n == 0 then 0 else 1 + InstructionCount(len, code[len(code)..], n - len(code))
  }

  function Effects<S>(len: Decoder, effect: (S, seq<Byte>) -> S, state: S, code: seq<Byte>, n: nat): S
    requires Boundary(len, code, n)
    decreases n
  {
    if n == 0 then state
    else Effects(len, effect, effect(state, code[..len(code)]), code[len(code)..], n - len(code))
  }

  lemma ExecutesCopy<S>(len: Decoder, m: Memory, effect: (S, seq<Byte>) -> S, state: S, pc: int,
                        code: seq<Byte>, k: nat)
    requires SelfDelimits(len) && 0 < k == len(code) <= |code| <= PATCH_SIZE
    requires Window(m, pc, k) == code[..k]
    ensures Execute(len, m, effect, Cpu(state, pc)) == Some(Cpu(effect(state, code[..k]), pc + k))
  {
    var here := Window(m, pc, PATCH_SIZE);
    assert here[..k] == Window(m, pc, k);
    assert forall i :: 0 <= i < k ==> here[i] == here[..k][i] == code[..k][i] == code[i];
    assert AgreeUpTo(code, here, k);
    assert len(here) == k;
  }

  lemma WindowSplits(m: Memory, pc: int, code: seq<Byte>, n: nat, k: nat)
    requires k <= n <= |code| && Window(m, pc, n) == code[..n]
    ensures Window(m, pc, k) == code[..k]
    ensures Window(m, pc + k, n - k) == code[k..][..n - k]
  {
    forall i | 0 <= i < n ensures m(pc + i) == code[i] {
      assert Window(m, pc, n)[i] == code[..n][i];
    }
    forall i | 0 <= i < n - k ensures m(pc + k + i) == code[k..][i] {
      assert m(pc + (k + i)) == code[k + i];
    }
  }

  lemma RunUnfolds<S>(len: Decoder, m: Memory, effect: (S, seq<Byte>) -> S, c: Cpu<S>, next: Cpu<S>, steps: nat)
    requires Execute(len, m, effect, c) == Some(next)
    ensures Run(len, m, effect, c, steps + 1) == Run(len, m, effect, next, steps)
  {
  }

  /** Wherever the same whole instructions stand, they run to the same state and fall through. */
  lemma {:induction false} RunsStraight<S>(len: Decoder, m: Memory, effect: (S, seq<Byte>) -> S, state: S,
                                           pc: int, code: seq<Byte>, n: nat, more: nat)
    requires SelfDelimits(len) && Boundary(len, code, n) && n <= |code| <= PATCH_SIZE
    requires Window(m, pc, n) == code[..n]
    ensures Run(len, m, effect, Cpu(state, pc), InstructionCount(len, code, n) + more) ==
            Run(len, m, effect, Cpu(Effects(len, effect, state, code, n), pc + n), more)
    decreases n
  {
    if n > 0 {
      var k := len(code);
      WindowSplits(m, pc, code, n, k);
      ExecutesCopy(len, m, effect, state, pc, code, k);
      var next, rest := effect(state, code[..k]), InstructionCount(len, code[k..], n - k) + more;
      RunUnfolds(len, m, effect, Cpu(state, pc), Cpu(next, pc + k), rest);
      RunsStraight(len, m, effect, next, pc + k, code[k..], n - k, more);
    }
  }

  /** `code` starts with an absolute jump the decoder does not mistake for an instruction. */
  lemma JumpIsTaken<S>(len: Decoder, m: Memory, effect: (S, seq<Byte>) -> S, c: Cpu<S>, target: Word64)
    requires RefusesJumps(len)
    requires Window(m, c.pc, JUMP_SIZE) == JumpBytes(target)
    ensures Execute(len, m, effect, c) == Some(Cpu(c.state, target))
  {
    var code, jump := Window(m, c.pc, PATCH_SIZE), Window(m, c.pc, JUMP_SIZE);
    assert code[..JUMP_SIZE] == jump;
    assert code[..6] == jump[..6] == JUMP_PREFIX;
    assert StartsWithJump(code);
    assert code[6..14] == jump[6..] == ToBytes(8, target);
    Word64RoundTrip(target);
  }

  /** The patched method reaches the hook before any of its instructions runs. */
  lemma HookIsReached<S>(len: Decoder, patched: Memory, effect: (S, seq<Byte>) -> S, state: S,
                         methodAddress: int, hook: Word64, expected: Code, length: nat)
    requires RefusesJumps(len) && JUMP_SIZE <= length <= PATCH_SIZE
    requires Window(patched, methodAddress, PATCH_SIZE) == HookedCode(expected, length, hook)
    ensures Run(len, patched, effect, Cpu(state, methodAddress), 1) == Some(Cpu(state, hook))
  {
    assert Window(patched, methodAddress, JUMP_SIZE) == Window(patched, methodAddress, PATCH_SIZE)[..JUMP_SIZE];
    JumpIsTaken(len, patched, effect, Cpu(state, methodAddress), hook);
    RunUnfolds(len, patched, effect, Cpu(state, methodAddress), Cpu(state, hook), 0);
  }

  lemma JumpAfter<S>(len: Decoder, m: Memory, effect: (S, seq<Byte>) -> S, state: S, pc: int, steps: nat,
                     after: S, end: int, target: Word64)
    requires RefusesJumps(len) && Window(m, end, JUMP_SIZE) == JumpBytes(target)
    requires Run(len, m, effect, Cpu(state, pc), steps) == Run(len, m, effect, Cpu(after, end), 1)
    ensures Run(len, m, effect, Cpu(state, pc), steps) == Some(Cpu(after, target))
  {
    JumpIsTaken(len, m, effect, Cpu(after, end), target);
    RunUnfolds(len, m, effect, Cpu(after, end), Cpu(after, target), 0);
  }

  /** `RunsStraight` with the count and the outcome as variables. */
  lemma RunsTo<S>(len: Decoder, m: Memory, effect: (S, seq<Byte>) -> S, state: S, pc: int,
                  code: seq<Byte>, n: nat, more: nat, count: nat, after: S)
    requires SelfDelimits(len) && Boundary(len, code, n) && n <= |code| <= PATCH_SIZE
    requires Window(m, pc, n) == code[..n]
    requires count == InstructionCount(len, code, n) && after == Effects(len, effect, state, code, n)
    ensures Run(len, m, effect, Cpu(state, pc), count + more) == Run(len, m, effect, Cpu(after, pc + n), more)
  {
    RunsStraight(len, m, effect, state, pc, code, n, more);
  }

  lemma RunsThenJumps<S>(len: Decoder, m: Memory, effect: (S, seq<Byte>) -> S, state: S, pc: int,
                         code: seq<Byte>, n: nat, target: Word64, count: nat, after: S)
    requires SelfDelimits(len) && RefusesJumps(len) && Boundary(len, code, n) && n <= |code| <= PATCH_SIZE
    requires Window(m, pc, n) == code[..n] && Window(m, pc + n, JUMP_SIZE) == JumpBytes(target)
    requires count == InstructionCount(len, code, n) && after == Effects(len, effect, state, code, n)
    ensures Run(len, m, effect, Cpu(state, pc), count + 1) == Some(Cpu(after, target))
  {
    RunsTo(len, m, effect, state, pc, code, n, 1, count, after);
    JumpAfter(len, m, effect, state, pc, count + 1, after, pc + n, target);
  }

  /**
   Calling the trampoline reaches the state and the address that the unpatched method reaches
   after its displaced instructions.
   */
  lemma TrampolineStandsIn<S>(len: Decoder, original: Memory, patched: Memory,
                              effect: (S, seq<Byte>) -> S, state: S,
                              methodAddress: int, trampoline: int, length: nat)
    returns (n: nat, reached: Cpu<S>)
    requires SelfDelimits(len) && RefusesJumps(len)
    requires length <= PATCH_SIZE && 0 <= methodAddress < TWO64 - length
    requires Boundary(len, Window(original, methodAddress, PATCH_SIZE), length)
    requires Window(patched, trampoline, length) == Window(original, methodAddress, length)
    requires Window(patched, trampoline + length, JUMP_SIZE) == JumpBytes(methodAddress + length)
    ensures n == InstructionCount(len, Window(original, methodAddress, PATCH_SIZE), length)
    ensures reached == Cpu(Effects(len, effect, state, Window(original, methodAddress, PATCH_SIZE), length),
                           methodAddress + length)
    ensures Run(len, original, effect, Cpu(state, methodAddress), n) == Some(reached)
    ensures Run(len, patched, effect, Cpu(state, trampoline), n + 1) == Some(reached)
  {
    var code := Window(original, methodAddress, PATCH_SIZE);
    var after := Effects(len, effect, state, code, length);
    n, reached := InstructionCount(len, code, length), Cpu(after, methodAddress + length);
    assert Window(original, methodAddress, length) == code[..length];
    RunsTo(len, original, effect, state, methodAddress, code, length, 0, n, after);
    RunsThenJumps(len, patched, effect, state, trampoline, code, length, methodAddress + length, n, after);
  }
}
