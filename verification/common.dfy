/** Machine words, little-endian encoding and target memory, shared by every module. */
module Common {

  datatype Option<+T> = None | Some(value: T)

  const TWO32: int := 0x1_0000_0000
  const TWO64: int := 0x1_0000_0000_0000_0000

  type Byte = b: int | 0 <= b < 256
  type Word32 = w: int | 0 <= w < TWO32
  type Word64 = w: int | 0 <= w < TWO64

  /** The address space of a process: one byte at every address. */
  type Memory = int -> Byte

  const EPERM: int := 1
  const EIO: int := 5
  const EFAULT: int := 14
  const EINVAL: int := 22
  const ENOTSUP: int := 45

  /** Unsigned 64-bit addition: what `uintptr_t` arithmetic does. */
  function Add64(a: int, b: int): (r: Word64)
  {
    (a + b) % TWO64
  }

  function Min(a: int, b: int): int
  {
    if a < b then a else b
  }

  function Max(a: int, b: int): int
  {
    if a < b then b else a
  }

  function Abs(a: int): nat
  {
    if a < 0 then -a else a
  }

  // ---------- Bytes ----------

  function Zeros(n: nat): (s: seq<Byte>)
    ensures |s| == n && forall i :: 0 <= i < n ==> s[i] == 0
  {
    seq(n, _ => 0)
  }

  /** The `n` bytes of `m` that start at `address`. */
  function Window(m: Memory, address: int, n: nat): (s: seq<Byte>)
    ensures |s| == n && forall i :: 0 <= i < n ==> s[i] == m(address + i)
  {
    seq(n, i => m(address + i))
  }

  /** `s` with the bytes from `offset` on replaced by `patch`. */
  function Overlay(s: seq<Byte>, offset: nat, patch: seq<Byte>): (r: seq<Byte>)
    requires offset + |patch| <= |s|
    ensures |r| == |s|
    ensures forall i :: 0 <= i < |s| ==>
              r[i] == if offset <= i < offset + |patch| then patch[i - offset] else s[i]
  {
    s[..offset] + patch + s[offset + |patch|..]
  }

  /** Two memories that agree at every address outside [address, address + n). */
  ghost predicate SameOutside(m: Memory, m': Memory, address: int, n: nat)
  {
    forall a :: a < address || address + n <= a ==> m'(a) == m(a)
  }

  ghost predicate SameMemory(m: Memory, m': Memory)
  {
    forall a :: m'(a) == m(a)
  }

  // ---------- Little-endian words ----------

  function ToBytes(n: nat, v: nat): (s: seq<Byte>)
    ensures |s| == n
    decreases n, v
  {
    if n == 0 then [] else [v % 256] + ToBytes(n - 1, v / 256)
  }

  function FromBytes(s: seq<Byte>): nat
  {
    if s == [] then 0 else s[0] + 256 * FromBytes(s[1..])
  }

  function Pow256(n: nat): (p: nat)
    ensures p > 0
  {
    if n == 0 then 1 else 256 * Pow256(n - 1)
  }

  lemma {:induction false} FromToBytes(n: nat, v: nat)
    requires v < Pow256(n)
    ensures FromBytes(ToBytes(n, v)) == v
  {
    if n > 0 {
      FromToBytes(n - 1, v / 256);
      assert ToBytes(n, v)[1..] == ToBytes(n - 1, v / 256);
    }
  }

  lemma QuotientIs(a: nat, b: nat, q: nat)
    requires b > 0 && q * b <= a < (q + 1) * b
    ensures a / b == q
  {
    var t := a / b;
    assert t * b <= a < (t + 1) * b;
    if t < q {
      TimesGrows(t + 1, q, b);
    } else if t > q {
      TimesGrows(q + 1, t, b);
    }
  }

  lemma TimesGrows(x: nat, y: nat, b: nat)
    requires x <= y
    ensures x * b <= y * b
  {
    assert y * b == x * b + (y - x) * b;
  }

  lemma DividedTwice(v: nat, p: nat)
    requires p > 0
    ensures v / (256 * p) == v / 256 / p
  {
    var q := v / 256 / p;
    assert q * p <= v / 256 < (q + 1) * p;
    assert q * (256 * p) == 256 * (q * p) && (q + 1) * (256 * p) == 256 * ((q + 1) * p);
    QuotientIs(v, 256 * p, q);
  }

  /** The lowest byte comes first. */
  lemma {:induction false} LowestFirst(n: nat, v: nat, k: nat)
    requires k < n
    ensures ToBytes(n, v)[k] == v / Pow256(k) % 256
  {
    if k > 0 {
      LowestFirst(n - 1, v / 256, k - 1);
      DividedTwice(v, Pow256(k - 1));
    }
  }

  lemma LowByte(b: Byte, rest: nat)
    ensures (b + 256 * rest) % 256 == b && (b + 256 * rest) / 256 == rest
  {
  }

  lemma {:induction false} ToFromBytes(s: seq<Byte>)
    ensures FromBytes(s) < Pow256(|s|)
    ensures ToBytes(|s|, FromBytes(s)) == s
  {
    if s != [] {
      ToFromBytes(s[1..]);
      LowByte(s[0], FromBytes(s[1..]));
      assert s == [s[0]] + s[1..];
    }
  }

  lemma Word64RoundTrip(v: Word64)
    ensures FromBytes(ToBytes(8, v)) == v
  {
    assert Pow256(8) == TWO64;
    FromToBytes(8, v);
  }

  lemma Word64FromBytes(s: seq<Byte>)
    requires |s| == 8
    ensures FromBytes(s) < TWO64 && ToBytes(8, FromBytes(s)) == s
  {
    assert Pow256(8) == TWO64;
    ToFromBytes(s);
  }

  // ---------- Exclusive or ----------

  function Pow2(n: nat): (p: nat)
    ensures p > 0
  {
    if n == 0 then 1 else 2 * Pow2(n - 1)
  }

  /** Bitwise exclusive or. */
  function Xor(a: nat, b: nat): (r: nat)
    decreases a + b
  {
    if a == 0 && b == 0 then 0 else (a + b) % 2 + 2 * Xor(a / 2, b / 2)
  }

  lemma {:induction false} XorBound(n: nat, a: nat, b: nat)
    requires a < Pow2(n) && b < Pow2(n)
    ensures Xor(a, b) < Pow2(n)
  {
    if n > 0 {
      XorBound(n - 1, a / 2, b / 2);
    }
  }

  lemma {:induction false} XorCancel(a: nat, b: nat, c: nat)
    requires Xor(a, c) == Xor(b, c)
    ensures a == b
    decreases a + b + c
  {
    if a + b + c > 0 {
      assert Xor(a, c) == (a + c) % 2 + 2 * Xor(a / 2, c / 2);
      assert Xor(b, c) == (b + c) % 2 + 2 * Xor(b / 2, c / 2);
      XorCancel(a / 2, b / 2, c / 2);
    }
  }

  lemma {:induction false} XorCommutes(a: nat, b: nat)
    ensures Xor(a, b) == Xor(b, a)
    decreases a + b
  {
    if a + b > 0 {
      XorCommutes(a / 2, b / 2);
    }
  }

  lemma {:induction false} Pow2Sum(a: nat, b: nat)
    ensures Pow2(a + b) == Pow2(a) * Pow2(b)
  {
    if a > 0 {
      Pow2Sum(a - 1, b);
    }
  }

  lemma {:induction false} Pow2Words(n: nat)
    requires n == 4
    ensures Pow2(8 * n) == TWO32 && Pow2(16 * n) == TWO64
  {
    assert Pow2(n) == 16;
    Pow2Sum(n, n);
    Pow2Sum(2 * n, 2 * n);
    Pow2Sum(4 * n, 4 * n);
    Pow2Sum(8 * n, 8 * n);
  }

  lemma Xor64Below(a: Word64, b: Word64)
    ensures Xor(a, b) < TWO64
  {
    var n: nat :| n == 4;
    Pow2Words(n);
    XorBound(16 * n, a, b);
  }

  lemma Xor32Below(a: Word32, b: Word32)
    ensures Xor(a, b) < TWO32
  {
    var n: nat :| n == 4;
    Pow2Words(n);
    XorBound(8 * n, a, b);
  }

  function Xor64(a: Word64, b: Word64): Word64
  {
    Xor64Below(a, b);
    Xor(a, b)
  }

  function Xor32(a: Word32, b: Word32): Word32
  {
    Xor32Below(a, b);
    Xor(a, b)
  }

  /** `words[0] ^ words[1] ^ ...`, from the left. */
  function XorAll(words: seq<Word64>): Word64
  {
    if words == [] then 0 else Xor64(XorAll(words[..|words| - 1]), words[|words| - 1])
  }

  lemma XorHalf(a: nat, b: nat)
    ensures Xor(a, b) / 2 == Xor(a / 2, b / 2)
  {
  }

  /** Words that differ in one place, beyond the lowest bit, have exclusive ors that do too. */
  lemma {:induction false} XorAllHalfInjective(words: seq<Word64>, i: nat, w: Word64)
    requires i < |words| && XorAll(words) / 2 == XorAll(words[i := w]) / 2
    ensures words[i] / 2 == w / 2
  {
    var n := |words| - 1;
    var other := words[i := w];
    XorHalf(XorAll(words[..n]), words[n]);
    XorHalf(XorAll(other[..n]), other[n]);
    if i < n {
      assert other[..n] == words[..n][i := w];
      XorCancel(XorAll(words[..n]) / 2, XorAll(other[..n]) / 2, words[n] / 2);
      XorAllHalfInjective(words[..n], i, w);
    } else {
      assert other[..n] == words[..n];
      var rest := XorAll(words[..n]) / 2;
      XorCommutes(rest, words[n] / 2);
      XorCommutes(rest, w / 2);
      XorCancel(words[n] / 2, w / 2, rest);
    }
  }
}
