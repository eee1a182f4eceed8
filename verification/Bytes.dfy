/** Bytes, fixed-width integers, the big-endian conversions of util/Util.cpp, and
    exclusive-or on bytes. */
module Bytes {

  newtype byte = x: int | 0 <= x < 256

  type uint16 = x: int | 0 <= x < 0x1_0000
  type uint32 = x: int | 0 <= x < 0x1_0000_0000

  datatype Option<+T> = None | Some(value: T)

  function Zeros(n: nat): (z: seq<byte>)
    ensures |z| == n
  {
    seq(n, _ => 0)
  }

  // ---------------------------------------------------------------- big-endian integers

  /** Util::int16ToArrayBigEndian */
  function BE16(v: uint16): (b: seq<byte>)
    ensures |b| == 2
  {
    [(v / 256) as byte, (v % 256) as byte]
  }

  /** Util::bigEndianArrayToShort */
  function ReadBE16(b: seq<byte>): uint16
    requires |b| >= 2
  {
    b[0] as int * 256 + b[1] as int
  }

  /** The more significant byte comes first, and the two conversions invert each other. */
  lemma BE16RoundTrip(v: uint16, b: seq<byte>)
    ensures BE16(v)[0] as int * 256 + BE16(v)[1] as int == v
    ensures ReadBE16(BE16(v)) == v
    ensures |b| == 2 ==> BE16(ReadBE16(b)) == b
    ensures |b| >= 2 ==> ReadBE16(b) == b[0] as int * 256 + b[1] as int
  {
  }

  /** The last n base-256 digits of k, most significant first. */
  function BigEndian(k: nat, n: nat): (b: seq<byte>)
    ensures |b| == n
  {
    if n == 0 then [] else BigEndian(k / 256, n - 1) + [(k % 256) as byte]
  }

  /** The number that a string of base-256 digits stands for, most significant first. */
  function NumberOf(b: seq<byte>): nat
  {
    if b == [] then 0 else NumberOf(b[..|b| - 1]) * 256 + b[|b| - 1] as nat
  }

  function Power256(n: nat): nat { if n == 0 then 1 else 256 * Power256(n - 1) }

  /** BigEndian gives the digits of k modulo 256^n. */
  lemma {:induction false} BigEndianValue(k: nat, n: nat)
    ensures exists q: nat :: k == q * Power256(n) + NumberOf(BigEndian(k, n))
    ensures NumberOf(BigEndian(k, n)) < Power256(n)
  {
    if n == 0 {
      assert k == k * Power256(0) + NumberOf([]);
    } else {
      BigEndianValue(k / 256, n - 1);
      var q: nat :| k / 256 == q * Power256(n - 1) + NumberOf(BigEndian(k / 256, n - 1));
      var b := BigEndian(k, n);
      assert b[..n - 1] == BigEndian(k / 256, n - 1);
      assert k == 256 * (q * Power256(n - 1)) + NumberOf(b);
      assert 256 * (q * Power256(n - 1)) == q * Power256(n);
    }
  }

  // ---------------------------------------------------------------- exclusive or

  function Pow2(n: nat): (p: nat)
  {
    if n == 0 then 1 else 2 * Pow2(n - 1)
  }

  /** Bit by bit: a result bit is 0 exactly where the operands agree. */
  function XorBits(a: nat, b: nat, n: nat): nat
  {
    if n == 0 then 0 else (if a % 2 == b % 2 then 0 else 1) + 2 * XorBits(a / 2, b / 2, n - 1)
  }

  lemma {:induction false} XorBitsRange(a: nat, b: nat, n: nat)
    ensures XorBits(a, b, n) < Pow2(n)
  {
    if n == 0 {
    } else {
      XorBitsRange(a / 2, b / 2, n - 1);
    }
  }

  lemma Halves(bit: nat, q: nat, r: nat)
    requires bit < 2 && r == bit + 2 * q
    ensures r % 2 == bit && r / 2 == q
  {
  }

  lemma {:induction false} XorBitsCancel(a: nat, b: nat, n: nat)
    requires a < Pow2(n)
    ensures XorBits(XorBits(a, b, n), b, n) == a
  {
    if n == 0 {
    } else {
      Halves(if a % 2 == b % 2 then 0 else 1, XorBits(a / 2, b / 2, n - 1), XorBits(a, b, n));
      XorBitsCancel(a / 2, b / 2, n - 1);
    }
  }

  function Xor(a: byte, b: byte): byte
  {
    XorBitsRange(a as nat, b as nat, 8);
    assert Pow2(8) == 256;
    XorBits(a as nat, b as nat, 8) as byte
  }

  /** Bit k of n, counted from the least significant. */
  function Bit(n: nat, k: nat): nat
  {
    if k == 0 then n % 2 else Bit(n / 2, k - 1)
  }

  lemma BitIsBinary(n: nat, k: nat)
    ensures Bit(n, k) <= 1
  {
  }

  lemma {:induction false} XorBitsAt(a: nat, b: nat, n: nat, k: nat)
    requires k < n
    ensures Bit(XorBits(a, b, n), k) == if Bit(a, k) == Bit(b, k) then 0 else 1
  {
    Halves(if a % 2 == b % 2 then 0 else 1, XorBits(a / 2, b / 2, n - 1), XorBits(a, b, n));
    if k == 0 {
    } else {
      XorBitsAt(a / 2, b / 2, n - 1, k - 1);
    }
  }

  /** Xor is the exclusive or of the eight bits: a bit is set exactly where the operands differ. */
  lemma XorIsBitwise(a: byte, b: byte, k: nat)
    requires k < 8
    ensures Bit(Xor(a, b) as nat, k) == 1 <==> Bit(a as nat, k) != Bit(b as nat, k)
    ensures Bit(Xor(a, b) as nat, k) <= 1
  {
    assert Pow2(8) == 256;
    XorBitsRange(a as nat, b as nat, 8);
    XorBitsAt(a as nat, b as nat, 8, k);
  }

  predicate SameBits(a: nat, b: nat, n: nat) { forall k: nat :: k < n ==> Bit(a, k) == Bit(b, k) }

  /** The bits of a byte determine it, so XorIsBitwise leaves no choice. */
  lemma BitsDetermine(a: byte, b: byte)
    requires SameBits(a as nat, b as nat, 8)
    ensures a == b
  {
    assert Pow2(8) == 256;
    BitsDetermineUpTo(a as nat, b as nat, 8);
  }

  lemma {:induction false} BitsDetermineUpTo(a: nat, b: nat, n: nat)
    requires a < Pow2(n) && b < Pow2(n) && SameBits(a, b, n)
    ensures a == b
  {
    if n == 0 {
    } else {
      assert Bit(a, 0) == Bit(b, 0);
      forall k: nat | k < n - 1 ensures Bit(a / 2, k) == Bit(b / 2, k) { assert Bit(a, k + 1) == Bit(b, k + 1); }
      BitsDetermineUpTo(a / 2, b / 2, n - 1);
    }
  }

  lemma XorCancel(a: byte, b: byte)
    ensures Xor(Xor(a, b), b) == a
  {
    assert Pow2(8) == 256;
    XorBitsRange(a as nat, b as nat, 8);
    XorBitsCancel(a as nat, b as nat, 8);
  }

  function XorSeq(a: seq<byte>, b: seq<byte>): (r: seq<byte>)
    requires |a| == |b|
    ensures |r| == |a|
  {
    seq(|a|, i requires 0 <= i < |a| => Xor(a[i], b[i]))
  }

  lemma XorSeqCancel(a: seq<byte>, b: seq<byte>)
    requires |a| == |b|
    ensures XorSeq(XorSeq(a, b), b) == a
  {
    forall i | 0 <= i < |a|
      ensures XorSeq(XorSeq(a, b), b)[i] == a[i]
    {
      XorCancel(a[i], b[i]);
    }
  }

  // ---------------------------------------------------------------- sequences

  /** s with the bytes from position i on overwritten by v. */
  function Splice(s: seq<byte>, i: nat, v: seq<byte>): (r: seq<byte>)
    requires i + |v| <= |s|
    ensures |r| == |s|
  {
    s[..i] + v + s[i + |v|..]
  }

  lemma SplitLast<T>(s: seq<T>)
    requires s != []
    ensures s[..|s| - 1] + [s[|s| - 1]] == s
  {
  }

  lemma AppendLast<T>(a: seq<T>, b: seq<T>)
    requires b != []
    ensures a + b == a + b[..|b| - 1] + [b[|b| - 1]]
  {
  }

  function Flatten<T>(parts: seq<seq<T>>): seq<T>
  {
    if parts == [] then [] else parts[0] + Flatten(parts[1..])
  }

  lemma {:induction false} FlattenAppend<T>(a: seq<seq<T>>, b: seq<seq<T>>)
    ensures Flatten(a + b) == Flatten(a) + Flatten(b)
  {
    if a == [] {
      assert a + b == b;
    } else {
      assert (a + b)[1..] == a[1..] + b;
      FlattenAppend(a[1..], b);
    }
  }
}
