/** Decimal text of natural numbers, as lexical_cast and address_v4::to_string print them. */
module Decimal {
  import opened Bytes

  const DOT: byte := 46
  const COLON: byte := 58

  function Text(n: nat): (t: seq<byte>)
    ensures |t| > 0 && forall c :: c in t ==> 48 <= c <= 57
  {
    if n < 10 then [(48 + n) as byte] else Text(n / 10) + [(48 + n % 10) as byte]
  }

  /** The value of a string of digits. */
  function Number(t: seq<byte>): int
  {
    if t == [] then 0 else Number(t[..|t| - 1]) * 10 + (t[|t| - 1] as int - 48)
  }

  lemma {:induction false} NumberOfText(n: nat)
    ensures Number(Text(n)) == n
  {
    if n >= 10 {
      NumberOfText(n / 10);
      var t := Text(n);
      assert t[..|t| - 1] == Text(n / 10);
    } else {
      assert Text(n)[..0] == [];
    }
  }

  /** No leading zero, so the text is the only one for its number. */
  lemma {:induction false} TextIsCanonical(n: nat)
    ensures if n == 0 then Text(n) == [48] else Text(n)[0] != 48
  {
    if n < 10 {
    } else {
      TextIsCanonical(n / 10);
    }
  }

  lemma {:induction false} TextLength(n: nat, k: nat)
    requires k > 0 && n < Power10(k)
    ensures |Text(n)| <= k
  {
    if n < 10 {
    } else {
      assert k > 1;
      assert n / 10 < Power10(k - 1);
      TextLength(n / 10, k - 1);
    }
  }

  function Power10(k: nat): nat { if k == 0 then 1 else 10 * Power10(k - 1) }

  lemma PortLength(port: uint16)
    ensures |Text(port)| <= 5
  {
    assert Power10(5) == 100000;
    TextLength(port, 5);
  }
}
