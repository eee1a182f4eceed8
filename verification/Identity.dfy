/** Util::base16_encode, and ServerListing::getBase16EncodedIdentity that feeds it from base64. */
module Identity {
  import opened Bytes
  import Base64

  /** "0123456789ABCDEF"[v] */
  function Digit(v: int): byte
    requires 0 <= v < 16
  {
    if v < 10 then (48 + v) as byte else (65 + v - 10) as byte
  }

  /** The upper-case encoding of section 8 of RFC 4648. */
  function Hex(b: seq<byte>): (h: seq<byte>)
    ensures |h| == 2 * |b|
  {
    if b == [] then [] else [Digit(b[0] as int / 16), Digit(b[0] as int % 16)] + Hex(b[1..])
  }

  function DigitValue(c: byte): Option<nat>
  {
    if 48 <= c <= 57 then Some(c as int - 48) else if 65 <= c <= 70 then Some(c as int - 65 + 10) else None
  }

  /** The bytes whose encoding h is, if it is one. */
  function UnHex(h: seq<byte>): Option<seq<byte>>
  {
    if h == [] then Some([])
    else if |h| == 1 then None
    else
      var x, y, rest := DigitValue(h[0]), DigitValue(h[1]), UnHex(h[2..]);
      if x.Some? && y.Some? && rest.Some? && x.value < 16 && y.value < 16
      then Some([(x.value * 16 + y.value) as byte] + rest.value) else None
  }

  /** Table 5 of RFC 4648 position by position, and the more significant half of each byte first. */
  lemma {:induction false} HexAt(b: seq<byte>, k: nat)
    requires k < |b|
    ensures Hex(b)[2 * k] as int == "0123456789ABCDEF"[b[k] as int / 16] as int
    ensures Hex(b)[2 * k + 1] as int == "0123456789ABCDEF"[b[k] as int % 16] as int
  {
    if k == 0 {
      DigitAt(b[0] as int / 16);
      DigitAt(b[0] as int % 16);
    } else {
      HexAt(b[1..], k - 1);
    }
  }

  lemma DigitAt(v: int)
    requires 0 <= v < 16
    ensures Digit(v) as int == "0123456789ABCDEF"[v] as int
  {
  }

  /** Encoding loses nothing, and only upper-case encodings are encodings. */
  lemma {:induction false} HexRoundTrip(b: seq<byte>)
    ensures UnHex(Hex(b)) == Some(b)
  {
    if b == [] {
    } else {
      assert Hex(b)[2..] == Hex(b[1..]);
      HexRoundTrip(b[1..]);
      DigitRoundTrip(b[0] as int / 16);
      DigitRoundTrip(b[0] as int % 16);
      assert b == [b[0]] + b[1..];
    }
  }

  lemma DigitRoundTrip(v: int)
    requires 0 <= v < 16
    ensures DigitValue(Digit(v)) == Some(v)
  {
  }

  lemma {:induction false} UnHexInverts(h: seq<byte>)
    requires UnHex(h).Some?
    ensures Hex(UnHex(h).value) == h
  {
    if h == [] {
    } else {
      UnHexInverts(h[2..]);
      var b := UnHex(h).value;
      assert b[1..] == UnHex(h[2..]).value;
      assert h == [h[0], h[1]] + h[2..];
    }
  }

  lemma {:induction false} HexAppend(a: seq<byte>, b: seq<byte>)
    ensures Hex(a + b) == Hex(a) + Hex(b)
  {
    if a == [] {
      assert a + b == b;
    } else {
      assert (a + b)[1..] == a[1..] + b;
      HexAppend(a[1..], b);
    }
  }

  /** The assertion on destlen is what the code demands of its caller. */
  method Base16Encode(dest: array<byte>, destlen: int, src: array<byte>, srclen: nat)
    requires src.Length >= srclen && dest.Length >= destlen >= srclen * 2 + 1 && src != dest
    modifies dest
    ensures dest[..srclen * 2 + 1] == Hex(src[..srclen]) + [0]
    ensures forall i :: srclen * 2 + 1 <= i < dest.Length ==> dest[i] == old(dest[i])
  {
    var cp, k := 0, 0;
    while k < srclen
      invariant 0 <= k <= srclen && cp == 2 * k
      invariant dest[..cp] == Hex(src[..k])
      invariant forall i :: cp <= i < dest.Length ==> dest[i] == old(dest[i])
    {
      ghost var before := dest[..cp];
      dest[cp] := Digit(src[k] as int / 16);
      dest[cp + 1] := Digit(src[k] as int % 16);
      HexAppend(src[..k], [src[k]]);
      assert src[..k + 1] == src[..k] + [src[k]];
      assert Hex([src[k]]) == [Digit(src[k] as int / 16), Digit(src[k] as int % 16)] + Hex([src[k]][1..]);
      assert dest[..cp + 2] == before + [dest[cp], dest[cp + 1]];
      cp, k := cp + 2, k + 1;
    }
    dest[cp] := 0;
    assert dest[..cp + 1] == dest[..cp] + [0];
  }

  /** A token that cannot be decoded gives a negative length, which the code goes on to allocate with;
      that run has no meaning in the source and is a failure here. */
  method GetBase16EncodedIdentity(identityKey: seq<byte>) returns (r: Option<array<byte>>)
    ensures r.Some? <==> Base64.Decoded(identityKey).Some?
    ensures r.Some? ==> r.value[..] == Hex(Base64.Decoded(identityKey).value) + [0]
  {
    var destLen := |identityKey| * 2 + 1;
    var dest := new byte[destLen];
    destLen := Base64.Base64Decode(dest, destLen, identityKey);
    if destLen < 0 {
      return None;
    }
    var encodedLength := destLen * 2 + 1;
    var encoded := new byte[encodedLength];
    Base16Encode(encoded, encodedLength, dest, destLen);
    assert encoded[..encodedLength] == encoded[..];
    assert dest[..destLen] == Base64.Decoded(identityKey).value;
    return Some(encoded);
  }

  /** For the token that a directory prints for an identity, the unpadded base64 of its bytes, the
      result is the upper-case base16 of those bytes, twice as long. */
  lemma IdentityOfToken(b: seq<byte>)
    ensures Base64.Decoded(Base64.EncodeUnpadded(b)) == Some(b)
    ensures Base64.Decoded(Base64.Encode(b)) == Some(b)
    ensures UnHex(Hex(b)) == Some(b) && |Hex(b)| == 2 * |b|
  {
    Base64.LettersHaveNoSpace(Base64.Pack(b));
    assert Base64.EncodeUnpadded(b) + [] == Base64.EncodeUnpadded(b);
    Base64.DecodeInvertsEncode(b, Base64.EncodeUnpadded(b), []);
    Base64.EncodeHasNoSpace(b);
    Base64.DecodeInvertsEncode(b, Base64.Encode(b), Base64.Padding(|b|));
    HexRoundTrip(b);
  }
}
