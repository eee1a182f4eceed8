/** SHA-1 and AES as uninterpreted functions, and the counter mode that protocol/CellEncrypter.cpp
    and protocol/HybridEncryption.cpp run through AES_ctr128_encrypt: a 16-byte counter block, the
    encrypted block it last produced, and the number of bytes of that block already used. */
module CounterMode {
  import opened Bytes

  type Hash20 = s: seq<byte> | |s| == 20 witness Zeros(20)
  type Block = s: seq<byte> | |s| == 16 witness Zeros(16)

  datatype Crypto = Crypto(sha1: seq<byte> -> Hash20, aes: (Block, Block) -> Block)

  // ---------------------------------------------------------------- the one-shot stream

  function Counter(k: nat): Block { BigEndian(k, 16) }

  /** Byte p of the keystream: byte p mod 16 of the encryption of counter p div 16. */
  function KeystreamByte(c: Crypto, key: Block, p: nat): byte
  {
    c.aes(key, Counter(p / 16))[p % 16]
  }

  function Keystream(c: Crypto, key: Block, p: nat, n: nat): (s: seq<byte>)
    ensures |s| == n
  {
    seq(n, i requires 0 <= i < n => KeystreamByte(c, key, p + i))
  }

  lemma KeystreamSplit(c: Crypto, key: Block, p: nat, m: nat, n: nat)
    ensures Keystream(c, key, p, m) + Keystream(c, key, p + m, n) == Keystream(c, key, p, m + n)
  {
  }

  /** The payloads encrypted one after the other, each starting where the last one stopped. */
  function EncryptEach(c: Crypto, key: Block, p: nat, payloads: seq<seq<byte>>): seq<seq<byte>>
    decreases payloads
  {
    if payloads == [] then []
    else [XorSeq(payloads[0], Keystream(c, key, p, |payloads[0]|))]
         + EncryptEach(c, key, p + |payloads[0]|, payloads[1..])
  }

  /** Carrying the position from payload to payload is the same as one encryption of all of them. */
  lemma {:induction false} CarryingRefinesOneShot(c: Crypto, key: Block, p: nat, payloads: seq<seq<byte>>)
    ensures Flatten(EncryptEach(c, key, p, payloads))
         == XorSeq(Flatten(payloads), Keystream(c, key, p, |Flatten(payloads)|))
    decreases payloads
  {
    if payloads == [] {
    } else {
      var a, rest := payloads[0], Flatten(payloads[1..]);
      CarryingRefinesOneShot(c, key, p + |a|, payloads[1..]);
      KeystreamSplit(c, key, p, |a|, |rest|);
      assert EncryptEach(c, key, p, payloads)[1..] == EncryptEach(c, key, p + |a|, payloads[1..]);
      assert XorSeq(a + rest, Keystream(c, key, p, |a| + |rest|))
          == XorSeq(a, Keystream(c, key, p, |a|)) + XorSeq(rest, Keystream(c, key, p + |a|, |rest|));
    }
  }

  // ---------------------------------------------------------------- stepping the counter block

  /** One more than a big-endian number of |s| digits, wrapping to zero. */
  function Increment(s: seq<byte>): (r: seq<byte>)
    ensures |r| == |s|
  {
    if s == [] then []
    else if s[|s| - 1] == 255 then Increment(s[..|s| - 1]) + [0]
    else s[..|s| - 1] + [s[|s| - 1] + 1]
  }

  lemma {:induction false} IncrementCounts(k: nat, n: nat)
    ensures Increment(BigEndian(k, n)) == BigEndian(k + 1, n)
  {
    if n == 0 {
    } else {
      var s := BigEndian(k, n);
      assert s[..n - 1] == BigEndian(k / 256, n - 1);
      if k % 256 == 255 {
        assert (k + 1) / 256 == k / 256 + 1;
        IncrementCounts(k / 256, n - 1);
      }
    }
  }

  method IncrementBlock(iv: array<byte>)
    requires iv.Length == 16
    modifies iv
    ensures iv[..] == Increment(old(iv[..]))
  {
    var i := 16;
    assert iv[..16] == iv[..];
    while i > 0
      invariant 0 <= i <= 16
      invariant iv[..i] == old(iv[..i])
      invariant iv[i..] == Zeros(16 - i)
      invariant Increment(old(iv[..])) == Increment(old(iv[..i])) + Zeros(16 - i)
    {
      ghost var before := old(iv[..i]);
      assert before[..i - 1] == old(iv[..i - 1]);
      i := i - 1;
      if iv[i] == 255 {
        iv[i] := 0;
        assert iv[i..] == [0] + Zeros(15 - i) == Zeros(16 - i);
        assert Increment(before) == Increment(old(iv[..i])) + [0];
      } else {
        iv[i] := iv[i] + 1;
        assert iv[..] == iv[..i] + [iv[i]] + iv[i + 1..];
        return;
      }
    }
    assert iv[..] == iv[i..];
  }

  // ---------------------------------------------------------------- AES_ctr128_encrypt

  /** The block, leftover and count describe position p of the stream under key. */
  ghost predicate StateAt(c: Crypto, key: Block, iv: seq<byte>, ec: seq<byte>, num: nat, p: nat)
  {
    && |iv| == 16 && |ec| == 16
    && num == p % 16
    && iv == Counter((p + 15) / 16)
    && (num != 0 ==> ec == c.aes(key, Counter(p / 16)))
  }

  lemma RefillPoint(c: Crypto, key: Block, iv: seq<byte>, ec: seq<byte>, num: nat, p: nat)
    requires StateAt(c, key, iv, ec, num, p)
    ensures num == 0 ==> iv == Counter(p / 16)
    ensures num != 0 ==> iv == Counter(p / 16 + 1)
  {
  }

  lemma AfterByte(c: Crypto, key: Block, iv: seq<byte>, ec: seq<byte>, num: nat, p: nat)
    requires num == p % 16 && iv == Counter(p / 16 + 1)
    requires ec == c.aes(key, Counter(p / 16))
    ensures StateAt(c, key, iv, ec, (num + 1) % 16, p + 1)
  {
    assert (p + 1 + 15) / 16 == p / 16 + 1;
    if (num + 1) % 16 != 0 {
      assert (p + 1) / 16 == p / 16;
    }
  }

  method NextBlock(c: Crypto, key: Block, iv: array<byte>, ec: array<byte>, ghost q: nat)
    requires iv.Length == 16 && ec.Length == 16 && iv != ec && iv[..] == Counter(q)
    modifies iv, ec
    ensures ec[..] == c.aes(key, Counter(q)) && iv[..] == Counter(q + 1)
  {
    var block := c.aes(key, iv[..]);
    forall i | 0 <= i < 16 {
      ec[i] := block[i];
    }
    assert ec[..] == block;
    assert iv[..] == BigEndian(q, 16);
    IncrementBlock(iv);
    IncrementCounts(q, 16);
  }

  /** One turn of the loop: a new block when the last one is used up, then its next byte. */
  method NextByte(c: Crypto, key: Block, iv: array<byte>, ec: array<byte>, num: nat, ghost p: nat)
    returns (b: byte, num': nat)
    requires iv != ec && StateAt(c, key, iv[..], ec[..], num, p)
    modifies iv, ec
    ensures b == KeystreamByte(c, key, p)
    ensures StateAt(c, key, iv[..], ec[..], num', p + 1)
  {
    RefillPoint(c, key, iv[..], ec[..], num, p);
    if num == 0 {
      NextBlock(c, key, iv, ec, p / 16);
    }
    AfterByte(c, key, iv[..], ec[..], num, p);
    b := ec[num];
    assert b == ec[..][num];
    num' := (num + 1) % 16;
  }

  /** Encrypts len bytes from src[from..] into dst[to..]; iv, ec and the returned count carry on. */
  method Ctr128Encrypt(c: Crypto, key: Block, src: array<byte>, from: nat, dst: array<byte>, to: nat, len: nat,
                       iv: array<byte>, ec: array<byte>, num: nat, ghost p: nat)
    returns (num': nat)
    requires from + len <= src.Length && to + len <= dst.Length
    requires src != dst && src != iv && src != ec && dst != iv && dst != ec && iv != ec
    requires StateAt(c, key, iv[..], ec[..], num, p)
    modifies dst, iv, ec
    ensures StateAt(c, key, iv[..], ec[..], num', p + len)
    ensures dst[..] == Splice(old(dst[..]), to, XorSeq(src[from..from + len], Keystream(c, key, p, len)))
  {
    num' := num;
    var k := 0;
    ghost var pad := Keystream(c, key, p, len);
    ghost var text := src[from..from + len];
    while k < len
      invariant 0 <= k <= len
      invariant StateAt(c, key, iv[..], ec[..], num', p + k)
      invariant dst[..] == Splice(old(dst[..]), to, XorSeq(text[..k], pad[..k]))
    {
      var b;
      b, num' := NextByte(c, key, iv, ec, num', p + k);
      assert b == pad[k] && src[from + k] == text[k];
      ghost var before := dst[..];
      dst[to + k] := Xor(src[from + k], b);
      SpliceOneMore(old(dst[..]), to, text, pad, k, before, dst[..]);
      k := k + 1;
    }
    assert text[..len] == text && pad[..len] == pad;
  }

  lemma SpliceOneMore(s: seq<byte>, to: nat, text: seq<byte>, pad: seq<byte>, k: nat, before: seq<byte>, after: seq<byte>)
    requires |text| == |pad| && k < |text| && to + |text| <= |s|
    requires before == Splice(s, to, XorSeq(text[..k], pad[..k]))
    requires after == before[to + k := Xor(text[k], pad[k])]
    ensures after == Splice(s, to, XorSeq(text[..k + 1], pad[..k + 1]))
  {
  }

  lemma ZeroCounter()
    ensures Counter(0) == Zeros(16)
  {
    ZeroDigits(16);
  }

  lemma {:induction false} ZeroDigits(n: nat)
    ensures BigEndian(0, n) == Zeros(n)
  {
    if n == 0 {
    } else {
      ZeroDigits(n - 1);
    }
  }
}
