/** protocol/CellEncrypter.cpp: key expansion, the running digests and the two keystreams. */
module CellEncryption {
  import opened Bytes
  import opened Cells
  import opened CounterMode
  import opened RelayCrypto

  const DIGEST_LEN := 20
  const KEY_LEN := 16
  const TOTAL_KEY_MATERIAL := 92

  // ---------------------------------------------------------------- key expansion

  /** Byte j of the expansion; the block number is stored in one unsigned char. */
  function ExpandedByte(c: Crypto, k: seq<byte>, j: nat): byte
  {
    c.sha1(k + [(j / DIGEST_LEN % 256) as byte])[j % DIGEST_LEN]
  }

  function Expansion(c: Crypto, k: seq<byte>, length: nat): (e: seq<byte>)
    ensures |e| == length
  {
    seq(length, j requires 0 <= j => ExpandedByte(c, k, j))
  }

  /** H(K | [00]) | H(K | [01]) | ... | H(K | [n - 1]), section 5.2.1 of tor-spec */
  function HashBlocks(c: Crypto, k: seq<byte>, n: nat): (b: seq<byte>)
    requires n <= 256
    ensures |b| == DIGEST_LEN * n
  {
    if n == 0 then [] else HashBlocks(c, k, n - 1) + c.sha1(k + [(n - 1) as byte])
  }

  /** For every length up to 256 blocks the loop produces a prefix of the specified stream. */
  lemma ExpansionIsHashBlocks(c: Crypto, k: seq<byte>, length: nat, n: nat)
    requires n <= 256 && length <= DIGEST_LEN * n
    ensures Expansion(c, k, length) == HashBlocks(c, k, n)[..length]
  {
    forall j | 0 <= j < length
      ensures HashBlocks(c, k, n)[j] == ExpandedByte(c, k, j)
    {
      HashBlocksAt(c, k, n, j);
    }
  }

  lemma {:induction false} HashBlocksAt(c: Crypto, k: seq<byte>, n: nat, j: nat)
    requires n <= 256 && j < DIGEST_LEN * n
    ensures HashBlocks(c, k, n)[j] == ExpandedByte(c, k, j)
  {
    if j < DIGEST_LEN * (n - 1) {
      HashBlocksAt(c, k, n - 1, j);
    } else {
      assert j / DIGEST_LEN == n - 1 && j % DIGEST_LEN == j - DIGEST_LEN * (n - 1);
    }
  }

  /** Past 256 blocks the block number wraps and the expansion starts over. */
  lemma ExpansionRepeats(c: Crypto, k: seq<byte>, length: nat, j: nat)
    requires j + 5120 < length
    ensures Expansion(c, k, length)[j + 5120] == Expansion(c, k, length)[j]
  {
  }

  function CheckValue(e: seq<byte>): seq<byte> requires |e| == TOTAL_KEY_MATERIAL { e[..20] }

  /** The state of each direction that an expansion sets up on a fresh encrypter; the relay that did
      the same handshake derives the same pair, with the directions exchanged. */
  function ForwardStart(e: seq<byte>): Half requires |e| == TOTAL_KEY_MATERIAL { Half(e[60..76], e[20..40], 0) }

  function BackStart(e: seq<byte>): Half requires |e| == TOTAL_KEY_MATERIAL { Half(e[76..92], e[40..60], 0) }

  /** The five parts cover the key material without gap or overlap. */
  lemma KeyMaterialPartition(e: seq<byte>)
    requires |e| == TOTAL_KEY_MATERIAL
    ensures e == CheckValue(e) + ForwardStart(e).absorbed + BackStart(e).absorbed + ForwardStart(e).key + BackStart(e).key
  {
  }

  // ---------------------------------------------------------------- the encrypter

  lemma CryptInPlace(c: Crypto, key: Block, p: nat, before: CellBytes, out: seq<byte>, after: CellBytes)
    requires out == XorSeq(before[3..3 + PAYLOAD_SIZE], Keystream(c, key, p, PAYLOAD_SIZE))
    requires after[..3] == before[..3] && after[3..] == out
    ensures after == Crypt(c, key, p, before)
  {
    assert after == after[..3] + after[3..];
  }

  class CellEncrypter {
    const crypto: Crypto

    var forwardKey: Block
    const forwardIV: array<byte>
    const forwardEC: array<byte>
    var forwardAesNum: nat
    var forwardDigest: seq<byte>

    var backKey: Block
    const backIV: array<byte>
    const backEC: array<byte>
    var backAesNum: nat
    var backDigest: seq<byte>

    ghost var forwardPos: nat
    ghost var backPos: nat

    ghost const Repr: set<object>

    ghost predicate Valid()
      reads this, Repr
    {
      && Repr == {this, forwardIV, forwardEC, backIV, backEC}
      && forwardIV != forwardEC && backIV != backEC && {forwardIV, forwardEC} !! {backIV, backEC}
      && StateAt(crypto, forwardKey, forwardIV[..], forwardEC[..], forwardAesNum, forwardPos)
      && StateAt(crypto, backKey, backIV[..], backEC[..], backAesNum, backPos)
    }

    ghost function Forward(): Half
      reads this
    {
      Half(forwardKey, forwardDigest, forwardPos)
    }

    ghost function Back(): Half
      reads this
    {
      Half(backKey, backDigest, backPos)
    }

    constructor (crypto: Crypto)
      ensures Valid() && fresh(Repr) && this.crypto == crypto
      ensures forwardDigest == [] && backDigest == []
      ensures forwardPos == 0 && backPos == 0 && forwardAesNum == 0 && backAesNum == 0
    {
      this.crypto := crypto;
      forwardIV, forwardEC := new byte[16](_ => 0), new byte[16](_ => 0);
      backIV, backEC := new byte[16](_ => 0), new byte[16](_ => 0);
      forwardAesNum, backAesNum, forwardPos, backPos := 0, 0, 0, 0;
      forwardDigest, backDigest := [], [];
      forwardKey, backKey := *, *;
      Repr := {this, forwardIV, forwardEC, backIV, backEC};
      new;
      ZeroCounter();
      assert forwardIV[..] == Zeros(16) && backIV[..] == Zeros(16);
    }

    method ExpandKeyMaterial(keyMaterial: seq<byte>, expanded: array<byte>)
      modifies expanded
      ensures expanded[..] == Expansion(crypto, keyMaterial, expanded.Length)
    {
      var length := |keyMaterial|;
      var buf := new byte[length + 1];
      forall k | 0 <= k < length {
        buf[k] := keyMaterial[k];
      }
      var p, i := 0, 0;
      while p < expanded.Length
        invariant p == DIGEST_LEN * i
        invariant buf[..length] == keyMaterial
        invariant forall j :: 0 <= j < p && j < expanded.Length ==> expanded[j] == ExpandedByte(crypto, keyMaterial, j)
      {
        buf[length] := (i % 256) as byte;
        assert buf[..] == keyMaterial + [(i % 256) as byte];
        var digest := crypto.sha1(buf[..]);
        var n := if DIGEST_LEN < expanded.Length - p then DIGEST_LEN else expanded.Length - p;
        forall k | 0 <= k < n {
          expanded[p + k] := digest[k];
        }
        forall j | p <= j < p + n
          ensures expanded[j] == ExpandedByte(crypto, keyMaterial, j)
        {
          assert j / DIGEST_LEN == i && j % DIGEST_LEN == j - p;
        }
        p, i := p + DIGEST_LEN, i + 1;
      }
    }

    /** Called once by the circuit, before any cell has passed. A false result stands for the
        CryptoMismatchException of verifyKeyMaterial. */
    method SetKeyMaterial(keyMaterial: seq<byte>, challenge: seq<byte>) returns (ok: bool)
      requires Valid() && forwardAesNum == 0 && backAesNum == 0
      requires |challenge| >= DIGEST_LEN
      modifies this
      ensures Valid() && forwardPos == old(forwardPos) && backPos == old(backPos)
      ensures ok <==> CheckValue(Expansion(crypto, keyMaterial, TOTAL_KEY_MATERIAL)) == challenge[..DIGEST_LEN]
      ensures ok ==> var e := Expansion(crypto, keyMaterial, TOTAL_KEY_MATERIAL);
                     && Forward() == Half(ForwardStart(e).key, old(forwardDigest) + ForwardStart(e).absorbed, old(forwardPos))
                     && Back() == Half(BackStart(e).key, old(backDigest) + BackStart(e).absorbed, old(backPos))
      ensures !ok ==> Forward() == old(Forward()) && Back() == old(Back())
    {
      var expanded := new byte[TOTAL_KEY_MATERIAL];
      ExpandKeyMaterial(keyMaterial, expanded);
      if expanded[..DIGEST_LEN] != challenge[..DIGEST_LEN] {
        return false;
      }
      forwardDigest := forwardDigest + expanded[DIGEST_LEN..DIGEST_LEN * 2];
      backDigest := backDigest + expanded[DIGEST_LEN * 2..DIGEST_LEN * 3];
      forwardKey := expanded[DIGEST_LEN * 3..DIGEST_LEN * 3 + KEY_LEN];
      backKey := expanded[DIGEST_LEN * 3 + KEY_LEN..DIGEST_LEN * 3 + KEY_LEN * 2];
      return true;
    }

    method AesOperate(cell: Cell, key: Block, iv: array<byte>, ec: array<byte>, num: nat, ghost p: nat)
      returns (num': nat)
      requires cell.Valid() && {iv, ec} !! {cell.buffer} && iv != ec
      requires StateAt(crypto, key, iv[..], ec[..], num, p)
      modifies cell.buffer, iv, ec
      ensures cell.Bytes() == Crypt(crypto, key, p, old(cell.Bytes()))
      ensures StateAt(crypto, key, iv[..], ec[..], num', p + PAYLOAD_SIZE)
    {
      var buf := new byte[512];
      var length := PAYLOAD_SIZE;
      num' := Ctr128Encrypt(crypto, key, cell.buffer, 3, buf, 0, length, iv, ec, num, p);
      ReplacePayload(cell, buf);
      CryptInPlace(crypto, key, p, old(cell.Bytes()), buf[..length], cell.Bytes());
    }

    method ReplacePayload(cell: Cell, buf: array<byte>)
      requires cell.Valid() && buf.Length == CELL_SIZE && buf != cell.buffer
      modifies cell.buffer
      ensures cell.Bytes()[..3] == old(cell.Bytes())[..3] && cell.Bytes()[3..] == buf[..PAYLOAD_SIZE]
    {
      forall i | 0 <= i < PAYLOAD_SIZE {
        cell.buffer[3 + i] := buf[i];
      }
    }

    /** Feeds the payload to the running digest and finishes a copy of it. */
    method CalculateDigest(digest: seq<byte>, cell: Cell) returns (running: seq<byte>, result: Hash20)
      requires cell.Valid()
      ensures running == digest + cell.Bytes()[3..]
      ensures result == crypto.sha1(running)
    {
      running := digest + cell.buffer[3..];
      result := crypto.sha1(running);
      assert cell.buffer[3..] == cell.Bytes()[3..];
    }

    method SetDigestForCell(cell: Cell)
      requires cell.Valid()
      modifies this`forwardDigest, cell.buffer
      ensures forwardDigest == old(forwardDigest) + old(cell.Bytes())[3..]
      ensures cell.Bytes() == WithDigest(old(cell.Bytes()), crypto.sha1(forwardDigest))
    {
      var digest;
      forwardDigest, digest := CalculateDigest(forwardDigest, cell);
      cell.SetDigest(digest);
    }

    /** A false result stands for the CryptoMismatchException. */
    method VerifyDigestForCell(cell: Cell) returns (ok: bool)
      requires cell.Valid()
      modifies this`backDigest, cell.buffer
      ensures cell.Bytes() == DigestCleared(old(cell.Bytes()))
      ensures backDigest == old(backDigest) + cell.Bytes()[3..]
      ensures ok == (Digest(old(cell.Bytes())) == crypto.sha1(backDigest)[..4])
    {
      var received := cell.buffer[8..12];
      assert received == Digest(cell.Bytes());
      cell.SetDigest([0, 0, 0, 0]);
      var calculated;
      backDigest, calculated := CalculateDigest(backDigest, cell);
      ok := received == calculated[..4];
    }

    method Encrypt(cell: Cell)
      requires Valid() && cell.Valid() && cell.buffer !in Repr
      modifies this, forwardIV, forwardEC, cell.buffer
      ensures Valid()
      ensures var s := Seal(crypto, old(Forward()), old(cell.Bytes()));
              Forward() == s.half && cell.Bytes() == s.wire
      ensures Back() == old(Back()) && backAesNum == old(backAesNum)
    {
      SetDigestForCell(cell);
      forwardAesNum := AesOperate(cell, forwardKey, forwardIV, forwardEC, forwardAesNum, forwardPos);
      forwardPos := forwardPos + PAYLOAD_SIZE;
    }

    method Decrypt(cell: Cell) returns (ok: bool)
      requires Valid() && cell.Valid() && cell.buffer !in Repr
      modifies this, backIV, backEC, cell.buffer
      ensures Valid()
      ensures Opened(Back(), cell.Bytes(), ok) == Open(crypto, old(Back()), old(cell.Bytes()))
      ensures Forward() == old(Forward()) && forwardAesNum == old(forwardAesNum)
    {
      backAesNum := AesOperate(cell, backKey, backIV, backEC, backAesNum, backPos);
      backPos := backPos + PAYLOAD_SIZE;
      ok := VerifyDigestForCell(cell);
    }
  }
}
