/** One direction of relay-cell encryption as a pure function of its state: the key, the bytes the
    running SHA-1 has absorbed, and the position reached in the keystream (sections 5.2.1 and 6.1 of
    tor-spec). `CellEncrypter` refines `Seal` and `Open`; the exit relay is the mirrored `Half`. */
module RelayCrypto {
  import opened Bytes
  import opened Cells
  import opened CounterMode

  const PAYLOAD_SIZE := 509

  datatype Half = Half(key: Block, absorbed: seq<byte>, pos: nat)
  datatype Sealed = Sealed(half: Half, wire: CellBytes)
  datatype Opened = Opened(half: Half, cell: CellBytes, verified: bool)

  /** CellEncrypter::aesOperate: everything after the three header bytes. */
  function Crypt(c: Crypto, key: Block, pos: nat, cell: CellBytes): CellBytes
  {
    cell[..3] + XorSeq(cell[3..], Keystream(c, key, pos, PAYLOAD_SIZE))
  }

  function Seal(c: Crypto, h: Half, cell: CellBytes): Sealed
  {
    var absorbed := h.absorbed + cell[3..];
    Sealed(Half(h.key, absorbed, h.pos + PAYLOAD_SIZE), Crypt(c, h.key, h.pos, WithDigest(cell, c.sha1(absorbed))))
  }

  function Open(c: Crypto, h: Half, wire: CellBytes): Opened
  {
    var plain := Crypt(c, h.key, h.pos, wire);
    var cell := DigestCleared(plain);
    var absorbed := h.absorbed + cell[3..];
    Opened(Half(h.key, absorbed, h.pos + PAYLOAD_SIZE), cell, Digest(plain) == c.sha1(absorbed)[..4])
  }

  function SealAll(c: Crypto, h: Half, cells: seq<CellBytes>): (wire: seq<CellBytes>)
    ensures |wire| == |cells|
    decreases cells
  {
    if cells == [] then []
    else var s := Seal(c, h, cells[0]); [s.wire] + SealAll(c, s.half, cells[1..])
  }

  function OpenAll(c: Crypto, h: Half, wire: seq<CellBytes>): (read: seq<Opened>)
    ensures |read| == |wire|
    decreases wire
  {
    if wire == [] then []
    else var o := Open(c, h, wire[0]); [o] + OpenAll(c, o.half, wire[1..])
  }

  function Payloads(cells: seq<CellBytes>): (p: seq<seq<byte>>)
    ensures |p| == |cells|
  {
    seq(|cells|, i requires 0 <= i < |cells| => cells[i][3..])
  }

  /** The state after these cells have been absorbed, in closed form. */
  function After(h: Half, cells: seq<CellBytes>): Half
  {
    Half(h.key, h.absorbed + Flatten(Payloads(cells)), h.pos + PAYLOAD_SIZE * |cells|)
  }

  predicate AllCleared(cells: seq<CellBytes>)
  {
    forall i :: 0 <= i < |cells| ==> DigestCleared(cells[i]) == cells[i]
  }

  // ---------------------------------------------------------------- one cell

  lemma CryptTwice(c: Crypto, key: Block, pos: nat, cell: CellBytes)
    ensures Crypt(c, key, pos, Crypt(c, key, pos, cell)) == cell
  {
    var pad := Keystream(c, key, pos, PAYLOAD_SIZE);
    XorSeqCancel(cell[3..], pad);
    assert Crypt(c, key, pos, cell)[3..] == XorSeq(cell[3..], pad);
  }

  lemma OpenSeal(c: Crypto, h: Half, cell: CellBytes)
    requires DigestCleared(cell) == cell
    ensures Open(c, h, Seal(c, h, cell).wire) == Opened(Seal(c, h, cell).half, cell, true)
  {
    var d := c.sha1(h.absorbed + cell[3..]);
    CryptTwice(c, h.key, h.pos, WithDigest(cell, d));
    assert DigestCleared(WithDigest(cell, d)) == DigestCleared(cell);
  }

  // ---------------------------------------------------------------- appending to the log

  lemma AfterAppend(h: Half, a: seq<CellBytes>, b: seq<CellBytes>)
    ensures After(After(h, a), b) == After(h, a + b)
  {
    assert Payloads(a + b) == Payloads(a) + Payloads(b);
    FlattenAppend(Payloads(a), Payloads(b));
  }

  lemma AfterOne(h: Half, cell: CellBytes)
    ensures After(h, [cell]) == Half(h.key, h.absorbed + cell[3..], h.pos + PAYLOAD_SIZE)
  {
    assert Payloads([cell]) == [cell[3..]];
    assert Flatten(Payloads([cell])) == cell[3..] + Flatten(Payloads([cell])[1..]);
  }

  lemma {:induction false} SealAllAppend(c: Crypto, h: Half, a: seq<CellBytes>, b: seq<CellBytes>)
    ensures SealAll(c, h, a + b) == SealAll(c, h, a) + SealAll(c, After(h, a), b)
    decreases a
  {
    if a == [] {
      assert a + b == b;
      assert After(h, a) == h;
    } else {
      AfterOne(h, a[0]);
      AfterAppend(h, [a[0]], a[1..]);
      assert [a[0]] + a[1..] == a && (a + b)[1..] == a[1..] + b;
      SealAllAppend(c, Seal(c, h, a[0]).half, a[1..], b);
    }
  }

  // ---------------------------------------------------------------- whole logs

  /** The peer with the same starting state verifies every cell of the log, gets back exactly the
      cells that were sealed, in order and with the digest field zero, and ends in the same state. */
  lemma {:induction false} PeerReadsBack(c: Crypto, h: Half, cells: seq<CellBytes>)
    requires AllCleared(cells)
    ensures var read := OpenAll(c, h, SealAll(c, h, cells));
            forall i :: 0 <= i < |cells| ==>
              read[i] == Opened(After(h, cells[..i + 1]), cells[i], true)
    decreases cells
  {
    if cells == [] {
    } else {
      OpenSeal(c, h, cells[0]);
      AfterOne(h, cells[0]);
      var h1 := Seal(c, h, cells[0]).half;
      PeerReadsBack(c, h1, cells[1..]);
      var read := OpenAll(c, h, SealAll(c, h, cells));
      assert read[1..] == OpenAll(c, h1, SealAll(c, h1, cells[1..]));
      forall i | 0 <= i < |cells|
        ensures read[i] == Opened(After(h, cells[..i + 1]), cells[i], true)
      {
        if i == 0 {
          assert cells[..1] == [cells[0]];
        } else {
          AfterAppend(h, [cells[0]], cells[1..][..i]);
          assert [cells[0]] + cells[1..][..i] == cells[..i + 1];
          assert read[i] == read[1..][i - 1];
        }
      }
    }
  }

  lemma SealSplitAt(c: Crypto, h: Half, cells: seq<CellBytes>, k: nat)
    requires k < |cells|
    ensures SealAll(c, h, cells)[k] == Seal(c, After(h, cells[..k]), cells[k]).wire
  {
    var a, b := cells[..k], cells[k..];
    assert cells == a + b && b[0] == cells[k];
    SealAllAppend(c, h, a, b);
    assert SealAll(c, h, cells)[k] == SealAll(c, After(h, a), b)[0];
  }

  lemma SealKeepsHeader(c: Crypto, h: Half, cell: CellBytes)
    ensures Seal(c, h, cell).wire == Crypt(c, h.key, h.pos, WithDigest(cell, c.sha1(h.absorbed + cell[3..])))
    ensures Seal(c, h, cell).wire[..3] == cell[..3]
  {
  }

  /** Cell k of the log in closed form: the digest is that of the seed and all payloads up to and
      including k, and the keystream starts 509 k bytes after the beginning. */
  lemma {:induction false} SealedAt(c: Crypto, h: Half, cells: seq<CellBytes>, k: nat)
    requires k < |cells|
    ensures SealAll(c, h, cells)[k]
         == Crypt(c, h.key, h.pos + PAYLOAD_SIZE * k,
                  WithDigest(cells[k], c.sha1(h.absorbed + Flatten(Payloads(cells[..k + 1])))))
    ensures SealAll(c, h, cells)[k][..3] == cells[k][..3]
  {
    var h1, cell := After(h, cells[..k]), cells[k];
    SealSplitAt(c, h, cells, k);
    SealKeepsHeader(c, h1, cell);
    AfterAppend(h, cells[..k], [cell]);
    AfterOne(h1, cell);
    assert cells[..k] + [cell] == cells[..k + 1];
  }

  /** The cells with their digests filled in, as they are encrypted. */
  function StampAll(c: Crypto, h: Half, cells: seq<CellBytes>): (stamped: seq<CellBytes>)
    ensures |stamped| == |cells|
    decreases cells
  {
    if cells == [] then []
    else [WithDigest(cells[0], c.sha1(h.absorbed + cells[0][3..]))] + StampAll(c, Seal(c, h, cells[0]).half, cells[1..])
  }

  /** Although 509 is not a multiple of the block size, the payloads on the wire are together one
      counter-mode encryption of the stamped payloads, starting where the keystream stood. */
  lemma WireIsOneShot(c: Crypto, h: Half, cells: seq<CellBytes>)
    ensures var plain := Flatten(Payloads(StampAll(c, h, cells)));
            Flatten(Payloads(SealAll(c, h, cells))) == XorSeq(plain, Keystream(c, h.key, h.pos, |plain|))
  {
    WireIsEncryptEach(c, h, cells);
    CarryingRefinesOneShot(c, h.key, h.pos, Payloads(StampAll(c, h, cells)));
  }

  /** Bit by bit: byte p of all payloads on the wire differs from byte p of the stamped payloads exactly
      in the bits that are set in byte h.pos + p of AES in counter mode. */
  lemma WireBits(c: Crypto, h: Half, cells: seq<CellBytes>, p: nat, k: nat)
    requires k < 8 && p < |Flatten(Payloads(SealAll(c, h, cells)))|
    ensures var plain, wire := Flatten(Payloads(StampAll(c, h, cells))), Flatten(Payloads(SealAll(c, h, cells)));
            var pad := c.aes(h.key, Counter((h.pos + p) / 16))[(h.pos + p) % 16];
            && |plain| == |wire|
            && (Bit(wire[p] as nat, k) != Bit(plain[p] as nat, k) <==> Bit(pad as nat, k) == 1)
  {
    WireIsOneShot(c, h, cells);
    var plain := Flatten(Payloads(StampAll(c, h, cells)));
    var pad := KeystreamByte(c, h.key, h.pos + p);
    XorIsBitwise(plain[p], pad, k);
    BitIsBinary(plain[p] as nat, k);
    BitIsBinary(pad as nat, k);
  }

  lemma {:induction false} WireIsEncryptEach(c: Crypto, h: Half, cells: seq<CellBytes>)
    ensures Payloads(SealAll(c, h, cells)) == EncryptEach(c, h.key, h.pos, Payloads(StampAll(c, h, cells)))
    decreases cells
  {
    if cells == [] {
      assert Payloads(SealAll(c, h, cells)) == [] && Payloads(StampAll(c, h, cells)) == [];
    } else {
      var s := Seal(c, h, cells[0]);
      var stamp := WithDigest(cells[0], c.sha1(h.absorbed + cells[0][3..]));
      WireIsEncryptEach(c, s.half, cells[1..]);
      PayloadsFirst(s.wire, SealAll(c, s.half, cells[1..]));
      PayloadsFirst(stamp, StampAll(c, s.half, cells[1..]));
      var p := Payloads(StampAll(c, h, cells));
      assert p[0] == stamp[3..] && p[1..] == Payloads(StampAll(c, s.half, cells[1..]));
      assert s.wire[3..] == XorSeq(stamp[3..], Keystream(c, h.key, h.pos, PAYLOAD_SIZE));
    }
  }

  lemma PayloadsFirst(cell: CellBytes, rest: seq<CellBytes>)
    ensures Payloads([cell] + rest) == [cell[3..]] + Payloads(rest)
  {
  }

  function OpenedCells(read: seq<Opened>): (cells: seq<CellBytes>)
    ensures |cells| == |read|
  {
    seq(|read|, i requires 0 <= i < |read| => read[i].cell)
  }

  /** Whatever arrives, and whether or not it verifies, after n cells the receiving keystream has
      moved 509 n bytes and the receiving digest has absorbed all n digest-zeroed plaintexts. */
  lemma {:induction false} ReceivePosition(c: Crypto, h: Half, wire: seq<CellBytes>, k: nat)
    requires k < |wire|
    ensures var read := OpenAll(c, h, wire);
            read[k].half == After(h, OpenedCells(read)[..k + 1])
    decreases wire
  {
    var o := Open(c, h, wire[0]);
    var read, rest := OpenAll(c, h, wire), OpenAll(c, o.half, wire[1..]);
    AfterOne(h, o.cell);
    if k == 0 {
      assert OpenedCells(read)[..1] == [o.cell];
    } else {
      ReceivePosition(c, o.half, wire[1..], k - 1);
      AfterAppend(h, [o.cell], OpenedCells(rest)[..k]);
      assert [o.cell] + OpenedCells(rest)[..k] == OpenedCells(read)[..k + 1];
    }
  }

  lemma {:induction false} OpenAllAppend(c: Crypto, h: Half, a: seq<CellBytes>, b: seq<CellBytes>)
    ensures OpenAll(c, h, a + b) == OpenAll(c, h, a) + OpenAll(c, After(h, OpenedCells(OpenAll(c, h, a))), b)
    decreases a
  {
    var first := OpenAll(c, h, a);
    if a == [] {
      assert a + b == b;
      assert Payloads(OpenedCells(first)) == [];
      assert After(h, OpenedCells(first)) == h;
    } else {
      var o := Open(c, h, a[0]);
      AfterOne(h, o.cell);
      AfterAppend(h, [o.cell], OpenedCells(first[1..]));
      assert OpenedCells(first) == [o.cell] + OpenedCells(first[1..]);
      assert (a + b)[1..] == a[1..] + b;
      OpenAllAppend(c, o.half, a[1..], b);
    }
  }

  /** The two cells agree outside the four digest bytes. */
  predicate SameButDigest(w: CellBytes, w': CellBytes)
  {
    w[..8] == w'[..8] && w[12..] == w'[12..]
  }

  lemma DigestTamper(c: Crypto, h: Half, cell: CellBytes, w: CellBytes)
    requires DigestCleared(cell) == cell
    requires SameButDigest(Seal(c, h, cell).wire, w)
    ensures Open(c, h, w) == Opened(Seal(c, h, cell).half, cell, w == Seal(c, h, cell).wire)
  {
    var good := Seal(c, h, cell).wire;
    OpenSeal(c, h, cell);
    var plain, plain' := Crypt(c, h.key, h.pos, good), Crypt(c, h.key, h.pos, w);
    CryptTwice(c, h.key, h.pos, w);
    CryptTwice(c, h.key, h.pos, good);
    forall i | 0 <= i < 512 && !(8 <= i < 12)
      ensures plain[i] == plain'[i]
    {
      assert good[i] == if i < 8 then good[..8][i] else good[12..][i - 12];
      assert w[i] == if i < 8 then w[..8][i] else w[12..][i - 12];
    }
    assert DigestCleared(plain') == DigestCleared(plain);
    if Digest(plain') == Digest(plain) {
      forall i | 0 <= i < 512
        ensures plain[i] == plain'[i]
      {
        if 8 <= i < 12 {
          assert plain[i] == Digest(plain)[i - 8] && plain'[i] == Digest(plain')[i - 8];
        }
      }
      assert plain' == plain;
    }
  }

  /** If the log is changed in transit only inside digest bytes, the receiver rejects exactly the
      changed cells, still reads every plaintext, and verifies every later cell that is unchanged. */
  lemma {:induction false} DigestTamperIsLocal(c: Crypto, h: Half, cells: seq<CellBytes>, wire: seq<CellBytes>)
    requires AllCleared(cells) && |wire| == |cells|
    requires forall i :: 0 <= i < |cells| ==> SameButDigest(SealAll(c, h, cells)[i], wire[i])
    ensures var read := OpenAll(c, h, wire);
            forall i :: 0 <= i < |cells| ==>
              && read[i].cell == cells[i]
              && (read[i].verified <==> wire[i] == SealAll(c, h, cells)[i])
    decreases cells
  {
    if cells == [] {
    } else {
      var h1, read := Seal(c, h, cells[0]).half, OpenAll(c, h, wire);
      DigestTamper(c, h, cells[0], wire[0]);
      TamperTail(c, h, cells, wire);
      DigestTamperIsLocal(c, h1, cells[1..], wire[1..]);
      forall i | 0 <= i < |cells|
        ensures read[i].cell == cells[i] && (read[i].verified <==> wire[i] == SealAll(c, h, cells)[i])
      {
        if i > 0 {
          assert read[i] == OpenAll(c, h1, wire[1..])[i - 1];
          assert SealAll(c, h, cells)[i] == SealAll(c, h1, cells[1..])[i - 1];
        }
      }
    }
  }

  lemma TamperTail(c: Crypto, h: Half, cells: seq<CellBytes>, wire: seq<CellBytes>)
    requires AllCleared(cells) && |wire| == |cells| > 0
    requires forall i :: 0 <= i < |cells| ==> SameButDigest(SealAll(c, h, cells)[i], wire[i])
    ensures AllCleared(cells[1..])
    ensures var h1 := Seal(c, h, cells[0]).half;
            forall i :: 0 <= i < |cells| - 1 ==> SameButDigest(SealAll(c, h1, cells[1..])[i], wire[1..][i])
  {
    var sealed, rest := SealAll(c, h, cells), SealAll(c, Seal(c, h, cells[0]).half, cells[1..]);
    forall i | 0 <= i < |cells| - 1
      ensures SameButDigest(rest[i], wire[1..][i])
    {
      assert rest[i] == sealed[i + 1] && wire[1..][i] == wire[i + 1];
    }
  }
}
