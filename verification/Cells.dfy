/** The fixed 512-byte cell of protocol/Cell.cpp and the relay cell layout of
    protocol/RelayCell.h (section 6.1 of tor-spec). */
module Cells {
  import opened Bytes

  const CELL_SIZE := 512
  const HEADER_END := 14
  const MAX_PAYLOAD_LENGTH := 498
  const DIGEST_OFFSET := 8
  const DIGEST_LENGTH := 4

  const RELAY_TYPE: byte := 3
  const DESTROY_TYPE: byte := 4

  const BEGIN: byte := 1
  const DATA: byte := 2
  const END: byte := 3
  const CONNECTED: byte := 4
  const SENDME: byte := 5

  type CellBytes = s: seq<byte> | |s| == 512 witness Zeros(512)

  // ---------------------------------------------------------------- layout

  /** The 512 bytes a relay cell constructor leaves in the buffer. */
  function RelayImage(circuitId: uint16, streamId: uint16, typ: byte, payload: seq<byte>): CellBytes
    requires |payload| <= MAX_PAYLOAD_LENGTH
  {
    BE16(circuitId) + [RELAY_TYPE] + [typ, 0, 0] + BE16(streamId) + [0, 0, 0, 0] + BE16(|payload|)
    + payload + Zeros(MAX_PAYLOAD_LENGTH - |payload|)
  }

  function CellType(c: CellBytes): byte { c[2] }

  function RelayType(c: CellBytes): byte { c[3] }

  function StreamId(c: CellBytes): uint16 { ReadBE16(c[6..8]) }

  function LengthField(c: CellBytes): uint16 { ReadBE16(c[12..14]) }

  function Digest(c: CellBytes): seq<byte> { c[8..12] }

  predicate IsEnd(c: CellBytes) { RelayType(c) == END }

  predicate IsConnected(c: CellBytes) { RelayType(c) == CONNECTED }

  /** RelayCell::getRelayPayloadLength: -1 for END, otherwise the 16-bit length field. */
  function PayloadLength(c: CellBytes): int
  {
    if IsEnd(c) then -1 else LengthField(c)
  }

  /** What a receiver that trusts the length field takes as the payload. */
  function DataOf(c: CellBytes): seq<byte>
  {
    if LengthField(c) <= MAX_PAYLOAD_LENGTH then c[14..14 + LengthField(c)] else c[14..]
  }

  /** RelayCell::setDigest with the first four bytes of d. */
  function WithDigest(c: CellBytes, d: seq<byte>): CellBytes
    requires |d| >= DIGEST_LENGTH
  {
    c[..8] + d[..4] + c[12..]
  }

  function DigestCleared(c: CellBytes): CellBytes
  {
    WithDigest(c, [0, 0, 0, 0])
  }

  /** The layout of section 6.1 of tor-spec, byte by byte: circuit id, command 3, relay command,
      'recognized', stream id, digest, length, data, and zeros behind. */
  lemma RelayLayout(circuitId: uint16, streamId: uint16, typ: byte, payload: seq<byte>)
    requires |payload| <= 498
    ensures var c := RelayImage(circuitId, streamId, typ, payload);
            && c[0] as int * 256 + c[1] as int == circuitId && c[2] == 3 && c[3] == typ && c[4] == c[5] == 0
            && c[6] as int * 256 + c[7] as int == streamId
            && c[8] == c[9] == c[10] == c[11] == 0
            && c[12] as int * 256 + c[13] as int == |payload|
            && c[14..14 + |payload|] == payload
            && forall i :: 14 + |payload| <= i < 512 ==> c[i] == 0
  {
  }

  /** The accessors read these places in any cell. */
  lemma AccessorsRead(c: CellBytes)
    ensures CellType(c) == c[2] && RelayType(c) == c[3]
    ensures StreamId(c) == c[6] as int * 256 + c[7] as int
    ensures LengthField(c) == c[12] as int * 256 + c[13] as int
    ensures Digest(c) == [c[8], c[9], c[10], c[11]]
    ensures PayloadLength(c) == -1 <==> c[3] == 3
    ensures c[3] != 3 ==> PayloadLength(c) == c[12] as int * 256 + c[13] as int
    ensures forall i :: 0 <= i < |DataOf(c)| ==> DataOf(c)[i] == c[14 + i]
    ensures |DataOf(c)| == if LengthField(c) <= 498 then LengthField(c) else 498
  {
  }

  lemma RelayImageFields(circuitId: uint16, streamId: uint16, typ: byte, payload: seq<byte>)
    requires |payload| <= MAX_PAYLOAD_LENGTH
    ensures var c := RelayImage(circuitId, streamId, typ, payload);
            && ReadBE16(c) == circuitId && CellType(c) == RELAY_TYPE
            && RelayType(c) == typ && StreamId(c) == streamId
            && LengthField(c) == |payload| && DataOf(c) == payload
            && DigestCleared(c) == c
  {
  }

  // ---------------------------------------------------------------- the cell object

  class Cell {
    const buffer: array<byte>
    var index: nat

    ghost predicate Valid()
      reads this
    {
      buffer.Length == CELL_SIZE && index <= CELL_SIZE
    }

    ghost function Bytes(): CellBytes
      requires Valid()
      reads this, buffer
    {
      buffer[..]
    }

    /** Cell::Cell(): the buffer is left as it is found. */
    constructor Blank()
      ensures Valid() && fresh(buffer) && index == 3
    {
      buffer := new byte[CELL_SIZE];
      index := 3;
    }

    /** Cell::Cell(id, type) */
    constructor Typed(id: uint16, typ: byte)
      ensures Valid() && fresh(buffer) && index == 3
      ensures Bytes() == BE16(id) + [typ] + Zeros(509)
    {
      buffer := new byte[CELL_SIZE](_ => 0);
      index := 3;
      new;
      buffer[0], buffer[1] := (id / 256) as byte, (id % 256) as byte;
      buffer[2] := typ;
      assert buffer[..] == BE16(id) + [typ] + Zeros(509);
    }

    method AppendSegment(v: seq<byte>)
      requires Valid() && index + |v| <= CELL_SIZE
      modifies this, buffer
      ensures Valid() && index == old(index) + |v|
      ensures buffer[..index] == old(buffer[..index]) + v
      ensures forall i :: index <= i < CELL_SIZE ==> buffer[i] == old(buffer[i])
    {
      forall i | 0 <= i < |v| {
        buffer[index + i] := v[i];
      }
      index := index + |v|;
    }

    method AppendByte(v: byte)
      requires Valid() && index + 1 <= CELL_SIZE
      modifies this, buffer
      ensures Valid() && index == old(index) + 1
      ensures buffer[..index] == old(buffer[..index]) + [v]
      ensures forall i :: index <= i < CELL_SIZE ==> buffer[i] == old(buffer[i])
    {
      buffer[index] := v;
      index := index + 1;
    }

    method AppendShort(v: uint16)
      requires Valid() && index + 2 <= CELL_SIZE
      modifies this, buffer
      ensures Valid() && index == old(index) + 2
      ensures buffer[..index] == old(buffer[..index]) + BE16(v)
      ensures forall i :: index <= i < CELL_SIZE ==> buffer[i] == old(buffer[i])
    {
      buffer[index], buffer[index + 1] := (v / 256) as byte, (v % 256) as byte;
      index := index + 2;
    }

    method AppendInt(v: uint32)
      requires Valid() && index + 4 <= CELL_SIZE
      modifies this, buffer
      ensures Valid() && index == old(index) + 4
      ensures buffer[..index] == old(buffer[..index]) + BigEndian(v, 4)
      ensures forall i :: index <= i < CELL_SIZE ==> buffer[i] == old(buffer[i])
    {
      buffer[index] := (v / 0x100_0000) as byte;
      buffer[index + 1] := (v / 0x1_0000 % 256) as byte;
      buffer[index + 2] := (v / 0x100 % 256) as byte;
      buffer[index + 3] := (v % 256) as byte;
      BigEndian4(v);
      index := index + 4;
    }

    /** RelayCell::appendData: the eleven header bytes, digest zero for now. */
    method AppendData(streamId: uint16, typ: byte, length: int)
      requires Valid() && index == 3
      modifies this, buffer
      ensures Valid() && index == HEADER_END
      ensures buffer[..index] == old(buffer[..3]) + [typ, 0, 0] + BE16(streamId) + [0, 0, 0, 0] + BE16(length % 0x1_0000)
      ensures forall i :: index <= i < CELL_SIZE ==> buffer[i] == old(buffer[i])
    {
      AppendByte(typ);
      AppendByte(0);
      AppendByte(0);
      AppendShort(streamId);
      AppendInt(0);
      AppendShort(length % 0x1_0000);
      assert BigEndian(0, 4) == [0, 0, 0, 0];
    }

    /** What the relay constructors have in common: the cell header, appendData, and the data. length
        is the value of the length field. */
    method FillRelay(circuitId: uint16, streamId: uint16, typ: byte, data: seq<byte>, length: nat)
      requires Valid() && index == 3 && |data| <= length <= MAX_PAYLOAD_LENGTH
      modifies this, buffer
      ensures Valid() && index == HEADER_END + |data|
      ensures buffer[..index] == BE16(circuitId) + [RELAY_TYPE] + [typ, 0, 0] + BE16(streamId) + [0, 0, 0, 0] + BE16(length) + data
      ensures forall i :: index <= i < CELL_SIZE ==> buffer[i] == old(buffer[i])
    {
      buffer[0], buffer[1], buffer[2] := (circuitId / 256) as byte, (circuitId % 256) as byte, RELAY_TYPE;
      AppendData(streamId, typ, length);
      AppendSegment(data);
    }

    /** RelayCell(circuitId, streamId, type, data, length) */
    constructor Relay(circuitId: uint16, streamId: uint16, typ: byte, data: seq<byte>)
      requires |data| <= MAX_PAYLOAD_LENGTH
      ensures Valid() && fresh(buffer)
      ensures Bytes() == RelayImage(circuitId, streamId, typ, data)
    {
      buffer := new byte[CELL_SIZE](_ => 0);
      index := 3;
      new;
      FillRelay(circuitId, streamId, typ, data, |data|);
      FromPrefix(buffer[..], index, circuitId, streamId, typ, data);
    }

    /** RelayCell(circuitId, streamId, type, string, nullTerminated) */
    constructor RelayString(circuitId: uint16, streamId: uint16, typ: byte, data: seq<byte>, nullTerminated: bool)
      requires |data| + (if nullTerminated then 1 else 0) <= MAX_PAYLOAD_LENGTH
      ensures Valid() && fresh(buffer)
      ensures Bytes() == RelayImage(circuitId, streamId, typ, if nullTerminated then data + [0] else data)
    {
      buffer := new byte[CELL_SIZE](_ => 0);
      index := 3;
      new;
      FillRelay(circuitId, streamId, typ, data, if nullTerminated then |data| + 1 else |data|);
      if nullTerminated {
        AppendByte(0);
        FromPrefix(buffer[..], index, circuitId, streamId, typ, data + [0]);
      } else {
        FromPrefix(buffer[..], index, circuitId, streamId, typ, data);
      }
    }

    /** RelayCell(circuitId, streamId, type, payload) with a payload of one byte */
    constructor RelayByte(circuitId: uint16, streamId: uint16, typ: byte, payload: byte)
      ensures Valid() && fresh(buffer)
      ensures Bytes() == RelayImage(circuitId, streamId, typ, [payload])
    {
      buffer := new byte[CELL_SIZE](_ => 0);
      index := 3;
      new;
      FillRelay(circuitId, streamId, typ, [], 1);
      AppendByte(payload);
      FromPrefix(buffer[..], index, circuitId, streamId, typ, [payload]);
    }

    /** RelayCell(Cell &cell): a copy of the buffer */
    constructor Copy(bytes: CellBytes)
      ensures Valid() && fresh(buffer)
      ensures Bytes() == bytes
    {
      buffer := new byte[CELL_SIZE](i requires 0 <= i < CELL_SIZE => bytes[i]);
      index := 3;
    }

    method SetDigest(digest: seq<byte>)
      requires Valid() && |digest| >= DIGEST_LENGTH
      modifies buffer
      ensures Valid() && Bytes() == WithDigest(old(Bytes()), digest)
    {
      forall i | 0 <= i < DIGEST_LENGTH {
        buffer[DIGEST_OFFSET + i] := digest[i];
      }
    }
  }

  lemma BigEndian4(v: uint32)
    ensures BigEndian(v, 4) == [(v / 0x100_0000) as byte, (v / 0x1_0000 % 256) as byte, (v / 0x100 % 256) as byte, (v % 256) as byte]
  {
    assert v / 256 / 256 == v / 0x1_0000;
    assert v / 0x1_0000 / 256 == v / 0x100_0000;
    assert BigEndian(v, 4) == BigEndian(v / 256, 3) + [(v % 256) as byte];
    assert BigEndian(v / 256, 3) == BigEndian(v / 0x1_0000, 2) + [(v / 256 % 256) as byte];
    assert BigEndian(v / 0x1_0000, 2) == BigEndian(v / 0x100_0000, 1) + [(v / 0x1_0000 % 256) as byte];
    assert BigEndian(v / 0x100_0000, 1) == BigEndian(v / 0x1_0000_0000, 0) + [(v / 0x100_0000 % 256) as byte];
  }

  lemma FromPrefix(b: CellBytes, index: nat, circuitId: uint16, streamId: uint16, typ: byte, data: seq<byte>)
    requires index == HEADER_END + |data| <= CELL_SIZE
    requires b[..index] == BE16(circuitId) + [RELAY_TYPE] + [typ, 0, 0] + BE16(streamId) + [0, 0, 0, 0] + BE16(|data|) + data
    requires forall i :: index <= i < CELL_SIZE ==> b[i] == 0
    ensures b == RelayImage(circuitId, streamId, typ, data)
  {
  }
}
