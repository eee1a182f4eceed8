/** protocol/Circuit.cpp: the circuit object, with the receive switch of protocol/CellConsumer.cpp that
    calls back into it. Every method is one step of the state machine in Client.dfy. */
module Circuits {
  import opened Bytes
  import opened Cells
  import opened CounterMode
  import opened RelayCrypto
  import opened CellEncryption
  import Dispatcher
  import opened Client

  lemma SendTwice(c: Crypto, st: State, a: seq<CellBytes>, ca: seq<Completion>, b: seq<CellBytes>, cb: seq<Completion>)
    ensures Send(c, Send(c, st, a, ca), b, cb) == Send(c, st, a + b, ca + cb)
  {
    SealAllAppend(c, st.forward, a, b);
    AfterAppend(st.forward, a, b);
  }

  lemma SendNothing(c: Crypto, st: State)
    ensures Send(c, st, [], []) == st
  {
  }

  lemma SendOne(c: Crypto, st: State, cell: CellBytes, completion: Completion)
    ensures Send(c, st, [cell], [completion])
         == st.(forward := Seal(c, st.forward, cell).half, wire := st.wire + [Seal(c, st.forward, cell).wire],
                completions := st.completions + [completion])
  {
    AfterOne(st.forward, cell);
    assert SealAll(c, st.forward, [cell])[1..] == [];
  }

  /** Piece k of a write starts at byte 498 k. */
  lemma {:induction false} SegmentAt(buf: seq<byte>, k: nat)
    requires k * MAX_PAYLOAD_LENGTH < |buf|
    ensures k < |Segments(buf)|
    ensures var i := k * MAX_PAYLOAD_LENGTH;
            Segments(buf)[k] == if |buf| - i <= MAX_PAYLOAD_LENGTH then buf[i..] else buf[i..i + MAX_PAYLOAD_LENGTH]
    ensures |buf| - k * MAX_PAYLOAD_LENGTH <= MAX_PAYLOAD_LENGTH <==> k == |Segments(buf)| - 1
  {
    if k > 0 {
      SegmentAt(buf[MAX_PAYLOAD_LENGTH..], k - 1);
      assert Segments(buf)[1..] == Segments(buf[MAX_PAYLOAD_LENGTH..]);
    } else if |buf| > MAX_PAYLOAD_LENGTH {
      assert Segments(buf[MAX_PAYLOAD_LENGTH..]) != [];
    }
  }

  /** The state when the first k pieces of a write have been sent. */
  ghost function Sent(c: Crypto, st: State, s: uint16, buf: seq<byte>, h: HandlerId, k: nat): State
    requires k <= |Segments(buf)|
  {
    SegmentsFit(buf);
    Send(c, st, DataCells(st.circuitId, s, Segments(buf))[..k], Completions(Op.Write(s, buf, h), |Segments(buf)|)[..k])
  }

  lemma SentStart(c: Crypto, st: State, s: uint16, buf: seq<byte>, h: HandlerId)
    ensures Sent(c, st, s, buf, h, 0) == st
    ensures |buf| > 0 <==> |Segments(buf)| > 0
  {
  }

  lemma SendPrefix(c: Crypto, st: State, cells: seq<CellBytes>, cs: seq<Completion>, k: nat)
    requires k < |cells| == |cs|
    ensures Send(c, st, cells[..k + 1], cs[..k + 1]) == Send(c, Send(c, st, cells[..k], cs[..k]), [cells[k]], [cs[k]])
  {
    assert cells[..k] + [cells[k]] == cells[..k + 1] && cs[..k] + [cs[k]] == cs[..k + 1];
    SendTwice(c, st, cells[..k], cs[..k], [cells[k]], [cs[k]]);
  }

  lemma SentOneMore(c: Crypto, st: State, s: uint16, buf: seq<byte>, h: HandlerId, k: nat)
    requires k < |Segments(buf)|
    ensures |Segments(buf)[k]| <= MAX_PAYLOAD_LENGTH
    ensures Sent(c, st, s, buf, h, k + 1)
         == Send(c, Sent(c, st, s, buf, h, k), [RelayImage(st.circuitId, s, DATA, Segments(buf)[k])],
                 [if k == |Segments(buf)| - 1 then WriteDone(h) else NoHandler])
  {
    SegmentsFit(buf);
    var cells := DataCells(st.circuitId, s, Segments(buf));
    var cs := Completions(Op.Write(s, buf, h), |cells|);
    assert Segments(buf)[k] in Segments(buf);
    SendPrefix(c, st, cells, cs, k);
  }

  lemma SentAll(c: Crypto, st: State, s: uint16, buf: seq<byte>, h: HandlerId)
    requires !st.dispatcher.aborted
    ensures Sent(c, st, s, buf, h, |Segments(buf)|) == Step(c, st, Op.Write(s, buf, h))
  {
    SegmentsFit(buf);
    var cells := DataCells(st.circuitId, s, Segments(buf));
    var cs := Completions(Op.Write(s, buf, h), |cells|);
    assert cells[..|cells|] == cells && cs[..|cs|] == cs;
  }

  function NoHandlers(n: nat): seq<Completion> { seq(n, _ => NoHandler) }

  function CircuitCounted(c: Crypto, st: State): State
  {
    Send(c, st.(circuitWindow := CountCell(st, 0).circuitWindow), CircuitSendMes(st), NoHandlers(|CircuitSendMes(st)|))
  }

  function StreamCounted(c: Crypto, st: State, s: uint16): State
  {
    Send(c, st.(streamWindows := CountCell(st, s).streamWindows), StreamSendMes(st, s), NoHandlers(|StreamSendMes(st, s)|))
  }

  lemma DecrementTwice(c: Crypto, st: State, s: uint16)
    ensures StreamCounted(c, CircuitCounted(c, st), s)
         == Send(c, CountCell(st, s), SendMes(st, s), NoHandlers(|SendMes(st, s)|))
  {
    var a, b := CircuitSendMes(st), StreamSendMes(st, s);
    var mid := CircuitCounted(c, st);
    assert StreamSendMes(mid, s) == b;
    assert mid.(streamWindows := CountCell(mid, s).streamWindows) == Send(c, CountCell(st, s), a, NoHandlers(|a|));
    SendTwice(c, CountCell(st, s), a, NoHandlers(|a|), b, NoHandlers(|b|));
    assert NoHandlers(|a|) + NoHandlers(|b|) == NoHandlers(|a + b|);
  }

  /** The receiving direction after one relay cell, whether or not it verifies. */
  function Moved(c: Crypto, st: State, wire: CellBytes): State
  {
    st.(back := Open(c, st.back, wire).half, relayed := st.relayed + 1)
  }

  function Counted(c: Crypto, st: State, r: Dispatcher.Received): State
  {
    var cells := SendMes(st, r.stream);
    Send(c, Dispatch(CountCell(st, r.stream), Dispatcher.DataCell(r)), cells, NoHandlers(|cells|))
  }

  lemma BuiltOfRelayCell(c: Crypto, st: State, wire: CellBytes)
    requires !st.closed && CellType(wire) == RELAY_TYPE
    ensures var o := Open(c, st.back, wire);
            Built(c, st, Arrive(wire))
            == if o.verified && CountsAgainstWindow(o.cell) then SendMes(Moved(c, st, wire), StreamId(o.cell)) else []
  {
  }

  lemma QuietOfRelayCell(c: Crypto, st: State, wire: CellBytes)
    requires !st.closed && CellType(wire) == RELAY_TYPE
    ensures var o, moved := Open(c, st.back, wire), Moved(c, st, wire);
            var r := Dispatcher.ReceivedOf(st.relayed, o.cell);
            Quiet(c, st, Arrive(wire)) ==
              if !o.verified then moved
              else if CountsAgainstWindow(o.cell) then Dispatch(CountCell(moved, r.stream), Dispatcher.DataCell(r))
              else if IsConnected(o.cell) then Dispatch(moved, Dispatcher.ConnectedCell(r))
              else moved
  {
  }

  lemma StepOfRelayCell(c: Crypto, st: State, wire: CellBytes)
    requires !st.dispatcher.aborted && !st.closed && CellType(wire) == RELAY_TYPE
    ensures var o, moved := Open(c, st.back, wire), Moved(c, st, wire);
            var r := Dispatcher.ReceivedOf(st.relayed, o.cell);
            Step(c, st, Arrive(wire)) ==
              if !o.verified then moved
              else if CountsAgainstWindow(o.cell) then Counted(c, moved, r)
              else if IsConnected(o.cell) then Dispatch(moved, Dispatcher.ConnectedCell(r))
              else moved
  {
    var op, o, moved := Arrive(wire), Open(c, st.back, wire), Moved(c, st, wire);
    var q, cells := Quiet(c, st, op), Built(c, st, op);
    QuietOfRelayCell(c, st, wire);
    BuiltOfRelayCell(c, st, wire);
    assert Step(c, st, op) == Send(c, q, cells, Completions(op, |cells|));
    if o.verified && CountsAgainstWindow(o.cell) {
      assert Completions(op, |cells|) == NoHandlers(|cells|);
    } else {
      SendNothing(c, q);
      assert Completions(op, 0) == [];
    }
  }

  class Circuit {
    const crypto: Crypto
    const circuitId: uint16
    var circuitWindow: uint32
    var streamWindows: map<uint16, uint32>
    const cellEncrypter: CellEncrypter
    const dispatcher: Dispatcher.RelayCellDispatcher

    var closed: bool
    var relayed: nat
    var wire: seq<CellBytes>
    var completions: seq<Completion>
    var reports: seq<Report>

    ghost const Repr: set<object>

    ghost predicate Valid()
      reads this, Repr
    {
      && this in Repr && dispatcher in Repr && cellEncrypter in Repr
      && Repr == {this, dispatcher} + cellEncrypter.Repr
      && this !in cellEncrypter.Repr && dispatcher !in cellEncrypter.Repr
      && cellEncrypter.Valid() && cellEncrypter.crypto == crypto
    }

    ghost function Abs(): State
      requires Valid()
      reads this, Repr
    {
      State(circuitId, circuitWindow, streamWindows, cellEncrypter.Forward(), cellEncrypter.Back(), dispatcher.Abs(),
            closed, relayed, wire, completions, reports)
    }

    constructor (crypto: Crypto, circuitId: uint16)
      ensures Valid() && fresh(Repr) && this.crypto == crypto && this.circuitId == circuitId
      ensures Abs().forward.absorbed == [] && Abs().forward.pos == 0 && Abs().back.absorbed == [] && Abs().back.pos == 0
      ensures Abs() == Start(circuitId, Abs().forward, Abs().back)
      ensures cellEncrypter.forwardAesNum == 0 && cellEncrypter.backAesNum == 0
    {
      this.crypto := crypto;
      this.circuitId := circuitId;
      circuitWindow := 1000;
      streamWindows := map[];
      var encrypter := new CellEncrypter(crypto);
      var d := new Dispatcher.RelayCellDispatcher();
      cellEncrypter := encrypter;
      dispatcher := d;
      closed, relayed, wire, completions, reports := false, 0, [], [], [];
      Repr := {this, d} + encrypter.Repr;
    }

    /** readCreatedCellComplete: valid says that the answer is a CREATED cell without a read error;
        keyMaterial is the Diffie-Hellman result and verifier the check value that follows the peer's
        public value. The result is what the connect handler is told. */
    method ReadCreatedCellComplete(valid: bool, keyMaterial: seq<byte>, verifier: seq<byte>) returns (ok: bool)
      requires Valid() && cellEncrypter.forwardAesNum == 0 && cellEncrypter.backAesNum == 0
      requires |verifier| >= DIGEST_LEN
      modifies Repr
      ensures Valid()
      ensures ok <==> valid && CheckValue(Expansion(crypto, keyMaterial, TOTAL_KEY_MATERIAL)) == verifier[..DIGEST_LEN]
      ensures !ok ==> Abs() == old(Abs())
      ensures ok && old(Abs()) == Start(circuitId, Half(old(Abs().forward.key), [], 0), Half(old(Abs().back.key), [], 0)) ==>
                var e := Expansion(crypto, keyMaterial, TOTAL_KEY_MATERIAL);
                Abs() == Start(circuitId, ForwardStart(e), BackStart(e))
    {
      if !valid {
        return false;
      }
      ok := cellEncrypter.SetKeyMaterial(keyMaterial, verifier);
    }

    /** cellEncrypter.encrypt followed by connection.writeCell */
    method EncryptAndWrite(cell: Cell, completion: Completion)
      requires Valid() && cell.Valid() && cell !in Repr && cell.buffer !in Repr
      modifies Repr, cell.buffer
      ensures Valid() && Abs() == Send(crypto, old(Abs()), [old(cell.Bytes())], [completion])
    {
      SendOne(crypto, Abs(), cell.Bytes(), completion);
      cellEncrypter.Encrypt(cell);
      wire := wire + [cell.buffer[..]];
      completions := completions + [completion];
    }

    method SendBeginCell(streamId: uint16, address: seq<byte>, handler: HandlerId)
      requires Valid() && |address| + 1 <= MAX_PAYLOAD_LENGTH
      modifies Repr
      ensures Valid() && Abs() == Send(crypto, old(Abs()), [BeginCell(circuitId, streamId, address)], [BeginSent(streamId, handler)])
    {
      var beginCell := new Cell.RelayString(circuitId, streamId, BEGIN, address, true);
      EncryptAndWrite(beginCell, BeginSent(streamId, handler));
    }

    method Connect(streamId: uint16, address: seq<byte>, handler: HandlerId)
      requires Valid() && |address| + 1 <= MAX_PAYLOAD_LENGTH && !dispatcher.aborted
      modifies Repr
      ensures Valid() && Abs() == Step(crypto, old(Abs()), Op.Connect(streamId, address, handler))
    {
      dispatcher.AddStreamId(streamId);
      streamWindows := streamWindows[streamId := 500];
      SendBeginCell(streamId, address, handler);
      assert Completions(Op.Connect(streamId, address, handler), 1) == [BeginSent(streamId, handler)];
    }

    method SendBeginCellComplete(handler: HandlerId, streamId: uint16, err: bool)
      requires Valid() && !dispatcher.aborted
      modifies Repr
      ensures Valid() && Abs() == Step(crypto, old(Abs()), BeginComplete(streamId, handler, err))
    {
      SendNothing(crypto, Quiet(crypto, Abs(), BeginComplete(streamId, handler, err)));
      if err {
        reports := reports + [ConnectFailed(handler)];
        return;
      }
      dispatcher.DispatchConnectedCellRequest(streamId, handler);
    }

    method SendDataCell(streamId: uint16, piece: seq<byte>, completion: Completion)
      requires Valid() && |piece| <= MAX_PAYLOAD_LENGTH
      modifies Repr
      ensures Valid() && Abs() == Send(crypto, old(Abs()), [RelayImage(circuitId, streamId, DATA, piece)], [completion])
    {
      var dataCell := new Cell.Relay(circuitId, streamId, DATA, piece);
      EncryptAndWrite(dataCell, completion);
    }

    method Write(streamId: uint16, buf: seq<byte>, handler: HandlerId)
      requires Valid() && !dispatcher.aborted
      modifies Repr
      ensures Valid() && Abs() == Step(crypto, old(Abs()), Op.Write(streamId, buf, handler))
    {
      ghost var start := Abs();
      SentStart(crypto, start, streamId, buf, handler);
      var length := |buf|;
      var i := 0;
      ghost var k := 0;
      while i < length
        invariant Valid() && i == k * MAX_PAYLOAD_LENGTH
        invariant k <= |Segments(buf)| && (i < length <==> k < |Segments(buf)|)
        invariant Abs() == Sent(crypto, start, streamId, buf, handler, k)
      {
        SegmentAt(buf, k);
        var n := if MAX_PAYLOAD_LENGTH < length - i then MAX_PAYLOAD_LENGTH else length - i;
        var completion := if length - i <= MAX_PAYLOAD_LENGTH then WriteDone(handler) else NoHandler;
        assert buf[i..i + n] == Segments(buf)[k];
        SentOneMore(crypto, start, streamId, buf, handler, k);
        SendDataCell(streamId, buf[i..i + n], completion);
        i := i + MAX_PAYLOAD_LENGTH;
        k := k + 1;
        if i < length {
          SegmentAt(buf, k);
        }
      }
      SentAll(crypto, start, streamId, buf, handler);
    }

    method Read(streamId: uint16, handler: HandlerId)
      requires Valid() && !dispatcher.aborted
      modifies Repr
      ensures Valid() && Abs() == Step(crypto, old(Abs()), Op.Read(streamId, handler))
    {
      SendNothing(crypto, Quiet(crypto, Abs(), Op.Read(streamId, handler)));
      dispatcher.DispatchDataCellRequest(streamId, handler);
    }

    method CloseStream(streamId: uint16)
      requires Valid() && !dispatcher.aborted
      modifies Repr
      ensures Valid() && Abs() == Step(crypto, old(Abs()), Op.CloseStream(streamId))
    {
      var relayEnd := new Cell.RelayByte(circuitId, streamId, END, 6);
      EncryptAndWrite(relayEnd, NoHandler);
      assert Completions(Op.CloseStream(streamId), 1) == [NoHandler];
    }

    method Close()
      requires Valid() && !dispatcher.aborted
      modifies Repr
      ensures Valid() && Abs() == Step(crypto, old(Abs()), CloseCircuit)
    {
      SendNothing(crypto, Quiet(crypto, Abs(), CloseCircuit));
      closed := true;
    }

    method SendWindowUpdate(streamId: uint16)
      requires Valid()
      modifies Repr
      ensures Valid() && Abs() == Send(crypto, old(Abs()), [SendMeCell(circuitId, streamId)], [NoHandler])
    {
      var cell := new Cell.Relay(circuitId, streamId, SENDME, []);
      EncryptAndWrite(cell, NoHandler);
    }

    /** The first half of decrementWindows. */
    method DecrementCircuitWindow()
      requires Valid()
      modifies Repr
      ensures Valid()
      ensures Abs() == CircuitCounted(crypto, old(Abs()))
    {
      ghost var st := Abs();
      SendNothing(crypto, st.(circuitWindow := CountCell(st, 0).circuitWindow));
      assert NoHandlers(0) == [] && NoHandlers(1) == [NoHandler];
      circuitWindow := Wrap32(circuitWindow - 1);
      if circuitWindow <= 900 {
        SendWindowUpdate(0);
        circuitWindow := Wrap32(circuitWindow + 100);
      }
    }

    /** The second half: the map operator creates a missing entry as 0. */
    method DecrementStreamWindow(streamId: uint16)
      requires Valid()
      modifies Repr
      ensures Valid()
      ensures Abs() == StreamCounted(crypto, old(Abs()), streamId)
    {
      ghost var st := Abs();
      SendNothing(crypto, st.(streamWindows := CountCell(st, streamId).streamWindows));
      assert NoHandlers(0) == [] && NoHandlers(1) == [NoHandler];
      if streamId !in streamWindows {
        streamWindows := streamWindows[streamId := 0];
      }
      var window: int := streamWindows[streamId];
      streamWindows := streamWindows[streamId := Wrap32(window - 1)];
      if streamWindows[streamId] <= 450 {
        SendWindowUpdate(streamId);
        streamWindows := streamWindows[streamId := 500];
      }
    }

    method DecrementWindows(streamId: uint16)
      requires Valid()
      modifies Repr
      ensures Valid()
      ensures var st := old(Abs());
              Abs() == Send(crypto, CountCell(st, streamId), SendMes(st, streamId), NoHandlers(|SendMes(st, streamId)|))
    {
      DecrementTwice(crypto, Abs(), streamId);
      DecrementCircuitWindow();
      DecrementStreamWindow(streamId);
    }

    method HandleDataCell(cell: Dispatcher.Received)
      requires Valid() && !dispatcher.aborted
      modifies Repr
      ensures Valid() && Abs() == Counted(crypto, old(Abs()), cell)
    {
      DecrementWindows(cell.stream);
      dispatcher.DispatchDataCell(cell);
    }

    /** A false result stands for the CryptoMismatchException. */
    method DecryptRelayCell(cell: Cell) returns (ok: bool)
      requires Valid() && cell.Valid() && cell !in Repr && cell.buffer !in Repr
      modifies Repr, cell.buffer
      ensures Valid() && Abs() == Moved(crypto, old(Abs()), old(cell.Bytes()))
      ensures var o := Open(crypto, old(Abs()).back, old(cell.Bytes())); ok == o.verified && cell.Bytes() == o.cell
      ensures dispatcher.Abs() == old(dispatcher.Abs())
    {
      ok := cellEncrypter.Decrypt(cell);
      relayed := relayed + 1;
    }

    /** CellConsumer::handleRelayCell: a cell that does not verify is only reported on the console. */
    method HandleRelayCell(cell: Cell)
      requires Valid() && cell.Valid() && cell !in Repr && cell.buffer !in Repr && !dispatcher.aborted && !closed
      requires CellType(cell.Bytes()) == RELAY_TYPE
      modifies Repr, cell.buffer
      ensures Valid() && Abs() == Step(crypto, old(Abs()), Arrive(old(cell.Bytes())))
    {
      StepOfRelayCell(crypto, Abs(), cell.Bytes());
      var serial := relayed;
      var ok := DecryptRelayCell(cell);
      if !ok {
        return;
      }
      var bytes := cell.buffer[..];
      var received := Dispatcher.ReceivedOf(serial, bytes);
      var typ := RelayType(bytes);
      if typ == DATA || typ == END {
        HandleDataCell(received);
      } else if typ == CONNECTED {
        dispatcher.DispatchConnectedCell(received);
      }
    }

    /** CellConsumer::readCellComplete without an error, up to the next call of consume. */
    method ReadCellComplete(cell: Cell)
      requires Valid() && cell.Valid() && cell !in Repr && cell.buffer !in Repr && !dispatcher.aborted
      modifies Repr
      ensures Valid() && Abs() == Step(crypto, old(Abs()), Arrive(old(cell.Bytes())))
    {
      SendNothing(crypto, Quiet(crypto, Abs(), Arrive(cell.Bytes())));
      if closed {
        return;
      }
      var typ := cell.buffer[2];
      if typ == RELAY_TYPE {
        var relay := new Cell.Copy(cell.buffer[..]);
        HandleRelayCell(relay);
      } else if typ == DESTROY_TYPE {
        reports := reports + [CircuitDestroyed];
      }
    }

    /** CellConsumer::readCellComplete with an error. */
    method ReadCellFailed()
      requires Valid() && !dispatcher.aborted
      modifies Repr
      ensures Valid() && Abs() == Step(crypto, old(Abs()), ReadError)
    {
      SendNothing(crypto, Quiet(crypto, Abs(), ReadError));
      if closed {
        return;
      }
      reports := reports + [ConnectionError];
    }
  }
}
