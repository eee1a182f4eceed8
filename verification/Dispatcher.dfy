/** protocol/RelayCellDispatcher.cpp: the rendezvous between relay cells that arrive and the connect
    and read requests that wait for them. A handler call is an event in a log; handlers run after
    the dispatcher method has returned. */
module Dispatcher {
  import opened Bytes
  import opened Cells

  type HandlerId = nat

  /** A cell on its way to a handler: what the dispatcher and the handlers read of it. The serial
      number is the identity of the heap object that the source passes around in a shared_ptr. */
  datatype Received = Received(serial: nat, stream: uint16, typ: byte, length: int, payload: seq<byte>)

  function ReceivedOf(serial: nat, c: CellBytes): Received
  {
    Received(serial, StreamId(c), RelayType(c), PayloadLength(c), c[14..])
  }

  /** Calls of a connect handler, without and with connection_refused, and calls of a read handler
      with the payload of a cell; each with the stream the handler was registered or asked for, and
      the cell that caused the call. */
  datatype Event =
    | ConnectOk(stream: uint16, handler: HandlerId, cell: Received)
    | ConnectRefused(stream: uint16, handler: HandlerId, cell: Received)
    | Read(stream: uint16, handler: HandlerId, cell: Received)

  /** aborted: the assertion on the queue front has failed and the process is gone. */
  datatype State = State(
    dataCells: map<uint16, seq<Received>>,
    connectedListeners: map<uint16, HandlerId>,
    dataListeners: map<uint16, HandlerId>,
    events: seq<Event>,
    aborted: bool)
  {
    function Queue(s: uint16): seq<Received>
    {
      if s in dataCells then dataCells[s] else []
    }

    function Push(cell: Received): State
    {
      var s := cell.stream;
      this.(dataCells := dataCells[s := Queue(s) + [cell]])
    }

    function Pop(s: uint16): State
      requires Queue(s) != []
    {
      this.(dataCells := dataCells[s := Queue(s)[1..]])
    }

    function Emit(e: Event): State
    {
      this.(events := events + [e])
    }
  }

  const Empty: State := State(map[], map[], map[], [], false)

  datatype Op =
    | AddStream(s: uint16)
    | ConnectRequest(s: uint16, handler: HandlerId)
    | ReadRequest(s: uint16, handler: HandlerId)
    | ConnectedCell(cell: Received)
    | DataCell(cell: Received)

  /** The consumer hands over CONNECTED cells by one entry and DATA and END cells by another. */
  predicate WellTyped(op: Op)
  {
    && (op.ConnectedCell? ==> op.cell.typ == CONNECTED)
    && (op.DataCell? ==> IsDataOrEnd(op.cell))
  }

  predicate IsDataOrEnd(cell: Received) { cell.typ == DATA || cell.typ == END }

  function Step(st: State, op: Op): State
  {
    if st.aborted then st else
    match op
    case AddStream(s) => st.(dataCells := st.dataCells[s := []])
    case ConnectedCell(cell) =>
      var s := cell.stream;
      if s in st.connectedListeners then st.Emit(ConnectOk(s, st.connectedListeners[s], cell))
      else st.Push(cell)
    case ConnectRequest(s, h) =>
      if st.Queue(s) == [] then st.(connectedListeners := st.connectedListeners[s := h]) else
      var front := st.Queue(s)[0];
      if front.typ == CONNECTED then st.Pop(s).Emit(ConnectOk(s, h, front))
      else if front.typ == END then st.Pop(s).Emit(ConnectRefused(s, h, front))
      else st.(aborted := true)
    case DataCell(cell) =>
      var s := cell.stream;
      if s in st.dataListeners then st.Emit(Read(s, st.dataListeners[s], cell))
      else if s in st.connectedListeners then st.Emit(ConnectRefused(s, st.connectedListeners[s], cell))
      else st.Push(cell)
    case ReadRequest(s, h) =>
      if st.Queue(s) == [] then st.(dataListeners := st.dataListeners[s := h])
      else st.Pop(s).Emit(Read(s, h, st.Queue(s)[0]))
  }

  // ---------------------------------------------------------------- the object

  class RelayCellDispatcher {
    var dataCells: map<uint16, seq<Received>>
    var connectedListeners: map<uint16, HandlerId>
    var dataListeners: map<uint16, HandlerId>
    var events: seq<Event>
    var aborted: bool

    function Abs(): State
      reads this
    {
      State(dataCells, connectedListeners, dataListeners, events, aborted)
    }

    constructor ()
      ensures Abs() == Empty
    {
      dataCells, connectedListeners, dataListeners, events, aborted := map[], map[], map[], [], false;
    }

    method AddStreamId(streamId: uint16)
      requires !aborted
      modifies this
      ensures Abs() == Step(old(Abs()), AddStream(streamId))
    {
      dataCells := dataCells[streamId := []];
    }

    method PushBack(cell: Received)
      modifies this
      ensures Abs() == old(Abs()).Push(cell)
    {
      var streamId := cell.stream;
      if streamId !in dataCells {
        dataCells := dataCells[streamId := []];
      }
      dataCells := dataCells[streamId := dataCells[streamId] + [cell]];
    }

    method DispatchConnectedCell(cell: Received)
      requires !aborted
      modifies this
      ensures Abs() == Step(old(Abs()), ConnectedCell(cell))
    {
      var streamId := cell.stream;
      if streamId in connectedListeners {
        events := events + [ConnectOk(streamId, connectedListeners[streamId], cell)];
      } else {
        PushBack(cell);
      }
    }

    method DispatchConnectedCellRequest(streamId: uint16, handler: HandlerId)
      requires !aborted
      modifies this
      ensures Abs() == Step(old(Abs()), ConnectRequest(streamId, handler))
    {
      if streamId in dataCells && dataCells[streamId] != [] {
        var cell := dataCells[streamId][0];
        if !(cell.typ == CONNECTED || cell.typ == END) {
          aborted := true;
          return;
        }
        if cell.typ == CONNECTED {
          events := events + [ConnectOk(streamId, handler, cell)];
        } else {
          events := events + [ConnectRefused(streamId, handler, cell)];
        }
        dataCells := dataCells[streamId := dataCells[streamId][1..]];
      } else {
        connectedListeners := connectedListeners[streamId := handler];
      }
    }

    method DispatchDataCell(cell: Received)
      requires !aborted
      modifies this
      ensures Abs() == Step(old(Abs()), DataCell(cell))
    {
      var streamId := cell.stream;
      if streamId in dataListeners {
        events := events + [Read(streamId, dataListeners[streamId], cell)];
      } else if streamId in connectedListeners {
        events := events + [ConnectRefused(streamId, connectedListeners[streamId], cell)];
      } else {
        PushBack(cell);
      }
    }

    method DispatchDataCellRequest(streamId: uint16, handler: HandlerId)
      requires !aborted
      modifies this
      ensures Abs() == Step(old(Abs()), ReadRequest(streamId, handler))
    {
      if streamId in dataCells && dataCells[streamId] != [] {
        var cell := dataCells[streamId][0];
        events := events + [Read(streamId, handler, cell)];
        dataCells := dataCells[streamId := dataCells[streamId][1..]];
      } else {
        dataListeners := dataListeners[streamId := handler];
      }
    }
  }
}
