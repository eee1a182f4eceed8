/** The client end of a circuit (protocol/Circuit.cpp with the receive switch of
    protocol/CellConsumer.cpp) as a state machine. `Circuit` in Circuit.dfy refines it. */
module Client {
  import opened Bytes
  import opened Cells
  import opened CounterMode
  import opened RelayCrypto
  import Dispatcher

  type HandlerId = Dispatcher.HandlerId

  const CIRCUIT_WINDOW: uint32 := 1000
  const STREAM_WINDOW: uint32 := 500

  /** What the circuit attaches to a cell it writes, to be called when the write is complete. */
  datatype Completion = NoHandler | BeginSent(stream: uint16, handler: HandlerId) | WriteDone(handler: HandlerId)

  /** Calls that do not go through the dispatcher. */
  datatype Report = ConnectFailed(handler: HandlerId) | ConnectionError | CircuitDestroyed

  datatype State = State(
    circuitId: uint16,
    circuitWindow: uint32,
    streamWindows: map<uint16, uint32>,
    forward: Half,
    back: Half,
    dispatcher: Dispatcher.State,
    closed: bool,
    relayed: nat,               // relay cells consumed so far; numbers the cells handed on
    wire: seq<CellBytes>,       // everything written to the connection
    completions: seq<Completion>,
    reports: seq<Report>)

  datatype Op =
    | Connect(stream: uint16, address: seq<byte>, handler: HandlerId)
    | BeginComplete(stream: uint16, handler: HandlerId, failed: bool)
    | Write(stream: uint16, buf: seq<byte>, handler: HandlerId)
    | Read(stream: uint16, handler: HandlerId)
    | CloseStream(stream: uint16)
    | CloseCircuit
    | Arrive(cell: CellBytes)
    | ReadError

  /** The address and its terminating zero fit into one cell. */
  predicate Fits(op: Op) { op.Connect? ==> |op.address| + 1 <= MAX_PAYLOAD_LENGTH }

  // ---------------------------------------------------------------- cells the client builds

  function SendMeCell(circuitId: uint16, s: uint16): CellBytes { RelayImage(circuitId, s, SENDME, []) }

  function EndCell(circuitId: uint16, s: uint16): CellBytes { RelayImage(circuitId, s, END, [6]) }

  function BeginCell(circuitId: uint16, s: uint16, address: seq<byte>): CellBytes
    requires |address| + 1 <= MAX_PAYLOAD_LENGTH
  {
    RelayImage(circuitId, s, BEGIN, address + [0])
  }

  /** The pieces a write is cut into. */
  function Segments(buf: seq<byte>): seq<seq<byte>>
  {
    if buf == [] then []
    else if |buf| <= MAX_PAYLOAD_LENGTH then [buf]
    else [buf[..MAX_PAYLOAD_LENGTH]] + Segments(buf[MAX_PAYLOAD_LENGTH..])
  }

  predicate AllFit(parts: seq<seq<byte>>) { forall p :: p in parts ==> |p| <= MAX_PAYLOAD_LENGTH }

  function DataCells(circuitId: uint16, s: uint16, parts: seq<seq<byte>>): (cells: seq<CellBytes>)
    requires AllFit(parts)
    ensures |cells| == |parts|
  {
    seq(|parts|, i requires 0 <= i < |parts| => RelayImage(circuitId, s, DATA, parts[i]))
  }

  lemma {:induction false} SegmentsFit(buf: seq<byte>)
    ensures AllFit(Segments(buf))
  {
    if |buf| <= MAX_PAYLOAD_LENGTH {
    } else {
      SegmentsFit(buf[MAX_PAYLOAD_LENGTH..]);
    }
  }

  // ---------------------------------------------------------------- receive windows

  /** uint32_t arithmetic */
  function Wrap32(v: int): uint32 { v % 0x1_0000_0000 }

  function StreamWindow(st: State, s: uint16): uint32 { if s in st.streamWindows then st.streamWindows[s] else 0 }

  /** Circuit::decrementWindows without the sending. */
  function CountCell(st: State, s: uint16): State
  {
    var w, v := Wrap32(st.circuitWindow - 1), Wrap32(StreamWindow(st, s) - 1);
    st.(circuitWindow := if w <= 900 then Wrap32(w + 100) else w,
        streamWindows := st.streamWindows[s := if v <= 450 then STREAM_WINDOW else v])
  }

  function CircuitSendMes(st: State): seq<CellBytes>
  {
    if Wrap32(st.circuitWindow - 1) <= 900 then [SendMeCell(st.circuitId, 0)] else []
  }

  function StreamSendMes(st: State, s: uint16): seq<CellBytes>
  {
    if Wrap32(StreamWindow(st, s) - 1) <= 450 then [SendMeCell(st.circuitId, s)] else []
  }

  function SendMes(st: State, s: uint16): seq<CellBytes> { CircuitSendMes(st) + StreamSendMes(st, s) }

  // ---------------------------------------------------------------- one step

  /** The relay cell that an arriving cell turns into, if it is one that is handed on: the circuit is
      open, the cell is a relay cell and its digest verifies. */
  function Accepted(c: Crypto, st: State, op: Op): Option<CellBytes>
  {
    if op.Arrive? && !st.closed && CellType(op.cell) == RELAY_TYPE && Open(c, st.back, op.cell).verified
    then Some(Open(c, st.back, op.cell).cell)
    else None
  }

  predicate CountsAgainstWindow(cell: CellBytes) { RelayType(cell) == DATA || RelayType(cell) == END }

  /** The relay cells an operation builds, in the order they are encrypted and written. */
  function Built(c: Crypto, st: State, op: Op): seq<CellBytes>
    requires Fits(op)
  {
    match op
    case Connect(s, address, _) => [BeginCell(st.circuitId, s, address)]
    case Write(s, buf, _) => SegmentsFit(buf); DataCells(st.circuitId, s, Segments(buf))
    case CloseStream(s) => [EndCell(st.circuitId, s)]
    case Arrive(_) =>
      var cell := Accepted(c, st, op);
      if cell.Some? && CountsAgainstWindow(cell.value) then SendMes(st, StreamId(cell.value)) else []
    case _ => []
  }

  function Completions(op: Op, n: nat): (cs: seq<Completion>)
    ensures |cs| == n
  {
    seq(n, i =>
      match op
      case Connect(s, _, h) => BeginSent(s, h)
      case Write(_, _, h) => if i == n - 1 then WriteDone(h) else NoHandler
      case _ => NoHandler)
  }

  function Dispatch(st: State, op: Dispatcher.Op): State { st.(dispatcher := Dispatcher.Step(st.dispatcher, op)) }

  /** CellConsumer::handleRelayCell after the state of the receiving direction has moved on. */
  function Deliver(st: State, cell: CellBytes): State
  {
    var r := Dispatcher.ReceivedOf(st.relayed, cell);
    if CountsAgainstWindow(cell) then Dispatch(CountCell(st, StreamId(cell)), Dispatcher.DataCell(r))
    else if IsConnected(cell) then Dispatch(st, Dispatcher.ConnectedCell(r))
    else st
  }

  /** Everything an operation does except sending. */
  function Quiet(c: Crypto, st: State, op: Op): State
  {
    match op
    case Connect(s, _, _) => Dispatch(st.(streamWindows := st.streamWindows[s := STREAM_WINDOW]), Dispatcher.AddStream(s))
    case BeginComplete(s, h, failed) =>
      if failed then st.(reports := st.reports + [ConnectFailed(h)])
      else Dispatch(st, Dispatcher.ConnectRequest(s, h))
    case Write(_, _, _) => st
    case Read(s, h) => Dispatch(st, Dispatcher.ReadRequest(s, h))
    case CloseStream(_) => st
    case CloseCircuit => st.(closed := true)
    case Arrive(cell) =>
      if st.closed then st
      else if CellType(cell) == RELAY_TYPE then
        var o := Open(c, st.back, cell);
        var st' := if o.verified then Deliver(st, o.cell) else st;
        st'.(back := o.half, relayed := st.relayed + 1)
      else if CellType(cell) == DESTROY_TYPE then st.(reports := st.reports + [CircuitDestroyed])
      else st
    case ReadError => if st.closed then st else st.(reports := st.reports + [ConnectionError])
  }

  /** Encrypts the cells one after the other with the one forward state and writes them. */
  function Send(c: Crypto, st: State, cells: seq<CellBytes>, completions: seq<Completion>): State
  {
    st.(forward := After(st.forward, cells), wire := st.wire + SealAll(c, st.forward, cells),
        completions := st.completions + completions)
  }

  function Step(c: Crypto, st: State, op: Op): State
    requires Fits(op)
  {
    if st.dispatcher.aborted then st
    else
      var cells := Built(c, st, op);
      Send(c, Quiet(c, st, op), cells, Completions(op, |cells|))
  }

  function Start(circuitId: uint16, forward: Half, back: Half): State
  {
    State(circuitId, CIRCUIT_WINDOW, map[], forward, back, Dispatcher.Empty, false, 0, [], [], [])
  }
}
