/** Whose handler the dispatcher calls, told from the list of operations. */
module Handlers {
  import opened Bytes
  import opened Cells
  import opened Dispatcher
  import opened DispatcherFates

  /** The handler of the latest read request on stream s that found nothing queued. */
  function StandingReader(ops: seq<Op>, s: uint16): Option<HandlerId>
  {
    if ops == [] then None
    else
      var before, op := ops[..|ops| - 1], ops[|ops| - 1];
      if op.ReadRequest? && op.s == s && Run(before).Queue(s) == [] then Some(op.handler) else StandingReader(before, s)
  }

  /** The handler of the latest connect request on stream s that found nothing queued. */
  function StandingConnector(ops: seq<Op>, s: uint16): Option<HandlerId>
  {
    if ops == [] then None
    else
      var before, op := ops[..|ops| - 1], ops[|ops| - 1];
      if op.ConnectRequest? && op.s == s && Run(before).Queue(s) == [] then Some(op.handler) else StandingConnector(before, s)
  }

  function Lookup(m: map<uint16, HandlerId>, s: uint16): Option<HandlerId> { if s in m then Some(m[s]) else None }

  /** The call that an operation causes after these: a request is answered itself when a cell is queued; a
      cell is given to the standing reader, else to the standing connector, else to nobody. */
  function CallBy(before: seq<Op>, op: Op): seq<Event>
  {
    match op
    case AddStream(_) => []
    case ConnectRequest(s, h) =>
      var queue := Run(before).Queue(s);
      if queue == [] then []
      else if queue[0].typ == CONNECTED then [ConnectOk(s, h, queue[0])]
      else [ConnectRefused(s, h, queue[0])]
    case ReadRequest(s, h) =>
      var queue := Run(before).Queue(s);
      if queue == [] then [] else [Read(s, h, queue[0])]
    case ConnectedCell(cell) =>
      var h := StandingConnector(before, cell.stream);
      if h.Some? then [ConnectOk(cell.stream, h.value, cell)] else []
    case DataCell(cell) =>
      var reader, connector := StandingReader(before, cell.stream), StandingConnector(before, cell.stream);
      if reader.Some? then [Read(cell.stream, reader.value, cell)]
      else if connector.Some? then [ConnectRefused(cell.stream, connector.value, cell)]
      else []
  }

  function CallsBy(ops: seq<Op>): seq<Event>
  {
    if ops == [] then [] else CallsBy(ops[..|ops| - 1]) + CallBy(ops[..|ops| - 1], ops[|ops| - 1])
  }

  ghost predicate Standing(ops: seq<Op>)
  {
    forall s :: Lookup(Run(ops).dataListeners, s) == StandingReader(ops, s)
             && Lookup(Run(ops).connectedListeners, s) == StandingConnector(ops, s)
  }

  lemma StandingMore(ops: seq<Op>, op: Op, s: uint16)
    ensures StandingReader(ops + [op], s)
         == if op.ReadRequest? && op.s == s && Run(ops).Queue(s) == [] then Some(op.handler) else StandingReader(ops, s)
    ensures StandingConnector(ops + [op], s)
         == if op.ConnectRequest? && op.s == s && Run(ops).Queue(s) == [] then Some(op.handler) else StandingConnector(ops, s)
    ensures CallsBy(ops + [op]) == CallsBy(ops) + CallBy(ops, op)
    ensures Run(ops + [op]) == Step(Run(ops), op)
  {
    assert (ops + [op])[..|ops|] == ops;
  }

  lemma StandingStep(ops: seq<Op>, op: Op, s: uint16)
    requires Standing(ops) && !Run(ops + [op]).aborted
    ensures Lookup(Run(ops + [op]).dataListeners, s) == StandingReader(ops + [op], s)
    ensures Lookup(Run(ops + [op]).connectedListeners, s) == StandingConnector(ops + [op], s)
  {
    StandingMore(ops, op, s);
    assert Lookup(Run(ops).dataListeners, s) == StandingReader(ops, s);
  }

  lemma CallStep(ops: seq<Op>, op: Op)
    requires Standing(ops) && !Run(ops + [op]).aborted
    ensures Run(ops + [op]).events == Run(ops).events + CallBy(ops, op)
  {
    var s := Subject(op);
    StandingMore(ops, op, s);
    assert Lookup(Run(ops).dataListeners, s) == StandingReader(ops, s)
        && Lookup(Run(ops).connectedListeners, s) == StandingConnector(ops, s);
  }

  /** Over every run the handlers called, with their streams and cells, are these and no others, in this order. */
  lemma {:induction false} RightHandlersCalled(ops: seq<Op>)
    requires !Run(ops).aborted
    ensures Run(ops).events == CallsBy(ops)
    ensures Standing(ops)
  {
    if ops == [] {
    } else {
      var before, op := ops[..|ops| - 1], ops[|ops| - 1];
      SplitLast(ops);
      StandingMore(before, op, Subject(op));
      RightHandlersCalled(before);
      CallStep(before, op);
      forall s ensures Lookup(Run(ops).dataListeners, s) == StandingReader(ops, s)
                    && Lookup(Run(ops).connectedListeners, s) == StandingConnector(ops, s)
      {
        StandingStep(before, op, s);
      }
    }
  }
}
