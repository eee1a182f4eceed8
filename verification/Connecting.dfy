/** Connecting a stream through the dispatcher: one connect request racing with the cells of the stream. */
module Connecting {
  import opened Bytes
  import opened Cells
  import opened Dispatcher
  import opened DispatcherFates

  /** What has been asked for and has come in on one stream. answering: the CONNECTED cells, and the DATA
      and END cells that came before the first read request. requestedFirst: connect was requested
      before any cell had come. */
  datatype History = History(cells: seq<Received>, answering: seq<Received>,
                             requested: bool, requestedFirst: bool, readRequested: bool)

  function StepHistory(h: History, op: Op): History
  {
    match op
    case AddStream(_) => h
    case ConnectRequest(_, _) => h.(requested := true, requestedFirst := h.requestedFirst || h.cells == [])
    case ReadRequest(_, _) => h.(readRequested := true)
    case ConnectedCell(cell) => h.(cells := h.cells + [cell], answering := h.answering + [cell])
    case DataCell(cell) =>
      h.(cells := h.cells + [cell], answering := if h.readRequested then h.answering else h.answering + [cell])
  }

  function HistoryOf(ops: seq<Op>, s: uint16): History
  {
    if ops == [] then History([], [], false, false, false)
    else
      var before, op := ops[..|ops| - 1], ops[|ops| - 1];
      if Subject(op) == s then StepHistory(HistoryOf(before, s), op) else HistoryOf(before, s)
  }

  /** How the circuit and its peer use one stream: the id is added before its cells come, connect is
      requested at most once, the first cell is CONNECTED or END (section 6.2 of tor-spec), and reads
      start after an outcome has been reported. */
  predicate Fitting(outcomes: seq<bool>, h: History, op: Op)
  {
    && (op.AddStream? ==> h.cells == [])
    && (op.ConnectRequest? ==> !h.requested)
    && (op.DataCell? && h.cells == [] ==> op.cell.typ == END)
    && (op.ReadRequest? ==> outcomes != [])
  }

  predicate OrderlyOp(before: seq<Op>, op: Op, s: uint16)
  {
    WellTyped(op) && (Subject(op) == s ==> Fitting(Outcomes(Run(before).events, s), HistoryOf(before, s), op))
  }

  ghost predicate Orderly(ops: seq<Op>, s: uint16)
  {
    ops == [] || (Orderly(ops[..|ops| - 1], s) && OrderlyOp(ops[..|ops| - 1], ops[|ops| - 1], s))
  }

  ghost predicate AllOrderly(ops: seq<Op>) { forall s :: Orderly(ops, s) }

  lemma HistoryAppend(ops: seq<Op>, op: Op, s: uint16)
    ensures HistoryOf(ops + [op], s) == if Subject(op) == s then StepHistory(HistoryOf(ops, s), op) else HistoryOf(ops, s)
    ensures Run(ops + [op]) == Step(Run(ops), op)
    ensures Orderly(ops + [op], s) <==> Orderly(ops, s) && OrderlyOp(ops, op, s)
  {
    assert (ops + [op])[..|ops|] == ops;
  }

  function Successes(cells: seq<Received>): (r: seq<bool>)
    ensures |r| == |cells|
  {
    seq(|cells|, i requires 0 <= i < |cells| => cells[i].typ == CONNECTED)
  }

  /** What the connect handler has been told and which cells were turned into refusals. A request made
      before the first cell is answered by every answering cell, because the handler stays; a later
      one by the first cell alone. */
  ghost predicate Answered(h: History, outcomes: seq<bool>, refused: seq<Received>)
  {
    && (!h.requested ==> outcomes == [] && refused == [])
    && (h.requestedFirst ==> h.requested && outcomes == Successes(h.answering) && refused == DataOrEnd(h.answering))
    && (h.requested && !h.requestedFirst ==>
          && h.cells != [] && outcomes == [h.cells[0].typ == CONNECTED]
          && refused == if h.cells[0].typ == CONNECTED then [] else [h.cells[0]])
  }

  /** The first cell is an answer, and nobody has asked to read before it. */
  ghost predicate WellBegun(h: History)
  {
    && (h.cells == [] ==> h.answering == [] && !h.readRequested)
    && (h.cells != [] ==>
          && (h.cells[0].typ == CONNECTED || h.cells[0].typ == END)
          && h.answering != [] && h.answering[0] == h.cells[0])
    && (h.requested && h.cells == [] ==> h.requestedFirst)
  }

  ghost predicate Phase(v: View, h: History)
  {
    && WellBegun(h) && Answered(h, v.outcomes, v.refused)
    && (!h.requested ==> v.queue == h.cells && !h.readRequested)
    && (!h.readRequested ==> v.delivered == [])
    && (v.connecting <==> h.requestedFirst) && (v.connecting ==> v.queue == [])
    && (v.reading ==> h.readRequested) && (h.requestedFirst && h.readRequested ==> v.reading)
  }

  ghost predicate PhaseOf(ops: seq<Op>, s: uint16) { Phase(ViewOf(Run(ops), s), HistoryOf(ops, s)) }

  lemma AnsweringMore(cells: seq<Received>, cell: Received)
    ensures Successes(cells + [cell]) == Successes(cells) + [cell.typ == CONNECTED]
    ensures DataOrEnd(cells + [cell]) == DataOrEnd(cells) + if IsDataOrEnd(cell) then [cell] else []
  {
    DataOrEndAppend(cells, [cell]);
  }

  lemma PhaseMove(v: View, h: History, op: Op)
    requires Phase(v, h) && WellTyped(op) && Fitting(v.outcomes, h, op)
    ensures Phase(StepView(v, op), StepHistory(h, op))
  {
    if op.ConnectedCell? || op.DataCell? {
      AnsweringMore(h.answering, op.cell);
    }
  }

  lemma PhaseStep(ops: seq<Op>, op: Op, s: uint16)
    requires PhaseOf(ops, s) && OrderlyOp(ops, op, s) && !Run(ops + [op]).aborted
    ensures PhaseOf(ops + [op], s)
  {
    HistoryAppend(ops, op, s);
    RunStep(ops, op, s);
    if Subject(op) == s {
      PhaseMove(ViewOf(Run(ops), s), HistoryOf(ops, s), op);
    }
  }

  /** For every order of one connect request and the arrivals, the first outcome is success exactly
      when CONNECTED came first. */
  lemma {:induction false} RaceIndependence(ops: seq<Op>, s: uint16)
    requires Orderly(ops, s) && !Run(ops).aborted
    ensures PhaseOf(ops, s)
    ensures var h, outcomes := HistoryOf(ops, s), Outcomes(Run(ops).events, s);
            if h.requested && h.cells != [] then outcomes != [] && outcomes[0] == (h.cells[0].typ == CONNECTED)
            else outcomes == []
  {
    if ops == [] {
    } else {
      var before, op := ops[..|ops| - 1], ops[|ops| - 1];
      SplitLast(ops);
      RunStep(before, op, s);
      RaceIndependence(before, s);
      PhaseStep(before, op, s);
    }
  }

  // ---------------------------------------------------------------- the assertion on the queue front

  /** An operation on an orderly stream does not fail the assertion. */
  lemma AssertionHolds(ops: seq<Op>, op: Op, s: uint16)
    requires Orderly(ops + [op], s) && !Run(ops).aborted && Subject(op) == s
    ensures !Run(ops + [op]).aborted
  {
    HistoryAppend(ops, op, s);
    RaceIndependence(ops, s);
  }

  /** In every run that is orderly on all streams the assertion on the queue front never fails. */
  lemma {:induction false} AssertionNeverFails(ops: seq<Op>)
    requires AllOrderly(ops)
    ensures !Run(ops).aborted
  {
    if ops == [] {
    } else {
      var before, op := ops[..|ops| - 1], ops[|ops| - 1];
      SplitLast(ops);
      forall s ensures Orderly(before, s) { HistoryAppend(before, op, s); }
      AssertionNeverFails(before);
      AssertionHolds(before, op, Subject(op));
    }
  }

  // ---------------------------------------------------------------- how often a request is answered

  /** All that connect handlers of a stream are told in an orderly run, and all its refusals: by cells
      that arrive behind the request, and by the cell that a late request finds queued. */
  lemma AnswersExactly(ops: seq<Op>, s: uint16)
    requires AllOrderly(ops)
    ensures !Run(ops).aborted
    ensures WellBegun(HistoryOf(ops, s))
    ensures Answered(HistoryOf(ops, s), Outcomes(Run(ops).events, s), Refused(Run(ops).events, s))
  {
    AssertionNeverFails(ops);
    assert Orderly(ops, s);
    RaceIndependence(ops, s);
  }

  /** A request is answered once exactly when it came behind a cell, or exactly one cell has come that is
      CONNECTED or precedes the first read; more than once exactly when it came first and a second
      such cell has followed. */
  lemma AnsweredOnceExactlyWhen(ops: seq<Op>, s: uint16)
    requires AllOrderly(ops)
    ensures var h, outcomes := HistoryOf(ops, s), Outcomes(Run(ops).events, s);
            && (|outcomes| == 1 <==> h.requested && (h.requestedFirst ==> |h.answering| == 1))
            && (|outcomes| > 1 <==> h.requestedFirst && |h.answering| > 1)
  {
    AnswersExactly(ops, s);
  }

  /** The operation that refuses a cell: its arrival when connect was requested first and nothing has
      asked to read, or the connect request that finds END in front. */
  lemma RefusedExactlyWhen(ops: seq<Op>, op: Op)
    requires Orderly(ops + [op], Subject(op)) && !Run(ops).aborted
    ensures var s := Subject(op);
            var h := HistoryOf(ops, s);
            Refused(Run(ops + [op]).events, s)
            == Refused(Run(ops).events, s)
               + if op.DataCell? && h.requestedFirst && !h.readRequested then [op.cell]
                 else if op.ConnectRequest? && h.cells != [] && h.cells[0].typ == END then [h.cells[0]]
                 else []
  {
    var s := Subject(op);
    HistoryAppend(ops, op, s);
    RaceIndependence(ops, s);
    AssertionHolds(ops, op, s);
    RunStep(ops, op, s);
  }

  // ---------------------------------------------------------------- what readers get

  /** Refused cells first, then those that have been read, then those still queued. */
  ghost predicate InOrder(v: View, arrived: seq<Received>)
  {
    arrived == v.refused + DataOrEnd(v.delivered) + DataOrEnd(v.queue)
  }

  lemma DataOrEndOne(cells: seq<Received>, cell: Received)
    ensures DataOrEnd(cells + [cell]) == DataOrEnd(cells) + if IsDataOrEnd(cell) then [cell] else []
  {
    DataOrEndAppend(cells, [cell]);
  }

  lemma InOrderMove(v: View, h: History, op: Op, arrived: seq<Received>)
    requires Phase(v, h) && ViewOk(v) && WellTyped(op) && Fitting(v.outcomes, h, op) && InOrder(v, arrived)
    ensures InOrder(StepView(v, op), arrived + ArrivedBy(op))
  {
    match op
    case DataCell(cell) => InOrderData(v, cell, arrived);
    case ConnectedCell(cell) => DataOrEndOne(v.queue, cell);
    case ReadRequest(_, _) => InOrderRead(v, op, arrived);
    case _ =>
  }

  lemma InOrderData(v: View, cell: Received, arrived: seq<Received>)
    requires ViewOk(v) && IsDataOrEnd(cell) && InOrder(v, arrived) && (v.connecting && !v.reading ==> v.delivered == [])
    ensures InOrder(StepView(v, DataCell(cell)), arrived + [cell])
  {
    DataOrEndOne(v.queue, cell);
    DataOrEndOne(v.delivered, cell);
  }

  lemma InOrderRead(v: View, op: Op, arrived: seq<Received>)
    requires op.ReadRequest? && InOrder(v, arrived)
    ensures InOrder(StepView(v, op), arrived)
  {
    if v.queue == [] {
    } else {
      DataOrEndOne(v.delivered, v.queue[0]);
    }
  }

  /** On an orderly stream the DATA and END cells that have arrived are, in this order: those refused,
      those handed to readers, and those still queued. */
  lemma {:induction false} ReadersGetTheRest(ops: seq<Op>, s: uint16)
    requires Orderly(ops, s) && !Run(ops).aborted && forall op :: op in ops ==> WellTyped(op)
    ensures InOrder(ViewOf(Run(ops), s), Arrived(ops, s))
  {
    if ops == [] {
    } else {
      var before, op := ops[..|ops| - 1], ops[|ops| - 1];
      SplitLast(ops);
      RunStep(before, op, s);
      ReadersGetTheRest(before, s);
      ArrivedAppend(before, op, s);
      RaceIndependence(before, s);
      ViewOkHolds(before, s);
      if Subject(op) == s {
        InOrderMove(ViewOf(Run(before), s), HistoryOf(before, s), op, Arrived(before, s));
      } else {
        assert Arrived(before, s) + [] == Arrived(before, s);
      }
    }
  }

  function ConnectedOf(cells: seq<Received>): seq<Received>
  {
    if cells == [] then []
    else (if cells[0].typ == CONNECTED then [cells[0]] else []) + ConnectedOf(cells[1..])
  }

  lemma {:induction false} ConnectedOfOne(cells: seq<Received>, cell: Received)
    ensures ConnectedOf(cells + [cell]) == ConnectedOf(cells) + if cell.typ == CONNECTED then [cell] else []
  {
    if cells == [] {
      assert cells + [cell] == [cell] && [cell][1..] == [];
    } else {
      assert (cells + [cell])[1..] == cells[1..] + [cell];
      ConnectedOfOne(cells[1..], cell);
    }
  }

  /** The CONNECTED cells that can reach a reader: with a late request, those behind the first cell. */
  function ConnectedLeft(h: History): seq<Received>
  {
    if h.requestedFirst then []
    else if h.requested && h.cells != [] then ConnectedOf(h.cells[1..])
    else ConnectedOf(h.cells)
  }

  ghost predicate ConnectedBehind(v: View, h: History)
  {
    ConnectedOf(v.delivered) + ConnectedOf(v.queue) == ConnectedLeft(h)
  }

  lemma ConnectedBehindMove(v: View, h: History, op: Op)
    requires Phase(v, h) && WellTyped(op) && Fitting(v.outcomes, h, op) && ConnectedBehind(v, h)
    ensures ConnectedBehind(StepView(v, op), StepHistory(h, op))
  {
    match op
    case DataCell(cell) => ConnectedBehindData(v, h, cell);
    case ConnectedCell(cell) => ConnectedBehindConnected(v, h, cell);
    case ConnectRequest(_, _) => ConnectedBehindConnect(v, h, op);
    case ReadRequest(_, _) => ConnectedBehindRead(v, h, op);
    case AddStream(_) => assert v.queue == [];
  }

  lemma ConnectedBehindData(v: View, h: History, cell: Received)
    requires IsDataOrEnd(cell) && ConnectedBehind(v, h) && (h.requested && !h.requestedFirst ==> h.cells != [])
    ensures ConnectedBehind(StepView(v, DataCell(cell)), StepHistory(h, DataCell(cell)))
  {
    ConnectedLeftCell(h, DataCell(cell), cell);
    ConnectedOfOne(v.queue, cell);
    ConnectedOfOne(v.delivered, cell);
    var v' := StepView(v, DataCell(cell));
    assert ConnectedOf(v'.delivered) == ConnectedOf(v.delivered) && ConnectedOf(v'.queue) == ConnectedOf(v.queue);
  }

  lemma ConnectedBehindConnected(v: View, h: History, cell: Received)
    requires cell.typ == CONNECTED && ConnectedBehind(v, h) && (h.requested && !h.requestedFirst ==> h.cells != [])
    requires v.connecting <==> h.requestedFirst
    ensures ConnectedBehind(StepView(v, ConnectedCell(cell)), StepHistory(h, ConnectedCell(cell)))
  {
    ConnectedLeftCell(h, ConnectedCell(cell), cell);
    ConnectedOfOne(v.queue, cell);
    assert ConnectedOf(v.delivered) + (ConnectedOf(v.queue) + [cell]) == ConnectedOf(v.delivered) + ConnectedOf(v.queue) + [cell];
  }

  lemma ConnectedBehindRead(v: View, h: History, op: Op)
    requires op.ReadRequest? && ConnectedBehind(v, h)
    ensures ConnectedBehind(StepView(v, op), StepHistory(h, op))
  {
    if v.queue == [] {
    } else {
      ConnectedOfOne(v.delivered, v.queue[0]);
      var v' := StepView(v, op);
      assert ConnectedOf(v'.delivered) + ConnectedOf(v'.queue) == ConnectedOf(v.delivered) + ConnectedOf(v.queue);
    }
    assert ConnectedLeft(StepHistory(h, op)) == ConnectedLeft(h);
  }

  lemma ConnectedBehindConnect(v: View, h: History, op: Op)
    requires Phase(v, h) && op.ConnectRequest? && !h.requested && ConnectedBehind(v, h)
    ensures ConnectedBehind(StepView(v, op), StepHistory(h, op))
  {
  }

  lemma ConnectedLeftCell(h: History, op: Op, cell: Received)
    requires op == ConnectedCell(cell) || op == DataCell(cell)
    requires h.requested && !h.requestedFirst ==> h.cells != []
    ensures ConnectedLeft(StepHistory(h, op))
         == ConnectedLeft(h) + if cell.typ == CONNECTED && !h.requestedFirst then [cell] else []
  {
    ConnectedBehindCell(h, cell);
  }

  lemma ConnectedBehindCell(h: History, cell: Received)
    ensures var more := if cell.typ == CONNECTED then [cell] else [];
            && ConnectedOf(h.cells + [cell]) == ConnectedOf(h.cells) + more
            && (h.cells != [] ==> ConnectedOf((h.cells + [cell])[1..]) == ConnectedOf(h.cells[1..]) + more)
  {
    ConnectedOfOne(h.cells, cell);
    if h.cells != [] {
      ConnectedOfOne(h.cells[1..], cell);
      assert (h.cells + [cell])[1..] == h.cells[1..] + [cell];
    }
  }

  /** Which CONNECTED cells readers get: none when connect was requested first; otherwise those behind the
      first cell, as far as they are not still queued. With one CONNECTED to a stream there are none. */
  lemma {:induction false} ReadersGetConnected(ops: seq<Op>, s: uint16)
    requires Orderly(ops, s) && !Run(ops).aborted
    ensures ConnectedBehind(ViewOf(Run(ops), s), HistoryOf(ops, s))
  {
    if ops == [] {
    } else {
      var before, op := ops[..|ops| - 1], ops[|ops| - 1];
      SplitLast(ops);
      HistoryAppend(before, op, s);
      RunStep(before, op, s);
      ReadersGetConnected(before, s);
      RaceIndependence(before, s);
      if Subject(op) == s {
        ConnectedBehindMove(ViewOf(Run(before), s), HistoryOf(before, s), op);
      }
    }
  }

  lemma {:induction false} OrderlyDropsNothing(ops: seq<Op>, s: uint16)
    requires Orderly(ops, s) && !Run(ops).aborted
    ensures Dropped(ops, s) == []
  {
    if ops == [] {
    } else {
      var before, op := ops[..|ops| - 1], ops[|ops| - 1];
      SplitLast(ops);
      RunStep(before, op, s);
      OrderlyDropsNothing(before, s);
      ArrivedAppend(before, op, s);
      RaceIndependence(before, s);
    }
  }

  /** On an orderly stream every DATA or END cell has been read, has been refused, or is queued. */
  lemma OrderlyLosesNothing(ops: seq<Op>, s: uint16)
    requires AllOrderly(ops) && forall op :: op in ops ==> WellTyped(op)
    ensures var read := DataOrEnd(Delivered(Run(ops).events, s));
            var queued := DataOrEnd(Run(ops).Queue(s));
            && multiset(Arrived(ops, s)) == multiset(read) + multiset(queued) + multiset(Refused(Run(ops).events, s))
            && IsSubsequence(read + queued, Arrived(ops, s))
  {
    AssertionNeverFails(ops);
    assert Orderly(ops, s);
    OrderlyDropsNothing(ops, s);
    OneFateInOrder(ops, s);
  }

  function Arrival(cell: Received): Op { if cell.typ == CONNECTED then ConnectedCell(cell) else DataCell(cell) }

  /** So one connect request can be answered twice: success, then a refusal for the data behind it, or
      a second success for a second CONNECTED. */
  lemma ConnectAnsweredTwice(c: Received, d: Received, s: uint16, h: HandlerId) returns (ops: seq<Op>)
    requires c.stream == s && c.typ == CONNECTED && d.stream == s && (d.typ == CONNECTED || IsDataOrEnd(d))
    ensures ops == [AddStream(s), ConnectRequest(s, h), ConnectedCell(c), Arrival(d)]
    ensures AllOrderly(ops)
    ensures Run(ops).events == [ConnectOk(s, h, c), if d.typ == CONNECTED then ConnectOk(s, h, d) else ConnectRefused(s, h, d)]
  {
    var ops' := AddThenConnect(s, h);
    ops := ops' + [ConnectedCell(c)] + [Arrival(d)];
    forall t ensures Orderly(ops, t) { ConnectedThen(ops', c, d, s, h, t); }
    ConnectedThen(ops', c, d, s, h, s);
  }

  ghost predicate Connecting(ops: seq<Op>, s: uint16, h: HandlerId)
  {
    var st := Run(ops);
    && !st.aborted && st.events == [] && st.connectedListeners == map[s := h] && st.dataListeners == map[]
    && AllOrderly(ops)
  }

  lemma AddedOnly(s: uint16, t: uint16) returns (ops: seq<Op>)
    ensures ops == [AddStream(s)] && Orderly(ops, t) && HistoryOf(ops, t) == History([], [], false, false, false)
    ensures Run(ops) == Empty.(dataCells := map[s := []])
  {
    HistoryAppend([], AddStream(s), t);
    ops := [] + [AddStream(s)];
  }

  lemma RequestedOnly(before: seq<Op>, s: uint16, h: HandlerId, t: uint16)
    requires Orderly(before, t) && HistoryOf(before, t) == History([], [], false, false, false)
    requires Run(before) == Empty.(dataCells := map[s := []])
    ensures var ops := before + [ConnectRequest(s, h)];
            Orderly(ops, t) && Run(ops) == Run(before).(connectedListeners := map[s := h])
  {
    HistoryAppend(before, ConnectRequest(s, h), t);
  }

  lemma AddThenConnect(s: uint16, h: HandlerId) returns (ops: seq<Op>)
    ensures ops == [AddStream(s), ConnectRequest(s, h)] && Connecting(ops, s, h)
  {
    var before := AddedOnly(s, s);
    ops := before + [ConnectRequest(s, h)];
    RequestedOnly(before, s, h, s);
    forall t ensures Orderly(ops, t)
    {
      var same := AddedOnly(s, t);
      RequestedOnly(before, s, h, t);
    }
  }

  lemma ConnectedThen(ops: seq<Op>, c: Received, d: Received, s: uint16, h: HandlerId, t: uint16)
    requires c.stream == s && c.typ == CONNECTED && d.stream == s && (d.typ == CONNECTED || IsDataOrEnd(d))
    requires Connecting(ops, s, h)
    ensures var ops' := ops + [ConnectedCell(c)] + [Arrival(d)];
            && Orderly(ops', t)
            && Run(ops').events == [ConnectOk(s, h, c), if d.typ == CONNECTED then ConnectOk(s, h, d) else ConnectRefused(s, h, d)]
  {
    HistoryAppend(ops, ConnectedCell(c), t);
    HistoryAppend(ops + [ConnectedCell(c)], Arrival(d), t);
  }

  /** One step of a run that is written out: the state and, for stream t, the history after it. */
  ghost predicate At(ops: seq<Op>, t: uint16, st: State, h: History)
  {
    Orderly(ops, t) && Run(ops) == st && HistoryOf(ops, t) == h
  }

  lemma AtNext(ops: seq<Op>, op: Op, t: uint16, st: State, h: History)
    requires At(ops, t, st, h) && WellTyped(op)
    requires Subject(op) == t ==> Fitting(Outcomes(st.events, t), h, op)
    ensures At(ops + [op], t, Step(st, op), if Subject(op) == t then StepHistory(h, op) else h)
  {
    HistoryAppend(ops, op, t);
  }

  lemma Queued(st: State, queue: seq<Received>, cell: Received)
    requires st == Empty.(dataCells := map[cell.stream := queue]) && cell.typ == CONNECTED
    ensures Step(st, ConnectedCell(cell)) == Empty.(dataCells := map[cell.stream := queue + [cell]])
  {
    assert map[cell.stream := queue][cell.stream := queue + [cell]] == map[cell.stream := queue + [cell]];
  }

  lemma TwoConnected(c: Received, d: Received, s: uint16, t: uint16) returns (ops: seq<Op>)
    requires c.stream == d.stream == s && c.typ == d.typ == CONNECTED
    ensures ops == [AddStream(s), ConnectedCell(c), ConnectedCell(d)]
    ensures At(ops, t, Empty.(dataCells := map[s := [c, d]]),
               if t == s then History([c, d], [c, d], false, false, false) else History([], [], false, false, false))
  {
    var none := History([], [], false, false, false);
    var added := AddedOnly(s, t);
    var st1 := Empty.(dataCells := map[s := []]);
    AtNext(added, ConnectedCell(c), t, st1, none);
    var st2 := Step(st1, ConnectedCell(c));
    Queued(st1, [], c);
    assert [] + [c] == [c] && [c] + [d] == [c, d];
    Queued(st2, [c], d);
    assert st2 == Empty.(dataCells := map[s := [c]]);
    AtNext(added + [ConnectedCell(c)], ConnectedCell(d), t, st2, if t == s then StepHistory(none, ConnectedCell(c)) else none);
    assert Step(st2, ConnectedCell(d)) == Empty.(dataCells := map[s := [c, d]]);
    ops := added + [ConnectedCell(c)] + [ConnectedCell(d)];
  }

  /** After a late request the second of two CONNECTED cells stays queued, and the first read gets it as data. */
  lemma ConnectedReachesReader(c: Received, d: Received, s: uint16, h: HandlerId, r: HandlerId) returns (ops: seq<Op>)
    requires c.stream == d.stream == s && c.typ == d.typ == CONNECTED
    ensures ops == [AddStream(s), ConnectedCell(c), ConnectedCell(d), ConnectRequest(s, h), ReadRequest(s, r)]
    ensures AllOrderly(ops) && Run(ops).events == [ConnectOk(s, h, c), Read(s, r, d)]
  {
    var before := TwoConnected(c, d, s, s);
    ops := before + [ConnectRequest(s, h)] + [ReadRequest(s, r)];
    LateThenRead(before, c, d, s, h, r, s);
    forall t ensures Orderly(ops, t)
    {
      var same := TwoConnected(c, d, s, t);
      LateThenRead(before, c, d, s, h, r, t);
    }
  }

  lemma LateThenRead(before: seq<Op>, c: Received, d: Received, s: uint16, h: HandlerId, r: HandlerId, t: uint16)
    requires c.typ == CONNECTED
    requires At(before, t, Empty.(dataCells := map[s := [c, d]]),
                if t == s then History([c, d], [c, d], false, false, false) else History([], [], false, false, false))
    ensures var ops := before + [ConnectRequest(s, h)] + [ReadRequest(s, r)];
            Orderly(ops, t) && Run(ops).events == [ConnectOk(s, h, c), Read(s, r, d)]
  {
    var st := Empty.(dataCells := map[s := [c, d]]);
    var hist := if t == s then History([c, d], [c, d], false, false, false) else History([], [], false, false, false);
    var op := ConnectRequest(s, h);
    AtNext(before, op, t, st, hist);
    var st1 := Step(st, op);
    assert st1.events == [ConnectOk(s, h, c)] && st1.Queue(s) == [d] && !st1.aborted;
    assert Outcomes(st1.events, s) == [true] by { assert st1.events[..0] == []; }
    AtNext(before + [op], ReadRequest(s, r), t, st1, if t == s then StepHistory(hist, op) else hist);
  }
}
