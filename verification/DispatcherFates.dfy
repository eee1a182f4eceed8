/** What happens to the cells of one stream over a whole run of the dispatcher. */
module DispatcherFates {
  import opened Bytes
  import opened Cells
  import opened Dispatcher

  /** The state after these operations. Once the assertion has failed nothing changes any more, so
      the results below are about runs that have not aborted. */
  function Run(ops: seq<Op>): State
  {
    if ops == [] then Empty else Step(Run(ops[..|ops| - 1]), ops[|ops| - 1])
  }

  // ---------------------------------------------------------------- one stream on its own

  function Subject(op: Op): uint16
  {
    match op
    case AddStream(s) => s
    case ConnectRequest(s, _) => s
    case ReadRequest(s, _) => s
    case ConnectedCell(cell) => cell.stream
    case DataCell(cell) => cell.stream
  }

  /** Cells handed to read handlers of stream s, in order. */
  function Delivered(events: seq<Event>, s: uint16): seq<Received>
  {
    if events == [] then []
    else
      var e := events[|events| - 1];
      Delivered(events[..|events| - 1], s) + if e.Read? && e.stream == s then [e.cell] else []
  }

  /** Cells reported to connect handlers of stream s as connection_refused, in order. */
  function Refused(events: seq<Event>, s: uint16): seq<Received>
  {
    if events == [] then []
    else
      var e := events[|events| - 1];
      Refused(events[..|events| - 1], s) + if e.ConnectRefused? && e.stream == s then [e.cell] else []
  }

  /** What the connect handlers of stream s were told, in order; true is success. */
  function Outcomes(events: seq<Event>, s: uint16): seq<bool>
  {
    if events == [] then []
    else
      var e := events[|events| - 1];
      Outcomes(events[..|events| - 1], s) + if !e.Read? && e.stream == s then [e.ConnectOk?] else []
  }

  /** All that a run has to do with one stream. */
  datatype View = View(queue: seq<Received>, connecting: bool, reading: bool,
                       delivered: seq<Received>, refused: seq<Received>, outcomes: seq<bool>)

  function ViewOf(st: State, s: uint16): View
  {
    View(st.Queue(s), s in st.connectedListeners, s in st.dataListeners,
         Delivered(st.events, s), Refused(st.events, s), Outcomes(st.events, s))
  }

  /** The effect on its own stream of an operation that does not abort. */
  function StepView(v: View, op: Op): View
  {
    match op
    case AddStream(_) => v.(queue := [])
    case ConnectedCell(cell) =>
      if v.connecting then v.(outcomes := v.outcomes + [true]) else v.(queue := v.queue + [cell])
    case ConnectRequest(_, _) =>
      if v.queue == [] then v.(connecting := true)
      else if v.queue[0].typ == CONNECTED then v.(queue := v.queue[1..], outcomes := v.outcomes + [true])
      else v.(queue := v.queue[1..], outcomes := v.outcomes + [false], refused := v.refused + [v.queue[0]])
    case DataCell(cell) =>
      if v.reading then v.(delivered := v.delivered + [cell])
      else if v.connecting then v.(outcomes := v.outcomes + [false], refused := v.refused + [cell])
      else v.(queue := v.queue + [cell])
    case ReadRequest(_, _) =>
      if v.queue == [] then v.(reading := true)
      else v.(queue := v.queue[1..], delivered := v.delivered + [v.queue[0]])
  }

  function Record(v: View, e: Event, s: uint16): View
  {
    if e.stream != s then v
    else match e
      case ConnectOk(_, _, _) => v.(outcomes := v.outcomes + [true])
      case ConnectRefused(_, _, cell) => v.(outcomes := v.outcomes + [false], refused := v.refused + [cell])
      case Read(_, _, cell) => v.(delivered := v.delivered + [cell])
  }

  lemma EmitView(st: State, e: Event, s: uint16)
    ensures ViewOf(st.Emit(e), s) == Record(ViewOf(st, s), e, s)
  {
  }

  lemma QueueView(st: State, t: uint16, cell: Received, s: uint16)
    ensures cell.stream == t ==>
              ViewOf(st.Push(cell), s) == if t == s then ViewOf(st, s).(queue := st.Queue(s) + [cell]) else ViewOf(st, s)
    ensures st.Queue(t) != [] ==>
              ViewOf(st.Pop(t), s) == if t == s then ViewOf(st, s).(queue := st.Queue(s)[1..]) else ViewOf(st, s)
  {
  }

  /** Streams do not influence each other, and StepView is what Step does to one of them. */
  lemma StepIsLocal(st: State, op: Op, s: uint16)
    requires !st.aborted && !Step(st, op).aborted
    ensures ViewOf(Step(st, op), s) == if Subject(op) == s then StepView(ViewOf(st, s), op) else ViewOf(st, s)
  {
    var t := Subject(op);
    match op
    case AddStream(_) =>
    case ConnectedCell(cell) =>
      QueueView(st, t, cell, s);
      if t in st.connectedListeners {
        EmitView(st, ConnectOk(t, st.connectedListeners[t], cell), s);
      }
    case DataCell(cell) => DataCellIsLocal(st, cell, s);
    case ConnectRequest(_, h) => ConnectRequestIsLocal(st, t, h, s);
    case ReadRequest(_, h) =>
      if st.Queue(t) != [] {
        QueueView(st, t, st.Queue(t)[0], s);
        EmitView(st.Pop(t), Read(t, h, st.Queue(t)[0]), s);
      }
  }

  lemma ConnectRequestIsLocal(st: State, t: uint16, h: HandlerId, s: uint16)
    requires !st.aborted && !Step(st, ConnectRequest(t, h)).aborted
    ensures ViewOf(Step(st, ConnectRequest(t, h)), s)
         == if t == s then StepView(ViewOf(st, s), ConnectRequest(t, h)) else ViewOf(st, s)
  {
    if st.Queue(t) != [] {
      var front := st.Queue(t)[0];
      QueueView(st, t, front, s);
      EmitView(st.Pop(t), if front.typ == CONNECTED then ConnectOk(t, h, front) else ConnectRefused(t, h, front), s);
    }
  }

  lemma DataCellIsLocal(st: State, cell: Received, s: uint16)
    requires !st.aborted
    ensures ViewOf(Step(st, DataCell(cell)), s)
         == if cell.stream == s then StepView(ViewOf(st, s), DataCell(cell)) else ViewOf(st, s)
  {
    var t := cell.stream;
    if t in st.dataListeners {
      EmitView(st, Read(t, st.dataListeners[t], cell), s);
    } else if t in st.connectedListeners {
      EmitView(st, ConnectRefused(t, st.connectedListeners[t], cell), s);
    } else {
      QueueView(st, t, cell, s);
    }
  }

  lemma RunStep(ops: seq<Op>, op: Op, s: uint16)
    requires !Run(ops + [op]).aborted
    ensures !Run(ops).aborted && Run(ops + [op]) == Step(Run(ops), op)
    ensures ViewOf(Run(ops + [op]), s)
         == if Subject(op) == s then StepView(ViewOf(Run(ops), s), op) else ViewOf(Run(ops), s)
  {
    assert (ops + [op])[..|ops|] == ops;
    StepIsLocal(Run(ops), op, s);
  }

  lemma RunMore(ops: seq<Op>, more: seq<Op>)
    requires |more| <= 1
    ensures Run(ops + more) == if more == [] then Run(ops) else Step(Run(ops), more[0])
  {
    if more == [] {
      assert ops + more == ops;
    } else {
      assert (ops + more)[..|ops|] == ops;
    }
  }

  // ---------------------------------------------------------------- DATA and END cells

  function DataOrEnd(cells: seq<Received>): seq<Received>
  {
    if cells == [] then []
    else if IsDataOrEnd(cells[0]) then [cells[0]] + DataOrEnd(cells[1..])
    else DataOrEnd(cells[1..])
  }

  lemma {:induction false} DataOrEndAppend(a: seq<Received>, b: seq<Received>)
    ensures DataOrEnd(a + b) == DataOrEnd(a) + DataOrEnd(b)
  {
    if a == [] {
      assert a + b == b;
    } else {
      DataOrEndAppend(a[1..], b);
      assert (a + b)[0] == a[0] && (a + b)[1..] == a[1..] + b;
    }
  }

  /** DATA and END cells of stream s handed to the dispatcher, in order. */
  function Arrived(ops: seq<Op>, s: uint16): seq<Received>
  {
    if ops == [] then []
    else
      var op := ops[|ops| - 1];
      Arrived(ops[..|ops| - 1], s) + if op.DataCell? && op.cell.stream == s then [op.cell] else []
  }

  /** DATA and END cells thrown away because addStreamId was called again for a queue in use. */
  function Dropped(ops: seq<Op>, s: uint16): seq<Received>
  {
    if ops == [] then []
    else
      var before, op := ops[..|ops| - 1], ops[|ops| - 1];
      Dropped(before, s) + if op == AddStream(s) then DataOrEnd(Run(before).Queue(s)) else []
  }

  /** A waiting connect handler means an empty queue; a waiting read handler means no DATA or END cell
      in the queue; cells refused are DATA or END cells. */
  predicate ViewOk(v: View)
  {
    && (v.connecting ==> v.queue == [])
    && (v.reading ==> DataOrEnd(v.queue) == [])
    && (forall cell :: cell in v.queue ==> cell.typ == CONNECTED || IsDataOrEnd(cell))
  }

  lemma ViewOkStep(v: View, op: Op)
    requires ViewOk(v) && WellTyped(op)
    ensures ViewOk(StepView(v, op))
  {
    if op.ConnectedCell? {
      DataOrEndAppend(v.queue, [op.cell]);
    }
  }

  lemma {:induction false} ViewOkHolds(ops: seq<Op>, s: uint16)
    requires !Run(ops).aborted && forall op :: op in ops ==> WellTyped(op)
    ensures ViewOk(ViewOf(Run(ops), s))
  {
    if ops == [] {
    } else {
      var before, op := ops[..|ops| - 1], ops[|ops| - 1];
      SplitLast(ops);
      RunStep(before, op, s);
      ViewOkHolds(before, s);
      ViewOkStep(ViewOf(Run(before), s), op);
    }
  }

  // ---------------------------------------------------------------- order

  predicate IsSubsequence<T(==)>(k: seq<T>, a: seq<T>)
  {
    if k == [] then true
    else if a == [] then false
    else (k[|k| - 1] == a[|a| - 1] && IsSubsequence(k[..|k| - 1], a[..|a| - 1])) || IsSubsequence(k, a[..|a| - 1])
  }

  lemma SubsequenceAppend<T>(k: seq<T>, a: seq<T>, x: T)
    requires IsSubsequence(k, a)
    ensures IsSubsequence(k, a + [x]) && IsSubsequence(k + [x], a + [x])
  {
  }

  lemma {:induction false} SubsequenceRemove<T>(k1: seq<T>, x: T, k2: seq<T>, a: seq<T>)
    requires IsSubsequence(k1 + [x] + k2, a)
    ensures IsSubsequence(k1 + k2, a)
    decreases a
  {
    var k := k1 + [x] + k2;
    var a' := a[..|a| - 1];
    if k[|k| - 1] == a[|a| - 1] && IsSubsequence(k[..|k| - 1], a') {
      if k2 == [] {
        assert k[..|k| - 1] == k1 && k1 + k2 == k1;
        assert IsSubsequence(k1 + k2, a');
      } else {
        assert k[..|k| - 1] == k1 + [x] + k2[..|k2| - 1];
        SubsequenceRemove(k1, x, k2[..|k2| - 1], a');
        assert (k1 + k2)[..|k1 + k2| - 1] == k1 + k2[..|k2| - 1];
      }
    } else {
      SubsequenceRemove(k1, x, k2, a');
    }
  }

  lemma {:induction false} SubsequencePrefix<T>(k: seq<T>, q: seq<T>, a: seq<T>)
    requires IsSubsequence(k + q, a)
    ensures IsSubsequence(k, a)
  {
    if q == [] {
      assert k + q == k;
    } else {
      assert k + q == k + [q[0]] + q[1..];
      SubsequenceRemove(k, q[0], q[1..], a);
      SubsequencePrefix(k, q[1..], a);
    }
  }

  // ---------------------------------------------------------------- one fate each, in order

  /** The DATA and END cells read so far, followed by those still queued. */
  function Kept(v: View): seq<Received> { DataOrEnd(v.delivered) + DataOrEnd(v.queue) }

  lemma KeptData(v: View, cell: Received)
    requires ViewOk(v) && IsDataOrEnd(cell)
    ensures var v' := StepView(v, DataCell(cell));
            Kept(v') == if v.connecting && !v.reading then Kept(v) else Kept(v) + [cell]
  {
    DataOrEndAppend(v.delivered, [cell]);
    DataOrEndAppend(v.queue, [cell]);
    assert DataOrEnd([cell]) == [cell];
  }

  /** How an operation moves the DATA and END cells of its stream. */
  lemma KeptStep(v: View, op: Op)
    requires ViewOk(v) && WellTyped(op)
    requires op.ConnectRequest? && v.queue != [] ==> v.queue[0].typ == CONNECTED || v.queue[0].typ == END
    ensures var v' := StepView(v, op);
            match op
            case DataCell(cell) =>
              if v.connecting && !v.reading then Kept(v') == Kept(v) && v'.refused == v.refused + [cell]
              else Kept(v') == Kept(v) + [cell] && v'.refused == v.refused
            case ConnectRequest(_, _) =>
              if v.queue != [] && v.queue[0].typ == END
              then Kept(v) == DataOrEnd(v.delivered) + [v.queue[0]] + DataOrEnd(v.queue[1..])
                   && Kept(v') == DataOrEnd(v.delivered) + DataOrEnd(v.queue[1..])
                   && v'.refused == v.refused + [v.queue[0]]
              else Kept(v') == Kept(v) && v'.refused == v.refused
            case AddStream(_) => Kept(v') == DataOrEnd(v.delivered) && v'.refused == v.refused
            case _ => Kept(v') == Kept(v) && v'.refused == v.refused
  {
    match op
    case DataCell(cell) => KeptData(v, cell);
    case ConnectedCell(cell) => DataOrEndAppend(v.queue, [cell]);
    case ReadRequest(_, _) =>
      if v.queue != [] {
        DataOrEndAppend(v.delivered, [v.queue[0]]);
        assert DataOrEnd(v.delivered + [v.queue[0]]) + DataOrEnd(v.queue[1..]) == Kept(v);
      }
    case _ =>
  }

  ghost predicate Balanced(v: View, arrived: seq<Received>, dropped: seq<Received>)
  {
    multiset(arrived) == multiset(Kept(v)) + multiset(v.refused) + multiset(dropped)
  }

  predicate FrontFits(v: View, op: Op)
  {
    op.ConnectRequest? && v.queue != [] ==> v.queue[0].typ == CONNECTED || v.queue[0].typ == END
  }

  function ArrivedBy(op: Op): seq<Received> { if op.DataCell? then [op.cell] else [] }

  function DroppedBy(v: View, op: Op): seq<Received> { if op.AddStream? then DataOrEnd(v.queue) else [] }

  lemma BalancedStep(v: View, op: Op, arrived: seq<Received>, dropped: seq<Received>)
    requires ViewOk(v) && WellTyped(op) && FrontFits(v, op)
    requires Balanced(v, arrived, dropped)
    ensures Balanced(StepView(v, op), arrived + ArrivedBy(op), dropped + DroppedBy(v, op))
  {
    KeptStep(v, op);
  }

  lemma OrderStep(v: View, op: Op, arrived: seq<Received>)
    requires ViewOk(v) && WellTyped(op) && FrontFits(v, op)
    requires IsSubsequence(Kept(v), arrived)
    ensures IsSubsequence(Kept(StepView(v, op)), arrived + ArrivedBy(op))
  {
    KeptStep(v, op);
    assert arrived + [] == arrived;
    match op
    case DataCell(cell) => SubsequenceAppend(Kept(v), arrived, cell);
    case AddStream(_) => SubsequencePrefix(DataOrEnd(v.delivered), DataOrEnd(v.queue), arrived);
    case ConnectRequest(_, _) =>
      if v.queue != [] && v.queue[0].typ == END {
        SubsequenceRemove(DataOrEnd(v.delivered), v.queue[0], DataOrEnd(v.queue[1..]), arrived);
      }
    case _ =>
  }

  lemma FrontFitsWhenLive(st: State, op: Op)
    requires !st.aborted && !Step(st, op).aborted
    ensures FrontFits(ViewOf(st, Subject(op)), op)
  {
  }

  lemma ArrivedAppend(ops: seq<Op>, op: Op, s: uint16)
    ensures Arrived(ops + [op], s) == Arrived(ops, s) + if Subject(op) == s then ArrivedBy(op) else []
    ensures Dropped(ops + [op], s) == Dropped(ops, s) + if Subject(op) == s then DroppedBy(ViewOf(Run(ops), s), op) else []
  {
  }

  lemma AccountedStep(ops: seq<Op>, op: Op, s: uint16)
    requires !Run(ops + [op]).aborted && WellTyped(op) && ViewOk(ViewOf(Run(ops), s))
    requires Balanced(ViewOf(Run(ops), s), Arrived(ops, s), Dropped(ops, s))
    requires IsSubsequence(Kept(ViewOf(Run(ops), s)), Arrived(ops, s))
    ensures Balanced(ViewOf(Run(ops + [op]), s), Arrived(ops + [op], s), Dropped(ops + [op], s))
    ensures IsSubsequence(Kept(ViewOf(Run(ops + [op]), s)), Arrived(ops + [op], s))
  {
    RunStep(ops, op, s);
    ArrivedAppend(ops, op, s);
    if Subject(op) == s {
      FrontFitsWhenLive(Run(ops), op);
      BalancedStep(ViewOf(Run(ops), s), op, Arrived(ops, s), Dropped(ops, s));
      OrderStep(ViewOf(Run(ops), s), op, Arrived(ops, s));
    } else {
      assert Arrived(ops + [op], s) == Arrived(ops, s) && Dropped(ops + [op], s) == Dropped(ops, s);
    }
  }

  lemma {:induction false} AccountedHolds(ops: seq<Op>, s: uint16)
    requires !Run(ops).aborted && forall op :: op in ops ==> WellTyped(op)
    ensures Balanced(ViewOf(Run(ops), s), Arrived(ops, s), Dropped(ops, s))
    ensures IsSubsequence(Kept(ViewOf(Run(ops), s)), Arrived(ops, s))
  {
    if ops == [] {
    } else {
      var before, op := ops[..|ops| - 1], ops[|ops| - 1];
      SplitLast(ops);
      RunStep(before, op, s);
      AccountedHolds(before, s);
      ViewOkHolds(before, s);
      AccountedStep(before, op, s);
    }
  }

  /** Every DATA or END cell of a stream has exactly one fate: read, refused, still queued, or dropped
      by a second addStreamId. Those read, followed by those still queued, are in arrival order. */
  lemma OneFateInOrder(ops: seq<Op>, s: uint16)
    requires !Run(ops).aborted && forall op :: op in ops ==> WellTyped(op)
    ensures var read := DataOrEnd(Delivered(Run(ops).events, s));
            var queued := DataOrEnd(Run(ops).Queue(s));
            && multiset(Arrived(ops, s))
               == multiset(read) + multiset(queued) + multiset(Refused(Run(ops).events, s)) + multiset(Dropped(ops, s))
            && IsSubsequence(read + queued, Arrived(ops, s))
  {
    AccountedHolds(ops, s);
  }

  predicate AddedFresh(ops: seq<Op>, s: uint16)
  {
    forall i {:trigger ops[i]} :: 0 <= i < |ops| && ops[i] == AddStream(s) ==> Arrived(ops[..i], s) == []
  }

  lemma AddedFreshPrefix(ops: seq<Op>, op: Op, s: uint16)
    requires AddedFresh(ops + [op], s)
    ensures AddedFresh(ops, s) && (op == AddStream(s) ==> Arrived(ops, s) == [])
  {
    var all := ops + [op];
    assert all[|ops|] == op && all[..|ops|] == ops;
    forall i | 0 <= i < |ops| && ops[i] == AddStream(s)
      ensures Arrived(ops[..i], s) == []
    {
      assert all[i] == ops[i] && all[..i] == ops[..i];
    }
  }

  lemma NothingQueued(ops: seq<Op>, s: uint16)
    requires !Run(ops).aborted && (forall op :: op in ops ==> WellTyped(op)) && Arrived(ops, s) == []
    ensures DataOrEnd(Run(ops).Queue(s)) == []
  {
    OneFateInOrder(ops, s);
    assert |multiset(DataOrEnd(Run(ops).Queue(s)))| == 0;
  }

  /** A stream whose id is added only while nothing has arrived for it loses nothing. */
  lemma {:induction false} FreshStreamDropsNothing(ops: seq<Op>, s: uint16)
    requires !Run(ops).aborted && forall op :: op in ops ==> WellTyped(op)
    requires AddedFresh(ops, s)
    ensures Dropped(ops, s) == []
  {
    if ops == [] {
    } else {
      var before, op := ops[..|ops| - 1], ops[|ops| - 1];
      SplitLast(ops);
      AddedFreshPrefix(before, op, s);
      RunStep(before, op, s);
      FreshStreamDropsNothing(before, s);
      if op == AddStream(s) {
        NothingQueued(before, s);
      }
    }
  }
}
