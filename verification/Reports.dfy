/** Closing the circuit, and what is reported to the application over whole client runs. */
module Reports {
  import opened Bytes
  import opened Cells
  import opened CounterMode
  import opened RelayCrypto
  import opened Client
  import opened ClientRuns
  import opened ClientDelivery
  import opened Windows

  function Closing(ops: seq<Op>): bool
  {
    ops != [] && (Closing(ops[..|ops| - 1]) || ops[|ops| - 1].CloseCircuit?)
  }

  /** A BEGIN that could not be written is reported to its connect handler; a read error and a DESTROY cell
      (command 4) to the error listener, unless the circuit has been closed. */
  function ReportsBy(closed: bool, op: Op): seq<Report>
  {
    match op
    case BeginComplete(_, h, failed) => if failed then [ConnectFailed(h)] else []
    case ReadError => if closed then [] else [ConnectionError]
    case Arrive(cell) => if !closed && cell[2] == 4 then [CircuitDestroyed] else []
    case _ => []
  }

  function ReportsOf(ops: seq<Op>): seq<Report>
  {
    if ops == [] then []
    else ReportsOf(ops[..|ops| - 1]) + ReportsBy(Closing(ops[..|ops| - 1]), ops[|ops| - 1])
  }

  lemma StepReports(c: Crypto, st: State, op: Op)
    requires Fits(op) && !st.dispatcher.aborted
    ensures Step(c, st, op).closed == (st.closed || op.CloseCircuit?)
    ensures Step(c, st, op).reports == st.reports + ReportsBy(st.closed, op)
  {
    var q := Quiet(c, st, op);
    assert q.closed == (st.closed || op.CloseCircuit?) && q.reports == st.reports + ReportsBy(st.closed, op);
  }

  /** Over every run what is reported, and to whom, are these and no others, in this order; and the circuit
      is closed exactly when it has been asked to be. */
  lemma {:induction false} ReportedExactly(c: Crypto, start: State, ops: seq<Op>)
    requires AllFitOps(ops) && !start.closed && start.reports == [] && !Run(c, start, ops).dispatcher.aborted
    ensures Run(c, start, ops).reports == ReportsOf(ops)
    ensures Run(c, start, ops).closed == Closing(ops)
  {
    if ops == [] {
    } else {
      var before, op := ops[..|ops| - 1], ops[|ops| - 1];
      SplitLast(ops);
      RunAppend(c, start, before, op);
      ReportedExactly(c, start, before);
      StepReports(c, Run(c, start, before), op);
    }
  }

  lemma StepWhenClosed(c: Crypto, st: State, op: Op)
    requires Fits(op) && st.closed
    ensures Step(c, st, op).closed && Step(c, st, op).back == st.back
    ensures !ConsumesRelayCell(st, op) && Counted(c, st, op) == []
    ensures op.Arrive? ==> Step(c, st, op).dispatcher == st.dispatcher && Built(c, st, op) == []
  {
    if !st.dispatcher.aborted {
      var q := Quiet(c, st, op);
      assert q.closed && q.back == st.back && (op.Arrive? ==> q.dispatcher == st.dispatcher);
    }
  }

  /** Once the circuit is closed nothing more is taken from the link, accepted or counted, whatever arrives. */
  lemma {:induction false} ClosedTakesNothing(c: Crypto, start: State, ops: seq<Op>, more: seq<Op>)
    requires AllFitOps(ops + more) && AllFitOps(ops) && Run(c, start, ops).closed
    ensures var all := ops + more;
            && Run(c, start, all).closed && Run(c, start, all).back == Run(c, start, ops).back
            && RelayArrivals(c, start, all) == RelayArrivals(c, start, ops)
            && AcceptedBy(c, start, all) == AcceptedBy(c, start, ops)
            && CountedBy(c, start, all) == CountedBy(c, start, ops)
  {
    var all := ops + more;
    if more == [] {
      assert all == ops;
    } else {
      var before, op := ops + more[..|more| - 1], more[|more| - 1];
      AppendLast(ops, more);
      assert all[..|all| - 1] == before && all[|all| - 1] == op;
      ClosedTakesNothing(c, start, ops, more[..|more| - 1]);
      StepWhenClosed(c, Run(c, start, before), op);
    }
  }
}
