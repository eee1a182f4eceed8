/** Connecting in the two-party world: with an exit whose first cell on every stream is CONNECTED or END
    (section 6.2 of tor-spec) and an application that reads after its connect handler has been called,
    the client uses every stream in order, whatever the interleaving. */
module Streams {
  import opened Bytes
  import opened Cells
  import opened CounterMode
  import opened RelayCrypto
  import C = Client
  import D = Dispatcher
  import F = DispatcherFates
  import K = Connecting
  import V = ClientDelivery
  import opened Windows
  import opened TwoParty

  /** calls: the dispatcher calls that the client has made; firstWords: the relay type of the first cell
      that the exit has sent on each stream. Both are history. */
  datatype Told = Told(world: World, calls: seq<D.Op>, firstWords: map<uint16, byte>)

  predicate Speaks(cell: CellBytes) { RelayType(cell) in {DATA, END, CONNECTED} }

  /** BEGIN completes once for each stream, reading starts after an outcome, and the exit sends no DATA on
      a stream before CONNECTED or END. */
  predicate InTurn(t: Told, m: Move)
  {
    match m
    case ClientDoes(op) =>
      && (op.BeginComplete? && !op.failed ==> !K.HistoryOf(t.calls, op.stream).requested)
      && (op.Read? ==> F.Outcomes(t.world.client.dispatcher.events, op.stream) != [])
    case ExitSends(cell) => RelayType(cell) == DATA ==> StreamId(cell) in t.firstWords
    case _ => true
  }

  predicate May(t: Told, m: Move) { Allowed(t.world, m) && InTurn(t, m) }

  function ClientOp(w: World, m: Move): seq<C.Op>
    requires Allowed(w, m)
  {
    match m
    case ClientDoes(op) => [op]
    case ClientReceives => [C.Arrive(w.toClient[0])]
    case _ => []
  }

  function Tell(c: Crypto, t: Told, m: Move): Told
    requires May(t, m)
  {
    var ops := ClientOp(t.world, m);
    Told(Next(c, t.world, m),
         t.calls + (if ops == [] then [] else V.CallOf(c, t.world.client, ops[0])),
         if m.ExitSends? && Speaks(m.cell) && StreamId(m.cell) !in t.firstWords
         then t.firstWords[StreamId(m.cell) := RelayType(m.cell)] else t.firstWords)
  }

  function Start(circuitId: uint16, forward: Half, back: Half): Told
  {
    Told(TwoParty.Start(circuitId, forward, back), [], map[])
  }

  ghost predicate Leads(c: Crypto, t: Told, moves: seq<Move>, t': Told)
    decreases |moves|
  {
    if moves == [] then t' == t
    else
      var before, m := moves[..|moves| - 1], moves[|moves| - 1];
      exists t1 :: Leads(c, t, before, t1) && May(t1, m) && t' == Tell(c, t1, m)
  }

  // ---------------------------------------------------------------- the first cell of a stream

  /** The type of the first DATA, END or CONNECTED cell of stream s among these. */
  function First(cells: seq<CellBytes>, s: uint16): Option<byte>
  {
    if cells == [] then None
    else if Speaks(cells[0]) && StreamId(cells[0]) == s then Some(RelayType(cells[0]))
    else First(cells[1..], s)
  }

  lemma {:induction false} FirstMore(cells: seq<CellBytes>, cell: CellBytes, s: uint16)
    ensures First(cells + [cell], s)
         == if First(cells, s).Some? then First(cells, s)
            else if Speaks(cell) && StreamId(cell) == s then Some(RelayType(cell)) else None
  {
    if cells == [] {
      assert (cells + [cell])[1..] == [];
    } else {
      assert (cells + [cell])[1..] == cells[1..] + [cell];
      FirstMore(cells[1..], cell, s);
    }
  }

  /** The first cell of stream s is still on the link, or is the first that the dispatcher has got. */
  ghost predicate FirstKnown(t: Told, s: uint16)
  {
    var cells := K.HistoryOf(t.calls, s).cells;
    && (s in t.firstWords ==> s in t.world.exit.streams && t.firstWords[s] in {CONNECTED, END})
    && (cells == [] ==> First(t.world.inbound, s) == if s in t.firstWords then Some(t.firstWords[s]) else None)
    && (cells != [] ==> s in t.firstWords && cells[0].typ == t.firstWords[s])
  }

  ghost predicate Sound(c: Crypto, t: Told)
  {
    && Invariant(c, t.world)
    && t.world.client.dispatcher == F.Run(t.calls)
    && (forall call :: call in t.calls ==> D.WellTyped(call))
    && forall s :: FirstKnown(t, s) && K.Orderly(t.calls, s)
  }

  // ---------------------------------------------------------------- every move

  lemma Dispatches(c: Crypto, t: Told, op: C.Op)
    requires t.world.client.dispatcher == F.Run(t.calls) && C.Fits(op)
    ensures var calls := V.CallOf(c, t.world.client, op);
            && |calls| <= 1 && (forall call :: call in calls ==> D.WellTyped(call))
            && C.Step(c, t.world.client, op).dispatcher == F.Run(t.calls + calls)
  {
    V.StepDispatches(c, t.world.client, op);
    F.RunMore(t.calls, V.CallOf(c, t.world.client, op));
  }

  /** What a call of the client's own makes of a stream. */
  lemma ClientInTurn(c: Crypto, t: Told, op: C.Op, s: uint16)
    requires Sound(c, t) && May(t, ClientDoes(op))
    ensures var calls := V.CallOf(c, t.world.client, op);
            && K.Orderly(t.calls + calls, s)
            && K.HistoryOf(t.calls + calls, s).cells == K.HistoryOf(t.calls, s).cells
  {
    var calls := V.CallOf(c, t.world.client, op);
    Dispatches(c, t, op);
    assert FirstKnown(t, s) && K.Orderly(t.calls, s) && StreamCredit(t.world, s);
    if calls == [] {
      assert t.calls + calls == t.calls;
    } else {
      assert calls == [calls[0]] && calls[0] in calls;
      K.HistoryAppend(t.calls, calls[0], s);
    }
  }

  /** What the dispatcher is called with for a cell that the exit sealed. */
  function CallsFor(r: D.Received): seq<D.Op>
  {
    if r.typ == CONNECTED then [D.ConnectedCell(r)] else if D.IsDataOrEnd(r) then [D.DataCell(r)] else []
  }

  lemma CallOfSealed(c: Crypto, st: C.State, op: C.Op, cell: CellBytes)
    requires op.Arrive? && C.Accepted(c, st, op) == Some(cell)
    ensures V.CallOf(c, st, op) == CallsFor(D.ReceivedOf(st.relayed, cell))
  {
  }

  /** The cells of stream s before and after these calls. */
  ghost predicate TakesIn(calls: seq<D.Op>, more: seq<D.Op>, cell: CellBytes, s: uint16)
  {
    var before, after := K.HistoryOf(calls, s).cells, K.HistoryOf(calls + more, s).cells;
    && K.Orderly(calls + more, s)
    && if Speaks(cell) && StreamId(cell) == s
       then |after| == |before| + 1 && after[..|before|] == before && after[|before|].typ == RelayType(cell)
       else after == before
  }

  lemma CallInTurn(t: Told, r: D.Received, s: uint16)
    requires FirstKnown(t, s) && K.Orderly(t.calls, s)
    requires t.world.inbound != [] && r.stream == StreamId(t.world.inbound[0]) && r.typ == RelayType(t.world.inbound[0])
    ensures TakesIn(t.calls, CallsFor(r), t.world.inbound[0], s)
  {
    var calls := CallsFor(r);
    if calls == [] {
      assert t.calls + calls == t.calls;
    } else {
      assert calls == [calls[0]];
      K.HistoryAppend(t.calls, calls[0], s);
    }
  }

  /** What the arrival of the exit's next cell makes of a stream. */
  lemma ArrivalInTurn(c: Crypto, t: Told, s: uint16)
    requires Sound(c, t) && May(t, ClientReceives)
    ensures t.world.inbound != []
    ensures TakesIn(t.calls, V.CallOf(c, t.world.client, C.Arrive(t.world.toClient[0])), t.world.inbound[0], s)
  {
    LinksClientReceives(c, t.world);
    var cell, op := t.world.inbound[0], C.Arrive(t.world.toClient[0]);
    ArriveSealed(c, t.world.client, cell);
    CallOfSealed(c, t.world.client, op, cell);
    assert FirstKnown(t, s) && K.Orderly(t.calls, s);
    CallInTurn(t, D.ReceivedOf(t.world.client.relayed, cell), s);
  }

  lemma FirstKnownAfterArrival(c: Crypto, t: Told, s: uint16)
    requires Sound(c, t) && May(t, ClientReceives)
    ensures FirstKnown(Tell(c, t, ClientReceives), s)
  {
    ArrivalInTurn(c, t, s);
    Received(c, t.world);
    assert FirstKnown(t, s);
  }

  lemma FirstKnownAfterSend(c: Crypto, t: Told, cell: CellBytes, s: uint16)
    requires Sound(c, t) && May(t, ExitSends(cell))
    ensures FirstKnown(Tell(c, t, ExitSends(cell)), s)
  {
    assert FirstKnown(t, s);
    FirstMore(t.world.inbound, cell, s);
    assert t.calls + [] == t.calls;
  }

  lemma StreamKept(c: Crypto, t: Told, m: Move, s: uint16)
    requires Sound(c, t) && May(t, m)
    ensures FirstKnown(Tell(c, t, m), s) && K.Orderly(Tell(c, t, m).calls, s)
  {
    assert FirstKnown(t, s) && K.Orderly(t.calls, s);
    match m
    case ClientDoes(op) => ClientInTurn(c, t, op, s);
    case ClientReceives =>
      ArrivalInTurn(c, t, s);
      FirstKnownAfterArrival(c, t, s);
    case ExitReceives => assert t.calls + [] == t.calls;
    case ExitSends(cell) =>
      FirstKnownAfterSend(c, t, cell, s);
      assert t.calls + [] == t.calls;
  }

  lemma CallsKept(c: Crypto, t: Told, m: Move)
    requires Sound(c, t) && May(t, m)
    ensures var t' := Tell(c, t, m);
            && t'.world.client.dispatcher == F.Run(t'.calls)
            && forall call :: call in t'.calls ==> D.WellTyped(call)
  {
    match m
    case ClientDoes(op) => Dispatches(c, t, op);
    case ClientReceives => Dispatches(c, t, C.Arrive(t.world.toClient[0]));
    case _ => assert t.calls + [] == t.calls;
  }

  lemma SoundKept(c: Crypto, t: Told, m: Move)
    requires Sound(c, t) && May(t, m)
    ensures Sound(c, Tell(c, t, m))
  {
    InvariantKept(c, t.world, m);
    CallsKept(c, t, m);
    forall s ensures FirstKnown(Tell(c, t, m), s) && K.Orderly(Tell(c, t, m).calls, s) { StreamKept(c, t, m, s); }
  }

  lemma SoundAtStart(c: Crypto, circuitId: uint16, forward: Half, back: Half)
    ensures Sound(c, Start(circuitId, forward, back))
  {
    InvariantAtStart(c, circuitId, forward, back);
  }

  lemma {:induction false} SoundReached(c: Crypto, t: Told, moves: seq<Move>, t': Told)
    requires Sound(c, t) && Leads(c, t, moves, t')
    ensures Sound(c, t')
    decreases |moves|
  {
    if moves == [] {
    } else {
      var before, m := moves[..|moves| - 1], moves[|moves| - 1];
      var t1 :| Leads(c, t, before, t1) && May(t1, m) && t' == Tell(c, t1, m);
      SoundReached(c, t, before, t1);
      SoundKept(c, t1, m);
    }
  }

  // ---------------------------------------------------------------- every run

  /** In every run, and for every stream: the assertion in the dispatcher has not failed; the first
      outcome of connect is success exactly when the exit's first word was CONNECTED; the outcome is
      there as soon as connect is requested and that first word is off the link; how often connect is
      answered, and what is refused, is as Connecting.Answered says; and no DATA or END cell is lost. */
  lemma ConnectOutcomes(c: Crypto, circuitId: uint16, forward: Half, back: Half, moves: seq<Move>, t: Told, s: uint16)
    requires Leads(c, Start(circuitId, forward, back), moves, t)
    ensures var st, h := t.world.client.dispatcher, K.HistoryOf(t.calls, s);
            var outcomes, refused := F.Outcomes(st.events, s), F.Refused(st.events, s);
            && !st.aborted
            && (outcomes != [] ==> s in t.firstWords && outcomes[0] == (t.firstWords[s] == CONNECTED))
            && (h.requested && s in t.firstWords && First(t.world.inbound, s) == None ==> outcomes != [])
            && K.WellBegun(h) && K.Answered(h, outcomes, refused)
    ensures var st := t.world.client.dispatcher;
            multiset(F.Arrived(t.calls, s))
            == multiset(F.DataOrEnd(F.Delivered(st.events, s))) + multiset(F.DataOrEnd(st.Queue(s))) + multiset(F.Refused(st.events, s))
  {
    SoundAtStart(c, circuitId, forward, back);
    SoundReached(c, Start(circuitId, forward, back), moves, t);
    assert FirstKnown(t, s);
    K.AnswersExactly(t.calls, s);
    K.OrderlyLosesNothing(t.calls, s);
  }
}
