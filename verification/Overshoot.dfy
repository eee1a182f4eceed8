/** Runs in which the exit ends up with more credit than the window: one END on each of n streams. */
module Overshoot {
  import opened Bytes
  import opened Cells
  import opened CounterMode
  import opened RelayCrypto
  import C = Client
  import V = ClientDelivery
  import opened Windows
  import opened TwoParty

  /** Nothing is on its way to the client. */
  ghost predicate Heard(c: Crypto, w: World) { Links(c, w) && !w.client.dispatcher.aborted && w.inbound == [] }

  /** The exit reads all that is on the link to it. */
  lemma {:induction false} Drain(c: Crypto, start: World, before: seq<Move>, w: World) returns (moves: seq<Move>, w': World)
    requires Reachable(c, start, before, w) && Heard(c, w)
    ensures Reachable(c, start, moves, w') && Heard(c, w') && w'.outbound == []
    ensures w'.client == w.client && w'.ends == w.ends
    ensures forall s :: s in w.exit.streams || Count(Kind(BEGIN, Some(s)), w.outbound) > 0 ==> s in w'.exit.streams
    decreases |w.outbound|
  {
    if w.outbound == [] {
      moves, w' := before, w;
    } else {
      var w1 := Next(c, w, ExitReceives);
      LinksExitReceives(c, w);
      ReachableMore(c, start, before, w, ExitReceives);
      moves, w' := Drain(c, start, before + [ExitReceives], w1);
      forall s | s in w.exit.streams || Count(Kind(BEGIN, Some(s)), w.outbound) > 0
        ensures s in w'.exit.streams
      {
        CountHead(Kind(BEGIN, Some(s)), w.outbound);
        assert s in w1.exit.streams || Count(Kind(BEGIN, Some(s)), w1.outbound) > 0;
      }
    }
  }

  lemma Opens(c: Crypto, start: World, before: seq<Move>, w: World, s: uint16) returns (moves: seq<Move>, w': World)
    requires Reachable(c, start, before, w) && Heard(c, w) && w.outbound == [] && s != 0 && s !in w.client.streamWindows
    ensures Reachable(c, start, moves, w') && Heard(c, w') && w'.ends == w.ends && s in w'.exit.streams
    ensures w'.client.streamWindows.Keys == w.client.streamWindows.Keys + {s}
  {
    var op := C.Connect(s, [], 0);
    var w1 := BeginSent(c, w, s);
    ReachableMore(c, start, before, w, ClientDoes(op));
    moves, w' := Drain(c, start, before + [ClientDoes(op)], w1);
  }

  lemma BeginSent(c: Crypto, w: World, s: uint16) returns (w': World)
    requires Heard(c, w) && w.outbound == [] && s != 0 && s !in w.client.streamWindows
    ensures Allowed(w, ClientDoes(C.Connect(s, [], 0))) && w' == Next(c, w, ClientDoes(C.Connect(s, [], 0)))
    ensures Heard(c, w') && w'.ends == w.ends && Count(Kind(BEGIN, Some(s)), w'.outbound) == 1
    ensures w'.client.streamWindows.Keys == w.client.streamWindows.Keys + {s}
  {
    var op := C.Connect(s, [], 0);
    w' := Next(c, w, ClientDoes(op));
    LinksKept(c, w, ClientDoes(op));
    BeginsBuilt(c, w.client, op, s);
    assert w'.outbound == C.Built(c, w.client, op);
    assert w'.client.streamWindows == w.client.streamWindows[s := C.STREAM_WINDOW] && !w'.client.dispatcher.aborted;
  }

  lemma Ends(c: Crypto, start: World, before: seq<Move>, w: World, s: uint16) returns (moves: seq<Move>, w': World)
    requires Reachable(c, start, before, w) && Heard(c, w) && s in w.exit.streams && s in w.client.streamWindows
    ensures Reachable(c, start, moves, w') && Heard(c, w')
    ensures Count(Kind(END, None), w'.ends) == Count(Kind(END, None), w.ends) + 1
    ensures w'.client.streamWindows.Keys == w.client.streamWindows.Keys
  {
    var cell := C.EndCell(w.client.circuitId, s);
    RelayImageFields(w.client.circuitId, s, END, [6]);
    var w1 := Next(c, w, ExitSends(cell));
    LinksKept(c, w, ExitSends(cell));
    ReachableMore(c, start, before, w, ExitSends(cell));
    w' := EndArrives(c, w1, cell);
    ReachableMore(c, start, before + [ExitSends(cell)], w1, ClientReceives);
    moves := before + [ExitSends(cell)] + [ClientReceives];
  }

  lemma EndArrives(c: Crypto, w: World, cell: CellBytes) returns (w': World)
    requires Links(c, w) && !w.client.dispatcher.aborted && w.inbound == [cell]
    requires IsEnd(cell) && StreamId(cell) in w.client.streamWindows
    ensures Allowed(w, ClientReceives) && w' == Next(c, w, ClientReceives) && Heard(c, w')
    ensures Count(Kind(END, None), w'.ends) == Count(Kind(END, None), w.ends) + 1
    ensures w'.client.streamWindows.Keys == w.client.streamWindows.Keys
  {
    assert Allowed(w, ClientReceives);
    w' := Next(c, w, ClientReceives);
    LinksKept(c, w, ClientReceives);
    Received(c, w);
    CountOne(Kind(END, None), w.ends, cell);
    EndStep(c, w.client, C.Arrive(w.toClient[0]), cell);
  }

  lemma EndStep(c: Crypto, st: C.State, op: C.Op, cell: CellBytes)
    requires op.Arrive? && !st.dispatcher.aborted && Counted(c, st, op) == [cell]
    requires StreamId(cell) in st.streamWindows
    ensures C.Step(c, st, op).streamWindows.Keys == st.streamWindows.Keys && !C.Step(c, st, op).dispatcher.aborted
  {
    forall t ensures t in C.Step(c, st, op).streamWindows <==> t in st.streamWindows { StreamWindowAfter(c, st, op, t); }
    V.StepDispatches(c, st, op);
    assert V.CallOf(c, st, op)[0].DataCell?;
  }

  /** n END cells have come through, one on each of the streams 1 to n, and nothing is on its way. */
  ghost predicate AfterEnds(c: Crypto, start: World, moves: seq<Move>, w: World, n: nat)
  {
    && Reachable(c, start, moves, w) && Heard(c, w) && w.outbound == []
    && Count(Kind(END, None), w.ends) == n
    && forall t :: t in w.client.streamWindows.Keys ==> t <= n
  }

  lemma OneMoreEnd(c: Crypto, start: World, before: seq<Move>, w: World, n: nat) returns (moves: seq<Move>, w': World)
    requires AfterEnds(c, start, before, w, n) && n + 1 < 0x1_0000
    ensures AfterEnds(c, start, moves, w', n + 1)
  {
    var w1, w2;
    moves, w1 := Opens(c, start, before, w, n + 1);
    moves, w2 := Ends(c, start, moves, w1, n + 1);
    moves, w' := Drain(c, start, moves, w2);
  }

  lemma {:induction false} ManyEnds(c: Crypto, circuitId: uint16, forward: Half, back: Half, n: nat)
    returns (moves: seq<Move>, w: World)
    requires n < 0x1_0000
    ensures AfterEnds(c, Start(circuitId, forward, back), moves, w, n)
  {
    if n == 0 {
      moves, w := [], Start(circuitId, forward, back);
      InvariantAtStart(c, circuitId, forward, back);
    } else {
      moves, w := ManyEnds(c, circuitId, forward, back, n - 1);
      moves, w := OneMoreEnd(c, Start(circuitId, forward, back), moves, w, n - 1);
    }
  }

  /** For every n there is a run in which n END cells have come through, one on each of n streams, nothing
      is on its way any more, and the exit may send n cells more than the client's window says: more
      than 1000 from n = 100 on. */
  lemma OvershootHappens(c: Crypto, circuitId: uint16, forward: Half, back: Half, n: nat)
    returns (moves: seq<Move>, w: World)
    requires n < 0x1_0000
    ensures Reachable(c, Start(circuitId, forward, back), moves, w) && w.inbound == [] && w.outbound == []
    ensures Count(Kind(END, None), w.ends) == n && w.exit.package == w.client.circuitWindow + n
    ensures n >= 100 ==> w.exit.package > 1000
  {
    moves, w := ManyEnds(c, circuitId, forward, back, n);
    CreditConservation(c, circuitId, forward, back, moves, w);
  }
}
