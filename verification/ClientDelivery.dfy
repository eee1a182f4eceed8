/** The receiving side of whole client runs: which cells are accepted, where the receiving cipher
    state stands, and what becomes of the cells at the dispatcher. */
module ClientDelivery {
  import opened Bytes
  import opened Cells
  import opened CounterMode
  import opened RelayCrypto
  import opened Client
  import opened ClientRuns
  import opened CellEncryption
  import D = Dispatcher
  import F = DispatcherFates
  import K = Connecting
  import L = ReceiveLoop

  predicate ConsumesRelayCell(st: State, op: Op)
  {
    !st.dispatcher.aborted && !st.closed && op.Arrive? && CellType(op.cell) == RELAY_TYPE
  }

  /** The relay cells that the receive loop has taken off the link, in order. */
  function RelayArrivals(c: Crypto, start: State, ops: seq<Op>): seq<CellBytes>
    requires AllFitOps(ops)
  {
    if ops == [] then []
    else
      var before, op := ops[..|ops| - 1], ops[|ops| - 1];
      RelayArrivals(c, start, before) + if ConsumesRelayCell(Run(c, start, before), op) then [op.cell] else []
  }

  /** The relay cells that were handed on, in order. */
  function AcceptedBy(c: Crypto, start: State, ops: seq<Op>): seq<CellBytes>
    requires AllFitOps(ops)
  {
    if ops == [] then []
    else
      var before, op := ops[..|ops| - 1], ops[|ops| - 1];
      var st := Run(c, start, before);
      AcceptedBy(c, start, before)
      + if ConsumesRelayCell(st, op) && Open(c, st.back, op.cell).verified then [Open(c, st.back, op.cell).cell] else []
  }

  function VerifiedCells(read: seq<Opened>): seq<CellBytes>
  {
    if read == [] then []
    else if read[|read| - 1].verified then VerifiedCells(read[..|read| - 1]) + [read[|read| - 1].cell]
    else VerifiedCells(read[..|read| - 1])
  }

  // ---------------------------------------------------------------- the receiving cipher state

  ghost predicate ReceiveState(c: Crypto, start: State, st: State, wire: seq<CellBytes>, accepted: seq<CellBytes>)
  {
    var read := OpenAll(c, start.back, wire);
    && st.back == After(start.back, OpenedCells(read))
    && st.relayed == start.relayed + |wire|
    && accepted == VerifiedCells(read)
  }

  lemma StepReceives(c: Crypto, st: State, op: Op)
    requires Fits(op)
    ensures var st' := Step(c, st, op);
            if ConsumesRelayCell(st, op) then st'.back == Open(c, st.back, op.cell).half && st'.relayed == st.relayed + 1
            else st'.back == st.back && st'.relayed == st.relayed
  {
    if !st.dispatcher.aborted {
      var q := Quiet(c, st, op);
      assert Step(c, st, op).back == q.back && Step(c, st, op).relayed == q.relayed;
    }
  }

  lemma ReceiveOne(c: Crypto, start: State, st: State, wire: seq<CellBytes>, accepted: seq<CellBytes>, cell: CellBytes, st': State)
    requires ReceiveState(c, start, st, wire, accepted)
    requires var o := Open(c, st.back, cell); st'.back == o.half && st'.relayed == st.relayed + 1
    ensures var o := Open(c, st.back, cell);
            ReceiveState(c, start, st', wire + [cell], accepted + if o.verified then [o.cell] else [])
  {
    var o, read := Open(c, st.back, cell), OpenAll(c, start.back, wire);
    OpenAllAppend(c, start.back, wire, [cell]);
    assert OpenAll(c, st.back, [cell]) == [o];
    assert OpenAll(c, start.back, wire + [cell]) == read + [o];
    assert (read + [o])[..|read|] == read;
    assert OpenedCells(read + [o]) == OpenedCells(read) + [o.cell];
    AfterOne(st.back, o.cell);
    AfterAppend(start.back, OpenedCells(read), [o.cell]);
  }

  /** In every reachable state the receiving keystream has moved 509 bytes for each relay cell taken,
      the receiving digest has absorbed all their digest-zeroed plaintexts, whether or not they
      verified, and exactly the cells that verify in that order have been handed on. */
  lemma {:induction false} ReceiveSideOfRun(c: Crypto, start: State, ops: seq<Op>)
    requires AllFitOps(ops)
    ensures ReceiveState(c, start, Run(c, start, ops), RelayArrivals(c, start, ops), AcceptedBy(c, start, ops))
    ensures Run(c, start, ops).back.pos == start.back.pos + PAYLOAD_SIZE * |RelayArrivals(c, start, ops)|
  {
    if ops == [] {
      assert Payloads([]) == [];
      assert After(start.back, []) == start.back;
    } else {
      var before, op := ops[..|ops| - 1], ops[|ops| - 1];
      SplitLast(ops);
      RunAppend(c, start, before, op);
      ReceiveSideOfRun(c, start, before);
      var st := Run(c, start, before);
      StepReceives(c, st, op);
      if ConsumesRelayCell(st, op) {
        ReceiveOne(c, start, st, RelayArrivals(c, start, before), AcceptedBy(c, start, before), op.cell, Run(c, start, ops));
      } else {
        assert RelayArrivals(c, start, ops) == RelayArrivals(c, start, before);
        assert AcceptedBy(c, start, ops) == AcceptedBy(c, start, before);
      }
    }
  }

  /** The cells whose sealed form arrived unchanged. */
  function Untouched(cells: seq<CellBytes>, sealed: seq<CellBytes>, wire: seq<CellBytes>): seq<CellBytes>
    requires |cells| == |sealed| == |wire|
  {
    if cells == [] then []
    else
      var n := |cells| - 1;
      if wire[n] == sealed[n] then Untouched(cells[..n], sealed[..n], wire[..n]) + [cells[n]]
      else Untouched(cells[..n], sealed[..n], wire[..n])
  }

  lemma {:induction false} VerifiedUntouched(read: seq<Opened>, cells: seq<CellBytes>, sealed: seq<CellBytes>, wire: seq<CellBytes>)
    requires |read| == |cells| == |sealed| == |wire|
    requires forall i :: 0 <= i < |read| ==> read[i].cell == cells[i] && (read[i].verified <==> wire[i] == sealed[i])
    ensures VerifiedCells(read) == Untouched(cells, sealed, wire)
  {
    if read == [] {
    } else {
      var n := |read| - 1;
      VerifiedUntouched(read[..n], cells[..n], sealed[..n], wire[..n]);
    }
  }

  /** Whatever else the client does meanwhile: if what the relay sealed is changed on its way only
      inside digest bytes, the client hands on exactly the cells that were not changed. */
  lemma TamperedRun(c: Crypto, start: State, ops: seq<Op>, cells: seq<CellBytes>)
    requires AllFitOps(ops) && AllCleared(cells)
    requires |RelayArrivals(c, start, ops)| == |cells|
    requires forall i :: 0 <= i < |cells| ==> SameButDigest(SealAll(c, start.back, cells)[i], RelayArrivals(c, start, ops)[i])
    ensures AcceptedBy(c, start, ops) == Untouched(cells, SealAll(c, start.back, cells), RelayArrivals(c, start, ops))
  {
    var wire := RelayArrivals(c, start, ops);
    ReceiveSideOfRun(c, start, ops);
    DigestTamperIsLocal(c, start.back, cells, wire);
    VerifiedUntouched(OpenAll(c, start.back, wire), cells, SealAll(c, start.back, cells), wire);
  }

  // ---------------------------------------------------------------- the dispatcher in a run

  /** The dispatcher call that an operation makes, if any. */
  function CallOf(c: Crypto, st: State, op: Op): seq<D.Op>
  {
    match op
    case Connect(s, _, _) => [D.AddStream(s)]
    case BeginComplete(s, h, failed) => if failed then [] else [D.ConnectRequest(s, h)]
    case Read(s, h) => [D.ReadRequest(s, h)]
    case Arrive(_) =>
      var a := Accepted(c, st, op);
      if a.None? then []
      else
        var r := D.ReceivedOf(st.relayed, a.value);
        if CountsAgainstWindow(a.value) then [D.DataCell(r)]
        else if IsConnected(a.value) then [D.ConnectedCell(r)]
        else []
    case _ => []
  }

  function Calls(c: Crypto, start: State, ops: seq<Op>): seq<D.Op>
    requires AllFitOps(ops)
  {
    if ops == [] then []
    else
      var before, op := ops[..|ops| - 1], ops[|ops| - 1];
      Calls(c, start, before) + CallOf(c, Run(c, start, before), op)
  }

  lemma StepDispatches(c: Crypto, st: State, op: Op)
    requires Fits(op)
    ensures var calls := CallOf(c, st, op);
            && |calls| <= 1 && (forall call :: call in calls ==> D.WellTyped(call))
            && Step(c, st, op).dispatcher == if calls == [] then st.dispatcher else D.Step(st.dispatcher, calls[0])
  {
    if !st.dispatcher.aborted {
      assert Step(c, st, op).dispatcher == Quiet(c, st, op).dispatcher;
    }
  }

  /** The dispatcher of a client run is a dispatcher run of its own. */
  lemma {:induction false} DispatcherOfRun(c: Crypto, start: State, ops: seq<Op>)
    requires AllFitOps(ops) && start.dispatcher == D.Empty
    ensures Run(c, start, ops).dispatcher == F.Run(Calls(c, start, ops))
    ensures forall call :: call in Calls(c, start, ops) ==> D.WellTyped(call)
  {
    if ops == [] {
    } else {
      var before, op := ops[..|ops| - 1], ops[|ops| - 1];
      SplitLast(ops);
      RunAppend(c, start, before, op);
      DispatcherOfRun(c, start, before);
      StepDispatches(c, Run(c, start, before), op);
      F.RunMore(Calls(c, start, before), CallOf(c, Run(c, start, before), op));
    }
  }

  /** The verified DATA or END cell of stream s that an operation brings, with its number on the circuit. */
  function NewOn(c: Crypto, st: State, op: Op, s: uint16): seq<D.Received>
  {
    var a := Accepted(c, st, op);
    if a.Some? && CountsAgainstWindow(a.value) && StreamId(a.value) == s then [D.ReceivedOf(st.relayed, a.value)] else []
  }

  function AcceptedOn(c: Crypto, start: State, ops: seq<Op>, s: uint16): seq<D.Received>
    requires AllFitOps(ops)
  {
    if ops == [] then []
    else
      var before, op := ops[..|ops| - 1], ops[|ops| - 1];
      AcceptedOn(c, start, before, s) + NewOn(c, Run(c, start, before), op, s)
  }

  /** Numbered in order, and below n. */
  predicate Numbered(cells: seq<D.Received>, n: nat)
  {
    && (forall i :: 0 <= i < |cells| ==> cells[i].serial < n)
    && forall i, j :: 0 <= i < j < |cells| ==> cells[i].serial < cells[j].serial
  }

  lemma NewOnIsDispatched(c: Crypto, st: State, op: Op, s: uint16)
    requires Fits(op) && !st.dispatcher.aborted
    ensures |CallOf(c, st, op)| <= 1 && |NewOn(c, st, op, s)| <= 1
    ensures var calls := CallOf(c, st, op);
            NewOn(c, st, op, s) == if calls != [] && calls[0].DataCell? && calls[0].cell.stream == s then [calls[0].cell] else []
    ensures var st' := Step(c, st, op); st.relayed <= st'.relayed && Numbered(NewOn(c, st, op, s), st'.relayed)
    ensures forall r :: r in NewOn(c, st, op, s) ==> r.serial == st.relayed
  {
    StepReceives(c, st, op);
  }

  lemma NumberedMore(cells: seq<D.Received>, n: nat, more: seq<D.Received>, n': nat)
    requires Numbered(cells, n) && n <= n' && |more| <= 1 && Numbered(more, n')
    requires forall r :: r in more ==> r.serial == n
    ensures Numbered(cells + more, n')
  {
  }

  lemma {:induction false} ArrivedAreAccepted(c: Crypto, start: State, ops: seq<Op>, s: uint16)
    requires AllFitOps(ops) && !Run(c, start, ops).dispatcher.aborted
    ensures F.Arrived(Calls(c, start, ops), s) == AcceptedOn(c, start, ops, s)
    ensures Numbered(AcceptedOn(c, start, ops, s), Run(c, start, ops).relayed)
  {
    if ops == [] {
    } else {
      var before, op := ops[..|ops| - 1], ops[|ops| - 1];
      SplitLast(ops);
      RunAppend(c, start, before, op);
      ArrivedAreAccepted(c, start, before, s);
      var st := Run(c, start, before);
      NewOnIsDispatched(c, st, op, s);
      ArrivedMore(Calls(c, start, before), CallOf(c, st, op), s);
      NumberedMore(AcceptedOn(c, start, before, s), st.relayed, NewOn(c, st, op, s), Run(c, start, ops).relayed);
    }
  }

  lemma ArrivedMore(calls: seq<D.Op>, more: seq<D.Op>, s: uint16)
    requires |more| <= 1
    ensures F.Arrived(calls + more, s)
         == F.Arrived(calls, s) + if more != [] && more[0].DataCell? && more[0].cell.stream == s then [more[0].cell] else []
  {
    if more == [] {
      assert calls + more == calls;
    } else {
      assert (calls + more)[..|calls|] == calls;
    }
  }

  /** Over every client run, each verified DATA or END cell of a stream has exactly one fate: it has been
      read, has been turned into one refusal, is still queued, or was dropped by a second connect of the
      same id; those read and those still queued are in arrival order. */
  lemma EveryCellHasOneFate(c: Crypto, start: State, ops: seq<Op>, s: uint16)
    requires AllFitOps(ops) && start.dispatcher == D.Empty && !Run(c, start, ops).dispatcher.aborted
    ensures var d, cells := Run(c, start, ops).dispatcher, AcceptedOn(c, start, ops, s);
            var read, queued := F.DataOrEnd(F.Delivered(d.events, s)), F.DataOrEnd(d.Queue(s));
            && multiset(cells) == multiset(read) + multiset(queued) + multiset(F.Refused(d.events, s)) + multiset(F.Dropped(Calls(c, start, ops), s))
            && F.IsSubsequence(read + queued, cells)
            && forall i, j :: 0 <= i < j < |cells| ==> cells[i] != cells[j]
  {
    DispatcherOfRun(c, start, ops);
    F.OneFateInOrder(Calls(c, start, ops), s);
    ArrivedAreAccepted(c, start, ops, s);
  }

  /** A client run in which every stream is used in order (Connecting.Orderly) never fails the
      assertion; every connect request is answered as Connecting.Answered says; no verified DATA or
      END cell is lost; and the peer receives what was written. */
  lemma OrderlyRun(c: Crypto, start: State, ops: seq<Op>, s: uint16)
    requires AllFitOps(ops) && start.dispatcher == D.Empty && start.wire == []
    requires K.AllOrderly(Calls(c, start, ops))
    ensures var st, cells := Run(c, start, ops), AcceptedOn(c, start, ops, s);
            var h := K.HistoryOf(Calls(c, start, ops), s);
            var read, queued, refused := F.DataOrEnd(F.Delivered(st.dispatcher.events, s)), F.DataOrEnd(st.dispatcher.Queue(s)), F.Refused(st.dispatcher.events, s);
            && !st.dispatcher.aborted
            && K.WellBegun(h) && K.Answered(h, F.Outcomes(st.dispatcher.events, s), refused)
            && multiset(cells) == multiset(read) + multiset(queued) + multiset(refused)
            && F.IsSubsequence(read + queued, cells)
            && StreamData(OpenedCells(OpenAll(c, start.forward, st.wire)), s) == Written(ops, s)
  {
    DispatcherOfRun(c, start, ops);
    K.AnswersExactly(Calls(c, start, ops), s);
    K.OrderlyLosesNothing(Calls(c, start, ops), s);
    ArrivedAreAccepted(c, start, ops, s);
    PeerReceivesWhatWasWritten(c, start, ops, s);
  }

  // ---------------------------------------------------------------- from the byte stream on

  /** The cells that reach the client, in order. */
  function CellsIn(ops: seq<Op>): seq<CellBytes>
  {
    if ops == [] then []
    else CellsIn(ops[..|ops| - 1]) + if ops[|ops| - 1].Arrive? then [ops[|ops| - 1].cell] else []
  }

  predicate AllRelay(cells: seq<CellBytes>) { forall i :: 0 <= i < |cells| ==> CellType(cells[i]) == RELAY_TYPE }

  lemma StepStaysOpen(c: Crypto, st: State, op: Op)
    requires Fits(op) && !st.closed && !op.CloseCircuit?
    ensures !Step(c, st, op).closed
  {
    if !st.dispatcher.aborted {
      assert Step(c, st, op).closed == Quiet(c, st, op).closed;
    }
  }

  lemma {:induction false} OpenClientTakesAll(c: Crypto, start: State, ops: seq<Op>)
    requires AllFitOps(ops) && !start.closed && !Run(c, start, ops).dispatcher.aborted
    requires (forall op :: op in ops ==> !op.CloseCircuit?) && AllRelay(CellsIn(ops))
    ensures RelayArrivals(c, start, ops) == CellsIn(ops) && !Run(c, start, ops).closed
  {
    if ops == [] {
    } else {
      var before, op := ops[..|ops| - 1], ops[|ops| - 1];
      SplitLast(ops);
      RunAppend(c, start, before, op);
      assert op in ops;
      assert forall i :: 0 <= i < |CellsIn(before)| ==> CellsIn(before)[i] == CellsIn(ops)[i];
      assert op.Arrive? ==> CellsIn(ops)[|CellsIn(before)|] == op.cell;
      OpenClientTakesAll(c, start, before);
      StepStaysOpen(c, Run(c, start, before), op);
    }
  }

  lemma {:induction false} FlattenedAt(cells: seq<CellBytes>, k: nat)
    requires k <= |cells|
    ensures |Flatten<byte>(cells)| == CELL_SIZE * |cells|
    ensures k < |cells| ==> Flatten<byte>(cells)[CELL_SIZE * k..CELL_SIZE * (k + 1)] == cells[k]
  {
    if cells == [] {
    } else {
      var first: seq<byte>, rest: seq<byte> := cells[0], Flatten<byte>(cells[1..]);
      assert Flatten<byte>(cells) == first + rest;
      if k == 0 {
        FlattenedAt(cells[1..], 0);
      } else {
        FlattenedAt(cells[1..], k - 1);
        assert k < |cells| ==> (first + rest)[CELL_SIZE * k..CELL_SIZE * (k + 1)] == rest[CELL_SIZE * (k - 1)..CELL_SIZE * k];
      }
    }
  }

  lemma CutIsPrefix(wire: seq<CellBytes>, arrived: seq<byte>, handled: seq<CellBytes>)
    requires arrived <= Flatten<byte>(wire) && L.CutEvery512(arrived, handled)
    ensures |handled| <= |wire| && handled == wire[..|handled|]
  {
    FlattenedAt(wire, 0);
    forall k | 0 <= k < |handled|
      ensures handled[k] == wire[k]
    {
      FlattenedAt(wire, k);
      assert arrived[CELL_SIZE * k..CELL_SIZE * (k + 1)] == Flatten<byte>(wire)[CELL_SIZE * k..CELL_SIZE * (k + 1)];
    }
  }

  lemma SealKeepsTypes(c: Crypto, h: Half, cells: seq<CellBytes>)
    requires AllRelay(cells)
    ensures AllRelay(SealAll(c, h, cells))
  {
    forall i | 0 <= i < |cells|
      ensures CellType(SealAll(c, h, cells)[i]) == RELAY_TYPE
    {
      SealedAt(c, h, cells, i);
      assert SealAll(c, h, cells)[i][..3][2] == cells[i][..3][2];
    }
  }

  lemma SealPrefix(c: Crypto, h: Half, cells: seq<CellBytes>, n: nat)
    requires n <= |cells|
    ensures SealAll(c, h, cells)[..n] == SealAll(c, h, cells[..n])
  {
    assert cells == cells[..n] + cells[n..];
    SealAllAppend(c, h, cells[..n], cells[n..]);
  }

  /** From the bytes on the TLS stream to the dispatcher: the exit's sealed cells are cut anywhere, read in
      any pieces with any suspensions, and the cells that the loop hands to the listener are accepted
      as what the exit sealed, in order and without loss. */
  lemma BytesToCells(c: Crypto, start: State, cells: seq<CellBytes>, schedule: seq<L.SslRead>, linkOps: seq<L.Op>, ops: seq<Op>)
    requires AllCleared(cells) && AllRelay(cells) && L.NoConsume(linkOps)
    requires AllFitOps(ops) && !start.closed && !Run(c, start, ops).dispatcher.aborted
    requires forall op :: op in ops ==> !op.CloseCircuit?
    requires var link := L.LinkAfter(schedule, linkOps);
             link.arrived <= Flatten<byte>(SealAll(c, start.back, cells)) && CellsIn(ops) == link.handled
    ensures |CellsIn(ops)| <= |cells| && AcceptedBy(c, start, ops) == cells[..|CellsIn(ops)|]
  {
    var link, sealed := L.LinkAfter(schedule, linkOps), SealAll(c, start.back, cells);
    L.FramingIndependentOfFragmentation(schedule, linkOps);
    CutIsPrefix(sealed, link.arrived, link.handled);
    SealKeepsTypes(c, start.back, cells);
    OpenClientTakesAll(c, start, ops);
    var sent := cells[..|link.handled|];
    SealPrefix(c, start.back, cells, |link.handled|);
    TamperedRun(c, start, ops, sent);
    AllUntouched(sent, SealAll(c, start.back, sent));
  }

  // ---------------------------------------------------------------- from the handshake on

  /** A relay that expanded the same key material, and so holds the forward key and digest seed of
      section 5.2.1 of tor-spec, receives over every run exactly what was written to each stream; and it
      is heard without loss on the way back. */
  lemma KeyedCircuit(c: Crypto, keyMaterial: seq<byte>, circuitId: uint16, ops: seq<Op>, s: uint16, cells: seq<CellBytes>)
    requires AllFitOps(ops) && AllCleared(cells)
    requires var e := Expansion(c, keyMaterial, TOTAL_KEY_MATERIAL);
             var start := Start(circuitId, ForwardStart(e), BackStart(e));
             !Run(c, start, ops).dispatcher.aborted && RelayArrivals(c, start, ops) == SealAll(c, BackStart(e), cells)
    ensures var e := Expansion(c, keyMaterial, TOTAL_KEY_MATERIAL);
            var start := Start(circuitId, ForwardStart(e), BackStart(e));
            && StreamData(OpenedCells(OpenAll(c, ForwardStart(e), Run(c, start, ops).wire)), s) == Written(ops, s)
            && AcceptedBy(c, start, ops) == cells
  {
    var e := Expansion(c, keyMaterial, TOTAL_KEY_MATERIAL);
    var start := Start(circuitId, ForwardStart(e), BackStart(e));
    PeerReceivesWhatWasWritten(c, start, ops, s);
    TamperedRun(c, start, ops, cells);
    AllUntouched(cells, SealAll(c, BackStart(e), cells));
  }

  lemma {:induction false} AllUntouched(cells: seq<CellBytes>, sealed: seq<CellBytes>)
    requires |cells| == |sealed|
    ensures Untouched(cells, sealed, sealed) == cells
  {
    if cells == [] {
    } else {
      AllUntouched(cells[..|cells| - 1], sealed[..|cells| - 1]);
      SplitLast(cells);
    }
  }
}
