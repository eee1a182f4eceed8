/** What read handlers are handed over whole client runs, in terms of the bytes of the relay cells. */
module Readers {
  import opened Bytes
  import opened Cells
  import opened CounterMode
  import opened RelayCrypto
  import opened Client
  import opened ClientRuns
  import opened ClientDelivery
  import D = Dispatcher
  import F = DispatcherFates
  import H = Handlers
  import K = Connecting

  /** The DATA and END cells of one stream. */
  function CellsFor(cells: seq<CellBytes>, s: uint16): seq<CellBytes>
  {
    if cells == [] then [] else CellsFor(cells[..|cells| - 1], s) + CellFor(cells[|cells| - 1], s)
  }

  function CellFor(cell: CellBytes, s: uint16): seq<CellBytes>
  {
    if (RelayType(cell) == DATA || RelayType(cell) == END) && StreamId(cell) == s then [cell] else []
  }

  /** What is handed over for a cell: the 498 bytes from byte 14 on and the number that bytes 12 and 13
      hold, or -1 for END. */
  predicate Carries(r: D.Received, cell: CellBytes)
  {
    && r.stream == cell[6] as int * 256 + cell[7] as int && r.typ == cell[3]
    && |r.payload| == 498 && (forall i :: 0 <= i < 498 ==> r.payload[i] == cell[14 + i])
    && r.length == if cell[3] == 3 then -1 else cell[12] as int * 256 + cell[13] as int
  }

  predicate AllCarry(handed: seq<D.Received>, cells: seq<CellBytes>)
  {
    |handed| == |cells| && forall i :: 0 <= i < |handed| ==> Carries(handed[i], cells[i])
  }

  /** The bytes that a handler takes from what it is handed. */
  function Taken(r: D.Received): seq<byte>
  {
    if r.length < 0 then [] else if r.length <= |r.payload| then r.payload[..r.length] else r.payload
  }

  function TakenData(handed: seq<D.Received>): seq<byte>
  {
    if handed == [] then []
    else (if handed[0].typ == DATA then Taken(handed[0]) else []) + TakenData(handed[1..])
  }

  lemma {:induction false} TakenDataAppend(a: seq<D.Received>, b: seq<D.Received>)
    ensures TakenData(a + b) == TakenData(a) + TakenData(b)
  {
    if a == [] {
      assert a + b == b;
    } else {
      assert (a + b)[1..] == a[1..] + b;
      TakenDataAppend(a[1..], b);
    }
  }

  lemma {:induction false} TakenIsDataOrEnd(handed: seq<D.Received>)
    ensures TakenData(F.DataOrEnd(handed)) == TakenData(handed)
  {
    if handed == [] {
    } else {
      TakenIsDataOrEnd(handed[1..]);
    }
  }

  // ---------------------------------------------------------------- one operation

  /** The relay cell that an operation gets accepted. */
  function AcceptedNow(c: Crypto, st: State, op: Op): seq<CellBytes>
  {
    if ConsumesRelayCell(st, op) && Open(c, st.back, op.cell).verified then [Open(c, st.back, op.cell).cell] else []
  }

  lemma CarriesCell(serial: nat, cell: CellBytes)
    ensures Carries(D.ReceivedOf(serial, cell), cell)
    ensures RelayType(cell) == DATA ==> Taken(D.ReceivedOf(serial, cell)) == DataOf(cell)
  {
    AccessorsRead(cell);
  }

  lemma NewCarries(c: Crypto, st: State, op: Op, s: uint16)
    requires !st.dispatcher.aborted
    ensures var now := AcceptedNow(c, st, op);
            && |now| <= 1
            && AllCarry(NewOn(c, st, op, s), CellsFor(now, s))
            && TakenData(NewOn(c, st, op, s)) == StreamData(now, s)
  {
    var now := AcceptedNow(c, st, op);
    if now != [] {
      NewOnOfCell(c, st, op, now[0], s);
      OneCell(st.relayed, now[0], s);
    } else {
      assert NewOn(c, st, op, s) == [];
    }
  }

  lemma NewOnOfCell(c: Crypto, st: State, op: Op, cell: CellBytes, s: uint16)
    requires AcceptedNow(c, st, op) == [cell]
    ensures NewOn(c, st, op, s) == HandedFor(st.relayed, cell, s)
  {
  }

  function HandedFor(serial: nat, cell: CellBytes, s: uint16): seq<D.Received>
  {
    if CellFor(cell, s) == [] then [] else [D.ReceivedOf(serial, cell)]
  }

  lemma OneCell(serial: nat, cell: CellBytes, s: uint16)
    ensures AllCarry(HandedFor(serial, cell, s), CellsFor([cell], s))
    ensures TakenData(HandedFor(serial, cell, s)) == StreamData([cell], s)
  {
    CarriesCell(serial, cell);
    assert [cell][..0] == [] && CellsFor([cell][..0], s) == [] && CellsFor([cell], s) == CellFor(cell, s);
    assert [cell][1..] == [] && StreamData([cell][1..], s) == [];
    var handed := HandedFor(serial, cell, s);
    if handed != [] {
      assert handed[1..] == [] && TakenData(handed[1..]) == [];
    }
  }

  lemma CellsForAppend(a: seq<CellBytes>, b: seq<CellBytes>, s: uint16)
    requires |b| <= 1
    ensures CellsFor(a + b, s) == CellsFor(a, s) + CellsFor(b, s)
  {
    if b == [] {
      assert a + b == a;
    } else {
      assert (a + b)[..|a|] == a && b[..0] == [] && CellsFor(b[..0], s) == [];
    }
  }

  // ---------------------------------------------------------------- whole runs

  /** What the dispatcher is handed for a stream is, cell by cell, what was accepted from the link for it;
      END with length -1 and no other cell so. */
  lemma {:induction false} HandedAsAccepted(c: Crypto, start: State, ops: seq<Op>, s: uint16)
    requires AllFitOps(ops) && !Run(c, start, ops).dispatcher.aborted
    ensures AllCarry(AcceptedOn(c, start, ops, s), CellsFor(AcceptedBy(c, start, ops), s))
    ensures TakenData(AcceptedOn(c, start, ops, s)) == StreamData(AcceptedBy(c, start, ops), s)
  {
    if ops == [] {
    } else {
      var before, op := ops[..|ops| - 1], ops[|ops| - 1];
      SplitLast(ops);
      RunAppend(c, start, before, op);
      HandedAsAccepted(c, start, before, s);
      var st := Run(c, start, before);
      var now := AcceptedNow(c, st, op);
      NewCarries(c, st, op, s);
      CellsForAppend(AcceptedBy(c, start, before), now, s);
      StreamDataAppend(AcceptedBy(c, start, before), now, s);
      TakenDataAppend(AcceptedOn(c, start, before, s), NewOn(c, st, op, s));
      assert AcceptedBy(c, start, ops) == AcceptedBy(c, start, before) + now;
    }
  }

  /** The receiving counterpart of PeerReceivesWhatWasWritten. Over every run that uses its streams in order:
      the bytes accepted for a stream are those of refused cells, then those that the read handlers have
      taken, then those of cells still queued; the readers get each DATA or END cell as it was accepted;
      so with nothing refused or queued the readers have got exactly the accepted bytes. */
  lemma ReadersGetWhatWasAccepted(c: Crypto, start: State, ops: seq<Op>, s: uint16)
    requires AllFitOps(ops) && start.dispatcher == D.Empty && K.AllOrderly(Calls(c, start, ops))
    ensures var d := Run(c, start, ops).dispatcher;
            var refused, read, queued := F.Refused(d.events, s), F.Delivered(d.events, s), d.Queue(s);
            && StreamData(AcceptedBy(c, start, ops), s) == TakenData(refused) + TakenData(read) + TakenData(queued)
            && AllCarry(refused + F.DataOrEnd(read) + F.DataOrEnd(queued), CellsFor(AcceptedBy(c, start, ops), s))
            && (refused == [] && queued == [] ==> TakenData(read) == StreamData(AcceptedBy(c, start, ops), s))
  {
    DispatcherOfRun(c, start, ops);
    K.AnswersExactly(Calls(c, start, ops), s);
    assert K.Orderly(Calls(c, start, ops), s);
    K.ReadersGetTheRest(Calls(c, start, ops), s);
    ArrivedAreAccepted(c, start, ops, s);
    HandedAsAccepted(c, start, ops, s);
    var d := Run(c, start, ops).dispatcher;
    var refused, read, queued := F.Refused(d.events, s), F.Delivered(d.events, s), d.Queue(s);
    TakenDataAppend(refused + F.DataOrEnd(read), F.DataOrEnd(queued));
    TakenDataAppend(refused, F.DataOrEnd(read));
    TakenIsDataOrEnd(read);
    TakenIsDataOrEnd(queued);
  }

  /** From the other end: what the relay sealed for a stream is what its readers get, refused cells before
      and queued cells behind. */
  lemma ReadersGetWhatWasSent(c: Crypto, start: State, ops: seq<Op>, cells: seq<CellBytes>, s: uint16)
    requires AllFitOps(ops) && start.dispatcher == D.Empty && K.AllOrderly(Calls(c, start, ops))
    requires AllCleared(cells) && RelayArrivals(c, start, ops) == SealAll(c, start.back, cells)
    ensures var d := Run(c, start, ops).dispatcher;
            StreamData(cells, s)
            == TakenData(F.Refused(d.events, s)) + TakenData(F.Delivered(d.events, s)) + TakenData(d.Queue(s))
  {
    ReadersGetWhatWasAccepted(c, start, ops, s);
    TamperedRun(c, start, ops, cells);
    AllUntouched(cells, SealAll(c, start.back, cells));
  }

  // ---------------------------------------------------------------- whose handlers

  /** A request made of the dispatcher: connecting or reading, the stream, and the handler. */
  datatype Request = Request(connecting: bool, stream: uint16, handler: HandlerId)

  /** The requests of the application, in order: one for each read, and one for each BEGIN that was written. */
  function RequestsOf(ops: seq<Op>): seq<Request>
  {
    if ops == [] then []
    else
      var op := ops[|ops| - 1];
      RequestsOf(ops[..|ops| - 1])
      + match op
        case Read(s, h) => [Request(false, s, h)]
        case BeginComplete(s, h, failed) => if failed then [] else [Request(true, s, h)]
        case _ => []
  }

  function RequestsIn(calls: seq<D.Op>): seq<Request>
  {
    if calls == [] then []
    else
      var call := calls[|calls| - 1];
      RequestsIn(calls[..|calls| - 1])
      + match call
        case ReadRequest(s, h) => [Request(false, s, h)]
        case ConnectRequest(s, h) => [Request(true, s, h)]
        case _ => []
  }

  lemma RequestsAppend(calls: seq<D.Op>, more: seq<D.Op>)
    requires |more| <= 1
    ensures RequestsIn(calls + more) == RequestsIn(calls) + RequestsIn(more)
  {
    if more == [] {
      assert calls + more == calls;
    } else {
      assert (calls + more)[..|calls|] == calls && more[..0] == [] && RequestsIn(more[..0]) == [];
    }
  }

  /** Over every client run the calls of handlers are those that the application's own requests and the
      arriving cells lead to: Handlers.CallsBy says which, and the requests in it are the application's. */
  lemma HandlersOfRun(c: Crypto, start: State, ops: seq<Op>)
    requires AllFitOps(ops) && start.dispatcher == D.Empty && !Run(c, start, ops).dispatcher.aborted
    ensures Run(c, start, ops).dispatcher.events == H.CallsBy(Calls(c, start, ops))
    ensures RequestsIn(Calls(c, start, ops)) == RequestsOf(ops)
  {
    DispatcherOfRun(c, start, ops);
    H.RightHandlersCalled(Calls(c, start, ops));
    RequestsAreTheApplications(c, start, ops);
  }

  lemma {:induction false} RequestsAreTheApplications(c: Crypto, start: State, ops: seq<Op>)
    requires AllFitOps(ops)
    ensures RequestsIn(Calls(c, start, ops)) == RequestsOf(ops)
  {
    if ops == [] {
    } else {
      var before, op := ops[..|ops| - 1], ops[|ops| - 1];
      RequestsAreTheApplications(c, start, before);
      var st := Run(c, start, before);
      RequestsAppend(Calls(c, start, before), CallOf(c, st, op));
      RequestOfCall(c, st, op);
    }
  }

  lemma RequestOfCall(c: Crypto, st: State, op: Op)
    ensures |CallOf(c, st, op)| <= 1
    ensures RequestsIn(CallOf(c, st, op))
         == match op
            case Read(s, h) => [Request(false, s, h)]
            case BeginComplete(s, h, failed) => if failed then [] else [Request(true, s, h)]
            case _ => []
  {
    var calls := CallOf(c, st, op);
    if calls != [] {
      assert calls[..0] == [] && RequestsIn(calls[..0]) == [];
    }
  }
}
