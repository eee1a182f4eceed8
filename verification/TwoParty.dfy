/** The client and an exit relay on the two byte links between them. The exit keeps the mirrored
    cipher states and follows sections 6.2, 7.3 and 7.4 of tor-spec: it sends DATA only while both of
    its package windows are positive, opens a stream's window when BEGIN arrives, and raises a
    window when a SENDME arrives. */
module TwoParty {
  import opened Bytes
  import opened Cells
  import opened CounterMode
  import opened RelayCrypto
  import C = Client
  import R = ClientRuns
  import opened Windows

  datatype Exit = Exit(send: Half, recv: Half, package: int, streams: map<uint16, int>)

  /** inbound, outbound and ends are history: the plaintexts of the cells now on the link to the
      client and on the link to the exit, and the END cells that the client has counted. No move
      looks at them. */
  datatype World = World(client: C.State, exit: Exit, seen: nat, toClient: seq<CellBytes>,
                         inbound: seq<CellBytes>, outbound: seq<CellBytes>, ends: seq<CellBytes>)

  datatype Move =
    | ClientDoes(op: C.Op)
    | ClientReceives
    | ExitReceives
    | ExitSends(cell: CellBytes)

  function Start(circuitId: uint16, forward: Half, back: Half): World
  {
    World(C.Start(circuitId, forward, back), Exit(back, forward, 1000, map[]), 0, [], [], [], [])
  }

  // ---------------------------------------------------------------- moves

  /** Stream ids are fresh and nonzero, and the circuit is not being torn down. */
  predicate ClientMay(st: C.State, op: C.Op)
  {
    && C.Fits(op) && !op.Arrive? && !op.CloseCircuit?
    && (op.Connect? ==> op.stream != 0 && op.stream !in st.streamWindows)
  }

  predicate ExitMay(exit: Exit, cell: CellBytes)
  {
    var s := StreamId(cell);
    && CellType(cell) == RELAY_TYPE && DigestCleared(cell) == cell
    && (RelayType(cell) in {DATA, END, CONNECTED} ==> s in exit.streams)
    && (RelayType(cell) == DATA ==> exit.package > 0 && exit.streams[s] > 0)
  }

  predicate Allowed(w: World, m: Move)
  {
    && !w.client.dispatcher.aborted
    && match m
       case ClientDoes(op) => ClientMay(w.client, op)
       case ClientReceives => w.toClient != []
       case ExitReceives => w.seen < |w.client.wire|
       case ExitSends(cell) => ExitMay(w.exit, cell)
  }

  /** What the exit does with a relay cell that it could verify. */
  function ExitHandles(exit: Exit, cell: CellBytes): Exit
  {
    var s := StreamId(cell);
    if RelayType(cell) == SENDME then
      if s == 0 then exit.(package := exit.package + 100)
      else if s in exit.streams then exit.(streams := exit.streams[s := exit.streams[s] + 50])
      else exit
    else if RelayType(cell) == BEGIN && s !in exit.streams then exit.(streams := exit.streams[s := 500])
    else exit
  }

  function ExitCharges(exit: Exit, cell: CellBytes): Exit
    requires ExitMay(exit, cell)
  {
    if RelayType(cell) != DATA then exit
    else exit.(package := exit.package - 1, streams := exit.streams[StreamId(cell) := exit.streams[StreamId(cell)] - 1])
  }

  function Next(c: Crypto, w: World, m: Move): World
    requires Allowed(w, m)
  {
    match m
    case ClientDoes(op) =>
      w.(client := C.Step(c, w.client, op), outbound := w.outbound + C.Built(c, w.client, op))
    case ClientReceives =>
      var op := C.Arrive(w.toClient[0]);
      var counted := Counted(c, w.client, op);
      w.(client := C.Step(c, w.client, op), toClient := w.toClient[1..],
         inbound := if w.inbound == [] then [] else w.inbound[1..],
         outbound := w.outbound + C.Built(c, w.client, op),
         ends := w.ends + if counted != [] && IsEnd(counted[0]) then counted else [])
    case ExitReceives =>
      var o := Open(c, w.exit.recv, w.client.wire[w.seen]);
      var exit := if o.verified then ExitHandles(w.exit, o.cell) else w.exit;
      w.(exit := exit.(recv := o.half), seen := w.seen + 1, outbound := if w.outbound == [] then [] else w.outbound[1..])
    case ExitSends(cell) =>
      var s := Seal(c, w.exit.send, cell);
      w.(exit := ExitCharges(w.exit, cell).(send := s.half), toClient := w.toClient + [s.wire], inbound := w.inbound + [cell])
  }

  /** These moves, each of them allowed, lead from w to w'. */
  ghost predicate Reachable(c: Crypto, w: World, moves: seq<Move>, w': World)
    decreases |moves|
  {
    if moves == [] then w' == w
    else
      var before, m := moves[..|moves| - 1], moves[|moves| - 1];
      exists w1 :: Reachable(c, w, before, w1) && Allowed(w1, m) && w' == Next(c, w1, m)
  }

  lemma ReachableMore(c: Crypto, w: World, moves: seq<Move>, w1: World, m: Move)
    requires Reachable(c, w, moves, w1) && Allowed(w1, m)
    ensures Reachable(c, w, moves + [m], Next(c, w1, m))
  {
    assert (moves + [m])[..|moves|] == moves;
  }

  // ---------------------------------------------------------------- invariants

  predicate AllRelay(cells: seq<CellBytes>) { forall i :: 0 <= i < |cells| ==> CellType(cells[i]) == RELAY_TYPE }

  /** Each link carries the sealed form of its plaintexts, and the two ends of each direction differ
      by exactly what is on the link. */
  ghost predicate Links(c: Crypto, w: World)
  {
    && !w.client.closed && w.seen <= |w.client.wire|
    && w.client.wire[w.seen..] == SealAll(c, w.exit.recv, w.outbound)
    && w.client.forward == After(w.exit.recv, w.outbound)
    && AllCleared(w.outbound)
    && w.toClient == SealAll(c, w.client.back, w.inbound)
    && w.exit.send == After(w.client.back, w.inbound)
    && AllCleared(w.inbound) && AllRelay(w.inbound)
  }

  /** Circuit credit is conserved: what the exit may still send, what is on its way, and what is being
      given back add up to the client's window and the END cells it has counted as well. */
  predicate CircuitCredit(w: World)
  {
    && 901 <= w.client.circuitWindow <= 1000
    && w.exit.package + Count(Kind(DATA, None), w.inbound) + 100 * Count(SendMeKind(0), w.outbound)
       == w.client.circuitWindow + Count(Kind(END, None), w.ends)
  }

  /** The same for stream s once the exit has opened it; before that nothing has happened on it. */
  predicate StreamCredit(w: World, s: uint16)
  {
    && (Count(Kind(BEGIN, Some(s)), w.outbound) > 0 ==> s != 0 && s in w.client.streamWindows)
    && (s in w.exit.streams ==>
          && s != 0 && s in w.client.streamWindows && 451 <= w.client.streamWindows[s] <= 500
          && w.exit.streams[s] + Count(Kind(DATA, Some(s)), w.inbound) + 50 * Count(SendMeKind(s), w.outbound)
             == w.client.streamWindows[s] + Count(Kind(END, Some(s)), w.ends))
    && (s !in w.exit.streams ==>
          && CountedOn(Some(s), w.inbound) == 0
          && (s != 0 ==> Count(SendMeKind(s), w.outbound) == 0)
          && Count(Kind(END, Some(s)), w.ends) == 0
          && (s in w.client.streamWindows ==> w.client.streamWindows[s] == 500))
  }

  // ---------------------------------------------------------------- links

  lemma SealOne(c: Crypto, h: Half, cells: seq<CellBytes>)
    requires cells != []
    ensures SealAll(c, h, cells) == [Seal(c, h, cells[0]).wire] + SealAll(c, After(h, [cells[0]]), cells[1..])
    ensures Seal(c, h, cells[0]).half == After(h, [cells[0]])
    ensures After(h, cells) == After(After(h, [cells[0]]), cells[1..])
  {
    AfterOne(h, cells[0]);
    AfterAppend(h, [cells[0]], cells[1..]);
    assert [cells[0]] + cells[1..] == cells;
  }

  lemma LinkGrows(c: Crypto, h: Half, wire: seq<CellBytes>, seen: nat, cells: seq<CellBytes>, more: seq<CellBytes>)
    requires seen <= |wire| && wire[seen..] == SealAll(c, h, cells)
    ensures (wire + SealAll(c, After(h, cells), more))[seen..] == SealAll(c, h, cells + more)
    ensures After(After(h, cells), more) == After(h, cells + more)
  {
    SealAllAppend(c, h, cells, more);
    AfterAppend(h, cells, more);
  }

  lemma ClientSendsOnLink(c: Crypto, w: World, op: C.Op)
    requires Links(c, w) && C.Fits(op) && !w.client.dispatcher.aborted
    ensures var st', cells := C.Step(c, w.client, op), C.Built(c, w.client, op);
            && w.seen <= |st'.wire|
            && st'.wire[w.seen..] == SealAll(c, w.exit.recv, w.outbound + cells)
            && st'.forward == After(w.exit.recv, w.outbound + cells)
            && AllCleared(w.outbound + cells)
  {
    R.StepSends(c, w.client, op);
    R.BuiltCleared(c, w.client, op);
    LinkGrows(c, w.exit.recv, w.client.wire, w.seen, w.outbound, C.Built(c, w.client, op));
  }

  lemma StepKeepsBack(c: Crypto, st: C.State, op: C.Op)
    requires C.Fits(op) && !st.dispatcher.aborted && !op.Arrive? && !op.CloseCircuit?
    ensures C.Step(c, st, op).back == st.back && C.Step(c, st, op).closed == st.closed
    ensures Counted(c, st, op) == []
  {
    var q := C.Quiet(c, st, op);
    assert q.back == st.back && q.closed == st.closed;
  }

  /** A sealed relay cell that reaches an open client is accepted as the cell that was sealed. */
  lemma ArriveSealed(c: Crypto, st: C.State, cell: CellBytes)
    requires !st.closed && !st.dispatcher.aborted && DigestCleared(cell) == cell && CellType(cell) == RELAY_TYPE
    ensures var op := C.Arrive(Seal(c, st.back, cell).wire);
            && C.Accepted(c, st, op) == Some(cell)
            && C.Step(c, st, op).back == Seal(c, st.back, cell).half && !C.Step(c, st, op).closed
            && Counted(c, st, op) == if C.CountsAgainstWindow(cell) then [cell] else []
  {
    OpenSeal(c, st.back, cell);
    var op := C.Arrive(Seal(c, st.back, cell).wire);
    assert CellType(op.cell) == CellType(cell);
    var q := C.Quiet(c, st, op);
    assert q.back == Seal(c, st.back, cell).half && !q.closed;
  }

  lemma LinksKept(c: Crypto, w: World, m: Move)
    requires Links(c, w) && Allowed(w, m)
    ensures Links(c, Next(c, w, m))
  {
    match m
    case ClientDoes(op) =>
      ClientSendsOnLink(c, w, op);
      StepKeepsBack(c, w.client, op);
    case ClientReceives => LinksClientReceives(c, w);
    case ExitReceives => LinksExitReceives(c, w);
    case ExitSends(cell) =>
      LinkGrows(c, w.client.back, w.toClient, 0, w.inbound, [cell]);
      SealOne(c, w.exit.send, [cell]);
      assert SealAll(c, w.exit.send, [cell]) == [Seal(c, w.exit.send, cell).wire];
  }

  lemma LinksClientReceives(c: Crypto, w: World)
    requires Links(c, w) && Allowed(w, ClientReceives)
    ensures Links(c, Next(c, w, ClientReceives))
    ensures w.inbound != [] && w.toClient[0] == Seal(c, w.client.back, w.inbound[0]).wire
  {
    SealOne(c, w.client.back, w.inbound);
    var op := C.Arrive(w.toClient[0]);
    ArriveSealed(c, w.client, w.inbound[0]);
    ClientSendsOnLink(c, w, op);
  }

  lemma LinksExitReceives(c: Crypto, w: World)
    requires Links(c, w) && Allowed(w, ExitReceives)
    ensures Links(c, Next(c, w, ExitReceives))
    ensures w.outbound != [] && Open(c, w.exit.recv, w.client.wire[w.seen]) == Opened(After(w.exit.recv, [w.outbound[0]]), w.outbound[0], true)
  {
    var wire := w.client.wire[w.seen..];
    SealOne(c, w.exit.recv, w.outbound);
    OpenSeal(c, w.exit.recv, w.outbound[0]);
    assert wire[0] == w.client.wire[w.seen] && wire[1..] == w.client.wire[w.seen + 1..];
  }

  // ---------------------------------------------------------------- circuit credit

  lemma CircuitCreditClient(c: Crypto, w: World, op: C.Op)
    requires CircuitCredit(w) && Allowed(w, ClientDoes(op))
    ensures CircuitCredit(Next(c, w, ClientDoes(op)))
  {
    StepKeepsBack(c, w.client, op);
    SendMesBuilt(c, w.client, op, 0);
    CircuitWindowAfter(c, w.client, op);
    CountAppend(SendMeKind(0), w.outbound, C.Built(c, w.client, op));
  }

  /** What the client does with the next cell on the link, in terms of its plaintext. */
  lemma Received(c: Crypto, w: World)
    requires Links(c, w) && Allowed(w, ClientReceives)
    ensures w.inbound != []
    ensures var cell, op, w' := w.inbound[0], C.Arrive(w.toClient[0]), Next(c, w, ClientReceives);
            && Counted(c, w.client, op) == (if C.CountsAgainstWindow(cell) then [cell] else [])
            && w'.inbound == w.inbound[1..]
            && w'.ends == w.ends + (if IsEnd(cell) then [cell] else [])
            && w'.outbound == w.outbound + C.Built(c, w.client, op)
            && w'.client == C.Step(c, w.client, op) && w'.exit == w.exit
  {
    LinksClientReceives(c, w);
    ArriveSealed(c, w.client, w.inbound[0]);
  }

  lemma CountHead(k: Kind, cells: seq<CellBytes>)
    requires cells != []
    ensures Count(k, cells) == (if Matches(k, cells[0]) then 1 else 0) + Count(k, cells[1..])
  {
  }

  lemma CountOne(k: Kind, cells: seq<CellBytes>, cell: CellBytes)
    ensures Count(k, cells + [cell]) == Count(k, cells) + if Matches(k, cell) then 1 else 0
  {
    CountAppend(k, cells, [cell]);
    assert [cell][1..] == [] && Count(k, [cell][1..]) == 0;
  }

  /** How the counts of one kind of stream change from w to w' when the client has received cell. */
  ghost predicate CountsMove(w: World, w': World, cell: CellBytes, s: Option<uint16>)
  {
    && Count(Kind(DATA, s), w.inbound) == Count(Kind(DATA, s), w'.inbound) + (if Matches(Kind(DATA, s), cell) then 1 else 0)
    && Count(Kind(END, s), w.inbound) == Count(Kind(END, s), w'.inbound) + (if Matches(Kind(END, s), cell) then 1 else 0)
    && Count(Kind(END, s), w'.ends) == Count(Kind(END, s), w.ends) + (if Matches(Kind(END, s), cell) then 1 else 0)
  }

  /** How the SENDME cells for s on the link, and the windows, change. */
  ghost predicate WindowsMove(w: World, w': World, cell: CellBytes, s: uint16)
  {
    var hit, st, st' := C.CountsAgainstWindow(cell), w.client, w'.client;
    && Count(SendMeKind(s), w'.outbound) - Count(SendMeKind(s), w.outbound)
       == (if hit && s == 0 && C.Wrap32(st.circuitWindow - 1) <= 900 then 1 else 0)
          + (if hit && s == StreamId(cell) && C.Wrap32(C.StreamWindow(st, s) - 1) <= 450 then 1 else 0)
    && st'.circuitWindow == (if hit then C.CountCell(st, StreamId(cell)).circuitWindow else st.circuitWindow)
    && (s in st'.streamWindows <==> s in st.streamWindows || (hit && StreamId(cell) == s))
    && C.StreamWindow(st', s) == (if hit then C.StreamWindow(C.CountCell(st, StreamId(cell)), s) else C.StreamWindow(st, s))
  }

  lemma ReceiveCounts(c: Crypto, w: World, s: Option<uint16>)
    requires Links(c, w) && Allowed(w, ClientReceives)
    ensures w.inbound != [] && CountsMove(w, Next(c, w, ClientReceives), w.inbound[0], s)
  {
    Received(c, w);
    CountHead(Kind(DATA, s), w.inbound);
    CountHead(Kind(END, s), w.inbound);
    CountOne(Kind(END, s), w.ends, w.inbound[0]);
    assert w.ends + [] == w.ends;
  }

  lemma ReceiveWindows(c: Crypto, w: World, s: uint16)
    requires Links(c, w) && Allowed(w, ClientReceives)
    ensures w.inbound != [] && WindowsMove(w, Next(c, w, ClientReceives), w.inbound[0], s)
  {
    Received(c, w);
    var op, w' := C.Arrive(w.toClient[0]), Next(c, w, ClientReceives);
    var cells := C.Built(c, w.client, op);
    CountAppend(SendMeKind(s), w.outbound, cells);
    SendMesOfArrival(c, w.client, op, w.inbound[0], s);
    WindowsOfArrival(c, w.client, op, w.inbound[0], s);
    MovedWindows(w, w', w.inbound[0], cells, s);
  }

  /** How many SENDME cells for s the counting of one cell builds. */
  ghost predicate SendMesFor(st: C.State, cell: CellBytes, cells: seq<CellBytes>, s: uint16)
  {
    Count(SendMeKind(s), cells)
    == (if C.CountsAgainstWindow(cell) && s == 0 && C.Wrap32(st.circuitWindow - 1) <= 900 then 1 else 0)
       + (if C.CountsAgainstWindow(cell) && s == StreamId(cell) && C.Wrap32(C.StreamWindow(st, s) - 1) <= 450 then 1 else 0)
  }

  /** What it does to the windows. */
  ghost predicate WindowsFor(st: C.State, st': C.State, cell: CellBytes, s: uint16)
  {
    var hit := C.CountsAgainstWindow(cell);
    && st'.circuitWindow == (if hit then C.CountCell(st, StreamId(cell)).circuitWindow else st.circuitWindow)
    && (s in st'.streamWindows <==> s in st.streamWindows || (hit && StreamId(cell) == s))
    && C.StreamWindow(st', s) == (if hit then C.StreamWindow(C.CountCell(st, StreamId(cell)), s) else C.StreamWindow(st, s))
  }

  lemma SendMesOfArrival(c: Crypto, st: C.State, op: C.Op, cell: CellBytes, s: uint16)
    requires op.Arrive? && Counted(c, st, op) == if C.CountsAgainstWindow(cell) then [cell] else []
    ensures SendMesFor(st, cell, C.Built(c, st, op), s)
  {
    SendMesBuilt(c, st, op, s);
    CountSendMes(st, StreamId(cell), s);
  }

  lemma WindowsOfArrival(c: Crypto, st: C.State, op: C.Op, cell: CellBytes, s: uint16)
    requires op.Arrive? && !st.dispatcher.aborted
    requires Counted(c, st, op) == if C.CountsAgainstWindow(cell) then [cell] else []
    ensures WindowsFor(st, C.Step(c, st, op), cell, s)
  {
    CircuitWindowAfter(c, st, op);
    StreamWindowAfter(c, st, op, s);
  }

  lemma MovedWindows(w: World, w': World, cell: CellBytes, cells: seq<CellBytes>, s: uint16)
    requires SendMesFor(w.client, cell, cells, s) && WindowsFor(w.client, w'.client, cell, s)
    requires Count(SendMeKind(s), w'.outbound) == Count(SendMeKind(s), w.outbound) + Count(SendMeKind(s), cells)
    ensures WindowsMove(w, w', cell, s)
  {
  }

  lemma ReceiveBegins(c: Crypto, w: World, s: uint16)
    requires Links(c, w) && Allowed(w, ClientReceives)
    ensures Count(Kind(BEGIN, Some(s)), Next(c, w, ClientReceives).outbound) == Count(Kind(BEGIN, Some(s)), w.outbound)
  {
    Received(c, w);
    var op := C.Arrive(w.toClient[0]);
    BeginsBuilt(c, w.client, op, s);
    CountAppend(Kind(BEGIN, Some(s)), w.outbound, C.Built(c, w.client, op));
  }

  lemma CircuitCreditBalances(w: World, w': World, cell: CellBytes)
    requires CircuitCredit(w) && w'.exit == w.exit
    requires StreamCredit(w, 0) && CountsMove(w, w', cell, Some(0))
    requires CountsMove(w, w', cell, None) && WindowsMove(w, w', cell, 0)
    ensures CircuitCredit(w')
  {
    assert C.CountsAgainstWindow(cell) ==> StreamId(cell) != 0;
  }

  lemma StreamCreditBalances(w: World, w': World, cell: CellBytes, s: uint16)
    requires StreamCredit(w, s) && w'.exit == w.exit
    requires CountsMove(w, w', cell, Some(s)) && WindowsMove(w, w', cell, s)
    requires Count(Kind(BEGIN, Some(s)), w'.outbound) == Count(Kind(BEGIN, Some(s)), w.outbound)
    ensures StreamCredit(w', s)
  {
    if s !in w.exit.streams {
      assert !(C.CountsAgainstWindow(cell) && StreamId(cell) == s);
    }
  }

  lemma CircuitCreditReceive(c: Crypto, w: World)
    requires Links(c, w) && CircuitCredit(w) && StreamCredit(w, 0) && Allowed(w, ClientReceives)
    ensures CircuitCredit(Next(c, w, ClientReceives))
  {
    Received(c, w);
    ReceiveCounts(c, w, None);
    ReceiveCounts(c, w, Some(0));
    ReceiveWindows(c, w, 0);
    CircuitCreditBalances(w, Next(c, w, ClientReceives), w.inbound[0]);
  }

  lemma CircuitCreditExitReceives(c: Crypto, w: World)
    requires Links(c, w) && CircuitCredit(w) && Allowed(w, ExitReceives)
    ensures CircuitCredit(Next(c, w, ExitReceives))
  {
    LinksExitReceives(c, w);
    CountHead(SendMeKind(0), w.outbound);
  }

  lemma CircuitCreditExitSends(c: Crypto, w: World, cell: CellBytes)
    requires CircuitCredit(w) && Allowed(w, ExitSends(cell))
    ensures CircuitCredit(Next(c, w, ExitSends(cell)))
  {
    CountOne(Kind(DATA, None), w.inbound, cell);
  }

  // ---------------------------------------------------------------- stream credit

  lemma BeginsBuilt(c: Crypto, st: C.State, op: C.Op, s: uint16)
    requires C.Fits(op)
    ensures Count(Kind(BEGIN, Some(s)), C.Built(c, st, op)) == if op.Connect? && op.stream == s then 1 else 0
  {
    var k := Kind(BEGIN, Some(s));
    match op
    case Connect(t, address, _) => CountImage(k, st.circuitId, t, BEGIN, address + [0]);
    case Write(t, buf, _) =>
      C.SegmentsFit(buf);
      CountDataCells(k, st.circuitId, t, C.Segments(buf));
    case CloseStream(t) => CountImage(k, st.circuitId, t, END, [6]);
    case Arrive(_) =>
      var a := C.Accepted(c, st, op);
      if a.Some? && C.CountsAgainstWindow(a.value) {
        BeginsInSendMes(st, StreamId(a.value), s);
      }
    case _ =>
  }

  lemma BeginsInSendMes(st: C.State, t: uint16, s: uint16)
    ensures Count(Kind(BEGIN, Some(s)), C.SendMes(st, t)) == 0
  {
    var a, b := C.CircuitSendMes(st), C.StreamSendMes(st, t);
    CountAppend(Kind(BEGIN, Some(s)), a, b);
    CountImage(Kind(BEGIN, Some(s)), st.circuitId, 0, SENDME, []);
    CountImage(Kind(BEGIN, Some(s)), st.circuitId, t, SENDME, []);
  }

  lemma StreamCreditClient(c: Crypto, w: World, op: C.Op, s: uint16)
    requires StreamCredit(w, s) && Allowed(w, ClientDoes(op))
    ensures StreamCredit(Next(c, w, ClientDoes(op)), s)
  {
    var cells := C.Built(c, w.client, op);
    StepKeepsBack(c, w.client, op);
    SendMesBuilt(c, w.client, op, s);
    BeginsBuilt(c, w.client, op, s);
    StreamWindowAfter(c, w.client, op, s);
    CountAppend(SendMeKind(s), w.outbound, cells);
    CountAppend(Kind(BEGIN, Some(s)), w.outbound, cells);
  }

  lemma StreamCreditReceive(c: Crypto, w: World, s: uint16)
    requires Links(c, w) && StreamCredit(w, s) && Allowed(w, ClientReceives)
    ensures StreamCredit(Next(c, w, ClientReceives), s)
  {
    Received(c, w);
    ReceiveCounts(c, w, Some(s));
    ReceiveWindows(c, w, s);
    ReceiveBegins(c, w, s);
    StreamCreditBalances(w, Next(c, w, ClientReceives), w.inbound[0], s);
  }

  lemma StreamCreditExitReceives(c: Crypto, w: World, s: uint16)
    requires Links(c, w) && StreamCredit(w, s) && Allowed(w, ExitReceives)
    ensures StreamCredit(Next(c, w, ExitReceives), s)
  {
    LinksExitReceives(c, w);
    CountHead(SendMeKind(s), w.outbound);
    CountHead(Kind(BEGIN, Some(s)), w.outbound);
  }

  lemma StreamCreditExitSends(c: Crypto, w: World, cell: CellBytes, s: uint16)
    requires StreamCredit(w, s) && Allowed(w, ExitSends(cell))
    ensures StreamCredit(Next(c, w, ExitSends(cell)), s)
  {
    CountOne(Kind(DATA, Some(s)), w.inbound, cell);
    CountOne(Kind(END, Some(s)), w.inbound, cell);
  }

  // ---------------------------------------------------------------- every reachable world

  ghost predicate Invariant(c: Crypto, w: World)
  {
    Links(c, w) && CircuitCredit(w) && forall s :: StreamCredit(w, s)
  }

  lemma InvariantKept(c: Crypto, w: World, m: Move)
    requires Invariant(c, w) && Allowed(w, m)
    ensures Invariant(c, Next(c, w, m))
  {
    var w' := Next(c, w, m);
    LinksKept(c, w, m);
    match m
    case ClientDoes(op) =>
      CircuitCreditClient(c, w, op);
      forall s ensures StreamCredit(w', s) { StreamCreditClient(c, w, op, s); }
    case ClientReceives =>
      CircuitCreditReceive(c, w);
      forall s ensures StreamCredit(w', s) { StreamCreditReceive(c, w, s); }
    case ExitReceives =>
      CircuitCreditExitReceives(c, w);
      forall s ensures StreamCredit(w', s) { StreamCreditExitReceives(c, w, s); }
    case ExitSends(cell) =>
      CircuitCreditExitSends(c, w, cell);
      forall s ensures StreamCredit(w', s) { StreamCreditExitSends(c, w, cell, s); }
  }

  lemma {:induction false} InvariantReached(c: Crypto, w: World, moves: seq<Move>, w': World)
    requires Invariant(c, w) && Reachable(c, w, moves, w')
    ensures Invariant(c, w')
    decreases |moves|
  {
    if moves == [] {
    } else {
      var before, m := moves[..|moves| - 1], moves[|moves| - 1];
      var w1 :| Reachable(c, w, before, w1) && Allowed(w1, m) && w' == Next(c, w1, m);
      InvariantReached(c, w, before, w1);
      InvariantKept(c, w1, m);
    }
  }

  lemma InvariantAtStart(c: Crypto, circuitId: uint16, forward: Half, back: Half)
    ensures Invariant(c, Start(circuitId, forward, back))
  {
  }

  /** Credit is conserved in every run, for the circuit and for every stream, and the two ends stay
      in step cell by cell. */
  lemma CreditConservation(c: Crypto, circuitId: uint16, forward: Half, back: Half, moves: seq<Move>, w: World)
    requires Reachable(c, Start(circuitId, forward, back), moves, w)
    ensures Links(c, w) && CircuitCredit(w)
    ensures forall s :: StreamCredit(w, s)
  {
    InvariantAtStart(c, circuitId, forward, back);
    InvariantReached(c, Start(circuitId, forward, back), moves, w);
  }

  /** Transfer cannot stall: when no DATA and no SENDME is on its way, the exit may send at least 901
      more cells on the circuit and 451 on every opened stream. */
  lemma QuiescentExitHasCredit(c: Crypto, circuitId: uint16, forward: Half, back: Half, moves: seq<Move>, w: World)
    requires Reachable(c, Start(circuitId, forward, back), moves, w)
    ensures Count(Kind(DATA, None), w.inbound) == 0 && Count(SendMeKind(0), w.outbound) == 0 ==> w.exit.package >= 901
    ensures forall s :: s in w.exit.streams && Count(Kind(DATA, Some(s)), w.inbound) == 0 && Count(SendMeKind(s), w.outbound) == 0
              ==> w.exit.streams[s] >= 451
  {
    CreditConservation(c, circuitId, forward, back, moves, w);
    forall s | s in w.exit.streams && Count(Kind(DATA, Some(s)), w.inbound) == 0 && Count(SendMeKind(s), w.outbound) == 0
      ensures w.exit.streams[s] >= 451
    {
      assert StreamCredit(w, s);
    }
  }

  /** What the exit may send, is sending and is given back, without the END cells. */
  function CircuitBalance(w: World): int
  {
    w.exit.package + Count(Kind(DATA, None), w.inbound) + 100 * Count(SendMeKind(0), w.outbound)
  }

  function StreamBalance(w: World, s: uint16): int
    requires s in w.exit.streams
  {
    w.exit.streams[s] + Count(Kind(DATA, Some(s)), w.inbound) + 50 * Count(SendMeKind(s), w.outbound)
  }

  /** END cells are counted like DATA although the exit does not charge for them: the balance exceeds the
      client's window by exactly the number of END cells counted, so the two agree, as sections 7.3 and
      7.4 of tor-spec intend, exactly when there are none. */
  lemma OvershootIsEndCells(c: Crypto, circuitId: uint16, forward: Half, back: Half, moves: seq<Move>, w: World)
    requires Reachable(c, Start(circuitId, forward, back), moves, w)
    ensures CircuitBalance(w) - w.client.circuitWindow == Count(Kind(END, None), w.ends)
    ensures CircuitBalance(w) == w.client.circuitWindow <==> Count(Kind(END, None), w.ends) == 0
    ensures forall s :: s in w.exit.streams ==>
              && s in w.client.streamWindows
              && StreamBalance(w, s) - w.client.streamWindows[s] == Count(Kind(END, Some(s)), w.ends)
              && (StreamBalance(w, s) == w.client.streamWindows[s] <==> Count(Kind(END, Some(s)), w.ends) == 0)
    ensures w.exit.package <= 1000 + Count(Kind(END, None), w.ends)
    ensures forall s :: s in w.exit.streams ==> w.exit.streams[s] <= 500 + Count(Kind(END, Some(s)), w.ends)
  {
    CreditConservation(c, circuitId, forward, back, moves, w);
    forall s | s in w.exit.streams
      ensures s in w.client.streamWindows
      ensures StreamBalance(w, s) - w.client.streamWindows[s] == Count(Kind(END, Some(s)), w.ends)
      ensures w.exit.streams[s] <= 500 + Count(Kind(END, Some(s)), w.ends)
    {
      assert StreamCredit(w, s);
    }
  }
}
