/** What the operations of a run ask to be sent, and that the peer reads exactly that from the wire: each
    cell's command, stream and data, in order, and the handler that waits for its write. */
module Script {
  import opened Bytes
  import opened Cells
  import opened CounterMode
  import opened RelayCrypto
  import opened Client
  import opened ClientRuns

  datatype Sending = Sending(typ: byte, stream: uint16, data: seq<byte>, completion: Completion)

  function Pieces(s: uint16, parts: seq<seq<byte>>, h: HandlerId): (sendings: seq<Sending>)
    ensures |sendings| == |parts|
  {
    seq(|parts|, i requires 0 <= i < |parts| =>
      Sending(DATA, s, parts[i], if i == |parts| - 1 then WriteDone(h) else NoHandler))
  }

  function AskedBy(op: Op): seq<Sending>
  {
    match op
    case Connect(s, address, h) => [Sending(BEGIN, s, address + [0], BeginSent(s, h))]
    case Write(s, buf, h) => Pieces(s, Segments(buf), h)
    case CloseStream(s) => [Sending(END, s, [6], NoHandler)]
    case _ => []
  }

  function Asked(ops: seq<Op>): seq<Sending>
  {
    if ops == [] then [] else Asked(ops[..|ops| - 1]) + AskedBy(ops[|ops| - 1])
  }

  /** Cells with the completions of their writes, other than SENDME cells, as the receiver reads them. */
  function Sendings(cells: seq<CellBytes>, completions: seq<Completion>): seq<Sending>
    requires |cells| == |completions|
  {
    if cells == [] then []
    else
      var n := |cells| - 1;
      Sendings(cells[..n], completions[..n]) + SendingOf(cells[n], completions[n])
  }

  function SendingOf(cell: CellBytes, completion: Completion): seq<Sending>
  {
    if RelayType(cell) == SENDME then [] else [Sending(RelayType(cell), StreamId(cell), DataOf(cell), completion)]
  }

  /** A relay cell of this circuit; a SENDME holds no data and nobody waits for its write. */
  predicate Formed(circuitId: uint16, cell: CellBytes, completion: Completion)
  {
    && cell[0] as int * 256 + cell[1] as int == circuitId && cell[2] == 3 && cell[4] == cell[5] == 0
    && (RelayType(cell) == SENDME ==> LengthField(cell) == 0 && completion == NoHandler)
  }

  predicate AllFormed(circuitId: uint16, cells: seq<CellBytes>, completions: seq<Completion>)
  {
    |cells| == |completions| && forall i :: 0 <= i < |cells| ==> Formed(circuitId, cells[i], completions[i])
  }

  // ---------------------------------------------------------------- one operation

  lemma ImageFormed(circuitId: uint16, s: uint16, typ: byte, data: seq<byte>, completion: Completion)
    requires |data| <= MAX_PAYLOAD_LENGTH && (typ == SENDME ==> data == [] && completion == NoHandler)
    ensures Formed(circuitId, RelayImage(circuitId, s, typ, data), completion)
    ensures SendingOf(RelayImage(circuitId, s, typ, data), completion)
         == if typ == SENDME then [] else [Sending(typ, s, data, completion)]
  {
    RelayLayout(circuitId, s, typ, data);
    RelayImageFields(circuitId, s, typ, data);
  }

  lemma SendingsOne(cell: CellBytes, completion: Completion)
    ensures Sendings([cell], [completion]) == SendingOf(cell, completion)
  {
    assert [cell][..0] == [] && Sendings([cell][..0], [completion][..0]) == [];
  }

  lemma SendingsMore(cells: seq<CellBytes>, cs: seq<Completion>, cell: CellBytes, completion: Completion)
    requires |cells| == |cs|
    ensures Sendings(cells + [cell], cs + [completion]) == Sendings(cells, cs) + SendingOf(cell, completion)
  {
    assert (cells + [cell])[..|cells|] == cells && (cs + [completion])[..|cs|] == cs;
  }

  lemma {:induction false} SendingsAppend(a: seq<CellBytes>, ca: seq<Completion>, b: seq<CellBytes>, cb: seq<Completion>)
    requires |a| == |ca| && |b| == |cb|
    ensures Sendings(a + b, ca + cb) == Sendings(a, ca) + Sendings(b, cb)
  {
    if b == [] {
      assert a + b == a && ca + cb == ca;
    } else {
      var n := |b| - 1;
      var b', cb' := b[..n], cb[..n];
      SendingsAppend(a, ca, b', cb');
      SendingsMore(a + b', ca + cb', b[n], cb[n]);
      AppendLast(a, b);
      AppendLast(ca, cb);
      SendingsMore(b', cb', b[n], cb[n]);
      SplitLast(b);
      SplitLast(cb);
    }
  }

  lemma {:induction false} SendingsPointwise(cells: seq<CellBytes>, cs: seq<Completion>, sendings: seq<Sending>)
    requires |cells| == |cs| == |sendings|
    requires forall i :: 0 <= i < |cells| ==> SendingOf(cells[i], cs[i]) == [sendings[i]]
    ensures Sendings(cells, cs) == sendings
  {
    if cells == [] {
    } else {
      var n := |cells| - 1;
      SendingsPointwise(cells[..n], cs[..n], sendings[..n]);
      SplitLast(sendings);
    }
  }

  lemma BuiltByWrite(c: Crypto, st: State, s: uint16, buf: seq<byte>, h: HandlerId)
    ensures AsAsked(c, st, Write(s, buf, h))
  {
    SegmentsFit(buf);
    var parts, op := Segments(buf), Write(s, buf, h);
    var cells, sendings := DataCells(st.circuitId, s, parts), Pieces(s, parts, h);
    var cs := Completions(op, |cells|);
    forall i | 0 <= i < |cells|
      ensures SendingOf(cells[i], cs[i]) == [sendings[i]] && Formed(st.circuitId, cells[i], cs[i])
    {
      assert parts[i] in parts;
      ImageFormed(st.circuitId, s, DATA, parts[i], cs[i]);
    }
    SendingsPointwise(cells, cs, sendings);
  }

  /** An operation builds what it asks for, SENDME cells apart. */
  ghost predicate AsAsked(c: Crypto, st: State, op: Op)
    requires Fits(op)
  {
    var cells := Built(c, st, op);
    && Sendings(cells, Completions(op, |cells|)) == AskedBy(op)
    && AllFormed(st.circuitId, cells, Completions(op, |cells|))
  }

  lemma BuiltByArrival(c: Crypto, st: State, op: Op)
    requires op.Arrive?
    ensures AsAsked(c, st, op)
  {
    var cells := Built(c, st, op);
    ImageFormed(st.circuitId, 0, SENDME, [], NoHandler);
    var a := Accepted(c, st, op);
    if a.Some? {
      ImageFormed(st.circuitId, StreamId(a.value), SENDME, [], NoHandler);
    }
    AllSendMes(cells, Completions(op, |cells|));
  }

  lemma {:induction false} AllSendMes(cells: seq<CellBytes>, completions: seq<Completion>)
    requires |cells| == |completions| && forall i :: 0 <= i < |cells| ==> RelayType(cells[i]) == SENDME
    ensures Sendings(cells, completions) == []
  {
    if cells == [] {
    } else {
      AllSendMes(cells[..|cells| - 1], completions[..|cells| - 1]);
    }
  }

  lemma BuiltAsAsked(c: Crypto, st: State, op: Op)
    requires Fits(op)
    ensures AsAsked(c, st, op)
  {
    match op
    case Connect(s, address, h) => BuiltByConnect(c, st, s, address, h);
    case Write(s, buf, h) => BuiltByWrite(c, st, s, buf, h);
    case CloseStream(s) => BuiltByClose(c, st, s);
    case Arrive(_) => BuiltByArrival(c, st, op);
    case _ => assert Built(c, st, op) == [];
  }

  lemma BuiltByConnect(c: Crypto, st: State, s: uint16, address: seq<byte>, h: HandlerId)
    requires Fits(Connect(s, address, h))
    ensures AsAsked(c, st, Connect(s, address, h))
  {
    ImageFormed(st.circuitId, s, BEGIN, address + [0], BeginSent(s, h));
    SendingsOne(BeginCell(st.circuitId, s, address), BeginSent(s, h));
    assert Completions(Connect(s, address, h), 1) == [BeginSent(s, h)];
  }

  lemma BuiltByClose(c: Crypto, st: State, s: uint16)
    ensures AsAsked(c, st, CloseStream(s))
  {
    ImageFormed(st.circuitId, s, END, [6], NoHandler);
    SendingsOne(EndCell(st.circuitId, s), NoHandler);
    assert Completions(CloseStream(s), 1) == [NoHandler];
  }

  // ---------------------------------------------------------------- whole runs

  ghost predicate FollowsScript(start: State, st: State, built: seq<CellBytes>, asked: seq<Sending>)
  {
    && st.circuitId == start.circuitId && |st.completions| == |built|
    && Sendings(built, st.completions) == asked
    && AllFormed(start.circuitId, built, st.completions)
  }

  lemma StepFollows(c: Crypto, start: State, st: State, built: seq<CellBytes>, asked: seq<Sending>, op: Op)
    requires Fits(op) && !st.dispatcher.aborted && FollowsScript(start, st, built, asked)
    ensures FollowsScript(start, Step(c, st, op), built + Built(c, st, op), asked + AskedBy(op))
  {
    var cells := Built(c, st, op);
    var cs := Completions(op, |cells|);
    BuiltAsAsked(c, st, op);
    StepCompletes(c, st, op);
    SendingsAppend(built, st.completions, cells, cs);
  }

  lemma StepCompletes(c: Crypto, st: State, op: Op)
    requires Fits(op) && !st.dispatcher.aborted
    ensures Step(c, st, op).completions == st.completions + Completions(op, |Built(c, st, op)|)
    ensures Step(c, st, op).circuitId == st.circuitId
  {
    var q := Quiet(c, st, op);
    assert q.completions == st.completions && q.circuitId == st.circuitId;
  }

  lemma {:induction false} RunFollowsScript(c: Crypto, start: State, ops: seq<Op>)
    requires AllFitOps(ops) && start.completions == [] && !Run(c, start, ops).dispatcher.aborted
    ensures FollowsScript(start, Run(c, start, ops), BuiltBy(c, start, ops), Asked(ops))
  {
    if ops == [] {
    } else {
      var before, op := ops[..|ops| - 1], ops[|ops| - 1];
      SplitLast(ops);
      RunAppend(c, start, before, op);
      RunFollowsScript(c, start, before);
      StepFollows(c, start, Run(c, start, before), BuiltBy(c, start, before), Asked(before), op);
    }
  }

  /** Over every run the mirrored peer verifies every cell on the wire and reads, SENDME cells apart, exactly
      what the operations ask for: a BEGIN with the address and a zero for each connect, the pieces of
      each write, an END for each closed stream, each on its own stream and in the order of the
      operations, and with the handler that the operation named. */
  lemma PeerReadsScript(c: Crypto, start: State, ops: seq<Op>)
    requires AllFitOps(ops) && start.wire == [] && start.completions == [] && !Run(c, start, ops).dispatcher.aborted
    ensures var st := Run(c, start, ops);
            var read := OpenAll(c, start.forward, st.wire);
            && |read| == |st.completions| && (forall i :: 0 <= i < |read| ==> read[i].verified)
            && Sendings(OpenedCells(read), st.completions) == Asked(ops)
            && AllFormed(start.circuitId, OpenedCells(read), st.completions)
  {
    PeerReadsEveryRun(c, start, ops);
    assert OpenedCells(OpenAll(c, start.forward, Run(c, start, ops).wire)) == BuiltBy(c, start, ops);
    RunFollowsScript(c, start, ops);
  }

  /** In particular the last cell on the wire after a connect is its BEGIN. */
  lemma PeerReadsBegin(c: Crypto, start: State, ops: seq<Op>, s: uint16, address: seq<byte>, h: HandlerId)
    requires AllFitOps(ops) && start.wire == [] && start.completions == [] && !Run(c, start, ops).dispatcher.aborted
    requires |address| + 1 <= MAX_PAYLOAD_LENGTH
    ensures var st := Step(c, Run(c, start, ops), Connect(s, address, h));
            var read, n := OpenAll(c, start.forward, st.wire), |st.wire| - 1;
            && n >= 0 && read[n].verified && |st.completions| == n + 1 && st.completions[n] == BeginSent(s, h)
            && RelayType(read[n].cell) == BEGIN && StreamId(read[n].cell) == s && DataOf(read[n].cell) == address + [0]
  {
    var op := Connect(s, address, h);
    var all := ops + [op];
    assert AllFitOps(all) && all[..|ops|] == ops;
    RunAppend(c, start, ops, op);
    PeerReadsEveryRun(c, start, all);
    RunFollowsScript(c, start, ops);
    StepCompletes(c, Run(c, start, ops), op);
    assert BuiltBy(c, start, all) == BuiltBy(c, start, ops) + [BeginCell(Run(c, start, ops).circuitId, s, address)];
    RelayImageFields(Run(c, start, ops).circuitId, s, BEGIN, address + [0]);
  }
}
