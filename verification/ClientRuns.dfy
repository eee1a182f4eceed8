/** Whole runs of the client: what a peer with the mirrored state reads off the wire, and how many
    SENDME cells the receive windows produce. */
module ClientRuns {
  import opened Bytes
  import opened Cells
  import opened CounterMode
  import opened RelayCrypto
  import opened Client

  predicate AllFitOps(ops: seq<Op>) { forall op :: op in ops ==> Fits(op) }

  function Run(c: Crypto, start: State, ops: seq<Op>): State
    requires AllFitOps(ops)
  {
    if ops == [] then start else Step(c, Run(c, start, ops[..|ops| - 1]), ops[|ops| - 1])
  }

  /** All relay cells built in a run, in order. */
  function BuiltBy(c: Crypto, start: State, ops: seq<Op>): seq<CellBytes>
    requires AllFitOps(ops)
  {
    if ops == [] then []
    else
      var before, op := ops[..|ops| - 1], ops[|ops| - 1];
      BuiltBy(c, start, before)
      + if Run(c, start, before).dispatcher.aborted then [] else Built(c, Run(c, start, before), op)
  }

  lemma RunAppend(c: Crypto, start: State, ops: seq<Op>, op: Op)
    requires AllFitOps(ops + [op])
    ensures AllFitOps(ops) && Fits(op)
    ensures Run(c, start, ops + [op]) == Step(c, Run(c, start, ops), op)
    ensures BuiltBy(c, start, ops + [op]) == BuiltBy(c, start, ops)
              + if Run(c, start, ops).dispatcher.aborted then [] else Built(c, Run(c, start, ops), op)
  {
  }

  // ---------------------------------------------------------------- the wire

  lemma BuiltCleared(c: Crypto, st: State, op: Op)
    requires Fits(op)
    ensures AllCleared(Built(c, st, op))
  {
    match op
    case Connect(s, address, _) => RelayImageFields(st.circuitId, s, BEGIN, address + [0]);
    case Write(s, buf, _) =>
      SegmentsFit(buf);
      forall p | p in Segments(buf)
        ensures DigestCleared(RelayImage(st.circuitId, s, DATA, p)) == RelayImage(st.circuitId, s, DATA, p)
      {
        RelayImageFields(st.circuitId, s, DATA, p);
      }
    case CloseStream(s) => RelayImageFields(st.circuitId, s, END, [6]);
    case Arrive(cell) =>
      RelayImageFields(st.circuitId, 0, SENDME, []);
      var a := Accepted(c, st, op);
      if a.Some? {
        RelayImageFields(st.circuitId, StreamId(a.value), SENDME, []);
      }
    case _ =>
  }

  lemma StepSends(c: Crypto, st: State, op: Op)
    requires Fits(op) && !st.dispatcher.aborted
    ensures var st', cells := Step(c, st, op), Built(c, st, op);
            && st'.circuitId == st.circuitId
            && st'.forward == After(st.forward, cells)
            && st'.wire == st.wire + SealAll(c, st.forward, cells)
  {
    var q := Quiet(c, st, op);
    assert q.circuitId == st.circuitId && q.forward == st.forward && q.wire == st.wire;
  }

  ghost predicate IsSealedLog(c: Crypto, start: State, st: State, built: seq<CellBytes>)
  {
    && st.circuitId == start.circuitId
    && st.forward == After(start.forward, built)
    && st.wire == SealAll(c, start.forward, built)
    && AllCleared(built)
  }

  lemma SealedLogStep(c: Crypto, start: State, st: State, built: seq<CellBytes>, op: Op)
    requires IsSealedLog(c, start, st, built) && Fits(op) && !st.dispatcher.aborted
    ensures IsSealedLog(c, start, Step(c, st, op), built + Built(c, st, op))
  {
    var cells := Built(c, st, op);
    StepSends(c, st, op);
    BuiltCleared(c, st, op);
    SealAllAppend(c, start.forward, built, cells);
    AfterAppend(start.forward, built, cells);
  }

  lemma SealedLogAppend(c: Crypto, start: State, ops: seq<Op>, op: Op)
    requires AllFitOps(ops) && Fits(op)
    requires IsSealedLog(c, start, Run(c, start, ops), BuiltBy(c, start, ops))
    ensures IsSealedLog(c, start, if Run(c, start, ops).dispatcher.aborted then Run(c, start, ops) else Step(c, Run(c, start, ops), op),
                        BuiltBy(c, start, ops) + if Run(c, start, ops).dispatcher.aborted then [] else Built(c, Run(c, start, ops), op))
  {
    var st, built := Run(c, start, ops), BuiltBy(c, start, ops);
    if st.dispatcher.aborted {
      assert built + [] == built;
    } else {
      SealedLogStep(c, start, st, built, op);
    }
  }

  lemma SealedLogStart(c: Crypto, start: State)
    requires start.wire == []
    ensures IsSealedLog(c, start, start, [])
  {
  }

  lemma {:induction false} WireIsSealedLog(c: Crypto, start: State, ops: seq<Op>)
    requires AllFitOps(ops) && start.wire == []
    ensures IsSealedLog(c, start, Run(c, start, ops), BuiltBy(c, start, ops))
  {
    if ops == [] {
      SealedLogStart(c, start);
    } else {
      var before, op := ops[..|ops| - 1], ops[|ops| - 1];
      SplitLast(ops);
      RunAppend(c, start, before, op);
      WireIsSealedLog(c, start, before);
      SealedLogAppend(c, start, before, op);
    }
  }

  /** For every interleaving of operations the peer that mirrors the starting state verifies every
      cell on the wire and reads exactly the cells the circuit built, in order. */
  lemma PeerReadsEveryRun(c: Crypto, start: State, ops: seq<Op>)
    requires AllFitOps(ops) && start.wire == []
    ensures var read, built := OpenAll(c, start.forward, Run(c, start, ops).wire), BuiltBy(c, start, ops);
            && |read| == |built|
            && forall i :: 0 <= i < |built| ==> read[i].verified && read[i].cell == built[i]
  {
    WireIsSealedLog(c, start, ops);
    PeerReadsBack(c, start.forward, BuiltBy(c, start, ops));
  }

  // ---------------------------------------------------------------- writes, end to end

  /** A write is cut into ceil(n / 498) pieces of 1 to 498 bytes that add up to the buffer. */
  lemma {:induction false} SegmentsPartition(buf: seq<byte>)
    ensures Flatten(Segments(buf)) == buf
    ensures |Segments(buf)| == (|buf| + 497) / 498
    ensures forall p :: p in Segments(buf) ==> 1 <= |p| <= MAX_PAYLOAD_LENGTH
  {
    if |buf| > MAX_PAYLOAD_LENGTH {
      var rest := buf[MAX_PAYLOAD_LENGTH..];
      SegmentsPartition(rest);
      assert Segments(buf)[1..] == Segments(rest);
      assert buf == buf[..MAX_PAYLOAD_LENGTH] + rest;
    } else if buf != [] {
      assert Segments(buf)[1..] == [];
      assert Flatten(Segments(buf)) == buf + Flatten([]);
    }
  }

  /** What a receiver collects for one stream: the payloads of its DATA cells, cut by the length field. */
  function StreamData(cells: seq<CellBytes>, s: uint16): seq<byte>
  {
    if cells == [] then []
    else (if RelayType(cells[0]) == DATA && StreamId(cells[0]) == s then DataOf(cells[0]) else []) + StreamData(cells[1..], s)
  }

  /** The buffers handed to write for stream s, in order. */
  function Written(ops: seq<Op>, s: uint16): seq<byte>
  {
    if ops == [] then []
    else
      var op := ops[|ops| - 1];
      Written(ops[..|ops| - 1], s) + if op.Write? && op.stream == s then op.buf else []
  }

  lemma {:induction false} StreamDataAppend(a: seq<CellBytes>, b: seq<CellBytes>, s: uint16)
    ensures StreamData(a + b, s) == StreamData(a, s) + StreamData(b, s)
  {
    if a == [] {
      assert a + b == b;
    } else {
      assert (a + b)[1..] == a[1..] + b;
      StreamDataAppend(a[1..], b, s);
    }
  }

  lemma {:induction false} StreamDataOfWrite(circuitId: uint16, t: uint16, parts: seq<seq<byte>>, s: uint16)
    requires AllFit(parts)
    ensures StreamData(DataCells(circuitId, t, parts), s) == if s == t then Flatten(parts) else []
  {
    if parts == [] {
    } else {
      RelayImageFields(circuitId, t, DATA, parts[0]);
      assert DataCells(circuitId, t, parts)[1..] == DataCells(circuitId, t, parts[1..]);
      StreamDataOfWrite(circuitId, t, parts[1..], s);
    }
  }

  lemma StreamDataOfOther(circuitId: uint16, t: uint16, typ: byte, payload: seq<byte>, s: uint16)
    requires |payload| <= MAX_PAYLOAD_LENGTH && typ != DATA
    ensures StreamData([RelayImage(circuitId, t, typ, payload)], s) == []
  {
  }

  lemma StreamDataOfSendMes(st: State, t: uint16, s: uint16)
    ensures StreamData(SendMes(st, t), s) == []
  {
    var a, b := CircuitSendMes(st), StreamSendMes(st, t);
    StreamDataAppend(a, b, s);
    StreamDataOfOther(st.circuitId, 0, SENDME, [], s);
    StreamDataOfOther(st.circuitId, t, SENDME, [], s);
  }

  lemma StreamDataOfBuilt(c: Crypto, st: State, op: Op, s: uint16)
    requires Fits(op)
    ensures StreamData(Built(c, st, op), s) == if op.Write? && op.stream == s then op.buf else []
  {
    match op
    case Connect(t, address, _) => StreamDataOfOther(st.circuitId, t, BEGIN, address + [0], s);
    case Write(t, buf, _) =>
      SegmentsFit(buf);
      SegmentsPartition(buf);
      StreamDataOfWrite(st.circuitId, t, Segments(buf), s);
    case CloseStream(t) => StreamDataOfOther(st.circuitId, t, END, [6], s);
    case Arrive(cell) =>
      var a := Accepted(c, st, op);
      if a.Some? && CountsAgainstWindow(a.value) {
        StreamDataOfSendMes(st, StreamId(a.value), s);
      }
    case _ =>
  }

  lemma {:induction false} StreamDataOfRun(c: Crypto, start: State, ops: seq<Op>, s: uint16)
    requires AllFitOps(ops) && !Run(c, start, ops).dispatcher.aborted
    ensures StreamData(BuiltBy(c, start, ops), s) == Written(ops, s)
  {
    if ops == [] {
    } else {
      var before, op := ops[..|ops| - 1], ops[|ops| - 1];
      SplitLast(ops);
      RunAppend(c, start, before, op);
      StreamDataOfRun(c, start, before, s);
      StreamDataAppend(BuiltBy(c, start, before), Built(c, Run(c, start, before), op), s);
      StreamDataOfBuilt(c, Run(c, start, before), op, s);
    }
  }

  /** End to end: over every run, what the peer decrypts for a stream is exactly the concatenation of
      the buffers written to it, whatever else the circuit sent in between. */
  lemma PeerReceivesWhatWasWritten(c: Crypto, start: State, ops: seq<Op>, s: uint16)
    requires AllFitOps(ops) && start.wire == [] && !Run(c, start, ops).dispatcher.aborted
    ensures StreamData(OpenedCells(OpenAll(c, start.forward, Run(c, start, ops).wire)), s) == Written(ops, s)
  {
    PeerReadsEveryRun(c, start, ops);
    assert OpenedCells(OpenAll(c, start.forward, Run(c, start, ops).wire)) == BuiltBy(c, start, ops);
    StreamDataOfRun(c, start, ops, s);
  }

  /** One write: as many cells as pieces, and the caller's handler on the last of them only. */
  lemma WriteAttachesHandlerOnce(c: Crypto, st: State, s: uint16, buf: seq<byte>, h: HandlerId)
    requires !st.dispatcher.aborted
    ensures var n := (|buf| + 497) / 498;
            var st' := Step(c, st, Write(s, buf, h));
            && |st'.wire| == |st.wire| + n
            && st'.completions[..|st.completions|] == st.completions && |st'.completions| == |st.completions| + n
            && forall i :: |st.completions| <= i < |st.completions| + n ==>
                 st'.completions[i] == if i == |st.completions| + n - 1 then WriteDone(h) else NoHandler
  {
    SegmentsFit(buf);
    SegmentsPartition(buf);
  }
}
