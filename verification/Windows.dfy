/** The receive windows of the circuit and of its streams (sections 7.3 and 7.4 of tor-spec): their
    values and the SENDME cells they cause, in closed form over whole runs. */
module Windows {
  import opened Bytes
  import opened Cells
  import opened CounterMode
  import opened RelayCrypto
  import opened Client
  import opened ClientRuns

  /** Cells of one relay type, on one stream or on any. */
  datatype Kind = Kind(typ: byte, stream: Option<uint16>)

  predicate Matches(k: Kind, cell: CellBytes)
  {
    RelayType(cell) == k.typ && (k.stream.Some? ==> StreamId(cell) == k.stream.value)
  }

  function Count(k: Kind, cells: seq<CellBytes>): nat
  {
    if cells == [] then 0 else (if Matches(k, cells[0]) then 1 else 0) + Count(k, cells[1..])
  }

  lemma {:induction false} CountAppend(k: Kind, a: seq<CellBytes>, b: seq<CellBytes>)
    ensures Count(k, a + b) == Count(k, a) + Count(k, b)
  {
    if a == [] {
      assert a + b == b;
    } else {
      assert (a + b)[1..] == a[1..] + b;
      CountAppend(k, a[1..], b);
    }
  }

  function SendMeKind(s: uint16): Kind { Kind(SENDME, Some(s)) }

  /** DATA and END cells on one stream, or on all. */
  function CountedOn(s: Option<uint16>, cells: seq<CellBytes>): nat
  {
    Count(Kind(DATA, s), cells) + Count(Kind(END, s), cells)
  }

  // ---------------------------------------------------------------- SENDME cells built

  lemma CountImage(k: Kind, circuitId: uint16, s: uint16, typ: byte, payload: seq<byte>)
    requires |payload| <= MAX_PAYLOAD_LENGTH
    ensures Count(k, [RelayImage(circuitId, s, typ, payload)])
         == if k.typ == typ && (k.stream.Some? ==> k.stream.value == s) then 1 else 0
  {
  }

  lemma CountSendMes(st: State, t: uint16, s: uint16)
    ensures Count(SendMeKind(s), SendMes(st, t))
         == (if s == 0 && Wrap32(st.circuitWindow - 1) <= 900 then 1 else 0)
            + if s == t && Wrap32(StreamWindow(st, t) - 1) <= 450 then 1 else 0
  {
    var a, b := CircuitSendMes(st), StreamSendMes(st, t);
    CountAppend(SendMeKind(s), a, b);
    CountImage(SendMeKind(s), st.circuitId, 0, SENDME, []);
    CountImage(SendMeKind(s), st.circuitId, t, SENDME, []);
  }

  lemma {:induction false} CountDataCells(k: Kind, circuitId: uint16, t: uint16, parts: seq<seq<byte>>)
    requires AllFit(parts) && k.typ != DATA
    ensures Count(k, DataCells(circuitId, t, parts)) == 0
  {
    if parts == [] {
    } else {
      RelayImageFields(circuitId, t, DATA, parts[0]);
      assert DataCells(circuitId, t, parts)[1..] == DataCells(circuitId, t, parts[1..]);
      CountDataCells(k, circuitId, t, parts[1..]);
    }
  }

  /** The DATA or END cell that an operation counts against the windows, if any. */
  function Counted(c: Crypto, st: State, op: Op): seq<CellBytes>
  {
    var a := Accepted(c, st, op);
    if a.Some? && CountsAgainstWindow(a.value) then [a.value] else []
  }

  /** SENDME cells come only from counting cells. */
  lemma SendMesBuilt(c: Crypto, st: State, op: Op, s: uint16)
    requires Fits(op)
    ensures var n := Counted(c, st, op);
            Count(SendMeKind(s), Built(c, st, op)) == if n == [] then 0 else Count(SendMeKind(s), SendMes(st, StreamId(n[0])))
  {
    match op
    case Connect(t, address, _) => CountImage(SendMeKind(s), st.circuitId, t, BEGIN, address + [0]);
    case Write(t, buf, _) =>
      SegmentsFit(buf);
      CountDataCells(SendMeKind(s), st.circuitId, t, Segments(buf));
    case CloseStream(t) => CountImage(SendMeKind(s), st.circuitId, t, END, [6]);
    case _ =>
  }

  lemma QuietWindows(c: Crypto, st: State, op: Op)
    requires Fits(op) && !st.dispatcher.aborted
    ensures Step(c, st, op).circuitWindow == Quiet(c, st, op).circuitWindow
    ensures Step(c, st, op).streamWindows == Quiet(c, st, op).streamWindows
  {
  }

  /** The windows move exactly when a cell is counted or a stream is opened. */
  lemma CircuitWindowAfter(c: Crypto, st: State, op: Op)
    requires Fits(op) && !st.dispatcher.aborted
    ensures var n := Counted(c, st, op);
            Step(c, st, op).circuitWindow == if n == [] then st.circuitWindow else CountCell(st, StreamId(n[0])).circuitWindow
  {
    QuietWindows(c, st, op);
  }

  lemma StreamWindowAfter(c: Crypto, st: State, op: Op, s: uint16)
    requires Fits(op) && !st.dispatcher.aborted
    ensures var n, windows := Counted(c, st, op), Step(c, st, op).streamWindows;
            if op.Connect? && op.stream == s then s in windows && windows[s] == STREAM_WINDOW
            else if n != [] && StreamId(n[0]) == s then s in windows && windows[s] == CountCell(st, s).streamWindows[s]
            else (s in windows <==> s in st.streamWindows) && (s in windows ==> windows[s] == st.streamWindows[s])
  {
    QuietWindows(c, st, op);
  }

  // ---------------------------------------------------------------- whole runs

  function CountedBy(c: Crypto, start: State, ops: seq<Op>): seq<CellBytes>
    requires AllFitOps(ops)
  {
    if ops == [] then []
    else
      var before, op := ops[..|ops| - 1], ops[|ops| - 1];
      CountedBy(c, start, before) + Counted(c, Run(c, start, before), op)
  }

  /** DATA and END cells travel on streams, and stream 0 stands for the circuit. */
  predicate NoneOnStreamZero(cells: seq<CellBytes>) { CountedOn(Some(0), cells) == 0 }

  /** n cells, of which the last 1000 - w are not yet paid for: w and the number of SENDME cells are
      the remainder and the quotient of n by 100 (by 50 for a stream). */
  ghost predicate CircuitLaw(w: uint32, sendMes: nat, n: nat)
  {
    901 <= w <= 1000 && n == 100 * sendMes + (1000 - w)
  }

  ghost predicate StreamLaw(w: uint32, sendMes: nat, n: nat)
  {
    451 <= w <= 500 && n == 50 * sendMes + (500 - w)
  }

  ghost predicate UnopenedLaw(w: uint32, sendMes: nat, n: nat)
  {
    n < 0x1_0000_0000 - 450 ==> w == Wrap32(0 - n) && sendMes == 0
  }

  /** One operation as the circuit window sees it: whether a cell was counted, and how many SENDME
      cells were built. */
  predicate CircuitMove(w: uint32, w': uint32, hit: bool, sent: nat)
  {
    if !hit then w' == w && sent == 0
    else if Wrap32(w - 1) <= 900 then w' == Wrap32(Wrap32(w - 1) + 100) && sent == 1
    else w' == Wrap32(w - 1) && sent == 0
  }

  predicate StreamMove(w: uint32, w': uint32, hit: bool, sent: nat)
  {
    if !hit then w' == w && sent == 0
    else if Wrap32(w - 1) <= 450 then w' == STREAM_WINDOW && sent == 1
    else w' == Wrap32(w - 1) && sent == 0
  }

  lemma CircuitLawMoves(w: uint32, w': uint32, hit: bool, sendMes: nat, sendMes': nat, n: nat, n': nat)
    requires sendMes' >= sendMes && n' == n + if hit then 1 else 0
    requires CircuitLaw(w, sendMes, n) && CircuitMove(w, w', hit, sendMes' - sendMes)
    ensures CircuitLaw(w', sendMes', n')
  {
  }

  lemma StreamLawMoves(w: uint32, w': uint32, hit: bool, sendMes: nat, sendMes': nat, n: nat, n': nat)
    requires sendMes' >= sendMes && n' == n + if hit then 1 else 0
    requires StreamLaw(w, sendMes, n) && StreamMove(w, w', hit, sendMes' - sendMes)
    ensures StreamLaw(w', sendMes', n')
  {
  }

  lemma UnopenedLawMoves(w: uint32, w': uint32, hit: bool, sendMes: nat, sendMes': nat, n: nat, n': nat)
    requires sendMes' >= sendMes && n' == n + if hit then 1 else 0
    requires UnopenedLaw(w, sendMes, n) && StreamMove(w, w', hit, sendMes' - sendMes)
    ensures UnopenedLaw(w', sendMes', n')
  {
  }

  lemma CountedOne(c: Crypto, st: State, op: Op, s: Option<uint16>)
    ensures var n := Counted(c, st, op);
            CountedOn(s, n) == if n == [] then 0 else if s.None? || StreamId(n[0]) == s.value then 1 else 0
  {
    var n := Counted(c, st, op);
    if n != [] {
      assert n[1..] == [] && Count(Kind(DATA, s), n[1..]) == 0 && Count(Kind(END, s), n[1..]) == 0;
    }
  }

  lemma CountedOnAppend(s: Option<uint16>, a: seq<CellBytes>, b: seq<CellBytes>)
    ensures CountedOn(s, a + b) == CountedOn(s, a) + CountedOn(s, b)
  {
    CountAppend(Kind(DATA, s), a, b);
    CountAppend(Kind(END, s), a, b);
  }

  lemma LawsAreQuotientAndRemainder(w: uint32, sendMes: nat, n: nat)
    ensures CircuitLaw(w, sendMes, n) <==> w == 1000 - n % 100 && sendMes == n / 100
    ensures StreamLaw(w, sendMes, n) <==> w == 500 - n % 50 && sendMes == n / 50
  {
  }

  /** What one more operation adds to the two counts that the laws relate. */
  lemma CountsSplit(c: Crypto, start: State, ops: seq<Op>, op: Op, k: Kind, s: Option<uint16>)
    requires AllFitOps(ops + [op]) && !Run(c, start, ops + [op]).dispatcher.aborted
    ensures AllFitOps(ops) && Fits(op) && !Run(c, start, ops).dispatcher.aborted
    ensures Run(c, start, ops + [op]) == Step(c, Run(c, start, ops), op)
    ensures Count(k, BuiltBy(c, start, ops + [op])) == Count(k, BuiltBy(c, start, ops)) + Count(k, Built(c, Run(c, start, ops), op))
    ensures CountedOn(s, CountedBy(c, start, ops + [op])) == CountedOn(s, CountedBy(c, start, ops)) + CountedOn(s, Counted(c, Run(c, start, ops), op))
  {
    RunAppend(c, start, ops, op);
    assert (ops + [op])[..|ops|] == ops;
    CountAppend(k, BuiltBy(c, start, ops), Built(c, Run(c, start, ops), op));
    CountedOnAppend(s, CountedBy(c, start, ops), Counted(c, Run(c, start, ops), op));
  }

  lemma CircuitMoves(c: Crypto, st: State, op: Op)
    requires Fits(op) && !st.dispatcher.aborted && NoneOnStreamZero(Counted(c, st, op))
    ensures CircuitMove(st.circuitWindow, Step(c, st, op).circuitWindow, Counted(c, st, op) != [], Count(SendMeKind(0), Built(c, st, op)))
    ensures CountedOn(None, Counted(c, st, op)) == if Counted(c, st, op) != [] then 1 else 0
  {
    CountedOne(c, st, op, None);
    CountedOne(c, st, op, Some(0));
    CircuitMovesBy(c, st, op);
  }

  lemma CountOneCell(st: State, t: uint16)
    requires t != 0
    ensures CircuitMove(st.circuitWindow, CountCell(st, t).circuitWindow, true, Count(SendMeKind(0), SendMes(st, t)))
    ensures StreamMove(StreamWindow(st, t), CountCell(st, t).streamWindows[t], true, Count(SendMeKind(t), SendMes(st, t)))
  {
    CountSendMes(st, t, 0);
    CountSendMes(st, t, t);
  }

  lemma CircuitMovesBy(c: Crypto, st: State, op: Op)
    requires Fits(op) && !st.dispatcher.aborted
    requires Counted(c, st, op) != [] ==> StreamId(Counted(c, st, op)[0]) != 0
    ensures CircuitMove(st.circuitWindow, Step(c, st, op).circuitWindow, Counted(c, st, op) != [], Count(SendMeKind(0), Built(c, st, op)))
  {
    CircuitWindowAfter(c, st, op);
    SendMesBuilt(c, st, op, 0);
    var counted := Counted(c, st, op);
    if counted != [] {
      CountOneCell(st, StreamId(counted[0]));
    }
  }

  lemma StreamMoves(c: Crypto, st: State, op: Op, s: uint16)
    requires Fits(op) && !st.dispatcher.aborted && !(op.Connect? && op.stream == s) && s != 0
    ensures var hit := Counted(c, st, op) != [] && StreamId(Counted(c, st, op)[0]) == s;
            && StreamMove(StreamWindow(st, s), StreamWindow(Step(c, st, op), s), hit, Count(SendMeKind(s), Built(c, st, op)))
            && CountedOn(Some(s), Counted(c, st, op)) == if hit then 1 else 0
  {
    StreamWindowAfter(c, st, op, s);
    SendMesBuilt(c, st, op, s);
    CountedOne(c, st, op, Some(s));
    var counted := Counted(c, st, op);
    if counted != [] {
      var t := StreamId(counted[0]);
      if t == s {
        CountOneCell(st, t);
      } else {
        CountSendMes(st, t, s);
      }
    }
  }

  lemma NoneOnStreamZeroSplit(c: Crypto, start: State, ops: seq<Op>, op: Op)
    requires AllFitOps(ops + [op]) && !Run(c, start, ops + [op]).dispatcher.aborted
    requires NoneOnStreamZero(CountedBy(c, start, ops + [op]))
    ensures AllFitOps(ops) && Fits(op) && !Run(c, start, ops).dispatcher.aborted
    ensures NoneOnStreamZero(CountedBy(c, start, ops)) && NoneOnStreamZero(Counted(c, Run(c, start, ops), op))
  {
    CountsSplit(c, start, ops, op, SendMeKind(0), Some(0));
  }

  lemma CircuitLawAppend(c: Crypto, start: State, ops: seq<Op>, op: Op)
    requires AllFitOps(ops + [op]) && AllFitOps(ops) && !Run(c, start, ops + [op]).dispatcher.aborted
    requires NoneOnStreamZero(Counted(c, Run(c, start, ops), op))
    requires CircuitLaw(Run(c, start, ops).circuitWindow, Count(SendMeKind(0), BuiltBy(c, start, ops)), CountedOn(None, CountedBy(c, start, ops)))
    ensures CircuitLaw(Run(c, start, ops + [op]).circuitWindow, Count(SendMeKind(0), BuiltBy(c, start, ops + [op])),
                       CountedOn(None, CountedBy(c, start, ops + [op])))
  {
    var st := Run(c, start, ops);
    CountsSplit(c, start, ops, op, SendMeKind(0), None);
    CircuitMoves(c, st, op);
    CircuitLawMoves(st.circuitWindow, Run(c, start, ops + [op]).circuitWindow, Counted(c, st, op) != [],
                    Count(SendMeKind(0), BuiltBy(c, start, ops)), Count(SendMeKind(0), BuiltBy(c, start, ops + [op])),
                    CountedOn(None, CountedBy(c, start, ops)), CountedOn(None, CountedBy(c, start, ops + [op])));
  }

  lemma CircuitWindowStays(c: Crypto, st: State, op: Op)
    requires Fits(op) && 901 <= st.circuitWindow <= 1000
    ensures 901 <= Step(c, st, op).circuitWindow <= 1000
  {
    if st.dispatcher.aborted {
      assert Step(c, st, op) == st;
    } else {
      CircuitWindowAfter(c, st, op);
      var w', counted := Step(c, st, op).circuitWindow, Counted(c, st, op);
      CountedStays(st, w', counted);
    }
  }

  lemma CountedStays(st: State, w': uint32, counted: seq<CellBytes>)
    requires 901 <= st.circuitWindow <= 1000
    requires w' == if counted == [] then st.circuitWindow else CountCell(st, StreamId(counted[0])).circuitWindow
    ensures 901 <= w' <= 1000
  {
  }

  /** The circuit window never leaves 901..1000, whatever arrives. */
  lemma {:induction false} CircuitWindowRange(c: Crypto, start: State, ops: seq<Op>)
    requires AllFitOps(ops) && 901 <= start.circuitWindow <= 1000
    ensures 901 <= Run(c, start, ops).circuitWindow <= 1000
  {
    if ops == [] {
    } else {
      var before, op := ops[..|ops| - 1], ops[|ops| - 1];
      CircuitWindowRange(c, start, before);
      CircuitWindowStays(c, Run(c, start, before), op);
    }
  }

  /** After n DATA and END cells, none of them on stream 0, the circuit window is 1000 - n mod 100 and
      exactly n div 100 circuit SENDME cells have been built. */
  lemma {:induction false} CircuitWindowLaw(c: Crypto, start: State, ops: seq<Op>)
    requires AllFitOps(ops) && !Run(c, start, ops).dispatcher.aborted
    requires start.circuitWindow == CIRCUIT_WINDOW && NoneOnStreamZero(CountedBy(c, start, ops))
    ensures CircuitLaw(Run(c, start, ops).circuitWindow, Count(SendMeKind(0), BuiltBy(c, start, ops)),
                       CountedOn(None, CountedBy(c, start, ops)))
  {
    if ops == [] {
    } else {
      var before, op := ops[..|ops| - 1], ops[|ops| - 1];
      SplitLast(ops);
      NoneOnStreamZeroSplit(c, start, before, op);
      CircuitWindowLaw(c, start, before);
      CircuitLawAppend(c, start, before, op);
    }
  }

  /** After n DATA and END cells of an opened stream its window is 500 - n mod 50 and exactly n div 50
      SENDME cells have been built for it. */
  lemma {:induction false} StreamWindowLaw(c: Crypto, start: State, ops: seq<Op>, s: uint16)
    requires AllFitOps(ops) && !Run(c, start, ops).dispatcher.aborted && s != 0
    requires StreamWindow(start, s) == STREAM_WINDOW
    requires forall op :: op in ops ==> !(op.Connect? && op.stream == s)
    ensures StreamLaw(StreamWindow(Run(c, start, ops), s), Count(SendMeKind(s), BuiltBy(c, start, ops)),
                      CountedOn(Some(s), CountedBy(c, start, ops)))
  {
    if ops == [] {
    } else {
      var before, op := ops[..|ops| - 1], ops[|ops| - 1];
      SplitLast(ops);
      CountsSplit(c, start, before, op, SendMeKind(s), Some(s));
      StreamWindowLaw(c, start, before, s);
      var st := Run(c, start, before);
      StreamMoves(c, st, op, s);
      StreamLawMoves(StreamWindow(st, s), StreamWindow(Run(c, start, ops), s), Counted(c, st, op) != [] && StreamId(Counted(c, st, op)[0]) == s,
               Count(SendMeKind(s), BuiltBy(c, start, before)), Count(SendMeKind(s), BuiltBy(c, start, ops)),
               CountedOn(Some(s), CountedBy(c, start, before)), CountedOn(Some(s), CountedBy(c, start, ops)));
    }
  }

  /** An id that was never opened starts at window 0, wraps, and is given no credit for its first
      2^32 - 451 cells. */
  lemma {:induction false} UnopenedStreamWraps(c: Crypto, start: State, ops: seq<Op>, s: uint16)
    requires AllFitOps(ops) && !Run(c, start, ops).dispatcher.aborted && s != 0
    requires s !in start.streamWindows
    requires forall op :: op in ops ==> !(op.Connect? && op.stream == s)
    ensures UnopenedLaw(StreamWindow(Run(c, start, ops), s), Count(SendMeKind(s), BuiltBy(c, start, ops)),
                        CountedOn(Some(s), CountedBy(c, start, ops)))
  {
    if ops == [] {
    } else {
      var before, op := ops[..|ops| - 1], ops[|ops| - 1];
      SplitLast(ops);
      CountsSplit(c, start, before, op, SendMeKind(s), Some(s));
      UnopenedStreamWraps(c, start, before, s);
      var st := Run(c, start, before);
      StreamMoves(c, st, op, s);
      UnopenedLawMoves(StreamWindow(st, s), StreamWindow(Run(c, start, ops), s), Counted(c, st, op) != [] && StreamId(Counted(c, st, op)[0]) == s,
               Count(SendMeKind(s), BuiltBy(c, start, before)), Count(SendMeKind(s), BuiltBy(c, start, ops)),
               CountedOn(Some(s), CountedBy(c, start, before)), CountedOn(Some(s), CountedBy(c, start, ops)));
    }
  }
}
