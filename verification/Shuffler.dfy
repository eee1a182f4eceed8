/** ProxyShuffler.cpp: the pump between the SOCKS socket and the circuit's stream. The streams answer
    each read and each write once. */
module Shuffler {
  import opened Bytes

  const PROXY_BUF_SIZE := 512

  /** Up carries what the socket reads to the circuit, Down what the circuit reads to the socket. */
  datatype Direction = Up | Down

  /** The operation of one direction that a stream has in hand. */
  datatype Phase = Stopped | Reading | Writing(chunk: seq<byte>)

  /** arrived: what the source has answered; handed: what has been given to write; done: what write has
      confirmed. */
  datatype Flow = Flow(phase: Phase, arrived: seq<byte>, handed: seq<byte>, done: seq<byte>)

  /** started counts the reads and writes begun; nodeCloses and socksCloses the calls of close. */
  datatype State = State(up: Flow, down: Flow, closed: bool, nodeCloses: nat, socksCloses: nat, started: nat)
  {
    function Get(d: Direction): Flow { if d == Up then up else down }

    function Set(d: Direction, f: Flow): State { if d == Up then this.(up := f) else this.(down := f) }

    function CloseOnce(): State
    {
      if closed then this else this.(closed := true, nodeCloses := nodeCloses + 1, socksCloses := socksCloses + 1)
    }
  }

  /** A read answered with data or with -1; a write answered with or without an error. */
  datatype Event =
    | ReadDone(d: Direction, data: seq<byte>)
    | ReadEnd(d: Direction)
    | WriteDone(d: Direction, failed: bool)

  predicate Possible(st: State, e: Event)
  {
    match e
    case ReadDone(d, data) => st.Get(d).phase.Reading? && |data| <= PROXY_BUF_SIZE
    case ReadEnd(d) => st.Get(d).phase.Reading?
    case WriteDone(d, _) => st.Get(d).phase.Writing?
  }

  function Start(): State
  {
    State(Flow(Reading, [], [], []), Flow(Reading, [], [], []), false, 0, 0, 2)
  }

  function Step(st: State, e: Event): State
    requires Possible(st, e)
  {
    var f := st.Get(e.d);
    match e
    case ReadDone(d, data) =>
      if st.closed then st.Set(d, f.(phase := Stopped, arrived := f.arrived + data))
      else st.Set(d, f.(phase := Writing(data), arrived := f.arrived + data, handed := f.handed + data)).(started := st.started + 1)
    case ReadEnd(d) => st.Set(d, f.(phase := Stopped)).CloseOnce()
    case WriteDone(d, failed) =>
      var f' := f.(phase := Stopped, done := if failed then f.done else f.done + f.phase.chunk);
      if st.closed then st.Set(d, f')
      else if failed then st.Set(d, f').CloseOnce()
      else st.Set(d, f'.(phase := Reading)).(started := st.started + 1)
  }

  // ---------------------------------------------------------------- every run

  ghost predicate FlowOk(f: Flow, closed: bool)
  {
    && f.handed <= f.arrived && f.done <= f.handed
    && (!closed ==> f.phase != Stopped && f.handed == f.arrived)
    && (f.phase.Reading? ==> f.done == f.handed)
    && (f.phase.Writing? ==> f.handed == f.done + f.phase.chunk && |f.phase.chunk| <= PROXY_BUF_SIZE)
  }

  /** Each stream has been closed once if the pump is closed and not at all before. */
  ghost predicate Safe(st: State)
  {
    && FlowOk(st.up, st.closed) && FlowOk(st.down, st.closed)
    && st.nodeCloses == st.socksCloses == if st.closed then 1 else 0
  }

  lemma SafeStep(st: State, e: Event)
    requires Safe(st) && Possible(st, e)
    ensures Safe(Step(st, e))
    ensures st.closed ==> var st' := Step(st, e);
                          && st'.closed && st'.started == st.started
                          && st'.up.handed == st.up.handed && st'.down.handed == st.down.handed
    ensures forall d :: d != e.d ==> Step(st, e).Get(d) == st.Get(d)
  {
  }

  ghost predicate Reaches(st: State, events: seq<Event>, st': State)
    decreases |events|
  {
    if events == [] then st' == st else Possible(st, events[0]) && Reaches(Step(st, events[0]), events[1..], st')
  }

  /** In every run and in both directions the bytes handed to write are a prefix of the bytes read from
      the other side, all of them while the pump is open, and ahead of the confirmed ones by at most
      the one pending chunk; the streams are closed once. */
  lemma {:induction false} PumpSafety(st: State, events: seq<Event>, st': State)
    requires Safe(st) && Reaches(st, events, st')
    ensures Safe(st') && Safe(Start())
    decreases |events|
  {
    if events == [] {
    } else {
      SafeStep(st, events[0]);
      PumpSafety(Step(st, events[0]), events[1..], st');
    }
  }

  /** Once closed, no operation starts and nothing more is handed on. */
  lemma {:induction false} NothingStartsAfterClose(st: State, events: seq<Event>, st': State)
    requires Safe(st) && st.closed && Reaches(st, events, st')
    ensures st'.closed && st'.started == st.started && st'.up.handed == st.up.handed && st'.down.handed == st.down.handed
    ensures st'.nodeCloses == 1 && st'.socksCloses == 1
    decreases |events|
  {
    if events == [] {
    } else {
      SafeStep(st, events[0]);
      NothingStartsAfterClose(Step(st, events[0]), events[1..], st');
    }
  }

  /** The end of a stream, and a write that fails. */
  predicate Ending(e: Event) { e.ReadEnd? || (e.WriteDone? && e.failed) }

  /** In every run the pump is closed, and both streams with it, exactly when a stream has ended or a write
      has failed. */
  lemma {:induction false} ClosedExactlyWhen(st: State, events: seq<Event>, st': State)
    requires Safe(st) && Reaches(st, events, st')
    ensures st'.closed <==> st.closed || exists e :: e in events && Ending(e)
    ensures st'.nodeCloses == st'.socksCloses == if st'.closed then 1 else 0
    decreases |events|
  {
    if events == [] {
    } else {
      var e, next := events[0], Step(st, events[0]);
      SafeStep(st, e);
      ClosedExactlyWhen(next, events[1..], st');
      assert next.closed <==> st.closed || Ending(e);
      assert forall x :: x in events <==> x == e || x in events[1..];
    }
  }

  /** The data that the source of one direction has answered, in order. */
  function Fetched(events: seq<Event>, d: Direction): seq<byte>
  {
    if events == [] then []
    else (if events[0].ReadDone? && events[0].d == d then events[0].data else []) + Fetched(events[1..], d)
  }

  /** The bytes counted as read are those that the source answered; so while the pump is open exactly
      these have been given to the other side, and after it is closed a prefix of them. */
  lemma HandedIsFetched(events: seq<Event>, st: State, d: Direction)
    requires Reaches(Start(), events, st)
    ensures st.Get(d).arrived == Fetched(events, d) && st.Get(d).handed <= Fetched(events, d)
    ensures !st.closed ==> st.Get(d).handed == Fetched(events, d)
  {
    PumpSafety(Start(), events, st);
    ArrivedIsFetched(Start(), events, st, d);
  }

  lemma Associates(a: seq<byte>, b: seq<byte>, c: seq<byte>)
    ensures (a + b) + c == a + (b + c)
  {
  }

  lemma StepFetches(st: State, e: Event, d: Direction)
    requires Possible(st, e)
    ensures Step(st, e).Get(d).arrived == st.Get(d).arrived + if e.ReadDone? && e.d == d then e.data else []
  {
  }

  lemma {:induction false} ArrivedIsFetched(st: State, events: seq<Event>, st': State, d: Direction)
    requires Reaches(st, events, st')
    ensures st'.Get(d).arrived == st.Get(d).arrived + Fetched(events, d)
    decreases |events|
  {
    if events == [] {
    } else {
      var e, rest := events[0], events[1..];
      var data := if e.ReadDone? && e.d == d then e.data else [];
      StepFetches(st, e, d);
      ArrivedIsFetched(Step(st, e), rest, st', d);
      Associates(st.Get(d).arrived, data, Fetched(rest, d));
    }
  }

  // ---------------------------------------------------------------- the object

  class ProxyShuffler {
    const socksReadBuffer: array<byte>
    const nodeReadBuffer: array<byte>
    var closed: bool
    var upPhase: Phase
    var downPhase: Phase
    var nodeCloses: nat
    var socksCloses: nat
    var started: nat
    ghost var upFlow: Flow
    ghost var downFlow: Flow

    /** The chunk that a pending write was given is still in the buffer it points to. */
    ghost predicate Valid()
      reads this, socksReadBuffer, nodeReadBuffer
    {
      && socksReadBuffer != nodeReadBuffer
      && socksReadBuffer.Length == PROXY_BUF_SIZE && nodeReadBuffer.Length == PROXY_BUF_SIZE
      && upFlow.phase == upPhase && downFlow.phase == downPhase
      && Holds(socksReadBuffer, upPhase) && Holds(nodeReadBuffer, downPhase)
    }

    static ghost predicate Holds(buffer: array<byte>, phase: Phase)
      reads buffer
    {
      phase.Writing? ==> |phase.chunk| <= buffer.Length && buffer[..|phase.chunk|] == phase.chunk
    }

    ghost function Abs(): State
      reads this
    {
      State(upFlow, downFlow, closed, nodeCloses, socksCloses, started)
    }

    function Buffer(d: Direction): array<byte> { if d == Up then socksReadBuffer else nodeReadBuffer }

    constructor ()
      ensures Valid() && fresh(socksReadBuffer) && fresh(nodeReadBuffer)
      ensures Abs() == Start().(up := Flow(Stopped, [], [], []), down := Flow(Stopped, [], [], []), started := 0)
    {
      socksReadBuffer, nodeReadBuffer := new byte[PROXY_BUF_SIZE], new byte[PROXY_BUF_SIZE];
      closed, nodeCloses, socksCloses, started := false, 0, 0, 0;
      upPhase, downPhase := Stopped, Stopped;
      upFlow, downFlow := Flow(Stopped, [], [], []), Flow(Stopped, [], [], []);
    }

    method Begin(d: Direction, phase: Phase)
      modifies this`upPhase, this`downPhase, this`started, this`upFlow, this`downFlow
      ensures started == old(started) + if phase.Stopped? then 0 else 1
      ensures d == Up ==> upPhase == phase && downPhase == old(downPhase) && upFlow == old(upFlow).(phase := phase) && downFlow == old(downFlow)
      ensures d == Down ==> downPhase == phase && upPhase == old(upPhase) && downFlow == old(downFlow).(phase := phase) && upFlow == old(upFlow)
    {
      if d == Up {
        upPhase, upFlow := phase, upFlow.(phase := phase);
      } else {
        downPhase, downFlow := phase, downFlow.(phase := phase);
      }
      if phase != Stopped {
        started := started + 1;
      }
    }

    method Shuffle()
      requires Valid() && Abs() == Start().(up := Flow(Stopped, [], [], []), down := Flow(Stopped, [], [], []), started := 0)
      modifies this
      ensures Valid() && Abs() == Start()
    {
      Begin(Up, Reading);
      Begin(Down, Reading);
    }

    /** transferred is |buf|, or -1 for the end of the stream, when buf says nothing. */
    method ReadComplete(d: Direction, buf: seq<byte>, transferred: int)
      requires Valid() && Abs().Get(d).phase.Reading?
      requires transferred == -1 || (transferred == |buf| && transferred <= PROXY_BUF_SIZE)
      modifies this, socksReadBuffer, nodeReadBuffer
      ensures Valid()
      ensures Abs() == Step(old(Abs()), if transferred == -1 then ReadEnd(d) else ReadDone(d, buf))
      ensures forall e :: e != d ==> Buffer(e)[..] == old(Buffer(e)[..])
    {
      Begin(d, Stopped);
      if transferred != -1 {
        NoteArrived(d, buf);
      }
      if closed {
        return;
      }
      if transferred == -1 {
        Close();
        return;
      }
      var thisBuffer := Buffer(d);
      forall i | 0 <= i < |buf| {
        thisBuffer[i] := buf[i];
      }
      assert thisBuffer[..|buf|] == buf;
      NoteHanded(d, buf);
      Begin(d, Writing(thisBuffer[..transferred]));
    }

    method WriteComplete(d: Direction, err: bool)
      requires Valid() && Abs().Get(d).phase.Writing?
      modifies this
      ensures Valid() && Abs() == Step(old(Abs()), WriteDone(d, err))
      ensures forall e :: Buffer(e)[..] == old(Buffer(e)[..])
    {
      if !err {
        NoteDone(d);
      }
      Begin(d, Stopped);
      if closed {
        return;
      }
      if err {
        Close();
        return;
      }
      Begin(d, Reading);
    }

    method Close()
      modifies this`closed, this`nodeCloses, this`socksCloses
      ensures Abs() == old(Abs()).CloseOnce()
    {
      if !closed {
        nodeCloses := nodeCloses + 1;
        socksCloses := socksCloses + 1;
        closed := true;
      }
    }

    ghost method NoteArrived(d: Direction, data: seq<byte>)
      modifies this`upFlow, this`downFlow
      ensures Abs() == var st := old(Abs()); st.Set(d, st.Get(d).(arrived := st.Get(d).arrived + data))
    {
      if d == Up {
        upFlow := upFlow.(arrived := upFlow.arrived + data);
      } else {
        downFlow := downFlow.(arrived := downFlow.arrived + data);
      }
    }

    ghost method NoteHanded(d: Direction, data: seq<byte>)
      modifies this`upFlow, this`downFlow
      ensures Abs() == var st := old(Abs()); st.Set(d, st.Get(d).(handed := st.Get(d).handed + data))
    {
      if d == Up {
        upFlow := upFlow.(handed := upFlow.handed + data);
      } else {
        downFlow := downFlow.(handed := downFlow.handed + data);
      }
    }

    ghost method NoteDone(d: Direction)
      requires Abs().Get(d).phase.Writing?
      modifies this`upFlow, this`downFlow
      ensures Abs() == var st := old(Abs()); st.Set(d, st.Get(d).(done := st.Get(d).done + st.Get(d).phase.chunk))
    {
      if d == Up {
        upFlow := upFlow.(done := upFlow.done + upFlow.phase.chunk);
      } else {
        downFlow := downFlow.(done := downFlow.done + downFlow.phase.chunk);
      }
    }
  }
}
