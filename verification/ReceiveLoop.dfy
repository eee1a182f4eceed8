/** protocol/Connection.cpp (readFully, readCell) and protocol/CellConsumer.cpp: cutting the TLS byte
    stream into 512-byte cells, and the loop that reads one cell after another. */
module ReceiveLoop {
  import opened Bytes
  import opened Cells

  /** What one SSL_read offers: up to n bytes, or a reason to stop for now or for good. */
  datatype SslRead = Count(n: nat) | WantRead | WantWrite | Fatal

  datatype Outcome = Complete | Suspended | Failed

  function Min(a: nat, b: nat): nat { if a < b then a else b }

  /** How many of the len wanted bytes one activation of readFully gets, with avail bytes there to be
      read and SSL_read answering as in the schedule, and how the activation ends. When nothing is
      there SSL_read asks for more input. */
  function Drain(avail: nat, len: nat, schedule: seq<SslRead>): (r: (nat, Outcome))
    ensures r.0 <= len && r.0 <= avail
    decreases |schedule|
  {
    if len == 0 then (0, Complete)
    else if schedule == [] then (0, Suspended)
    else match schedule[0]
      case WantRead => (0, Suspended)
      case WantWrite => (0, Suspended)
      case Fatal => (0, Failed)
      case Count(n) =>
        var k := Min(n, Min(len, avail));
        if k == 0 then (0, Suspended)
        else
          var rest := Drain(avail - k, len - k, schedule[1..]);
          (k + rest.0, rest.1)
  }

  lemma {:induction false} DrainFacts(avail: nat, len: nat, schedule: seq<SslRead>)
    ensures Drain(avail, len, schedule).1 == Complete <==> Drain(avail, len, schedule).0 == len
    ensures Drain(avail, len, schedule).1 == Failed ==> Fatal in schedule
    decreases |schedule|
  {
    if len == 0 || schedule == [] || !schedule[0].Count? {
    } else {
      var k := Min(schedule[0].n, Min(len, avail));
      if k > 0 {
        DrainFacts(avail - k, len - k, schedule[1..]);
      }
    }
  }

  /** With enough bytes there, any fragmentation into nonempty pieces completes the read. */
  lemma {:induction false} DrainCompletes(avail: nat, len: nat, schedule: seq<SslRead>)
    requires len <= avail && len <= |schedule|
    requires forall r :: r in schedule ==> r.Count? && r.n > 0
    ensures Drain(avail, len, schedule) == (len, Complete)
    decreases |schedule|
  {
    if len == 0 {
    } else {
      assert schedule[0] in schedule;
      var k := Min(schedule[0].n, Min(len, avail));
      DrainCompletes(avail - k, len - k, schedule[1..]);
    }
  }

  /** After got bytes the activation goes on as one that starts here. */
  ghost predicate Rest(total: (nat, Outcome), got: nat, avail: nat, len: nat, left: seq<SslRead>)
  {
    total == (got + Drain(avail, len, left).0, Drain(avail, len, left).1)
  }

  lemma RestOneMore(total: (nat, Outcome), got: nat, avail: nat, len: nat, left: seq<SslRead>, count: nat)
    requires left != [] && left[0].Count? && len > 0 && count == Min(left[0].n, Min(len, avail)) && count > 0
    requires Rest(total, got, avail, len, left)
    ensures Rest(total, got + count, avail - count, len - count, left[1..])
  {
  }

  lemma RestStops(total: (nat, Outcome), got: nat, avail: nat, len: nat, left: seq<SslRead>)
    requires len == 0 || left == [] || !left[0].Count? || Min(left[0].n, Min(len, avail)) == 0
    requires Rest(total, got, avail, len, left)
    ensures total == (got, if len == 0 then Complete else if left != [] && left[0].Fatal? then Failed else Suspended)
  {
  }

  // ---------------------------------------------------------------- the loop as a state machine

  datatype Post = Cell512(bytes: CellBytes) | ReadFailed

  /** pending: the bytes a suspended read has so far; posted: a finished read whose handler is queued
      on the io_service. handled and errors are the calls the listener has seen; started and posts count
      readCell calls and posted handlers. */
  datatype State = State(arrived: seq<byte>, consumed: nat, pending: Option<seq<byte>>, posted: Option<Post>,
                         closed: bool, handled: seq<CellBytes>, errors: nat, started: nat, posts: nat)

  datatype Op =
    | Arrive(bytes: seq<byte>)
    | Consume(schedule: seq<SslRead>)
    | Resume(failed: bool, schedule: seq<SslRead>)
    | RunPosted(closes: bool, schedule: seq<SslRead>)
    | Close

  predicate Sane(st: State)
  {
    st.consumed <= |st.arrived| && (st.pending.Some? ==> |st.pending.value| <= CELL_SIZE)
  }

  function Continue(st: State, partial: seq<byte>, schedule: seq<SslRead>): State
    requires Sane(st) && |partial| <= CELL_SIZE
  {
    var (t, outcome) := Drain(|st.arrived| - st.consumed, CELL_SIZE - |partial|, schedule);
    DrainFacts(|st.arrived| - st.consumed, CELL_SIZE - |partial|, schedule);
    var got := partial + st.arrived[st.consumed..st.consumed + t];
    var st' := st.(consumed := st.consumed + t);
    match outcome
    case Complete => st'.(pending := None, posted := Some(Cell512(got)), posts := st.posts + 1)
    case Suspended => st'.(pending := Some(got))
    case Failed => st'.(pending := None, posted := Some(ReadFailed), posts := st.posts + 1)
  }

  /** CellConsumer::consume */
  function Start(st: State, schedule: seq<SslRead>): State
    requires Sane(st)
  {
    if st.closed then st else Continue(st.(started := st.started + 1), [], schedule)
  }

  function Step(st: State, op: Op): State
    requires Sane(st)
  {
    match op
    case Arrive(bytes) => st.(arrived := st.arrived + bytes)
    case Consume(schedule) => Start(st, schedule)
    case Resume(failed, schedule) =>
      if st.pending.None? then st
      else if failed then st.(pending := None, posted := Some(ReadFailed), posts := st.posts + 1)
      else Continue(st, st.pending.value, schedule)
    case RunPosted(closes, schedule) =>
      if st.posted.None? then st
      else
        var st' := st.(posted := None);
        if st.closed then st'
        else if st.posted.value.ReadFailed? then st'.(errors := st.errors + 1)
        else Start(st'.(handled := st.handled + [st.posted.value.bytes], closed := closes), schedule)
    case Close => st.(closed := true)
  }

  const Idle: State := State([], 0, None, None, false, [], 0, 0, 0)

  // ---------------------------------------------------------------- every run

  /** The circuit calls consume once, when the connection is up; after that the loop keeps itself going. */
  predicate NoConsume(ops: seq<Op>) { forall op :: op in ops ==> !op.Consume? }

  function Run(st: State, ops: seq<Op>): State
    requires Framed(st) && NoConsume(ops)
    decreases |ops|
  {
    if ops == [] then st else FramedStep(st, ops[0]); Run(Step(st, ops[0]), ops[1..])
  }

  predicate CutEvery512(arrived: seq<byte>, handled: seq<CellBytes>)
  {
    && CELL_SIZE * |handled| <= |arrived|
    && forall k :: 0 <= k < |handled| ==> handled[k] == arrived[CELL_SIZE * k..CELL_SIZE * (k + 1)]
  }

  /** The k-th cell handled is bytes 512 k to 512 (k + 1) of the stream; a suspended read holds the
      beginning of the next cell and a posted one all of it. Every read has led to exactly one post
      unless it is the suspended one; while the loop is open every post has led to one call of the
      listener unless it is still queued, and exactly one of three holds: a read is suspended, a
      post is queued, or the loop has ended with an error. */
  predicate Framed(st: State)
  {
    var from := CELL_SIZE * |st.handled|;
    && Sane(st) && CutEvery512(st.arrived, st.handled)
    && (st.pending.Some? ==>
          && st.posted.None? && st.consumed == from + |st.pending.value|
          && st.pending.value == st.arrived[from..st.consumed])
    && (st.posted.Some? && st.posted.value.Cell512? ==>
          st.consumed == from + CELL_SIZE && st.posted.value.bytes == st.arrived[from..st.consumed])
    && st.started == st.posts + (if st.pending.Some? then 1 else 0)
    && st.posts >= |st.handled| + st.errors + (if st.posted.Some? then 1 else 0)
    && (!st.closed ==>
          && st.posts == |st.handled| + st.errors + (if st.posted.Some? then 1 else 0)
          && (if st.pending.Some? then 1 else 0) + (if st.posted.Some? then 1 else 0) + st.errors == 1)
  }

  /** A read that has its first bytes, about to go on. */
  predicate Reading(st: State, partial: seq<byte>)
  {
    var from := CELL_SIZE * |st.handled|;
    && Sane(st) && CutEvery512(st.arrived, st.handled) && st.posted.None? && |partial| <= CELL_SIZE
    && st.consumed == from + |partial| && partial == st.arrived[from..st.consumed]
    && st.started == st.posts + 1 && st.posts >= |st.handled| + st.errors
    && (!st.closed ==> st.posts == |st.handled| && st.errors == 0)
  }

  lemma {:induction false} ContinueFramed(st: State, partial: seq<byte>, schedule: seq<SslRead>)
    requires Reading(st, partial)
    ensures Framed(Continue(st, partial, schedule))
  {
    var n := |st.arrived| - st.consumed;
    DrainFacts(n, CELL_SIZE - |partial|, schedule);
    var t := Drain(n, CELL_SIZE - |partial|, schedule).0;
    var from := CELL_SIZE * |st.handled|;
    var st' := Continue(st, partial, schedule);
    assert st'.arrived == st.arrived && st'.handled == st.handled && st'.consumed == st.consumed + t;
    SliceJoin(st.arrived, from, st.consumed, st.consumed + t);
  }

  lemma SliceJoin(s: seq<byte>, i: nat, j: nat, k: nat)
    requires i <= j <= k <= |s|
    ensures s[i..j] + s[j..k] == s[i..k]
  {
  }

  lemma ArriveFramed(st: State, bytes: seq<byte>)
    requires Framed(st)
    ensures Framed(Step(st, Arrive(bytes)))
  {
  }

  lemma HandledOneMore(arrived: seq<byte>, handled: seq<CellBytes>, cell: CellBytes)
    requires CutEvery512(arrived, handled) && CELL_SIZE * (|handled| + 1) <= |arrived|
    requires cell == arrived[CELL_SIZE * |handled|..CELL_SIZE * (|handled| + 1)]
    ensures CutEvery512(arrived, handled + [cell])
  {
  }

  lemma HandleFramed(st: State, closes: bool, schedule: seq<SslRead>)
    requires Framed(st) && st.posted.Some? && st.posted.value.Cell512? && !st.closed
    ensures Framed(Step(st, RunPosted(closes, schedule)))
  {
    var st' := st.(posted := None, handled := st.handled + [st.posted.value.bytes], closed := closes);
    HandledOneMore(st.arrived, st.handled, st.posted.value.bytes);
    var next := Step(st, RunPosted(closes, schedule));
    if closes {
      assert next == st';
    } else {
      var begun := st'.(started := st.started + 1);
      assert Reading(begun, []);
      ContinueFramed(begun, [], schedule);
      assert next == Continue(begun, [], schedule);
    }
  }

  lemma FramedStep(st: State, op: Op)
    requires Framed(st) && !op.Consume?
    ensures Framed(Step(st, op))
  {
    match op
    case Arrive(bytes) => ArriveFramed(st, bytes);
    case Resume(failed, schedule) =>
      if st.pending.Some? && !failed {
        ContinueFramed(st, st.pending.value, schedule);
      }
    case RunPosted(closes, schedule) =>
      if st.posted.Some? && !st.closed && st.posted.value.Cell512? {
        HandleFramed(st, closes, schedule);
      }
    case Close =>
  }

  /** However the stream is split into partial reads and suspensions, what has been handled is the
      stream cut every 512 bytes, no read and no post is lost or doubled, and at most one read is
      outstanding. */
  lemma FramingIndependentOfFragmentation(schedule: seq<SslRead>, ops: seq<Op>)
    requires NoConsume(ops)
    ensures Framed(LinkAfter(schedule, ops))
  {
    ConsumeFramed(schedule);
    RunFramed(Step(Idle, Consume(schedule)), ops);
  }

  lemma ConsumeFramed(schedule: seq<SslRead>)
    ensures Framed(Step(Idle, Consume(schedule)))
  {
    ContinueFramed(Idle.(started := 1), [], schedule);
  }

  /** The connection has come up and consume has been called; then these operations. */
  function LinkAfter(schedule: seq<SslRead>, ops: seq<Op>): State
    requires NoConsume(ops)
  {
    ConsumeFramed(schedule);
    Run(Step(Idle, Consume(schedule)), ops)
  }

  lemma {:induction false} RunFramed(st: State, ops: seq<Op>)
    requires Framed(st) && NoConsume(ops)
    ensures Framed(Run(st, ops))
    decreases |ops|
  {
    if ops == [] {
    } else {
      FramedStep(st, ops[0]);
      RunFramed(Step(st, ops[0]), ops[1..]);
    }
  }

  /** After close the listener is never called again. */
  lemma {:induction false} SilentAfterClose(st: State, ops: seq<Op>)
    requires Framed(st) && NoConsume(ops) && st.closed
    ensures var st' := Run(st, ops); st'.closed && st'.handled == st.handled && st'.errors == st.errors
    decreases |ops|
  {
    if ops == [] {
    } else {
      FramedStep(st, ops[0]);
      SilentAfterClose(Step(st, ops[0]), ops[1..]);
    }
  }

  /** The loop has ended with an error, of which the listener knows. */
  predicate Ended(st: State) { st.errors == 1 && st.pending.None? && st.posted.None? }

  /** A connection lost while a read is suspended is reported to the listener when the posted handler runs,
      whatever arrives in between, and ends the loop. */
  lemma LossIsReported(st: State, schedule: seq<SslRead>, bytes: seq<byte>, closes: bool, more: seq<SslRead>)
    requires Framed(st) && !st.closed && st.pending.Some?
    ensures var lost := Step(st, Resume(true, schedule));
            var st' := Step(Step(lost, Arrive(bytes)), RunPosted(closes, more));
            lost.posted == Some(ReadFailed) && Ended(st') && st'.handled == st.handled
  {
  }

  /** A fatal answer of SSL_read is reported in the same way. */
  lemma FatalIsReported(st: State, bytes: seq<byte>, closes: bool, more: seq<SslRead>)
    requires Framed(st) && !st.closed && st.pending.Some? && |st.pending.value| < CELL_SIZE
    ensures var lost := Step(st, Resume(false, [Fatal]));
            var st' := Step(Step(lost, Arrive(bytes)), RunPosted(closes, more));
            lost.posted == Some(ReadFailed) && Ended(st') && st'.handled == st.handled
  {
  }

  /** After that nothing more is handled or reported. */
  lemma {:induction false} SilentAfterError(st: State, ops: seq<Op>)
    requires Framed(st) && NoConsume(ops) && Ended(st)
    ensures Ended(Run(st, ops)) && Run(st, ops).handled == st.handled
    decreases |ops|
  {
    if ops == [] {
    } else {
      FramedStep(st, ops[0]);
      SilentAfterError(Step(st, ops[0]), ops[1..]);
    }
  }

  // ---------------------------------------------------------------- the objects

  /** A read in progress: where the next byte goes, how many are missing, and the cell whose handler
      is bound to it. */
  datatype Wait = Wait(buf: array<byte>, off: nat, len: nat, cell: Cell)

  datatype Posted = Posted(cell: Cell, failed: bool)

  class Connection {
    var arrived: seq<byte>
    var consumed: nat
    var waiting: Option<Wait>
    var posted: seq<Posted>
    var started: nat

    constructor ()
      ensures arrived == [] && consumed == 0 && waiting == None && posted == [] && started == 0
    {
      arrived, consumed, waiting, posted, started := [], 0, None, [], 0;
    }

    /** The connection after an activation of readFully that started at stream position from and got
        r.0 of the len bytes. */
    predicate ReadTo(from: nat, before: seq<Posted>, buf: array<byte>, off: nat, len: nat, cell: Cell, r: (nat, Outcome))
      reads this
    {
      && r.0 <= len && consumed == from + r.0 <= |arrived|
      && waiting == (if r.1 == Suspended then Some(Wait(buf, off + r.0, len - r.0, cell)) else None)
      && posted == before + (if r.1 == Suspended then [] else [Posted(cell, r.1 == Failed)])
    }

    method ReadFully(buf: array<byte>, off: nat, len: nat, cell: Cell, err: bool, schedule: seq<SslRead>)
      requires consumed <= |arrived| && off + len <= buf.Length
      modifies this`consumed, this`waiting, this`posted, buf
      ensures err ==> && posted == old(posted) + [Posted(cell, true)] && waiting == None
                      && consumed == old(consumed) && buf[..] == old(buf[..])
      ensures !err ==> ReadTo(old(consumed), old(posted), buf, off, len, cell, Drain(|arrived| - old(consumed), len, schedule))
      ensures !err ==> buf[..] == Splice(old(buf[..]), off, arrived[old(consumed)..consumed])
    {
      waiting := None;
      if err {
        posted := posted + [Posted(cell, true)];
        return;
      }
      var count, outcome := ReadAvailable(buf, off, len, schedule);
      match outcome {
        case Complete => posted := posted + [Posted(cell, false)];
        case Suspended => waiting := Some(Wait(buf, off + count, len - count, cell));
        case Failed => posted := posted + [Posted(cell, true)];
      }
    }

    /** The loop of readFully, up to the point where it leaves it. */
    method ReadAvailable(buf: array<byte>, off: nat, len: nat, schedule: seq<SslRead>) returns (got: nat, outcome: Outcome)
      requires consumed <= |arrived| && off + len <= buf.Length
      modifies this`consumed, buf
      ensures (got, outcome) == Drain(|arrived| - old(consumed), len, schedule)
      ensures consumed == old(consumed) + got
      ensures buf[..] == Splice(old(buf[..]), off, arrived[old(consumed)..old(consumed) + got])
    {
      var o, l, left := off, len, schedule;
      ghost var from, before, avail: nat := consumed, buf[..], |arrived| - consumed;
      ghost var total := Drain(avail, len, schedule);
      got := 0;
      while l > 0
        invariant got + l == len && o == off + got && avail + consumed == |arrived|
        invariant consumed == from + got
        invariant buf[..] == Splice(before, off, arrived[from..consumed])
        invariant Rest(total, got, avail, l, left)
        decreases l
      {
        if left == [] || !left[0].Count? {
          break;
        }
        var count := Min(left[0].n, Min(l, |arrived| - consumed));
        if count == 0 {
          break;
        }
        RestOneMore(total, got, avail, l, left, count);
        ghost var was, mid := buf[..], consumed;
        StoreRead(buf, o, count);
        SpliceTwice(before, off, arrived, from, mid, consumed, o, was, buf[..]);
        l, o, got, left, avail := l - count, o + count, got + count, left[1..], avail - count;
      }
      RestStops(total, got, avail, l, left);
      outcome := if l == 0 then Complete else if left != [] && left[0].Fatal? then Failed else Suspended;
    }

    /** SSL_read handing out its next bytes. */
    method StoreRead(buf: array<byte>, o: nat, count: nat)
      requires consumed + count <= |arrived| && o + count <= buf.Length
      modifies this`consumed, buf
      ensures consumed == old(consumed) + count
      ensures buf[..] == Splice(old(buf[..]), o, arrived[old(consumed)..consumed])
    {
      forall i | 0 <= i < count {
        buf[o + i] := arrived[consumed + i];
      }
      consumed := consumed + count;
    }

    method ReadCell(cell: Cell, schedule: seq<SslRead>)
      requires consumed <= |arrived| && cell.Valid()
      modifies this`consumed, this`waiting, this`posted, this`started, cell.buffer
      ensures started == old(started) + 1
      ensures ReadTo(old(consumed), old(posted), cell.buffer, 0, CELL_SIZE, cell, Drain(|arrived| - old(consumed), CELL_SIZE, schedule))
      ensures cell.buffer[..consumed - old(consumed)] == arrived[old(consumed)..consumed]
    {
      started := started + 1;
      ReadFully(cell.buffer, 0, CELL_SIZE, cell, false, schedule);
    }
  }

  lemma SpliceTwice(s: seq<byte>, off: nat, arrived: seq<byte>, from: nat, mid: nat, to: nat, o: nat, was: seq<byte>, now: seq<byte>)
    requires from <= mid <= to <= |arrived| && o == off + (mid - from) && o + (to - mid) <= |s|
    requires was == Splice(s, off, arrived[from..mid])
    requires now == Splice(was, o, arrived[mid..to])
    ensures now == Splice(s, off, arrived[from..to])
  {
  }

  lemma SplicePrefix(s: seq<byte>, off: nat, v: seq<byte>)
    requires off + |v| <= |s|
    ensures Splice(s, off, v)[..off + |v|] == s[..off] + v
  {
  }

  class CellConsumer {
    const connection: Connection
    var closed: bool
    var handled: seq<CellBytes>
    var errors: nat
    ghost var posts: nat
    ghost var held: set<object>  // the cell being read or posted, and its buffer

    /** At most one read is outstanding, and its cell belongs to nobody else. */
    ghost predicate Valid()
      reads this, connection, held
    {
      && this !in held && connection !in held
      && connection.consumed <= |connection.arrived|
      && |connection.posted| + (if connection.waiting.Some? then 1 else 0) <= 1
      && (connection.waiting.Some? ==>
            var wt := connection.waiting.value;
            && wt.cell in held && wt.buf in held && wt.cell.Valid()
            && wt.buf == wt.cell.buffer && wt.off + wt.len == CELL_SIZE)
      && (connection.posted != [] ==>
            var cell := connection.posted[0].cell;
            cell in held && cell.buffer in held && cell.Valid())
    }

    ghost function Pending(): Option<seq<byte>>
      requires Valid()
      reads this, connection, held
    {
      if connection.waiting.Some? then Some(connection.waiting.value.buf[..connection.waiting.value.off]) else None
    }

    ghost function PostedCell(): Option<Post>
      requires Valid()
      reads this, connection, held
    {
      if connection.posted == [] then None
      else if connection.posted[0].failed then Some(ReadFailed)
      else Some(Cell512(connection.posted[0].cell.Bytes()))
    }

    ghost function Abs(): State
      requires Valid()
      reads this, connection, held
    {
      State(connection.arrived, connection.consumed, Pending(), PostedCell(), closed, handled, errors, connection.started, posts)
    }

    constructor ()
      ensures Valid() && Abs() == Idle && fresh(connection)
    {
      connection := new Connection();
      closed, handled, errors, posts, held := false, [], 0, 0, {};
    }

    method Close()
      requires Valid()
      modifies this
      ensures Valid() && Abs() == old(Abs()).(closed := true)
    {
      closed := true;
    }

    method Consume(schedule: seq<SslRead>)
      requires Valid() && connection.waiting == None && connection.posted == []
      modifies this, connection
      ensures Valid() && Abs() == Start(old(Abs()), schedule)
    {
      if closed {
        return;
      }
      ghost var st := Abs();
      ghost var from, avail := connection.consumed, |connection.arrived| - connection.consumed;
      var cell := new Cell.Blank();
      connection.ReadCell(cell, schedule);
      held := {cell, cell.buffer};
      if connection.waiting.None? {
        posts := posts + 1;
      }
      DrainFacts(avail, CELL_SIZE, schedule);
      assert [] + connection.arrived[from..connection.consumed] == cell.buffer[..connection.consumed - from];
      assert cell.buffer[..CELL_SIZE] == cell.Bytes();
      assert Pending() == Start(st, schedule).pending;
      assert PostedCell() == Start(st, schedule).posted;
    }

    /** The completion of readIntoBuffer or writeFromBuffer: readFully goes on with what it captured. */
    method Resume(failed: bool, schedule: seq<SslRead>)
      requires Valid() && connection.waiting.Some?
      modifies this, connection, held
      ensures Valid() && Abs() == Step(old(Abs()), Op.Resume(failed, schedule))
    {
      var wt := connection.waiting.value;
      ghost var st, before, from := Abs(), wt.buf[..], connection.consumed;
      DrainFacts(|connection.arrived| - from, wt.len, schedule);
      connection.ReadFully(wt.buf, wt.off, wt.len, wt.cell, failed, schedule);
      if connection.waiting.None? {
        posts := posts + 1;
      }
      if !failed {
        ghost var got := connection.arrived[from..connection.consumed];
        SplicePrefix(before, wt.off, got);
        assert wt.buf[..CELL_SIZE] == wt.buf[..] == wt.cell.Bytes();
        assert before[..wt.off] + got == wt.buf[..wt.off + |got|];
        assert Pending() == Continue(st, st.pending.value, schedule).pending;
        assert PostedCell() == Continue(st, st.pending.value, schedule).posted;
      }
    }

    /** The io_service runs the posted handler. closes: the listener closes the circuit when called. */
    method ReadCellComplete(closes: bool, schedule: seq<SslRead>)
      requires Valid() && connection.posted != []
      modifies this, connection
      ensures Valid() && Abs() == Step(old(Abs()), RunPosted(closes, schedule))
    {
      var post := connection.posted[0];
      connection.posted := connection.posted[1..];
      if closed {
        return;
      }
      if post.failed {
        errors := errors + 1;
        return;
      }
      handled := handled + [post.cell.buffer[..]];
      closed := closes;
      Consume(schedule);
    }
  }
}
