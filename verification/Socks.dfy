/** SocksConnection.cpp: the SOCKS5 request exchange of RFC 1928, as the chain of completion handlers
    that getRequest starts. */
module Socks {
  import opened Bytes
  import Decimal

  const BUFFER_SIZE := 512

  /** The operation that the connection has asked the socket for. */
  datatype Pending = Idle | ReadVersion | ReadMethods | WriteMethodResponse | ReadRequest
                   | ReadDomainHeader | ReadDomain | ReadIPv4 | Done

  datatype Verdict = Accepted | Denied | SocketError

  /** A call of the request handler. */
  datatype Call = Call(host: seq<byte>, port: uint16, verdict: Verdict)

  /** aborted: the assertion on the request header has failed. */
  datatype State = State(pending: Pending, methodCount: byte, addrLen: byte, host: seq<byte>, port: uint16,
                         calls: seq<Call>, sent: seq<seq<byte>>, aborted: bool)
  {
    predicate Reading() { !aborted && !pending.Idle? && !pending.WriteMethodResponse? && !pending.Done? }

    /** How many bytes async_read has been asked for. */
    function Want(): (n: nat)
      ensures n <= BUFFER_SIZE
    {
      match pending
      case ReadVersion => 2
      case ReadMethods => methodCount as nat
      case ReadRequest => 4
      case ReadDomainHeader => 1
      case ReadDomain => addrLen as nat + 2
      case ReadIPv4 => 6
      case _ => 0
    }

    function Finish(verdict: Verdict): State
    {
      this.(pending := Done, calls := calls + [Call(host, port, verdict)])
    }
  }

  function Dotted(b: seq<byte>): seq<byte>
    requires |b| == 4
  {
    Decimal.Text(b[0] as nat) + [Decimal.DOT] + Decimal.Text(b[1] as nat) + [Decimal.DOT]
    + Decimal.Text(b[2] as nat) + [Decimal.DOT] + Decimal.Text(b[3] as nat)
  }

  /** The pending read has completed with these bytes. */
  function OnRead(s: State, b: seq<byte>): State
    requires s.Reading() && |b| == s.Want()
  {
    match s.pending
    case ReadVersion =>
      var s' := s.(methodCount := b[1]);
      if b[0] != 5 then s'.Finish(Denied) else s'.(pending := ReadMethods)
    case ReadMethods =>
      if 0 in b then s.(sent := s.sent + [[5, 0]], pending := WriteMethodResponse) else s.Finish(Denied)
    case ReadRequest =>
      if b[0] != 5 || b[2] != 0 then s.(aborted := true)
      else if b[1] != 1 then s.Finish(Denied)
      else if b[3] == 1 then s.(pending := ReadIPv4)
      else if b[3] == 3 then s.(pending := ReadDomainHeader)
      else s.Finish(Denied)
    case ReadDomainHeader => s.(addrLen := b[0], pending := ReadDomain)
    case ReadDomain =>
      var n := s.addrLen as nat;
      s.(host := b[..n], port := ReadBE16(b[n..])).Finish(Accepted)
    case ReadIPv4 => s.(host := Dotted(b[..4]), port := ReadBE16(b[4..])).Finish(Accepted)
  }

  /** Stages still to come; every completion lowers it. */
  function Stages(p: Pending): nat
  {
    match p
    case ReadVersion => 6
    case ReadMethods => 5
    case WriteMethodResponse => 4
    case ReadRequest => 3
    case ReadDomainHeader => 2
    case ReadDomain => 1
    case ReadIPv4 => 1
    case _ => 0
  }

  /** Runs the chain on what the client sends, with a socket that does not fail; the result is the
      final state and the number of bytes taken. */
  function Feed(s: State, stream: seq<byte>): (r: (State, nat))
    ensures r.1 <= |stream|
    decreases Stages(s.pending), if s.aborted then 0 else 1
  {
    if s.aborted then (s, 0)
    else if s.pending == WriteMethodResponse then Feed(s.(pending := ReadRequest), stream)
    else if s.Reading() && |stream| >= s.Want() then
      var n := s.Want();
      var rest := Feed(OnRead(s, stream[..n]), stream[n..]);
      (rest.0, n + rest.1)
    else (s, 0)
  }

  function Start(port: uint16): State { State(ReadVersion, 0, 0, [], port, [], [], false) }

  // ---------------------------------------------------------------- what a client sends

  datatype Address = IPv4(ip: seq<byte>) | Domain(name: seq<byte>)

  predicate ValidAddress(a: Address)
  {
    match a
    case IPv4(ip) => |ip| == 4
    case Domain(name) => |name| <= 255
  }

  /** Section 3 of RFC 1928. */
  function Greeting(methods: seq<byte>): seq<byte>
    requires |methods| <= 255
  {
    [5, |methods| as byte] + methods
  }

  /** Sections 4 and 5 of RFC 1928, for the CONNECT command. */
  function Request(a: Address, port: uint16): seq<byte>
    requires ValidAddress(a)
  {
    [5, 1, 0] + (match a case IPv4(ip) => [1] + ip case Domain(name) => [3, |name| as byte] + name) + BE16(port)
  }

  /** What follows the address type: the address and the port. */
  function AddressBytes(a: Address, port: uint16): seq<byte>
    requires ValidAddress(a)
  {
    (match a case IPv4(ip) => ip case Domain(name) => [|name| as byte] + name) + BE16(port)
  }

  lemma RequestParts(a: Address, port: uint16)
    requires ValidAddress(a)
    ensures Request(a, port) == [5, 1, 0, if a.IPv4? then 1 else 3] + AddressBytes(a, port)
  {
  }

  function HostOf(a: Address): seq<byte>
    requires ValidAddress(a)
  {
    match a
    case IPv4(ip) => Dotted(ip)
    case Domain(name) => name
  }

  // ---------------------------------------------------------------- what a host says

  function FirstAt(t: seq<byte>, c: byte): (i: nat)
    ensures i <= |t|
    ensures i < |t| ==> t[i] == c
  {
    if t == [] || t[0] == c then 0 else 1 + FirstAt(t[1..], c)
  }

  /** The parts of a text between the occurrences of c. */
  function Cut(t: seq<byte>, c: byte): (parts: seq<seq<byte>>)
    ensures |parts| > 0
    decreases |t|
  {
    var i := FirstAt(t, c);
    if i == |t| then [t] else [t[..i]] + Cut(t[i + 1..], c)
  }

  /** The numbers between the dots. */
  function Octets(t: seq<byte>): seq<int>
  {
    var parts := Cut(t, Decimal.DOT);
    seq(|parts|, i requires 0 <= i < |parts| => Decimal.Number(parts[i]))
  }

  /** The host says the address: a domain is the client's name, byte for byte; an IPv4 host reads, cut at its
      dots, as the client's four bytes in their order. */
  predicate Names(host: seq<byte>, a: Address)
  {
    match a
    case IPv4(ip) => |ip| == 4 && Octets(host) == [ip[0] as int, ip[1] as int, ip[2] as int, ip[3] as int]
    case Domain(name) => host == name
  }

  lemma {:induction false} FirstAfter(a: seq<byte>, c: byte, rest: seq<byte>)
    requires c !in a && (rest == [] || rest[0] == c)
    ensures FirstAt(a + rest, c) == |a|
  {
    if a == [] {
      assert a + rest == rest;
    } else {
      assert (a + rest)[1..] == a[1..] + rest;
      FirstAfter(a[1..], c, rest);
    }
  }

  lemma CutOne(a: seq<byte>, c: byte, rest: seq<byte>)
    requires c !in a
    ensures Cut(a, c) == [a]
    ensures Cut(a + [c] + rest, c) == [a] + Cut(rest, c)
  {
    FirstAfter(a, c, []);
    FirstAfter(a, c, [c] + rest);
    var t := a + [c] + rest;
    assert a + [] == a && a + ([c] + rest) == t;
    assert t[..|a|] == a && t[|a| + 1..] == rest;
  }

  function Join(parts: seq<seq<byte>>, c: byte): seq<byte>
    requires parts != []
  {
    if |parts| == 1 then parts[0] else parts[0] + [c] + Join(parts[1..], c)
  }

  lemma {:induction false} CutJoin(parts: seq<seq<byte>>, c: byte)
    requires parts != [] && forall p :: p in parts ==> c !in p
    ensures Cut(Join(parts, c), c) == parts
  {
    if |parts| == 1 {
      CutOne(parts[0], c, []);
    } else {
      CutJoin(parts[1..], c);
      CutJoinMore(parts[0], parts[1..], c);
      assert parts == [parts[0]] + parts[1..];
    }
  }

  lemma CutJoinMore(first: seq<byte>, rest: seq<seq<byte>>, c: byte)
    requires c !in first && rest != [] && Cut(Join(rest, c), c) == rest
    ensures Cut(Join([first] + rest, c), c) == [first] + rest
  {
    var joined := Join(rest, c);
    assert ([first] + rest)[1..] == rest;
    assert Join([first] + rest, c) == first + [c] + joined;
    CutOne(first, c, joined);
  }

  lemma JoinFour(w: seq<byte>, x: seq<byte>, y: seq<byte>, z: seq<byte>, c: byte)
    ensures Join([w, x, y, z], c) == w + [c] + x + [c] + y + [c] + z
  {
    assert [w, x, y, z][1..] == [x, y, z] && [x, y, z][1..] == [y, z] && [y, z][1..] == [z];
    assert Join([y, z], c) == y + [c] + Join([z], c);
    assert Join([x, y, z], c) == x + [c] + Join([y, z], c);
    assert w + [c] + (x + [c] + (y + [c] + z)) == w + [c] + x + [c] + y + [c] + z;
  }

  lemma DottedReadsBack(b: seq<byte>)
    requires |b| == 4
    ensures Names(Dotted(b), IPv4(b))
  {
    var dot := Decimal.DOT;
    var w, x, y, z := Decimal.Text(b[0] as nat), Decimal.Text(b[1] as nat), Decimal.Text(b[2] as nat), Decimal.Text(b[3] as nat);
    JoinFour(w, x, y, z, dot);
    CutJoin([w, x, y, z], dot);
    Decimal.NumberOfText(b[0] as nat);
    Decimal.NumberOfText(b[1] as nat);
    Decimal.NumberOfText(b[2] as nat);
    Decimal.NumberOfText(b[3] as nat);
  }

  lemma HostNames(a: Address)
    requires ValidAddress(a)
    ensures Names(HostOf(a), a)
  {
    if a.IPv4? {
      DottedReadsBack(a.ip);
    }
  }

  // ---------------------------------------------------------------- one client

  lemma FeedRead(s: State, b: seq<byte>, tail: seq<byte>)
    requires s.Reading() && |b| == s.Want()
    ensures var rest := Feed(OnRead(s, b), tail); Feed(s, b + tail) == (rest.0, |b| + rest.1)
  {
  }

  lemma FeedDone(s: State, stream: seq<byte>)
    requires s.pending == Done
    ensures Feed(s, stream) == (s, 0)
  {
  }

  lemma FeedAddress(s: State, a: Address, port: uint16, tail: seq<byte>)
    requires !s.aborted && ValidAddress(a)
    requires s.pending == if a.IPv4? then ReadIPv4 else ReadDomainHeader
    ensures var bytes := AddressBytes(a, port);
            var r := Feed(s, bytes + tail);
            && r.1 == |bytes| && r.0.pending == Done && !r.0.aborted && r.0.sent == s.sent
            && r.0.calls == s.calls + [Call(HostOf(a), port, Accepted)]
  {
    BE16RoundTrip(port, []);
    match a
    case IPv4(ip) =>
      var b := ip + BE16(port);
      FeedRead(s, b, tail);
      assert b[..4] == ip && b[4..] == BE16(port);
      FeedDone(OnRead(s, b), tail);
    case Domain(name) =>
      var s1, b := OnRead(s, [|name| as byte]), name + BE16(port);
      FeedRead(s, [|name| as byte], b + tail);
      assert [|name| as byte] + name + BE16(port) + tail == [|name| as byte] + (b + tail);
      FeedRead(s1, b, tail);
      assert b[..|name|] == name && b[|name|..] == BE16(port);
      FeedDone(OnRead(s1, b), tail);
  }

  /** For every greeting that offers method 0 and every CONNECT, the handler is called exactly once,
      with a host that says the client's address and with its port, and exactly the client's bytes are
      taken. */
  lemma ParserInvertsClient(port0: uint16, methods: seq<byte>, a: Address, port: uint16, tail: seq<byte>)
    requires |methods| <= 255 && 0 in methods && ValidAddress(a)
    ensures var r := Feed(Start(port0), Greeting(methods) + Request(a, port) + tail);
            && r.1 == |Greeting(methods)| + |Request(a, port)|
            && |r.0.calls| == 1 && r.0.calls[0] == Call(HostOf(a), port, Accepted) && Names(r.0.calls[0].host, a)
            && r.0.sent == [[5, 0]]
            && r.0.pending == Done && !r.0.aborted
  {
    FeedRequest(port0, methods, a, port, tail);
    HostNames(a);
  }

  lemma {:induction false} FeedRequest(port0: uint16, methods: seq<byte>, a: Address, port: uint16, tail: seq<byte>)
    requires |methods| <= 255 && 0 in methods && ValidAddress(a)
    ensures var r := Feed(Start(port0), Greeting(methods) + Request(a, port) + tail);
            && r.1 == |Greeting(methods)| + |Request(a, port)|
            && r.0.calls == [Call(HostOf(a), port, Accepted)] && r.0.sent == [[5, 0]]
            && r.0.pending == Done && !r.0.aborted
  {
    var after := Request(a, port) + tail;
    assert Greeting(methods) + Request(a, port) + tail == Greeting(methods) + after;
    FeedGreeting(port0, methods, after);
    FeedHeader(Greeted(port0, methods), a, port, tail);
  }

  /** The state that waits for the request. */
  function Greeted(port0: uint16, methods: seq<byte>): State
    requires |methods| <= 255
  {
    Start(port0).(methodCount := |methods| as byte, sent := [[5, 0]], pending := ReadRequest)
  }

  lemma {:induction false} FeedGreeting(port0: uint16, methods: seq<byte>, after: seq<byte>)
    requires |methods| <= 255 && 0 in methods
    ensures var rest := Feed(Greeted(port0, methods), after);
            Feed(Start(port0), Greeting(methods) + after) == (rest.0, |Greeting(methods)| + rest.1)
  {
    var s0, b := Start(port0), [5, |methods| as byte];
    var s1 := s0.(methodCount := |methods| as byte, pending := ReadMethods);
    assert Greeting(methods) + after == b + (methods + after);
    FeedRead(s0, b, methods + after);
    assert OnRead(s0, b) == s1;
    FeedMethods(s1, methods, after);
    assert s1.sent + [[5, 0]] == [[5, 0]];
  }

  lemma FeedMethods(s: State, methods: seq<byte>, after: seq<byte>)
    requires s.pending == ReadMethods && !s.aborted && |methods| == s.methodCount as nat && 0 in methods
    ensures var rest := Feed(s.(sent := s.sent + [[5, 0]], pending := ReadRequest), after);
            Feed(s, methods + after) == (rest.0, |methods| + rest.1)
  {
    FeedRead(s, methods, after);
  }

  lemma FeedHeader(s: State, a: Address, port: uint16, tail: seq<byte>)
    requires s.pending == ReadRequest && !s.aborted && ValidAddress(a)
    ensures var r := Feed(s, Request(a, port) + tail);
            && r.1 == |Request(a, port)| && r.0.pending == Done && !r.0.aborted && r.0.sent == s.sent
            && r.0.calls == s.calls + [Call(HostOf(a), port, Accepted)]
  {
    var bytes := AddressBytes(a, port);
    var header: seq<byte> := [5, 1, 0, if a.IPv4? then 1 else 3];
    RequestParts(a, port);
    assert Request(a, port) + tail == header + (bytes + tail);
    FeedRead(s, header, bytes + tail);
    FeedAddress(OnRead(s, header), a, port, tail);
  }

  // ---------------------------------------------------------------- every client

  /** A chain that has not finished has made no call; one that has, exactly one. */
  lemma {:induction false} CalledAtMostOnce(s: State, stream: seq<byte>)
    requires s.calls == [] && !s.pending.Done?
    ensures var r := Feed(s, stream); if r.0.pending.Done? then |r.0.calls| == 1 else r.0.calls == []
    decreases Stages(s.pending), if s.aborted then 0 else 1
  {
    if s.aborted {
    } else {
      if s.pending == WriteMethodResponse {
        CalledAtMostOnce(s.(pending := ReadRequest), stream);
      } else if s.Reading() && |stream| >= s.Want() {
        var n := s.Want();
        var s' := OnRead(s, stream[..n]);
        if s'.pending.Done? {
          FeedDone(s', stream[n..]);
        } else {
          CalledAtMostOnce(s', stream[n..]);
        }
      }
    }
  }

  /** A completion of whatever operation the socket has in hand. */
  datatype Completion = BytesRead(bytes: seq<byte>) | ResponseWritten | SocketFailed

  /** Completions that do not answer the pending operation do not happen and change nothing. */
  function Complete(s: State, c: Completion): State
  {
    match c
    case BytesRead(b) => if s.Reading() && |b| == s.Want() then OnRead(s, b) else s
    case ResponseWritten => if !s.aborted && s.pending.WriteMethodResponse? then s.(pending := ReadRequest) else s
    case SocketFailed => if !s.aborted && !s.pending.Idle? && !s.pending.Done? then s.Finish(SocketError) else s
  }

  function CompleteAll(s: State, completions: seq<Completion>): State
    decreases |completions|
  {
    if completions == [] then s else CompleteAll(Complete(s, completions[0]), completions[1..])
  }

  /** With failures at any stage as well: at most one call, and exactly one once the chain is done; nothing
      follows it. */
  lemma {:induction false} CalledOnceWhenDone(s: State, completions: seq<Completion>)
    requires |s.calls| == if s.pending.Done? then 1 else 0
    ensures var s' := CompleteAll(s, completions); |s'.calls| == if s'.pending.Done? then 1 else 0
    ensures s.pending.Done? ==> CompleteAll(s, completions) == s
    decreases |completions|
  {
    if completions == [] {
    } else {
      CalledOnceWhenDone(Complete(s, completions[0]), completions[1..]);
    }
  }

  /** Feed is the run in which the socket does not fail. */
  lemma {:induction false} FeedCompletes(s: State, stream: seq<byte>) returns (completions: seq<Completion>)
    ensures CompleteAll(s, completions) == Feed(s, stream).0
    decreases Stages(s.pending), if s.aborted then 0 else 1
  {
    if !s.aborted && s.pending.WriteMethodResponse? {
      var rest := FeedCompletes(s.(pending := ReadRequest), stream);
      completions := [ResponseWritten] + rest;
    } else if s.Reading() && |stream| >= s.Want() {
      var n := s.Want();
      var rest := FeedCompletes(OnRead(s, stream[..n]), stream[n..]);
      completions := [BytesRead(stream[..n])] + rest;
    } else {
      completions := [];
    }
  }

  /** Whatever fails on the way, a request is accepted only if the bytes that were read say so. */
  lemma {:induction false} AcceptedOnlyIfFed(s: State, completions: seq<Completion>) returns (stream: seq<byte>)
    requires s.calls == [] && !s.pending.Done?
    requires var s' := CompleteAll(s, completions); s'.calls != [] && s'.calls[0].verdict == Accepted
    ensures Feed(s, stream).0 == CompleteAll(s, completions)
    decreases |completions|
  {
    if completions == [] {
      stream := [];
    } else {
      var s1, more := Complete(s, completions[0]), completions[1..];
      if s1.pending.Done? {
        CalledOnceWhenDone(s1, more);
        FeedDone(s1, []);
        stream := completions[0].bytes;
        FeedRead(s, stream, []);
        assert stream + [] == stream;
      } else {
        var rest := AcceptedOnlyIfFed(s1, more);
        if s1 == s || !completions[0].BytesRead? {
          stream := rest;
        } else {
          stream := completions[0].bytes + rest;
          FeedRead(s, completions[0].bytes, rest);
        }
      }
    }
  }

  /** A failure before the chain is done is reported, as a failure, and ends it. */
  lemma {:induction false} FailureIsReported(s: State, before: seq<Completion>, after: seq<Completion>)
    requires s.calls == [] && !s.pending.Done? && !s.pending.Idle?
    requires var s' := CompleteAll(s, before); !s'.pending.Done? && !s'.aborted
    ensures var r := CompleteAll(s, before + [SocketFailed] + after);
            |r.calls| == 1 && r.calls[0].verdict == SocketError && r.pending.Done?
    decreases |before|
  {
    var all := before + [SocketFailed] + after;
    CalledOnceWhenDone(s, before);
    if before == [] {
      assert all[0] == SocketFailed && all[1..] == after;
      CalledOnceWhenDone(Complete(s, SocketFailed), after);
    } else {
      var s1 := Complete(s, before[0]);
      assert all[0] == before[0] && all[1..] == before[1..] + [SocketFailed] + after;
      CalledOnceWhenDone(s1, before[1..]);
      FailureIsReported(s1, before[1..], after);
    }
  }

  // ---------------------------------------------------------------- exactly which streams are denied

  /** The greeting is there and offers method 0. */
  predicate Offers(stream: seq<byte>)
  {
    |stream| >= 2 && stream[0] == 5 && |stream| >= 2 + stream[1] as nat && 0 in stream[2..2 + stream[1] as nat]
  }

  /** What follows the greeting, up to the address. */
  predicate HasHeader(stream: seq<byte>) { Offers(stream) && |stream| >= 6 + stream[1] as nat }

  function Header(stream: seq<byte>): seq<byte>
    requires HasHeader(stream)
  {
    var n := 2 + stream[1] as nat;
    stream[n..n + 4]
  }

  /** Another version, no method 0, another command than CONNECT, or another address than IPv4 and domain. */
  predicate Denies(stream: seq<byte>)
  {
    || (|stream| >= 2 && stream[0] != 5)
    || (|stream| >= 2 && |stream| >= 2 + stream[1] as nat && 0 !in stream[2..2 + stream[1] as nat])
    || (HasHeader(stream) && Header(stream)[0] == 5 && Header(stream)[2] == 0
        && (Header(stream)[1] != 1 || (Header(stream)[3] != 1 && Header(stream)[3] != 3)))
  }

  lemma AddressAccepts(s: State, rest: seq<byte>)
    requires !s.aborted && s.calls == [] && (s.pending == ReadIPv4 || s.pending == ReadDomainHeader || s.pending == ReadDomain)
    ensures var r := Feed(s, rest).0; !r.aborted && (r.calls == [] || r.calls[0].verdict == Accepted)
    decreases Stages(s.pending)
  {
    if |rest| >= s.Want() {
      var b, tail := rest[..s.Want()], rest[s.Want()..];
      assert rest == b + tail;
      FeedRead(s, b, tail);
      if s.pending == ReadDomainHeader {
        AddressAccepts(OnRead(s, b), tail);
      } else {
        FeedDone(OnRead(s, b), tail);
      }
    }
  }

  lemma HeaderDecides(s: State, rest: seq<byte>)
    requires !s.aborted && s.calls == [] && s.pending == ReadRequest
    ensures var r := Feed(s, rest).0;
            && (r.aborted <==> |rest| >= 4 && (rest[0] != 5 || rest[2] != 0))
            && (r.calls != [] ==> r.calls[0].verdict != SocketError)
            && (r.calls != [] && r.calls[0].verdict == Denied <==>
                  |rest| >= 4 && rest[0] == 5 && rest[2] == 0 && (rest[1] != 1 || (rest[3] != 1 && rest[3] != 3)))
  {
    if |rest| >= 4 {
      var b, tail := rest[..4], rest[4..];
      assert rest == b + tail;
      FeedRead(s, b, tail);
      var s1 := OnRead(s, b);
      if s1.pending.Done? {
        FeedDone(s1, tail);
      } else if !s1.aborted {
        AddressAccepts(s1, tail);
      }
    }
  }

  lemma MethodsDecide(s: State, rest: seq<byte>)
    requires !s.aborted && s.calls == [] && s.pending == ReadMethods
    ensures var n, r := s.methodCount as nat, Feed(s, rest).0;
            if |rest| < n then r == s
            else if 0 !in rest[..n] then !r.aborted && r.calls != [] && r.calls[0].verdict == Denied
            else r == Feed(OnRead(s, rest[..n]).(pending := ReadRequest), rest[n..]).0
  {
    var n := s.methodCount as nat;
    if |rest| >= n {
      assert rest == rest[..n] + rest[n..];
      FeedRead(s, rest[..n], rest[n..]);
      if 0 !in rest[..n] {
        FeedDone(OnRead(s, rest[..n]), rest[n..]);
      }
    }
  }

  /** Over every stream: denied exactly for those reasons, and the assertions on the request header fail
      exactly when its version is not 5 or its reserved byte not 0. */
  lemma DeniedExactlyWhen(port0: uint16, stream: seq<byte>)
    ensures var r := Feed(Start(port0), stream).0;
            && (r.calls != [] && r.calls[0].verdict == Denied <==> Denies(stream))
            && (r.aborted <==> HasHeader(stream) && (Header(stream)[0] != 5 || Header(stream)[2] != 0))
            && (r.calls != [] ==> r.calls[0].verdict != SocketError)
  {
    var s := Start(port0);
    if |stream| >= 2 {
      var b, tail := stream[..2], stream[2..];
      assert stream == b + tail;
      FeedRead(s, b, tail);
      var s1 := OnRead(s, b);
      if b[0] != 5 {
        FeedDone(s1, tail);
      } else {
        var n := b[1] as nat;
        MethodsDecide(s1, tail);
        if |tail| >= n {
          assert tail[..n] == stream[2..2 + n];
          if 0 in tail[..n] {
            HeaderDecides(OnRead(s1, tail[..n]).(pending := ReadRequest), tail[n..]);
            assert |tail[n..]| >= 4 ==> tail[n..][..4] == Header(stream);
          }
        }
      }
    }
  }

  ghost predicate Accepts(r: (State, nat)) { r.0.calls != [] && r.0.calls[0].verdict == Accepted }

  /** A stream that is accepted starts with the encoding of the request that is reported: nothing else
      is accepted. */
  lemma OnlyRequestsAreAccepted(port0: uint16, stream: seq<byte>)
    requires Accepts(Feed(Start(port0), stream))
    ensures var r := Feed(Start(port0), stream);
            exists methods: seq<byte>, a: Address, port: uint16 ::
              && |methods| <= 255 && 0 in methods && ValidAddress(a)
              && Greeting(methods) + Request(a, port) == stream[..r.1]
              && r.0.calls == [Call(HostOf(a), port, Accepted)] && Names(HostOf(a), a)
  {
    var s := Start(port0);
    var n, tail := AcceptedVersion(s, stream);
    var methods, s', rest := AcceptedMethods(s.(methodCount := n, pending := ReadMethods), tail);
    var a, port := AcceptedRequest(s', rest);
    GreetingThenRequest(stream, n, tail, methods, rest, Request(a, port));
    HostNames(a);
  }

  lemma GreetingThenRequest(stream: seq<byte>, n: byte, tail: seq<byte>, methods: seq<byte>, rest: seq<byte>, request: seq<byte>)
    requires stream == [5, n] + tail && tail == methods + rest && |methods| == n as nat
    requires |request| <= |rest| && rest[..|request|] == request
    ensures Greeting(methods) + request == stream[..2 + |methods| + |request|]
  {
  }

  /** A chain that calls has got the bytes that it waits for. */
  lemma EnoughRead(s: State, stream: seq<byte>) returns (b: seq<byte>, tail: seq<byte>)
    requires s.Reading() && s.calls == [] && Feed(s, stream).0.calls != []
    ensures |b| == s.Want() && stream == b + tail
    ensures Feed(s, stream) == (Feed(OnRead(s, b), tail).0, |b| + Feed(OnRead(s, b), tail).1)
  {
    assert |stream| >= s.Want();
    b, tail := stream[..s.Want()], stream[s.Want()..];
    assert stream == b + tail;
    FeedRead(s, b, tail);
  }

  lemma AcceptedVersion(s: State, stream: seq<byte>) returns (n: byte, tail: seq<byte>)
    requires !s.aborted && s.calls == [] && s.pending == ReadVersion && Accepts(Feed(s, stream))
    ensures stream == [5, n] + tail
    ensures var rest := Feed(s.(methodCount := n, pending := ReadMethods), tail);
            Feed(s, stream) == (rest.0, 2 + rest.1) && Accepts(rest)
  {
    var b;
    b, tail := EnoughRead(s, stream);
    n := b[1];
    if b[0] != 5 {
      FeedDone(OnRead(s, b), tail);
      assert false;
    }
    assert b == [5, n];
  }

  lemma AcceptedMethods(s: State, stream: seq<byte>) returns (methods: seq<byte>, s': State, rest: seq<byte>)
    requires !s.aborted && s.calls == [] && s.pending == ReadMethods && Accepts(Feed(s, stream))
    ensures |methods| == s.methodCount as nat && 0 in methods && stream == methods + rest
    ensures !s'.aborted && s'.calls == [] && s'.pending == ReadRequest
    ensures Feed(s, stream) == (Feed(s', rest).0, |methods| + Feed(s', rest).1)
  {
    methods, rest := EnoughRead(s, stream);
    var s1 := OnRead(s, methods);
    if s1.pending.Done? { FeedDone(s1, rest); }
    s' := s1.(pending := ReadRequest);
  }

  lemma AcceptedRequest(s: State, stream: seq<byte>) returns (a: Address, port: uint16)
    requires !s.aborted && s.calls == [] && s.pending == ReadRequest && Accepts(Feed(s, stream))
    ensures ValidAddress(a) && Feed(s, stream).1 == |Request(a, port)| && stream[..|Request(a, port)|] == Request(a, port)
    ensures Feed(s, stream).0.calls == [Call(HostOf(a), port, Accepted)]
  {
    var header, rest := EnoughRead(s, stream);
    var s' := OnRead(s, header);
    if s'.pending.Done? { FeedDone(s', rest); }
    a, port := AcceptedAddress(s', rest);
    var bytes := AddressBytes(a, port);
    assert header == [5, 1, 0, if a.IPv4? then 1 else 3];
    RequestParts(a, port);
    PrefixOfJoin(header, rest, |bytes|);
  }

  lemma PrefixOfJoin(a: seq<byte>, b: seq<byte>, n: nat)
    requires n <= |b|
    ensures (a + b)[..|a| + n] == a + b[..n]
  {
  }

  lemma AcceptedAddress(s: State, rest: seq<byte>) returns (a: Address, port: uint16)
    requires !s.aborted && s.calls == [] && (s.pending == ReadIPv4 || s.pending == ReadDomainHeader)
    requires Feed(s, rest).0.calls != []
    ensures ValidAddress(a) && (a.IPv4? <==> s.pending == ReadIPv4)
    ensures var bytes := AddressBytes(a, port); Feed(s, rest).1 == |bytes| && rest[..|bytes|] == bytes
    ensures Feed(s, rest).0.calls == [Call(HostOf(a), port, Accepted)]
  {
    if s.pending == ReadIPv4 {
      var b, tail := EnoughRead(s, rest);
      FeedDone(OnRead(s, b), tail);
      a, port := IPv4(b[..4]), ReadBE16(b[4..]);
      BE16RoundTrip(port, b[4..]);
      assert b == b[..4] + b[4..];
    } else {
      var l, rest1 := EnoughRead(s, rest);
      var name: seq<byte>;
      name, port := AcceptedDomain(OnRead(s, l), rest1);
      a := Domain(name);
      var tail := name + BE16(port);
      assert AddressBytes(a, port) == l + tail;
      assert rest[..1 + |tail|] == l + rest1[..|tail|];
    }
  }

  lemma AcceptedDomain(s: State, rest: seq<byte>) returns (name: seq<byte>, port: uint16)
    requires !s.aborted && s.calls == [] && s.pending == ReadDomain
    requires Feed(s, rest).0.calls != []
    ensures |name| == s.addrLen as nat && Feed(s, rest).1 == |name| + 2
    ensures |rest| >= |name| + 2 && rest[..|name| + 2] == name + BE16(port)
    ensures Feed(s, rest).0.calls == [Call(name, port, Accepted)]
  {
    var n := s.addrLen as nat;
    var b, tail := EnoughRead(s, rest);
    FeedDone(OnRead(s, b), tail);
    name, port := b[..n], ReadBE16(b[n..]);
    BE16RoundTrip(port, b[n..]);
    assert b == b[..n] + b[n..];
  }

  // ---------------------------------------------------------------- the object

  class SocksConnection {
    var methodCount: byte
    var addressType: byte
    var command: byte
    var version: byte
    var domainAddressLength: byte
    var host: seq<byte>
    var port: uint16
    const data: array<byte>

    var pending: Pending
    var calls: seq<Call>
    var sent: seq<seq<byte>>
    var aborted: bool

    ghost predicate Valid() { data.Length == BUFFER_SIZE }

    function Abs(): State
      reads this
    {
      State(pending, methodCount, domainAddressLength, host, port, calls, sent, aborted)
    }

    constructor ()
      ensures Valid() && fresh(data) && Abs() == Start(port).(pending := Idle)
    {
      data := new byte[BUFFER_SIZE];
      methodCount, domainAddressLength, addressType, command, version := 0, 0, 0, 0, 0;
      host, calls, sent, aborted, pending := [], [], [], false, Idle;
    }

    method GetRequest()
      requires Valid() && pending == Idle
      modifies this
      ensures Abs() == old(Abs()).(pending := ReadVersion)
    {
      pending := ReadVersion;
    }

    method CallHandler(verdict: Verdict)
      modifies this
      ensures Abs() == old(Abs()).Finish(verdict)
    {
      calls := calls + [Call(host, port, verdict)];
      pending := Done;
    }

    /** async_read completing: the bytes are in data, and the bound handler runs. */
    method ReadComplete(bytes: seq<byte>)
      requires Valid() && Abs().Reading() && |bytes| == Abs().Want()
      modifies this, data
      ensures Abs() == Complete(old(Abs()), BytesRead(bytes))
    {
      forall i | 0 <= i < |bytes| {
        data[i] := bytes[i];
      }
      assert data[..|bytes|] == bytes;
      match pending {
        case ReadVersion => ReadVersionHeaderComplete(bytes);
        case ReadMethods => ReadMethodComplete(bytes);
        case ReadRequest => ReadRequestComplete(bytes);
        case ReadDomainHeader => ReadDomainAddressHeaderComplete(bytes);
        case ReadDomain => ReadDomainAddressComplete(bytes);
        case ReadIPv4 => ReadIPv4AddressComplete(bytes);
      }
    }

    /** Any operation completing with an error. */
    method Failed()
      requires Valid() && !aborted && pending != Idle && pending != Done
      modifies this
      ensures Abs() == Complete(old(Abs()), SocketFailed)
    {
      CallHandler(SocketError);
    }

    method ReadVersionHeaderComplete(ghost bytes: seq<byte>)
      requires Valid() && pending == ReadVersion && !aborted && |bytes| == 2 && data[..2] == bytes
      modifies this
      ensures Abs() == OnRead(old(Abs()), bytes)
    {
      version := data[0];
      methodCount := data[1];
      assert version == bytes[0] && methodCount == bytes[1];
      if version != 5 {
        CallHandler(Denied);
        return;
      }
      pending := ReadMethods;
    }

    method ReadMethodComplete(ghost bytes: seq<byte>)
      requires Valid() && pending == ReadMethods && !aborted && |bytes| == methodCount as nat && data[..|bytes|] == bytes
      modifies this, data
      ensures Abs() == OnRead(old(Abs()), bytes)
    {
      var i := 0;
      while i < methodCount
        invariant 0 <= i <= methodCount
        invariant forall k :: 0 <= k < i as nat ==> bytes[k] != 0
        invariant data[..|bytes|] == bytes && Abs() == old(Abs())
      {
        assert data[i] == bytes[i];
        if data[i] == 0 {
          SendValidMethodResponse();
          return;
        }
        i := i + 1;
      }
      CallHandler(Denied);
    }

    method SendValidMethodResponse()
      requires Valid()
      modifies this, data
      ensures Abs() == old(Abs()).(sent := old(sent) + [[5, 0]], pending := WriteMethodResponse)
    {
      data[0], data[1] := 5, 0;
      assert data[..2] == [5, 0];
      sent := sent + [data[..2]];
      pending := WriteMethodResponse;
    }

    method MethodResponseComplete()
      requires Valid() && pending == WriteMethodResponse && !aborted
      modifies this
      ensures Abs() == Complete(old(Abs()), ResponseWritten)
    {
      pending := ReadRequest;
    }

    method ReadRequestComplete(ghost bytes: seq<byte>)
      requires Valid() && pending == ReadRequest && !aborted && |bytes| == 4 && data[..4] == bytes
      modifies this
      ensures Abs() == OnRead(old(Abs()), bytes)
    {
      assert forall i :: 0 <= i < 4 ==> data[i] == bytes[i];
      if data[0] != 5 || data[2] != 0 {
        aborted := true;
        return;
      }
      command, addressType := data[1], data[3];
      if command != 1 {
        CallHandler(Denied);
        return;
      }
      if addressType == 1 {
        pending := ReadIPv4;
      } else if addressType == 3 {
        pending := ReadDomainHeader;
      } else {
        CallHandler(Denied);
      }
    }

    method ReadDomainAddressHeaderComplete(ghost bytes: seq<byte>)
      requires Valid() && pending == ReadDomainHeader && !aborted && |bytes| == 1 && data[..1] == bytes
      modifies this
      ensures Abs() == OnRead(old(Abs()), bytes)
    {
      domainAddressLength := data[0];
      assert data[0] == bytes[0];
      pending := ReadDomain;
    }

    method ReadDomainAddressComplete(ghost bytes: seq<byte>)
      requires Valid() && pending == ReadDomain && !aborted
      requires |bytes| == domainAddressLength as nat + 2 && data[..|bytes|] == bytes
      modifies this
      ensures Abs() == OnRead(old(Abs()), bytes)
    {
      var n := domainAddressLength as nat;
      host := data[..n];
      port := ReadBE16(data[n..n + 2]);
      assert data[..n] == bytes[..n] && data[n..n + 2] == bytes[n..];
      CallHandler(Accepted);
    }

    method ReadIPv4AddressComplete(ghost bytes: seq<byte>)
      requires Valid() && pending == ReadIPv4 && !aborted && |bytes| == 6 && data[..6] == bytes
      modifies this
      ensures Abs() == OnRead(old(Abs()), bytes)
    {
      host := Dotted(data[..4]);
      port := ReadBE16(data[4..6]);
      assert data[..4] == bytes[..4] && data[4..6] == bytes[4..];
      CallHandler(Accepted);
    }
  }
}
