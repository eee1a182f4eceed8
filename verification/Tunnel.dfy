/** TorTunnel.cpp (openStream): from an accepted SOCKS request to the BEGIN cell. */
module Tunnel {
  import opened Bytes
  import opened Cells
  import Decimal
  import Socks
  import Client
  import Circuits
  import opened CounterMode
  import opened RelayCrypto
  import ClientRuns
  import Script

  /** ADDRPORT of section 6.2 of tor-spec, without the terminating zero. */
  function Destination(host: seq<byte>, port: uint16): seq<byte> { host + [Decimal.COLON] + Decimal.Text(port) }

  method OpenStream(circuit: Circuits.Circuit, streamId: uint16, host: seq<byte>, port: uint16, handler: Client.HandlerId)
    requires circuit.Valid() && !circuit.dispatcher.aborted
    requires |Destination(host, port)| + 1 <= MAX_PAYLOAD_LENGTH
    modifies circuit.Repr
    ensures circuit.Valid()
    ensures circuit.Abs() == Client.Step(circuit.crypto, old(circuit.Abs()), Client.Connect(streamId, Destination(host, port), handler))
  {
    var destination := host;
    destination := destination + [Decimal.COLON];
    destination := destination + Decimal.Text(port);
    circuit.Connect(streamId, destination, handler);
  }

  // ---------------------------------------------------------------- the exit's reading of BEGIN

  /** The position of the last colon, or -1. */
  function LastColon(t: seq<byte>): (i: int)
    ensures -1 <= i < |t|
    ensures i >= 0 ==> t[i] == Decimal.COLON
    ensures forall k :: i < k < |t| ==> t[k] != Decimal.COLON
  {
    if t == [] then -1
    else if t[|t| - 1] == Decimal.COLON then |t| - 1
    else LastColon(t[..|t| - 1])
  }

  function FirstZero(t: seq<byte>): (i: nat)
    ensures i <= |t| && (i < |t| ==> t[i] == 0)
    ensures forall k :: 0 <= k < i ==> t[k] != 0
  {
    if t == [] || t[0] == 0 then 0 else 1 + FirstZero(t[1..])
  }

  predicate AllDigits(t: seq<byte>) { t != [] && forall c :: c in t ==> 48 <= c <= 57 }

  /** The address string ends at its first zero; it is cut at its last colon, and a decimal port follows. */
  function ReadAddrPort(payload: seq<byte>): Option<(seq<byte>, int)>
  {
    var end := FirstZero(payload);
    if end == |payload| then None
    else
      var text := payload[..end];
      var i := LastColon(text);
      if i < 0 || !AllDigits(text[i + 1..]) then None else Some((text[..i], Decimal.Number(text[i + 1..])))
  }

  lemma FirstZeroIs(t: seq<byte>, i: nat)
    requires i < |t| && t[i] == 0 && forall k :: 0 <= k < i ==> t[k] != 0
    ensures FirstZero(t) == i
  {
  }

  /** The exit reads back the host and port that the client meant exactly when the host has no zero byte. */
  lemma ReadsBackExactlyWhen(host: seq<byte>, port: uint16)
    ensures ReadAddrPort(Destination(host, port) + [0]) == Some((host, port)) <==> 0 !in host
  {
    var text := Destination(host, port);
    var payload := text + [0];
    if 0 in host {
      // The address string ends inside the host, so what is read as the host is shorter.
      var k :| 0 <= k < |host| && host[k] == 0;
      assert payload[k] == 0 && FirstZero(payload) <= k;
    } else {
      assert payload[|text|] == 0;
      forall k | 0 <= k < |text| ensures payload[k] != 0 { assert payload[k] in host + Decimal.Text(port) + [Decimal.COLON]; }
      FirstZeroIs(payload, |text|);
      assert payload[..|text|] == text;
      LastColonOfDestination(host, port);
      Decimal.NumberOfText(port);
    }
  }

  lemma LastColonOfDestination(host: seq<byte>, port: uint16)
    ensures var text := Destination(host, port);
            LastColon(text) == |host| && text[..|host|] == host && text[|host| + 1..] == Decimal.Text(port)
  {
    var text, digits := Destination(host, port), Decimal.Text(port);
    assert text[|host|] == Decimal.COLON;
    forall k | |host| < k < |text|
      ensures text[k] != Decimal.COLON
    {
      assert text[k] == digits[k - |host| - 1] && digits[k - |host| - 1] in digits;
    }
  }

  lemma DottedLength(b: seq<byte>)
    requires |b| == 4
    ensures |Socks.Dotted(b)| <= 15
  {
    assert Decimal.Power10(3) == 1000;
    Decimal.TextLength(b[0] as nat, 3);
    Decimal.TextLength(b[1] as nat, 3);
    Decimal.TextLength(b[2] as nat, 3);
    Decimal.TextLength(b[3] as nat, 3);
  }

  lemma DottedHasNoZero(b: seq<byte>)
    requires |b| == 4
    ensures 0 !in Socks.Dotted(b)
  {
  }

  /** For every request that the SOCKS parser accepts, whatever the client sent, the BEGIN cell holds
      host, ':', decimal port and a zero, at most 262 bytes with a matching length field; the host and
      port are those that the client encoded; and the exit reads them exactly when the host has no zero
      byte, as no dotted address has. */
  lemma SocksToBegin(port0: uint16, stream: seq<byte>, circuitId: uint16, streamId: uint16)
    requires Socks.Accepts(Socks.Feed(Socks.Start(port0), stream))
    ensures var call := Socks.Feed(Socks.Start(port0), stream).0.calls[0];
            var payload := Destination(call.host, call.port) + [0];
            && |payload| <= 262
            && var cell := Client.BeginCell(circuitId, streamId, Destination(call.host, call.port));
               && LengthField(cell) == |payload| && DataOf(cell) == payload && StreamId(cell) == streamId
               && (ReadAddrPort(DataOf(cell)) == Some((call.host, call.port)) <==> 0 !in call.host)
    ensures exists methods: seq<byte>, a: Socks.Address, port: uint16 ::
              && |methods| <= 255 && 0 in methods && Socks.ValidAddress(a)
              && Socks.Greeting(methods) + Socks.Request(a, port) == stream[..Socks.Feed(Socks.Start(port0), stream).1]
              && Socks.Names(Socks.Feed(Socks.Start(port0), stream).0.calls[0].host, a)
              && port == Socks.Feed(Socks.Start(port0), stream).0.calls[0].port
              && (a.IPv4? ==> 0 !in Socks.Feed(Socks.Start(port0), stream).0.calls[0].host)
  {
    var r := Socks.Feed(Socks.Start(port0), stream);
    Socks.OnlyRequestsAreAccepted(port0, stream);
    var methods: seq<byte>, a: Socks.Address, port: uint16 :|
      && |methods| <= 255 && 0 in methods && Socks.ValidAddress(a)
      && Socks.Greeting(methods) + Socks.Request(a, port) == stream[..r.1]
      && r.0.calls == [Socks.Call(Socks.HostOf(a), port, Socks.Accepted)] && Socks.Names(Socks.HostOf(a), a);
    var host := Socks.HostOf(a);
    if a.IPv4? {
      DottedLength(a.ip);
      DottedHasNoZero(a.ip);
    }
    Decimal.PortLength(port);
    RelayImageFields(circuitId, streamId, BEGIN, Destination(host, port) + [0]);
    ReadsBackExactlyWhen(host, port);
  }

  /** From the SOCKS bytes to what the exit reads off the wire: after any run of the client, connecting to an
      accepted request puts a BEGIN on the wire that the mirrored exit verifies and opens on the
      stream asked for, with the connect handler waiting for its write; the exit reads the host and
      port of the request from it exactly when the host has no zero byte. */
  lemma RequestReachesExit(port0: uint16, stream: seq<byte>, c: Crypto, start: Client.State, ops: seq<Client.Op>,
                           streamId: uint16, h: Client.HandlerId)
    requires Socks.Accepts(Socks.Feed(Socks.Start(port0), stream))
    requires ClientRuns.AllFitOps(ops) && start.wire == [] && start.completions == []
    requires !ClientRuns.Run(c, start, ops).dispatcher.aborted
    ensures var call := Socks.Feed(Socks.Start(port0), stream).0.calls[0];
            var op := Client.Connect(streamId, Destination(call.host, call.port), h);
            && Client.Fits(op)
            && var st := Client.Step(c, ClientRuns.Run(c, start, ops), op);
               var read, n := OpenAll(c, start.forward, st.wire), |st.wire| - 1;
               && n >= 0 && read[n].verified && |st.completions| == n + 1 && st.completions[n] == Client.BeginSent(streamId, h)
               && RelayType(read[n].cell) == BEGIN && StreamId(read[n].cell) == streamId
               && (ReadAddrPort(DataOf(read[n].cell)) == Some((call.host, call.port)) <==> 0 !in call.host)
  {
    var call := Socks.Feed(Socks.Start(port0), stream).0.calls[0];
    SocksToBegin(port0, stream, 0, streamId);
    ReadsBackExactlyWhen(call.host, call.port);
    Script.PeerReadsBegin(c, start, ops, streamId, Destination(call.host, call.port), h);
  }

  /** A domain that is accepted and not read back: "x:1" with a zero behind it reaches the exit as host "x",
      port 1, whatever port was asked for. */
  lemma ZeroInDomain(port0: uint16, port: uint16)
    ensures var name: seq<byte> := [120, Decimal.COLON, 49, 0];
            && Socks.Feed(Socks.Start(port0), Socks.Greeting([0]) + Socks.Request(Socks.Domain(name), port)).0.calls
               == [Socks.Call(name, port, Socks.Accepted)]
            && ReadAddrPort(Destination(name, port) + [0]) == Some(([120], 1))
  {
    var name: seq<byte> := [120, Decimal.COLON, 49, 0];
    Socks.ParserInvertsClient(port0, [0], Socks.Domain(name), port, []);
    assert Socks.Greeting([0]) + Socks.Request(Socks.Domain(name), port) + [] == Socks.Greeting([0]) + Socks.Request(Socks.Domain(name), port);
    var payload := Destination(name, port) + [0];
    FirstZeroIs(payload, 3);
    assert payload[..3] == [120, Decimal.COLON, 49];
    assert LastColon([120, Decimal.COLON, 49]) == 1 by { assert [120, Decimal.COLON, 49][..2] == [120, Decimal.COLON]; }
    assert [120, Decimal.COLON, 49][..1] == [120] && [120, Decimal.COLON, 49][2..] == [49];
    Decimal.NumberOfText(1);
    assert Decimal.Text(1) == [49];
  }
}
