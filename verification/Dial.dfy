/**
 Dialing through a ProxyJump chain (ssh-transport/src/lib.rs: connect_inner, authenticate,
 check_server_key, map_connect_error). The servers, the host-key verifier and the transport are an
 oracle that decides every outcome; connection i is the one that hop i of the chain opens.
 */
module Dial {
  import opened Wrappers
  import opened Bytes

  datatype Credential = Password(password: string) | PrivateKey(pem: string, passphrase: Option<string>)

  datatype Hop = Hop(host: string, port: nat, user: string, auth: Credential)

  /** The target with its own credentials, and the hops before it, outermost first. */
  datatype Params = Params(target: Hop, via: seq<Hop>)

  function ChainOf(p: Params): (chain: seq<Hop>)
    ensures |chain| == |p.via| + 1 && chain[|p.via|] == p.target
    ensures forall i :: 0 <= i < |p.via| ==> chain[i] == p.via[i]
  {
    p.via + [p.target]
  }

  // ----- what the environment decides

  datatype TransportError = UnknownKey | NoCommonAlgo(kind: string) | OtherError(text: string)

  /**
   How the transport of a hop comes up. The verifier is consulted once a key was presented; a
   connection exists only after it answered true.
   */
  datatype Handshake =
    | FailsBeforeKey(error: TransportError)
    | UnencodableKey
    | Presents(algorithm: string, blob: seq<byte>, verdict: bool, after: Option<TransportError>)

  datatype Reply = Accepted | Rejected | Broken(text: string)

  /** `refusal`: the previous hop's answer to direct-tcpip; `badKey`: why the PEM text does not parse. */
  datatype HopOracle = HopOracle(refusal: Option<string>, handshake: Handshake, badKey: Option<string>, reply: Reply)

  /** One outcome per hop, and the first of the three shell requests on the target that fails. */
  datatype Oracle = Oracle(hops: seq<HopOracle>, shellFailure: Option<string>)

  // ----- errors; `at` is the hop an error names

  datatype Endpoint = Endpoint(host: string, port: nat)

  datatype Error =
    | Connect(at: Option<Endpoint>, text: string)
    | NoCommonAlgorithm(kind: string)
    | HostKeyRejected
    | Auth(at: Option<Endpoint>, text: string)
    | Channel(text: string)

  function MapConnectError(e: TransportError): (r: Error) {
    match e
    case UnknownKey => HostKeyRejected
    case NoCommonAlgo(kind) => NoCommonAlgorithm(kind)
    case OtherError(text) => Connect(None, text)
  }

  function EndpointOf(h: Hop): (e: Endpoint) {
    Endpoint(h.host, h.port)
  }

  // ----- what can be observed

  datatype Event =
    | Handler(hop: nat, endpoint: Endpoint, forwards: bool)
    | Tunnel(hop: nat, through: nat, to: Endpoint, ok: bool)
    | Consult(hop: nat, endpoint: Endpoint, algorithm: string, blob: seq<byte>, verdict: bool)
    | Opened(hop: nat)
    | Offer(hop: nat, user: string, auth: Credential)
    | Authed(hop: nat)
    | ShellUp
    | Dropped(hops: set<nat>)

  // ----- one hop

  /** The transport error of a handshake, if it fails. */
  function HandshakeError(h: Handshake): (e: Option<TransportError>) {
    match h
    case FailsBeforeKey(error) => Some(error)
    case UnencodableKey => Some(UnknownKey)
    case Presents(_, _, verdict, after) => if !verdict then Some(UnknownKey) else after
  }

  /** Why authenticate fails: a key that does not parse, a broken exchange, or a polite refusal. */
  function AuthFailure(hop: Hop, o: HopOracle): (text: Option<string>) {
    if hop.auth.PrivateKey? && o.badKey.Some? then
      o.badKey
    else match o.reply
      case Accepted => None
      case Rejected => Some(if hop.auth.Password? then "password rejected" else "key rejected")
      case Broken(text) => Some(text)
  }

  predicate Tunnels(o: HopOracle, i: nat) {
    i == 0 || o.refusal.None?
  }

  /** The connection of hop i comes into being. */
  predicate Connects(o: HopOracle, i: nat) {
    Tunnels(o, i) && HandshakeError(o.handshake).None?
  }

  function HopError(chain: seq<Hop>, o: Oracle, i: nat): (e: Option<Error>)
    requires i < |chain| == |o.hops|
  {
    var hop, h := chain[i], o.hops[i];
    if !Tunnels(h, i) then
      Some(Connect(Some(EndpointOf(hop)), h.refusal.value))
    else if HandshakeError(h.handshake).Some? then
      Some(MapConnectError(HandshakeError(h.handshake).value))
    else if AuthFailure(hop, h).Some? then
      Some(Auth(if i + 1 == |chain| then None else Some(EndpointOf(hop)), AuthFailure(hop, h).value))
    else
      None
  }

  function AuthEvents(hop: Hop, h: HopOracle, i: nat): (log: seq<Event>) {
    if hop.auth.PrivateKey? && h.badKey.Some? then []
    else [Offer(i, hop.user, hop.auth)] + (if h.reply.Accepted? then [Authed(i)] else [])
  }

  function HandshakeEvents(hop: Hop, h: HopOracle, i: nat): (log: seq<Event>) {
    match h.handshake
    case Presents(algorithm, blob, verdict, after) => [Consult(i, EndpointOf(hop), algorithm, blob, verdict)]
    case _ => []
  }

  function TunnelEvents(hop: Hop, h: HopOracle, i: nat): (log: seq<Event>) {
    if i == 0 then [] else [Tunnel(i, i - 1, EndpointOf(hop), h.refusal.None?)]
  }

  function HopEvents(chain: seq<Hop>, o: Oracle, i: nat): (log: seq<Event>)
    requires i < |chain| == |o.hops|
  {
    var hop, h := chain[i], o.hops[i];
    [Handler(i, EndpointOf(hop), i + 1 == |chain|)]
    + TunnelEvents(hop, h, i)
    + (if Tunnels(h, i) then HandshakeEvents(hop, h, i) else [])
    + (if Connects(h, i) then [Opened(i)] + AuthEvents(hop, h, i) else [])
  }

  // ----- the whole dial

  /** The first hop at or after i that fails, or the length of the chain. */
  function FailureFrom(chain: seq<Hop>, o: Oracle, i: nat): (f: nat)
    requires i <= |chain| == |o.hops|
    ensures i <= f <= |chain|
    ensures forall j :: i <= j < f ==> HopError(chain, o, j).None?
    ensures f < |chain| ==> HopError(chain, o, f).Some?
    decreases |chain| - i
  {
    if i == |chain| || HopError(chain, o, i).Some? then i else FailureFrom(chain, o, i + 1)
  }

  function Failure(chain: seq<Hop>, o: Oracle): (f: nat)
    requires |chain| == |o.hops|
    ensures f <= |chain|
  {
    FailureFrom(chain, o, 0)
  }

  /** The events of the first i hops. */
  function Trace(chain: seq<Hop>, o: Oracle, i: nat): (log: seq<Event>)
    requires i <= |chain| == |o.hops|
  {
    if i == 0 then [] else Trace(chain, o, i - 1) + HopEvents(chain, o, i - 1)
  }

  function Below(n: nat): (s: set<nat>)
    ensures forall i: nat :: i in s <==> i < n
  {
    if n == 0 then {} else Below(n - 1) + {n - 1}
  }

  function DialLog(chain: seq<Hop>, o: Oracle): (log: seq<Event>)
    requires |chain| == |o.hops|
  {
    var f := Failure(chain, o);
    if f < |chain| then
      Trace(chain, o, f) + HopEvents(chain, o, f) + [Dropped(Below(if Connects(o.hops[f], f) then f + 1 else f))]
    else
      Trace(chain, o, f) + [if o.shellFailure.Some? then Dropped(Below(f)) else ShellUp]
  }

  /** What the session owns: the target's connection, and the hops' in dialing order. */
  datatype Owned = Owned(handle: nat, parents: seq<nat>)

  function Ascending(n: nat): (s: seq<nat>)
    ensures |s| == n
  {
    seq(n, i => i)
  }

  function DialResult(chain: seq<Hop>, o: Oracle): (r: Result<Owned, Error>)
    requires |chain| == |o.hops| > 0
  {
    var f := Failure(chain, o);
    if f < |chain| then Err(HopError(chain, o, f).value)
    else if o.shellFailure.Some? then Err(Channel(o.shellFailure.value))
    else Ok(Owned(|chain| - 1, Ascending(|chain| - 1)))
  }

  class Network {
    var log: seq<Event>

    constructor ()
      ensures log == []
    {
      log := [];
    }

    method Record(e: Event)
      modifies this
      ensures log == old(log) + [e]
    {
      log := log + [e];
    }
  }

  /** ProbeHandler::check_server_key and the handshake around it. */
  method Handshaken(net: Network, hop: Hop, i: nat, h: HopOracle) returns (r: Result<nat, Error>)
    modifies net
    ensures net.log == old(net.log) + HandshakeEvents(hop, h, i)
                       + (if HandshakeError(h.handshake).None? then [Opened(i)] else [])
    ensures r == match HandshakeError(h.handshake)
                 case None => Ok(i)
                 case Some(e) => Err(MapConnectError(e))
  {
    match h.handshake {
      case FailsBeforeKey(e) =>
        r := Err(MapConnectError(e));
      case UnencodableKey =>
        r := Err(MapConnectError(UnknownKey));
      case Presents(algorithm, blob, verdict, after) =>
        net.Record(Consult(i, EndpointOf(hop), algorithm, blob, verdict));
        if !verdict {
          return Err(MapConnectError(UnknownKey));
        }
        if after.Some? {
          return Err(MapConnectError(after.value));
        }
        net.Record(Opened(i));
        r := Ok(i);
    }
  }

  /** authenticate: a key is parsed before anything is sent. */
  method Authenticate(net: Network, conn: nat, hop: Hop, h: HopOracle) returns (r: Result<(), Error>)
    modifies net
    ensures net.log == old(net.log) + AuthEvents(hop, h, conn)
    ensures r == match AuthFailure(hop, h)
                 case None => Ok(())
                 case Some(text) => Err(Auth(None, text))
  {
    match hop.auth {
      case Password(_) =>
        net.Record(Offer(conn, hop.user, hop.auth));
        match h.reply {
          case Broken(text) => return Err(Auth(None, text));
          case Rejected => return Err(Auth(None, "password rejected"));
          case Accepted =>
        }
      case PrivateKey(_, _) =>
        if h.badKey.Some? {
          return Err(Auth(None, h.badKey.value));
        }
        net.Record(Offer(conn, hop.user, hop.auth));
        match h.reply {
          case Broken(text) => return Err(Auth(None, text));
          case Rejected => return Err(Auth(None, "key rejected"));
          case Accepted =>
        }
    }
    net.Record(Authed(conn));
    r := Ok(());
  }

  /** One pass of the dial loop: the connection it opened, if any, and whether the hop is usable. */
  method DialHop(net: Network, chain: seq<Hop>, o: Oracle, i: nat, parents: seq<nat>)
    returns (conn: Option<nat>, r: Result<(), Error>)
    requires i < |chain| == |o.hops| && parents == Ascending(i)
    modifies net
    ensures net.log == old(net.log) + HopEvents(chain, o, i)
    ensures conn == if Connects(o.hops[i], i) then Some(i) else None
    ensures r.Ok? ==> conn == Some(i)
    ensures r == match HopError(chain, o, i)
                 case None => Ok(())
                 case Some(e) => Err(e)
  {
    var hop, h := chain[i], o.hops[i];
    conn := None;
    net.Record(Handler(i, EndpointOf(hop), i + 1 == |chain|));
    if i > 0 {
      assert parents != [];
      var parent := parents[|parents| - 1];
      net.Record(Tunnel(i, parent, EndpointOf(hop), h.refusal.None?));
      if h.refusal.Some? {
        return None, Err(Connect(Some(EndpointOf(hop)), h.refusal.value));
      }
    }
    var up := Handshaken(net, hop, i, h);
    if up.Err? {
      return None, Err(up.error);
    }
    conn := Some(up.value);
    r := Authenticate(net, up.value, hop, h);
    if r.Err? && i + 1 != |chain| {
      r := Err(Auth(Some(EndpointOf(hop)), r.error.text));
    }
  }

  /** The connections that the locals `parents` and `last` own. */
  function Held(parents: seq<nat>, last: Option<nat>): (s: set<nat>) {
    (set p | p in parents) + (if last.Some? then {last.value} else {})
  }

  lemma HeldIsBelow(n: nat)
    ensures Held(Ascending(n), None) == Below(n)
    ensures Held(Ascending(n), Some(n)) == Below(n + 1)
  {
    forall i: nat | i < n ensures i in Ascending(n) {
      assert Ascending(n)[i] == i;
    }
  }

  lemma FailedDial(chain: seq<Hop>, o: Oracle, i: nat, conn: Option<nat>)
    requires i < |chain| == |o.hops| && Failure(chain, o) == i
    requires conn == if Connects(o.hops[i], i) then Some(i) else None
    ensures Trace(chain, o, i) + HopEvents(chain, o, i) + [Dropped(Held(Ascending(i), conn))] == DialLog(chain, o)
    ensures DialResult(chain, o) == Err(HopError(chain, o, i).value)
  {
    HeldIsBelow(i);
  }

  lemma FinishedDial(chain: seq<Hop>, o: Oracle)
    requires |chain| == |o.hops| > 0 && Failure(chain, o) == |chain|
    ensures var n := |chain|;
            Trace(chain, o, n) + [if o.shellFailure.Some? then Dropped(Held(Ascending(n - 1), Some(n - 1))) else ShellUp]
            == DialLog(chain, o)
    ensures DialResult(chain, o) == if o.shellFailure.Some? then Err(Channel(o.shellFailure.value))
                                    else Ok(Owned(|chain| - 1, Ascending(|chain| - 1)))
  {
    HeldIsBelow(|chain| - 1);
  }

  lemma TraceStep(before: seq<Event>, chain: seq<Hop>, o: Oracle, i: nat)
    requires i < |chain| == |o.hops|
    ensures (before + Trace(chain, o, i)) + HopEvents(chain, o, i) == before + Trace(chain, o, i + 1)
  {
  }

  /** The dial loop: on success the parents and the target, on failure what is left to drop. */
  method DialChain(net: Network, chain: seq<Hop>, o: Oracle)
    returns (parents: seq<nat>, last: Option<nat>, r: Result<(), Error>)
    requires |chain| == |o.hops| > 0
    modifies net
    ensures var f := Failure(chain, o);
            if f < |chain| then
              && net.log == old(net.log) + Trace(chain, o, f) + HopEvents(chain, o, f)
              && r == Err(HopError(chain, o, f).value)
              && parents == Ascending(f)
              && last == (if Connects(o.hops[f], f) then Some(f) else None)
            else
              && net.log == old(net.log) + Trace(chain, o, f)
              && r == Ok(())
              && parents == Ascending(f - 1)
              && last == Some(f - 1)
  {
    hide HopEvents, HopError;
    parents := [];
    var target: Option<nat> := None;
    ghost var before := net.log;
    for i := 0 to |chain|
      invariant Failure(chain, o) == FailureFrom(chain, o, i)
      invariant net.log == before + Trace(chain, o, i)
      invariant parents == Ascending(if i < |chain| then i else |chain| - 1)
      invariant target == if i < |chain| then None else Some(|chain| - 1)
    {
      var conn, hop := DialHop(net, chain, o, i, parents);
      if hop.Err? {
        return parents, conn, hop;
      }
      TraceStep(before, chain, o, i);
      if i + 1 == |chain| {
        target := conn;
      } else {
        parents := parents + [conn.value];
      }
    }
    return parents, target, Ok(());
  }

  /**
   connect_inner: dial the chain, then bring up the shell on the target's connection. Leaving it
   early drops the connections its locals own, in no stated order.
   */
  method ConnectInner(net: Network, params: Params, o: Oracle) returns (r: Result<Owned, Error>)
    requires |o.hops| == |params.via| + 1
    modifies net
    ensures net.log == old(net.log) + DialLog(ChainOf(params), o)
    ensures r == DialResult(ChainOf(params), o)
  {
    var chain := ChainOf(params);
    hide FailureFrom, Trace, HopEvents, HopError, Held, Below;
    ghost var before, f := net.log, Failure(chain, o);
    var parents, last, dialed := DialChain(net, chain, o);
    if dialed.Err? {
      net.Record(Dropped(Held(parents, last)));
      FailedDial(chain, o, f, last);
      assert net.log == before + (Trace(chain, o, f) + HopEvents(chain, o, f) + [Dropped(Held(Ascending(f), last))]);
      return Err(dialed.error);
    }
    assert last.Some?;
    FinishedDial(chain, o);
    if o.shellFailure.Some? {
      net.Record(Dropped(Held(parents, last)));
      return Err(Channel(o.shellFailure.value));
    }
    net.Record(ShellUp);
    r := Ok(Owned(last.value, parents));
  }
}
