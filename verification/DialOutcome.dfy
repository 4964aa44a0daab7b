/** When a dial succeeds, how it fails otherwise, and what its log says, in terms of what servers and verifier answered. */
module DialOutcome {
  import opened Wrappers
  import opened Dial

  /**
   Hop i is let in: the hop before it opens the tunnel, it presents a key that the verifier accepts
   and the transport comes up, its private key (if it uses one) parses, and the server says yes.
   */
  predicate Welcomed(hop: Hop, h: HopOracle, i: nat) {
    && (i > 0 ==> h.refusal == None)
    && h.handshake.Presents? && h.handshake.verdict && h.handshake.after == None
    && (hop.auth.PrivateKey? ==> h.badKey == None)
    && h.reply == Accepted
  }

  lemma WelcomedIsUsable(chain: seq<Hop>, o: Oracle, i: nat)
    requires i < |chain| == |o.hops|
    ensures HopError(chain, o, i).None? ==> Welcomed(chain[i], o.hops[i], i)
    ensures Welcomed(chain[i], o.hops[i], i) ==> HopError(chain, o, i).None?
  {
  }

  /** A dial succeeds exactly when every hop is let in and no shell request fails. */
  lemma SucceedsExactly(chain: seq<Hop>, o: Oracle)
    requires |chain| == |o.hops| > 0
    ensures DialResult(chain, o).Ok? <==>
            o.shellFailure == None && forall i :: 0 <= i < |chain| ==> Welcomed(chain[i], o.hops[i], i)
  {
    forall i | 0 <= i < |chain|
      ensures HopError(chain, o, i).None? <==> Welcomed(chain[i], o.hops[i], i)
    {
      WelcomedIsUsable(chain, o, i);
    }
    var f := Failure(chain, o);
    if f < |chain| {
      assert !Welcomed(chain[f], o.hops[f], f);
    }
  }

  /** How a transport failure is reported. */
  predicate Reported(e: Error, failure: TransportError) {
    match failure
    case UnknownKey => e == HostKeyRejected
    case NoCommonAlgo(kind) => e == NoCommonAlgorithm(kind)
    case OtherError(text) => e == Connect(None, text)
  }

  /** The error of the first hop that is not let in; `last` tells the target from the hops before it. */
  predicate Blames(e: Error, hop: Hop, h: HopOracle, i: nat, last: bool) {
    var here := Some(Endpoint(hop.host, hop.port));
    var at := if last then None else here;
    if i > 0 && h.refusal.Some? then
      e == Connect(here, h.refusal.value)
    else if h.handshake.FailsBeforeKey? then
      Reported(e, h.handshake.error)
    else if h.handshake.UnencodableKey? || !h.handshake.verdict then
      e == HostKeyRejected
    else if h.handshake.after.Some? then
      Reported(e, h.handshake.after.value)
    else if hop.auth.PrivateKey? && h.badKey.Some? then
      e == Auth(at, h.badKey.value)
    else if h.reply.Broken? then
      e == Auth(at, h.reply.text)
    else
      e == Auth(at, if hop.auth.Password? then "password rejected" else "key rejected")
  }

  lemma HopBlames(chain: seq<Hop>, o: Oracle, i: nat)
    requires i < |chain| == |o.hops| && HopError(chain, o, i).Some?
    ensures Blames(HopError(chain, o, i).value, chain[i], o.hops[i], i, i + 1 == |chain|)
  {
  }

  /** A failed dial blames the first hop that is not let in, for what happened there, or the shell request that failed. */
  lemma FailsExactly(chain: seq<Hop>, o: Oracle) returns (f: nat)
    requires |chain| == |o.hops| > 0
    ensures f <= |chain| && (forall i :: 0 <= i < f ==> Welcomed(chain[i], o.hops[i], i))
    ensures f < |chain| ==>
              && !Welcomed(chain[f], o.hops[f], f)
              && DialResult(chain, o).Err?
              && Blames(DialResult(chain, o).error, chain[f], o.hops[f], f, f + 1 == |chain|)
    ensures f == |chain| && o.shellFailure.Some? ==> DialResult(chain, o) == Err(Channel(o.shellFailure.value))
  {
    f := Failure(chain, o);
    forall i | 0 <= i < |chain|
      ensures HopError(chain, o, i).None? <==> Welcomed(chain[i], o.hops[i], i)
    {
      WelcomedIsUsable(chain, o, i);
    }
    if f < |chain| {
      HopBlames(chain, o, f);
    }
  }

  // ----- the log tells what happened

  /** An event agrees with what the servers and the verifier did. */
  predicate Happened(chain: seq<Hop>, o: Oracle, e: Event)
    requires |chain| == |o.hops|
  {
    match e
    case Handler(i, _, _) => i < |chain|
    case Tunnel(i, _, _, ok) => 0 < i < |chain| && (ok <==> o.hops[i].refusal == None)
    case Consult(i, _, algorithm, blob, verdict) =>
      && i < |chain| && o.hops[i].handshake.Presents?
      && algorithm == o.hops[i].handshake.algorithm && blob == o.hops[i].handshake.blob
      && verdict == o.hops[i].handshake.verdict
    case Opened(i) =>
      && i < |chain| && o.hops[i].handshake.Presents?
      && o.hops[i].handshake.verdict && o.hops[i].handshake.after == None
    case Offer(i, _, _) => i < |chain| && (chain[i].auth.PrivateKey? ==> o.hops[i].badKey == None)
    case Authed(i) => i < |chain| && o.hops[i].reply == Accepted
    case ShellUp => o.shellFailure == None
    case Dropped(_) => DialResultFails(chain, o)
  }

  predicate DialResultFails(chain: seq<Hop>, o: Oracle)
    requires |chain| == |o.hops|
  {
    |chain| > 0 ==> DialResult(chain, o).Err?
  }

  lemma HopEventsAreTrue(chain: seq<Hop>, o: Oracle, i: nat)
    requires i < |chain| == |o.hops|
    ensures forall e :: e in HopEvents(chain, o, i) ==> Happened(chain, o, e)
  {
  }

  lemma {:induction false} TraceIsTrue(chain: seq<Hop>, o: Oracle, n: nat)
    requires n <= |chain| == |o.hops|
    ensures forall e :: e in Trace(chain, o, n) ==> Happened(chain, o, e)
  {
    hide Happened, HopEvents;
    if n > 0 {
      TraceIsTrue(chain, o, n - 1);
      HopEventsAreTrue(chain, o, n - 1);
    }
  }

  /**
   Everything in the log happened: a tunnel is recorded with its answer, the verifier is shown the key
   that was presented and recorded with its verdict, connections only after a yes, credentials only
   when they parse, authentication only when the server said so.
   */
  lemma LogIsTrue(chain: seq<Hop>, o: Oracle)
    requires |chain| == |o.hops| > 0
    ensures forall e :: e in DialLog(chain, o) ==> Happened(chain, o, e)
  {
    hide HopEvents;
    var f := Failure(chain, o);
    TraceIsTrue(chain, o, f);
    if f < |chain| {
      HopEventsAreTrue(chain, o, f);
    }
  }

  /** All that hop i does as far as it gets is in the log. */
  predicate Recorded(log: seq<Event>, chain: seq<Hop>, h: HopOracle, i: nat)
    requires i < |chain|
  {
    var hop, here := chain[i], Endpoint(chain[i].host, chain[i].port);
    && Handler(i, here, i + 1 == |chain|) in log
    && (i > 0 ==> Tunnel(i, i - 1, here, h.refusal == None) in log)
    && ((i > 0 ==> h.refusal == None) && h.handshake.Presents? ==>
          && Consult(i, here, h.handshake.algorithm, h.handshake.blob, h.handshake.verdict) in log
          && (h.handshake.verdict && h.handshake.after == None ==>
                && Opened(i) in log
                && ((hop.auth.PrivateKey? ==> h.badKey == None) ==> Offer(i, hop.user, hop.auth) in log)
                && (Welcomed(hop, h, i) ==> Authed(i) in log)))
  }

  lemma HopIsRecorded(chain: seq<Hop>, o: Oracle, i: nat)
    requires i < |chain| == |o.hops|
    ensures Recorded(HopEvents(chain, o, i), chain, o.hops[i], i)
  {
    var hop, h := chain[i], o.hops[i];
    var start := [Handler(i, EndpointOf(hop), i + 1 == |chain|)];
    var tunnel := TunnelEvents(hop, h, i);
    assert start[0] in HopEvents(chain, o, i);
    if i > 0 {
      assert tunnel[0] in tunnel;
    }
    if Tunnels(h, i) && h.handshake.Presents? {
      assert HandshakeEvents(hop, h, i)[0] in HandshakeEvents(hop, h, i);
    }
  }

  lemma {:induction false} TraceIsComplete(chain: seq<Hop>, o: Oracle, n: nat, i: nat)
    requires i < n <= |chain| == |o.hops|
    ensures Recorded(Trace(chain, o, n), chain, o.hops[i], i)
  {
    if i == n - 1 {
      HopIsRecorded(chain, o, i);
      RecordedInLonger(Trace(chain, o, n - 1), HopEvents(chain, o, n - 1), [], chain, o.hops[i], i);
    } else {
      TraceIsComplete(chain, o, n - 1, i);
      RecordedInLonger([], Trace(chain, o, n - 1), HopEvents(chain, o, n - 1), chain, o.hops[i], i);
    }
  }

  lemma RecordedInLonger(before: seq<Event>, log: seq<Event>, after: seq<Event>, chain: seq<Hop>, h: HopOracle, i: nat)
    requires i < |chain| && Recorded(log, chain, h, i)
    ensures Recorded(before + log + after, chain, h, i)
  {
    assert forall e :: e in log ==> e in before + log + after;
  }

  /** Nothing is left out: every hop up to the first that is not let in is recorded, and so is the shell. */
  lemma LogIsComplete(chain: seq<Hop>, o: Oracle, i: nat)
    requires |chain| == |o.hops| > 0 && i < |chain|
    requires forall j :: 0 <= j < i ==> Welcomed(chain[j], o.hops[j], j)
    ensures Recorded(DialLog(chain, o), chain, o.hops[i], i)
    ensures DialResult(chain, o).Ok? ==> ShellUp in DialLog(chain, o)
  {
    hide Recorded, HopEvents, Trace, Below, Tunnels, Connects;
    var f := Failure(chain, o);
    assert i <= f by {
      if f < i {
        WelcomedIsUsable(chain, o, f);
      }
    }
    if i < f {
      TraceIsComplete(chain, o, f, i);
      RecordedInLonger([], Trace(chain, o, f), DialLog(chain, o)[|Trace(chain, o, f)|..], chain, o.hops[i], i);
      assert [] + Trace(chain, o, f) + DialLog(chain, o)[|Trace(chain, o, f)|..] == DialLog(chain, o);
    } else {
      HopIsRecorded(chain, o, f);
      var rest := DialLog(chain, o)[|Trace(chain, o, f) + HopEvents(chain, o, f)|..];
      RecordedInLonger(Trace(chain, o, f), HopEvents(chain, o, f), rest, chain, o.hops[i], i);
      assert Trace(chain, o, f) + HopEvents(chain, o, f) + rest == DialLog(chain, o);
    }
  }
}
