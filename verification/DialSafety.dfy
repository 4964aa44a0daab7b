/** What every dial keeps, for every chain and everything its servers and verifier may do. */
module DialSafety {
  import opened Wrappers
  import opened Dial

  // ----- every event is justified by what precedes it

  /** Hops 0..n-1 are authenticated. */
  predicate AllAuthed(past: seq<Event>, n: nat) {
    n == 0 || (AllAuthed(past, n - 1) && Authed(n - 1) in past)
  }

  /** The verifier answered true for the endpoint of hop i. */
  predicate Approved(chain: seq<Hop>, past: seq<Event>, i: nat) {
    i < |chain| && exists k :: 0 <= k < |past| && past[k].Consult? && past[k].hop == i
                               && past[k].endpoint == EndpointOf(chain[i]) && past[k].verdict
  }

  /** Endpoints 0..n-1 are approved. */
  predicate AllApproved(chain: seq<Hop>, past: seq<Event>, n: nat) {
    n == 0 || (AllApproved(chain, past, n - 1) && Approved(chain, past, n - 1))
  }

  /** The open connections after one more event. */
  function After(open: set<nat>, e: Event): (s: set<nat>) {
    match e
    case Opened(i) => open + {i}
    case Dropped(gone) => open - gone
    case _ => open
  }

  /** The connections opened and not yet dropped. */
  function Alive(log: seq<Event>): (s: set<nat>) {
    if log == [] then {} else After(Alive(log[..|log| - 1]), log[|log| - 1])
  }

  /**
   Hop i is touched only once hops 0..i-1 are authenticated; it is reached through connection i-1 at
   its own endpoint, verified against that endpoint, and given its own credentials only after
   endpoints 0..i were accepted. Only the target's handler takes forwards. A failed dial drops
   exactly what is open.
   */
  predicate Justified(chain: seq<Hop>, past: seq<Event>, e: Event) {
    match e
    case Handler(i, endpoint, forwards) =>
      i < |chain| && endpoint == EndpointOf(chain[i]) && (forwards <==> i + 1 == |chain|) && AllAuthed(past, i)
    case Tunnel(i, through, to, _) =>
      0 < i < |chain| && through == i - 1 && to == EndpointOf(chain[i]) && AllAuthed(past, i)
    case Consult(i, endpoint, _, _, _) =>
      && i < |chain| && endpoint == EndpointOf(chain[i]) && AllAuthed(past, i)
      && (i > 0 ==> Tunnel(i, i - 1, EndpointOf(chain[i]), true) in past)
    case Opened(i) =>
      Approved(chain, past, i) && AllAuthed(past, i)
    case Offer(i, user, auth) =>
      && i < |chain| && user == chain[i].user && auth == chain[i].auth
      && AllAuthed(past, i) && AllApproved(chain, past, i + 1) && Opened(i) in past
    case Authed(i) =>
      i < |chain| && Offer(i, chain[i].user, chain[i].auth) in past
    case ShellUp =>
      AllAuthed(past, |chain|)
    case Dropped(s) =>
      s == Alive(past)
  }

  predicate Safe(chain: seq<Hop>, log: seq<Event>) {
    log == [] || (Safe(chain, log[..|log| - 1]) && Justified(chain, log[..|log| - 1], log[|log| - 1]))
  }

  lemma SafeSnoc(chain: seq<Hop>, log: seq<Event>, e: Event)
    requires Safe(chain, log) && Justified(chain, log, e)
    ensures Safe(chain, log + [e])
  {
    assert (log + [e])[..|log|] == log;
  }

  lemma {:induction false} SafeMeansJustified(chain: seq<Hop>, log: seq<Event>, j: nat)
    requires Safe(chain, log) && j < |log|
    ensures Justified(chain, log[..j], log[j])
  {
    if j < |log| - 1 {
      SafeMeansJustified(chain, log[..|log| - 1], j);
      assert log[..|log| - 1][..j] == log[..j];
    }
  }

  lemma {:induction false} AllMeansEach(chain: seq<Hop>, past: seq<Event>, n: nat, k: nat)
    requires k < n
    ensures AllAuthed(past, n) ==> Authed(k) in past
    ensures AllApproved(chain, past, n) ==> Approved(chain, past, k)
  {
    if k < n - 1 {
      AllMeansEach(chain, past, n - 1, k);
    }
  }

  lemma AliveSnoc(log: seq<Event>, e: Event)
    ensures Alive(log + [e]) == After(Alive(log), e)
  {
    assert (log + [e])[..|log|] == log;
  }

  /** What was known stays known. */
  lemma {:induction false} Remembered(chain: seq<Hop>, log: seq<Event>, e: Event, n: nat)
    ensures AllAuthed(log, n) ==> AllAuthed(log + [e], n)
    ensures AllApproved(chain, log, n) ==> AllApproved(chain, log + [e], n)
  {
    if n > 0 {
      Remembered(chain, log, e, n - 1);
      if Approved(chain, log, n - 1) {
        var j :| 0 <= j < |log| && log[j].Consult? && log[j].hop == n - 1
                 && log[j].endpoint == EndpointOf(chain[n - 1]) && log[j].verdict;
        assert (log + [e])[j] == log[j];
      }
    }
  }

  /** The state of a dial that is about to try hop i. */
  predicate Ready(chain: seq<Hop>, log: seq<Event>, i: nat) {
    Safe(chain, log) && AllAuthed(log, i) && AllApproved(chain, log, i) && Alive(log) == Below(i)
  }

  /** One more event keeps a dial in hop i ready, as long as it opens and drops nothing. */
  lemma ReadySnoc(chain: seq<Hop>, log: seq<Event>, e: Event, i: nat)
    requires Ready(chain, log, i) && Justified(chain, log, e) && !e.Opened? && !e.Dropped?
    ensures Ready(chain, log + [e], i)
  {
    SafeSnoc(chain, log, e);
    AliveSnoc(log, e);
    Remembered(chain, log, e, i);
  }

  lemma HandlerIsSafe(chain: seq<Hop>, log: seq<Event>, i: nat)
    requires i < |chain| && Ready(chain, log, i)
    ensures Ready(chain, log + [Handler(i, EndpointOf(chain[i]), i + 1 == |chain|)], i)
  {
    ReadySnoc(chain, log, Handler(i, EndpointOf(chain[i]), i + 1 == |chain|), i);
  }

  lemma TunnelIsSafe(chain: seq<Hop>, h: HopOracle, log: seq<Event>, i: nat)
    requires i < |chain| && Ready(chain, log, i)
    ensures var now := log + TunnelEvents(chain[i], h, i);
            Ready(chain, now, i) && (i > 0 && Tunnels(h, i) ==> Tunnel(i, i - 1, EndpointOf(chain[i]), true) in now)
  {
    var more := TunnelEvents(chain[i], h, i);
    if i == 0 {
      assert log + more == log;
    } else {
      ReadySnoc(chain, log, more[0], i);
      assert (log + more)[|log|] == more[0];
    }
  }

  lemma HandshakeIsSafe(chain: seq<Hop>, h: HopOracle, log: seq<Event>, i: nat)
    requires i < |chain| && Ready(chain, log, i)
    requires i > 0 ==> Tunnel(i, i - 1, EndpointOf(chain[i]), true) in log
    ensures var now := log + HandshakeEvents(chain[i], h, i);
            Ready(chain, now, i) && (HandshakeError(h.handshake).None? ==> Approved(chain, now, i))
  {
    var more := HandshakeEvents(chain[i], h, i);
    if more == [] {
      assert log + more == log;
    } else {
      ReadySnoc(chain, log, more[0], i);
      assert (log + more)[|log|] == more[0];
    }
  }

  lemma OpenIsSafe(chain: seq<Hop>, log: seq<Event>, i: nat)
    requires i < |chain| && Ready(chain, log, i) && Approved(chain, log, i)
    ensures var now := log + [Opened(i)];
            && Safe(chain, now) && Alive(now) == Below(i + 1) && Opened(i) in now
            && AllAuthed(now, i) && AllApproved(chain, now, i + 1)
  {
    SafeSnoc(chain, log, Opened(i));
    AliveSnoc(log, Opened(i));
    Remembered(chain, log, Opened(i), i);
    Remembered(chain, log, Opened(i), i + 1);
    assert (log + [Opened(i)])[|log|] == Opened(i);
  }

  lemma OfferIsSafe(chain: seq<Hop>, log: seq<Event>, i: nat)
    requires i < |chain| && Safe(chain, log) && Alive(log) == Below(i + 1) && Opened(i) in log
    requires AllAuthed(log, i) && AllApproved(chain, log, i + 1)
    ensures var now := log + [Offer(i, chain[i].user, chain[i].auth)];
            && Safe(chain, now) && Alive(now) == Below(i + 1)
            && AllAuthed(now, i) && AllApproved(chain, now, i + 1)
            && Ready(chain, now + [Authed(i)], i + 1)
  {
    var offer := Offer(i, chain[i].user, chain[i].auth);
    var now := log + [offer];
    SafeSnoc(chain, log, offer);
    AliveSnoc(log, offer);
    Remembered(chain, log, offer, i);
    Remembered(chain, log, offer, i + 1);
    assert now[|log|] == offer;
    SafeSnoc(chain, now, Authed(i));
    AliveSnoc(now, Authed(i));
    Remembered(chain, now, Authed(i), i);
    Remembered(chain, now, Authed(i), i + 1);
    assert (now + [Authed(i)])[|now|] == Authed(i);
  }

  lemma AuthIsSafe(chain: seq<Hop>, h: HopOracle, log: seq<Event>, i: nat)
    requires i < |chain| && Ready(chain, log, i) && Approved(chain, log, i)
    ensures var now := log + ([Opened(i)] + AuthEvents(chain[i], h, i));
            && Safe(chain, now) && Alive(now) == Below(i + 1)
            && (AuthFailure(chain[i], h).None? ==> Ready(chain, now, i + 1))
  {
    var now, more := log + [Opened(i)], AuthEvents(chain[i], h, i);
    OpenIsSafe(chain, log, i);
    assert log + ([Opened(i)] + more) == now + more;
    if more == [] {
      assert now + more == now;
    } else {
      OfferIsSafe(chain, now, i);
      if h.reply.Accepted? {
        assert now + more == now + [more[0]] + [Authed(i)];
      } else {
        assert more == [more[0]];
      }
    }
  }

  /** The events of a hop, cut where the dial may stop. */
  lemma HopEventsCut(chain: seq<Hop>, o: Oracle, log: seq<Event>, i: nat)
    requires i < |chain| == |o.hops|
    ensures var hop, h := chain[i], o.hops[i];
            var reach := log + [Handler(i, EndpointOf(hop), i + 1 == |chain|)] + TunnelEvents(hop, h, i);
            log + HopEvents(chain, o, i)
            == if !Tunnels(h, i) then reach
               else if !Connects(h, i) then reach + HandshakeEvents(hop, h, i)
               else reach + HandshakeEvents(hop, h, i) + ([Opened(i)] + AuthEvents(hop, h, i))
  {
  }

  lemma HopIsSafe(chain: seq<Hop>, o: Oracle, log: seq<Event>, i: nat)
    requires i < |chain| == |o.hops| && Ready(chain, log, i)
    ensures var now := log + HopEvents(chain, o, i);
            && Safe(chain, now)
            && Alive(now) == Below(if Connects(o.hops[i], i) then i + 1 else i)
            && (HopError(chain, o, i).None? ==> Ready(chain, now, i + 1))
  {
    var hop, h := chain[i], o.hops[i];
    var start := [Handler(i, EndpointOf(hop), i + 1 == |chain|)];
    HopEventsCut(chain, o, log, i);
    HandlerIsSafe(chain, log, i);
    TunnelIsSafe(chain, h, log + start, i);
    var reach := log + start + TunnelEvents(hop, h, i);
    if Tunnels(h, i) {
      HandshakeIsSafe(chain, h, reach, i);
      if Connects(h, i) {
        AuthIsSafe(chain, h, reach + HandshakeEvents(hop, h, i), i);
      }
    }
  }

  lemma {:induction false} TraceIsReady(chain: seq<Hop>, o: Oracle, i: nat)
    requires |chain| == |o.hops| && i <= Failure(chain, o)
    ensures Ready(chain, Trace(chain, o, i), i)
  {
    if i > 0 {
      TraceIsReady(chain, o, i - 1);
      HopIsSafe(chain, o, Trace(chain, o, i - 1), i - 1);
      assert HopError(chain, o, i - 1).None?;
    }
  }

  /** The dial log without its last event, and that event. */
  lemma DialLogEnds(chain: seq<Hop>, o: Oracle) returns (front: seq<Event>, last: Event)
    requires |chain| == |o.hops| > 0
    ensures DialLog(chain, o) == front + [last]
    ensures Safe(chain, front)
    ensures DialResult(chain, o).Ok? ==> last == ShellUp && AllAuthed(front, |chain|) && Alive(front) == Below(|chain|)
    ensures DialResult(chain, o).Err? ==> last == Dropped(Alive(front))
  {
    var f := Failure(chain, o);
    TraceIsReady(chain, o, f);
    front := Trace(chain, o, f);
    if f < |chain| {
      HopIsSafe(chain, o, front, f);
      front := front + HopEvents(chain, o, f);
      last := Dropped(Below(if Connects(o.hops[f], f) then f + 1 else f));
    } else {
      last := if o.shellFailure.Some? then Dropped(Below(f)) else ShellUp;
    }
  }

  /** Every event of every dial is justified. */
  lemma DialIsSafe(chain: seq<Hop>, o: Oracle)
    requires |chain| == |o.hops| > 0
    ensures Safe(chain, DialLog(chain, o))
    ensures var log := DialLog(chain, o); forall j :: 0 <= j < |log| ==> Justified(chain, log[..j], log[j])
    ensures Alive(DialLog(chain, o)) == if DialResult(chain, o).Ok? then Below(|chain|) else {}
  {
    var front, last := DialLogEnds(chain, o);
    SafeSnoc(chain, front, last);
    AliveSnoc(front, last);
    forall j | 0 <= j < |DialLog(chain, o)| ensures Justified(chain, DialLog(chain, o)[..j], DialLog(chain, o)[j]) {
      SafeMeansJustified(chain, DialLog(chain, o), j);
    }
  }

  /**
   Hop i's credentials are offered only to hop i, and only after the verifier accepted each of the endpoints
   0..i and each of the hops 0..i-1 authenticated.
   */
  lemma OfferComesAfterAll(chain: seq<Hop>, o: Oracle, j: nat, k: nat)
    requires |chain| == |o.hops| > 0 && j < |DialLog(chain, o)| && DialLog(chain, o)[j].Offer?
    requires k <= DialLog(chain, o)[j].hop
    ensures var log := DialLog(chain, o);
            var i := log[j].hop;
            && i < |chain| && log[j].auth == chain[i].auth && log[j].user == chain[i].user
            && Approved(chain, log[..j], k)
            && (k < i ==> Authed(k) in log[..j])
  {
    hide DialLog, Safe, Alive, AllAuthed, AllApproved, Approved;
    var past, i := DialLog(chain, o)[..j], DialLog(chain, o)[j].hop;
    DialIsSafe(chain, o);
    AllMeansEach(chain, past, i + 1, k);
    if k < i {
      AllMeansEach(chain, past, i, k);
    }
  }

  // ----- the verifier sees the chain in order

  function Consulted(log: seq<Event>): (seen: seq<Endpoint>) {
    if log == [] then []
    else Consulted(log[..|log| - 1]) + (if log[|log| - 1].Consult? then [log[|log| - 1].endpoint] else [])
  }

  function Endpoints(chain: seq<Hop>): (e: seq<Endpoint>)
    ensures |e| == |chain|
  {
    seq(|chain|, i requires 0 <= i < |chain| => EndpointOf(chain[i]))
  }

  lemma {:induction false} ConsultedAppend(a: seq<Event>, b: seq<Event>)
    ensures Consulted(a + b) == Consulted(a) + Consulted(b)
  {
    if b == [] {
      assert a + b == a;
    } else {
      assert (a + b)[..|a + b| - 1] == a + b[..|b| - 1];
      ConsultedAppend(a, b[..|b| - 1]);
    }
  }

  lemma ConsultedOfNone()
    ensures Consulted([]) == []
  {
  }

  lemma ConsultedOfOne(e: Event)
    ensures Consulted([e]) == if e.Consult? then [e.endpoint] else []
  {
    assert [e][..0] == [];
  }

  lemma ConsultedInHop(chain: seq<Hop>, o: Oracle, i: nat)
    requires i < |chain| == |o.hops|
    ensures Consulted(HopEvents(chain, o, i)) <= [EndpointOf(chain[i])]
    ensures HopError(chain, o, i).None? ==> Consulted(HopEvents(chain, o, i)) == [EndpointOf(chain[i])]
  {
    hide Consulted, AuthFailure;
    var hop, h := chain[i], o.hops[i];
    var start := [Handler(i, EndpointOf(hop), i + 1 == |chain|)];
    var tunnel := TunnelEvents(hop, h, i);
    var consult := if Tunnels(h, i) then HandshakeEvents(hop, h, i) else [];
    var auth := if Connects(h, i) then [Opened(i)] + AuthEvents(hop, h, i) else [];
    ConsultedAppend(start + tunnel + consult, auth);
    ConsultedAppend(start + tunnel, consult);
    ConsultedAppend(start, tunnel);
    ConsultedOfNone();
    ConsultedOfOne(start[0]);
    if i > 0 {
      ConsultedOfOne(tunnel[0]);
    }
    if consult != [] {
      assert consult == [consult[0]];
      ConsultedOfOne(consult[0]);
    }
    NoConsultInAuth(hop, h, i);
  }

  lemma NoConsultInAuth(hop: Hop, h: HopOracle, i: nat)
    ensures Consulted([Opened(i)] + AuthEvents(hop, h, i)) == []
  {
    var offer := Offer(i, hop.user, hop.auth);
    ConsultedAppend([Opened(i)], AuthEvents(hop, h, i));
    ConsultedOfOne(Opened(i));
    ConsultedAppend([offer], [Authed(i)]);
    ConsultedOfOne(offer);
    ConsultedOfOne(Authed(i));
    assert [offer] + [] == [offer];
  }

  lemma {:induction false} ConsultedInTrace(chain: seq<Hop>, o: Oracle, i: nat)
    requires |chain| == |o.hops| && i <= Failure(chain, o)
    ensures Consulted(Trace(chain, o, i)) == Endpoints(chain)[..i]
  {
    hide Consulted, HopEvents, HopError;
    if i == 0 {
      ConsultedOfNone();
    } else {
      ConsultedInTrace(chain, o, i - 1);
      ConsultedAppend(Trace(chain, o, i - 1), HopEvents(chain, o, i - 1));
      assert Consulted(HopEvents(chain, o, i - 1)) == [EndpointOf(chain[i - 1])] by {
        ConsultedInHop(chain, o, i - 1);
        assert HopError(chain, o, i - 1).None?;
      }
      assert Endpoints(chain)[..i] == Endpoints(chain)[..i - 1] + [EndpointOf(chain[i - 1])];
    }
  }

  lemma ConsultedInLog(chain: seq<Hop>, o: Oracle)
    requires |chain| == |o.hops| > 0
    ensures var f := Failure(chain, o);
            Consulted(DialLog(chain, o))
            == Consulted(Trace(chain, o, f)) + (if f < |chain| then Consulted(HopEvents(chain, o, f)) else [])
  {
    var f := Failure(chain, o);
    var log := if f < |chain| then Trace(chain, o, f) + HopEvents(chain, o, f) else Trace(chain, o, f);
    var last := DialLog(chain, o)[|log|];
    assert DialLog(chain, o) == log + [last];
    ConsultedAppend(log, [last]);
    ConsultedOfOne(last);
    if f < |chain| {
      ConsultedAppend(Trace(chain, o, f), HopEvents(chain, o, f));
    }
  }

  lemma PrefixSnoc(all: seq<Endpoint>, f: nat, more: seq<Endpoint>)
    requires f < |all| && more <= [all[f]]
    ensures all[..f] + more <= all
  {
    assert more == [] || more == [all[f]];
  }

  /** The verifier is asked about a prefix of the chain, in order, each hop with its own endpoint. */
  lemma VerifierSeesPrefix(chain: seq<Hop>, o: Oracle)
    requires |chain| == |o.hops| > 0
    ensures Consulted(DialLog(chain, o)) <= Endpoints(chain)
    ensures DialResult(chain, o).Ok? ==> Consulted(DialLog(chain, o)) == Endpoints(chain)
  {
    var f := Failure(chain, o);
    ConsultedInLog(chain, o);
    ConsultedInTrace(chain, o, f);
    if f < |chain| {
      assert DialResult(chain, o).Err?;
      ConsultedInHop(chain, o, f);
      PrefixSnoc(Endpoints(chain), f, Consulted(HopEvents(chain, o, f)));
    }
  }

  // ----- nothing past the first failure

  predicate Touches(e: Event, i: nat) {
    match e
    case ShellUp => false
    case Dropped(s) => i in s
    case _ => e.hop == i
  }

  lemma {:induction false} TraceTouches(chain: seq<Hop>, o: Oracle, n: nat, i: nat)
    requires n <= |chain| == |o.hops| && n <= i
    ensures forall e :: e in Trace(chain, o, n) ==> !Touches(e, i)
  {
    if n > 0 {
      TraceTouches(chain, o, n - 1, i);
      assert forall e :: e in HopEvents(chain, o, n - 1) ==> !Touches(e, i);
    }
  }

  /** No event of any kind concerns a hop after the first one that fails. */
  lemma NothingPastFailure(chain: seq<Hop>, o: Oracle, i: nat)
    requires |chain| == |o.hops| && Failure(chain, o) < i
    ensures forall e :: e in DialLog(chain, o) ==> !Touches(e, i)
  {
    var f := Failure(chain, o);
    TraceTouches(chain, o, f, i);
    if f < |chain| {
      assert forall e :: e in HopEvents(chain, o, f) ==> !Touches(e, i);
    }
  }

  // ----- attribution

  /** Hop i came up completely. */
  predicate Usable(chain: seq<Hop>, o: Oracle, i: nat)
    requires i < |chain| == |o.hops|
  {
    Connects(o.hops[i], i) && AuthFailure(chain[i], o.hops[i]).None?
  }

  /**
   A dial fails at the first unusable hop f, and its error names a hop only to name f: for a refused
   tunnel, or a refused credential before the target. The target's own refusal stays unlabelled, and
   a verifier that says no is always reported as such.
   */
  lemma ErrorNamesFirstFailure(chain: seq<Hop>, o: Oracle) returns (f: nat)
    requires |chain| == |o.hops| > 0
    ensures f <= |chain| && (forall j :: 0 <= j < f ==> Usable(chain, o, j))
    ensures f == |chain| ==> (DialResult(chain, o).Ok? <==> o.shellFailure.None?)
    ensures f < |chain| ==>
              var h, r := o.hops[f], DialResult(chain, o);
              var here := Some(EndpointOf(chain[f]));
              && !Usable(chain, o, f)
              && (!Tunnels(h, f) ==> r == Err(Connect(here, h.refusal.value)))
              && (Tunnels(h, f) && h.handshake.Presents? && !h.handshake.verdict ==> r == Err(HostKeyRejected))
              && (Tunnels(h, f) && !Connects(h, f) ==>
                    r.Err? && (r.error.Connect? || r.error.Auth? ==> r.error.at == None))
              && (Connects(h, f) ==>
                    r == Err(Auth(if f + 1 == |chain| then None else here, AuthFailure(chain[f], h).value)))
  {
    f := Failure(chain, o);
    forall j | 0 <= j < f ensures Usable(chain, o, j) {
      assert HopError(chain, o, j).None?;
    }
  }

  /** A session owns the whole chain: the target as handle, every hop as a parent, in dialing order. */
  lemma SessionOwnsChain(chain: seq<Hop>, o: Oracle)
    requires |chain| == |o.hops| > 0
    ensures DialResult(chain, o).Ok? ==>
              var owned := DialResult(chain, o).value;
              && owned.handle == |chain| - 1
              && |owned.parents| == |chain| - 1
              && (forall i :: 0 <= i < |owned.parents| ==> owned.parents[i] == i)
              && (set p | p in owned.parents) + {owned.handle} == Alive(DialLog(chain, o))
    ensures DialResult(chain, o).Err? ==> Alive(DialLog(chain, o)) == {}
  {
    DialIsSafe(chain, o);
    if DialResult(chain, o).Ok? {
      HeldIsBelow(|chain| - 1);
    }
  }
}
