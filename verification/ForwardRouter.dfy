/**
 Remote forwards (ssh-transport/src/lib.rs: ForwardRouter, the forwarded-tcpip callback of
 ProbeHandler, and the router's life inside connect_inner): an unbounded queue that lives as long as
 it has senders, and the dispatch loop that hands its items to the sink.
 */
module ForwardRouter {
  import opened Wrappers

  /** An inbound channel: the connection it came in on, and a number that tells channels apart. */
  datatype Item = Item(conn: nat, bindHost: string, bindPort: nat, channel: nat)

  /** A running callback: it holds a clone of the sender from before its send until after it. */
  datatype Callback = Callback(item: Item, sent: bool)

  /** The handler of one connection: whether it was given the router, and the callback it runs. */
  datatype ProbeHandler = ProbeHandler(forwards: bool, callback: Option<Callback>)

  datatype Dispatcher = Receiving | Delivering(item: Item) | Exited

  /**
   `built` handlers were made so far, for connections 0, 1, ...; `handlers` are the live ones.
   `arrivals` are the channels accepted on any connection, `lost` the sends that found no receiver.
   */
  datatype State = State(
    dialing: bool,
    built: nat,
    handlers: map<nat, ProbeHandler>,
    senders: nat,
    queue: seq<Item>,
    dispatcher: Dispatcher,
    arrivals: seq<Item>,
    delivered: seq<Item>,
    lost: seq<Item>)

  /** connect_inner has made the queue, spawned the loop, and owns the only sender. */
  const INIT := State(true, 0, map[], 1, [], Receiving, [], [], [])

  datatype Step =
    | BuildHandler
    | AcceptForward(item: Item)
    | SendItem(conn: nat)
    | CallbackReturns(conn: nat)
    | DropHandler(conn: nat)
    | DialReturns
    | Receive
    | Deliver
    | Exit

  /** Steps of a session with `hops` jump hops, whose target is connection `hops`. A handler runs one callback at a time. */
  predicate Enabled(s: State, step: Step, hops: nat) {
    match step
    case BuildHandler => s.dialing && s.built <= hops
    case AcceptForward(item) => item.conn in s.handlers && s.handlers[item.conn].callback.None?
    case SendItem(c) => c in s.handlers && s.handlers[c].callback.Some? && !s.handlers[c].callback.value.sent
    case CallbackReturns(c) => c in s.handlers && s.handlers[c].callback.Some? && s.handlers[c].callback.value.sent
    case DropHandler(c) => c in s.handlers && s.handlers[c].callback.None?
    case DialReturns => s.dialing
    case Receive => s.dispatcher.Receiving? && s.queue != []
    case Deliver => s.dispatcher.Delivering?
    case Exit => s.dispatcher.Receiving? && s.queue == [] && s.senders == 0
  }

  function Less(n: nat): (m: nat) {
    if n == 0 then 0 else n - 1
  }

  /** The callback replies first; only a handler with a router clones it and goes on. */
  function Accepted(s: State, item: Item): (s': State)
    requires item.conn in s.handlers
  {
    var heard := s.(arrivals := s.arrivals + [item]);
    var h := s.handlers[item.conn];
    if h.forwards then
      heard.(handlers := s.handlers[item.conn := h.(callback := Some(Callback(item, false)))], senders := s.senders + 1)
    else
      heard
  }

  function Next(s: State, step: Step, hops: nat): (s': State)
    requires Enabled(s, step, hops)
  {
    match step
    case BuildHandler =>
      var isTarget := s.built == hops;
      s.(built := s.built + 1, handlers := s.handlers[s.built := ProbeHandler(isTarget, None)],
         senders := s.senders + One(isTarget))
    case AcceptForward(item) => Accepted(s, item)
    case SendItem(c) =>
      var item := s.handlers[c].callback.value.item;
      var sent := s.(handlers := s.handlers[c := s.handlers[c].(callback := Some(Callback(item, true)))]);
      if s.dispatcher.Exited? then sent.(lost := s.lost + [item]) else sent.(queue := s.queue + [item])
    case CallbackReturns(c) =>
      s.(handlers := s.handlers[c := s.handlers[c].(callback := None)], senders := Less(s.senders))
    case DropHandler(c) =>
      s.(handlers := s.handlers - {c}, senders := if s.handlers[c].forwards then Less(s.senders) else s.senders)
    case DialReturns => s.(dialing := false, senders := Less(s.senders))
    case Receive => s.(dispatcher := Delivering(s.queue[0]), queue := s.queue[1..])
    case Deliver => s.(dispatcher := Receiving, delivered := s.delivered + [s.dispatcher.item])
    case Exit => s.(dispatcher := Exited)
  }

  predicate Runs(s: State, steps: seq<Step>, hops: nat)
    decreases |steps|
  {
    steps == [] || (Enabled(s, steps[0], hops) && Runs(Next(s, steps[0], hops), steps[1..], hops))
  }

  function After(s: State, steps: seq<Step>, hops: nat): (s': State)
    requires Runs(s, steps, hops)
    decreases |steps|
  {
    if steps == [] then s else After(Next(s, steps[0], hops), steps[1..], hops)
  }

  // ----- the invariant

  function One(b: bool): (n: nat) {
    if b then 1 else 0
  }

  /** The callback that the handler of connection c runs. */
  function CallbackOf(s: State, c: nat): (callback: Option<Callback>) {
    if c in s.handlers then s.handlers[c].callback else None
  }

  /** Accepted by the target's handler and not yet sent. */
  function ToSend(s: State, target: nat): (items: seq<Item>) {
    var callback := CallbackOf(s, target);
    if callback.Some? && !callback.value.sent then [callback.value.item] else []
  }

  /** Accepted and not yet delivered, oldest first. */
  function InFlight(s: State, target: nat): (items: seq<Item>) {
    (if s.dispatcher.Delivering? then [s.dispatcher.item] else []) + s.queue + ToSend(s, target)
  }

  /** The channels accepted on connection c, in order. */
  function OnConn(items: seq<Item>, c: nat): (r: seq<Item>)
    ensures forall i :: 0 <= i < |r| ==> r[i].conn == c && r[i] in items
  {
    if items == [] then []
    else OnConn(items[..|items| - 1], c) + (if items[|items| - 1].conn == c then [items[|items| - 1]] else [])
  }

  lemma OnConnSnoc(items: seq<Item>, item: Item, c: nat)
    ensures OnConn(items + [item], c) == OnConn(items, c) + (if item.conn == c then [item] else [])
  {
    assert (items + [item])[..|items|] == items;
  }

  /** Only the target's handler was given the router, so only it ever runs a callback past the reply. */
  predicate HandlersOk(s: State, target: nat) {
    && (forall c :: c in s.handlers ==> c < s.built && (s.handlers[c].forwards <==> c == target))
    && (forall c :: c in s.handlers && s.handlers[c].callback.Some? ==>
          c == target && s.handlers[c].callback.value.item.conn == target)
  }

  predicate SendersOk(s: State, target: nat) {
    && s.senders == One(s.dialing) + One(target in s.handlers) + One(CallbackOf(s, target).Some?)
    && (s.dispatcher.Exited? ==> s.senders == 0 && s.queue == [])
    && s.lost == []
  }

  predicate Inv(s: State, target: nat) {
    && HandlersOk(s, target)
    && SendersOk(s, target)
    && s.delivered + InFlight(s, target) == OnConn(s.arrivals, target)
    && (s.built <= target ==> OnConn(s.arrivals, target) == [])
  }

  lemma HandlersNext(s: State, step: Step, hops: nat)
    requires HandlersOk(s, hops) && Enabled(s, step, hops)
    ensures HandlersOk(Next(s, step, hops), hops)
  {
  }

  lemma SendersNext(s: State, step: Step, hops: nat)
    requires HandlersOk(s, hops) && SendersOk(s, hops) && Enabled(s, step, hops)
    ensures SendersOk(Next(s, step, hops), hops)
  {
  }

  /** What the target's handler has still to send: one item more after its accept, one less after its send. */
  lemma ToSendNext(s: State, step: Step, hops: nat)
    requires HandlersOk(s, hops) && Enabled(s, step, hops)
    ensures var s' := Next(s, step, hops);
            && (step.AcceptForward? ==>
                  ToSend(s', hops) == ToSend(s, hops) + (if step.item.conn == hops then [step.item] else []))
            && (step.SendItem? ==> ToSend(s, hops) == [s.handlers[step.conn].callback.value.item] && ToSend(s', hops) == [])
            && (!step.AcceptForward? && !step.SendItem? ==> ToSend(s', hops) == ToSend(s, hops))
  {
  }

  lemma FlightOfReceive(s: State, hops: nat)
    requires HandlersOk(s, hops) && Enabled(s, Receive, hops)
    ensures var s' := Next(s, Receive, hops); s'.delivered == s.delivered && InFlight(s', hops) == InFlight(s, hops)
  {
    hide ToSend;
    ToSendNext(s, Receive, hops);
    assert [s.queue[0]] + s.queue[1..] == s.queue;
  }

  lemma FlightOfDeliver(s: State, hops: nat)
    requires HandlersOk(s, hops) && Enabled(s, Deliver, hops)
    ensures var s' := Next(s, Deliver, hops); s'.delivered + InFlight(s', hops) == s.delivered + InFlight(s, hops)
  {
    hide ToSend;
    ToSendNext(s, Deliver, hops);
    assert InFlight(s, hops) == [s.dispatcher.item] + InFlight(Next(s, Deliver, hops), hops);
  }

  /** A step moves items along, or adds the one the target's handler just accepted at the end. */
  lemma FlightNext(s: State, step: Step, hops: nat)
    requires HandlersOk(s, hops) && SendersOk(s, hops) && Enabled(s, step, hops)
    ensures var s' := Next(s, step, hops);
            s'.delivered + InFlight(s', hops)
            == s.delivered + InFlight(s, hops) + (if step.AcceptForward? && step.item.conn == hops then [step.item] else [])
  {
    if step.Receive? {
      FlightOfReceive(s, hops);
    } else if step.Deliver? {
      FlightOfDeliver(s, hops);
    } else {
      FlightOfHandlers(s, step, hops);
    }
  }

  lemma FlightOfHandlers(s: State, step: Step, hops: nat)
    requires HandlersOk(s, hops) && SendersOk(s, hops) && Enabled(s, step, hops) && !step.Receive? && !step.Deliver?
    ensures var s' := Next(s, step, hops);
            && s'.delivered == s.delivered
            && InFlight(s', hops) == InFlight(s, hops) + (if step.AcceptForward? && step.item.conn == hops then [step.item] else [])
  {
    hide ToSend;
    ToSendNext(s, step, hops);
    var s' := Next(s, step, hops);
    assert s'.dispatcher == s.dispatcher || step.Exit?;
    assert s'.queue == s.queue || (step.SendItem? && s'.queue == s.queue + ToSend(s, hops) && ToSend(s', hops) == []);
  }

  lemma InvNext(s: State, step: Step, hops: nat)
    requires Inv(s, hops) && Enabled(s, step, hops)
    ensures Inv(Next(s, step, hops), hops)
  {
    HandlersNext(s, step, hops);
    SendersNext(s, step, hops);
    FlightNext(s, step, hops);
    if step.AcceptForward? {
      OnConnSnoc(s.arrivals, step.item, hops);
    }
  }

  lemma {:induction false} InvRun(s: State, steps: seq<Step>, hops: nat)
    requires Inv(s, hops) && Runs(s, steps, hops)
    ensures Inv(After(s, steps, hops), hops)
    decreases |steps|
  {
    if steps != [] {
      InvNext(s, steps[0], hops);
      InvRun(Next(s, steps[0], hops), steps[1..], hops);
    }
  }

  // ----- theorems over every run

  /**
   Conservation, on a session with `hops` hops: what the sink has, then what is on its way, is the
   sequence of channels accepted on the target's connection, in order. No send is lost, and a channel
   accepted on a hop's connection never shows up, because no hop's handler has the router.
   */
  lemma NothingLostNothingForged(steps: seq<Step>, hops: nat)
    requires Runs(INIT, steps, hops)
    ensures var s := After(INIT, steps, hops);
            && s.delivered + InFlight(s, hops) == OnConn(s.arrivals, hops)
            && s.lost == []
            && (forall i :: 0 <= i < |s.delivered| ==> s.delivered[i].conn == hops)
            && (forall c :: c in s.handlers && s.handlers[c].callback.Some? ==> c == hops)
  {
    InvRun(INIT, steps, hops);
    var s := After(INIT, steps, hops);
    assert forall i :: 0 <= i < |s.delivered| ==> s.delivered[i] == OnConn(s.arrivals, hops)[i];
  }

  /**
   The loop may exit exactly when the dial has returned, the target's handler is gone or was never
   built, and every channel accepted on the target has been delivered.
   */
  lemma ExitsExactly(steps: seq<Step>, hops: nat)
    requires Runs(INIT, steps, hops)
    ensures var s := After(INIT, steps, hops);
            var drained := !s.dialing && hops !in s.handlers && s.delivered == OnConn(s.arrivals, hops);
            && (Enabled(s, Exit, hops) <==> !s.dispatcher.Exited? && drained)
            && (s.dispatcher.Exited? ==> drained)
  {
    InvRun(INIT, steps, hops);
    var s := After(INIT, steps, hops);
    if !s.dispatcher.Exited? && s.delivered == OnConn(s.arrivals, hops) {
      assert |InFlight(s, hops)| == 0;
    }
  }

  /** Steps of the dispatch loop alone. */
  predicate LoopOnly(steps: seq<Step>) {
    forall i :: 0 <= i < |steps| ==> steps[i].Receive? || steps[i].Deliver? || steps[i].Exit?
  }

  /** Once the senders are gone the loop drains the queue by itself, delivers everything, and exits. */
  lemma {:induction false} LoopDrains(s: State, hops: nat) returns (steps: seq<Step>)
    requires Inv(s, hops) && s.senders == 0
    ensures Runs(s, steps, hops) && LoopOnly(steps)
    ensures var e := After(s, steps, hops);
            e.dispatcher.Exited? && e.delivered == OnConn(s.arrivals, hops) && e.arrivals == s.arrivals
    decreases 2 * |s.queue| + One(s.dispatcher.Delivering?) + One(!s.dispatcher.Exited?)
  {
    if s.dispatcher.Exited? {
      steps := [];
      assert s.delivered + [] == s.delivered;
    } else {
      var step := if s.dispatcher.Delivering? then Deliver else if s.queue != [] then Receive else Exit;
      var now := Next(s, step, hops);
      InvNext(s, step, hops);
      var rest := LoopDrains(now, hops);
      steps := [step] + rest;
      assert steps[1..] == rest;
    }
  }

  /** In particular after a dial that failed before the target's handler was built. */
  lemma FailedDialExits(steps: seq<Step>, hops: nat) returns (rest: seq<Step>)
    requires Runs(INIT, steps, hops)
    requires var s := After(INIT, steps, hops); !s.dialing && s.built <= hops
    ensures Runs(After(INIT, steps, hops), rest, hops) && LoopOnly(rest)
    ensures var e := After(After(INIT, steps, hops), rest, hops); e.dispatcher.Exited? && e.delivered == []
  {
    InvRun(INIT, steps, hops);
    rest := LoopDrains(After(INIT, steps, hops), hops);
  }

  // ----- the loop as a method

  /** The receiving end: what will come out of it before it reports that no sender is left. */
  class Receiver {
    var coming: seq<Item>

    constructor (coming: seq<Item>)
      ensures this.coming == coming
    {
      this.coming := coming;
    }

    method Recv() returns (item: Option<Item>)
      modifies this
      ensures if old(coming) == [] then item == None && coming == []
              else item == Some(old(coming)[0]) && coming == old(coming)[1..]
    {
      if coming == [] {
        return None;
      }
      item := Some(coming[0]);
      coming := coming[1..];
    }
  }

  class Sink {
    var connections: seq<Item>

    constructor ()
      ensures connections == []
    {
      connections := [];
    }

    method OnConnection(item: Item)
      modifies this
      ensures connections == old(connections) + [item]
    {
      connections := connections + [item];
    }
  }

  /** dispatch_loop: every item goes to the sink, in order, until the receiver ends. */
  method DispatchLoop(sink: Sink, rx: Receiver)
    modifies sink, rx
    ensures sink.connections == old(sink.connections) + old(rx.coming)
    ensures rx.coming == []
  {
    ghost var all := rx.coming;
    var next := rx.Recv();
    while next.Some?
      invariant sink.connections + (if next.Some? then [next.value] else []) + rx.coming == old(sink.connections) + all
      invariant next.None? ==> rx.coming == []
      decreases |rx.coming| + (if next.Some? then 1 else 0)
    {
      sink.OnConnection(next.value);
      next := rx.Recv();
    }
  }
}
