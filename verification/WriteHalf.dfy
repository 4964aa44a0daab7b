/**
 The write half of a channel or of a session's shell (ssh-transport/src/lib.rs: write, eof, resize,
 disconnect): an Option under a mutex, emptied by disconnect, whose last messages a spawned task
 sends. Beside it the read half, under a mutex of its own, which read holds for as long as it waits
 for the server. Any number of threads call in; a Step is one thing one of them does.
 */
module WriteHalf {
  import opened Wrappers
  import opened Bytes

  type Tid = nat

  datatype WireMsg = DataMsg(data: seq<byte>) | WindowChange(cols: nat, rows: nat) | EofMsg | CloseMsg

  /** `packets`: how the transport cuts one write into messages. */
  datatype Op = Write(packets: seq<seq<byte>>) | HalfClose | Resize(cols: nat, rows: nat) | Disconnect

  datatype Reply = Done | HalfTaken | SendFailed

  /**
   A thread inside a call. On the write side: waiting for the mutex, sending under it, or about to
   leave it. In read: waiting for the other mutex, or holding it and waiting for the server.
   */
  datatype Pc =
    | Waiting(op: Op)
    | Sending(op: Op, sent: seq<WireMsg>)
    | Leaving(op: Op, sent: seq<WireMsg>, reply: Reply)
    | WantRead
    | Reading

  /** The spawned task of disconnect; a send that fails is ignored. */
  datatype Closer = NotSpawned | BeforeEof | BeforeClose(eofSent: bool) | Finished(eofSent: bool, closeSent: bool)

  /** A finished call: what it put on the wire and what it returned. */
  datatype Call = Call(op: Op, sent: seq<WireMsg>, reply: Reply)

  datatype State = State(
    half: bool,
    lock: Option<Tid>,
    readLock: Option<Tid>,
    threads: map<Tid, Pc>,
    closer: Closer,
    wire: seq<WireMsg>,
    history: seq<Call>)

  const INIT := State(true, None, None, map[], NotSpawned, [], [])

  /** What a call sends when it finds the half in place. */
  function Messages(op: Op): (m: seq<WireMsg>) {
    match op
    case Write(packets) => seq(|packets|, i requires 0 <= i < |packets| => DataMsg(packets[i]))
    case HalfClose => [EofMsg]
    case Resize(cols, rows) => [WindowChange(cols, rows)]
    case Disconnect => []
  }

  datatype Step =
    | Enter(t: Tid, op: Op)
    | Acquire(t: Tid)
    | Send(t: Tid)
    | SendFails(t: Tid)
    | SendsDone(t: Tid)
    | Release(t: Tid)
    | CloserEof(ok: bool)
    | CloserClose(ok: bool)
    | EnterRead(t: Tid)
    | AcquireRead(t: Tid)
    | ReadReturns(t: Tid)

  predicate Enabled(s: State, step: Step) {
    match step
    case Enter(t, _) => t !in s.threads
    case Acquire(t) => t in s.threads && s.threads[t].Waiting? && s.lock.None?
    case Send(t) => t in s.threads && s.threads[t].Sending? && |s.threads[t].sent| < |Messages(s.threads[t].op)|
    case SendFails(t) => t in s.threads && s.threads[t].Sending? && |s.threads[t].sent| < |Messages(s.threads[t].op)|
    case SendsDone(t) => t in s.threads && s.threads[t].Sending? && |s.threads[t].sent| >= |Messages(s.threads[t].op)|
    case Release(t) => t in s.threads && s.threads[t].Leaving?
    case CloserEof(_) => s.closer.BeforeEof?
    case CloserClose(_) => s.closer.BeforeClose?
    case EnterRead(t) => t !in s.threads
    case AcquireRead(t) => t in s.threads && s.threads[t].WantRead? && s.readLock.None?
    case ReadReturns(t) => t in s.threads && s.threads[t].Reading?
  }

  /** Taking the mutex, and what the call does with the Option it guards. */
  function Acquired(s: State, t: Tid): (s': State)
    requires Enabled(s, Acquire(t))
  {
    var op := s.threads[t].op;
    var locked := s.(lock := Some(t));
    if op.Disconnect? then
      locked.(
        half := false,
        closer := if s.half then BeforeEof else s.closer,
        threads := s.threads[t := Leaving(op, [], Done)])
    else if s.half then
      locked.(threads := s.threads[t := Sending(op, [])])
    else
      locked.(threads := s.threads[t := Leaving(op, [], HalfTaken)])
  }

  function Next(s: State, step: Step): (s': State)
    requires Enabled(s, step)
  {
    match step
    case Enter(t, op) => s.(threads := s.threads[t := Waiting(op)])
    case Acquire(t) => Acquired(s, t)
    case Send(t) =>
      var pc := s.threads[t];
      var m := Messages(pc.op)[|pc.sent|];
      s.(wire := s.wire + [m], threads := s.threads[t := Sending(pc.op, pc.sent + [m])])
    case SendFails(t) =>
      var pc := s.threads[t];
      s.(threads := s.threads[t := Leaving(pc.op, pc.sent, SendFailed)])
    case SendsDone(t) =>
      var pc := s.threads[t];
      s.(threads := s.threads[t := Leaving(pc.op, pc.sent, Done)])
    case Release(t) =>
      var pc := s.threads[t];
      s.(lock := None, threads := s.threads - {t}, history := s.history + [Call(pc.op, pc.sent, pc.reply)])
    case CloserEof(ok) =>
      s.(closer := BeforeClose(ok), wire := if ok then s.wire + [EofMsg] else s.wire)
    case CloserClose(ok) =>
      s.(closer := Finished(s.closer.eofSent, ok), wire := if ok then s.wire + [CloseMsg] else s.wire)
    case EnterRead(t) => s.(threads := s.threads[t := WantRead])
    case AcquireRead(t) => s.(readLock := Some(t), threads := s.threads[t := Reading])
    case ReadReturns(t) => s.(readLock := None, threads := s.threads - {t})
  }

  /** A run: every step is enabled where it happens. */
  predicate Runs(s: State, steps: seq<Step>)
    decreases |steps|
  {
    steps == [] || (Enabled(s, steps[0]) && Runs(Next(s, steps[0]), steps[1..]))
  }

  function After(s: State, steps: seq<Step>): (s': State)
    requires Runs(s, steps)
    decreases |steps|
  {
    if steps == [] then s else After(Next(s, steps[0]), steps[1..])
  }

  lemma RunsNone(s: State)
    ensures Runs(s, []) && After(s, []) == s
  {
  }

  lemma RunsCons(s: State, step: Step, rest: seq<Step>)
    requires Enabled(s, step) && Runs(Next(s, step), rest)
    ensures Runs(s, [step] + rest) && After(s, [step] + rest) == After(Next(s, step), rest)
  {
    assert ([step] + rest)[1..] == rest;
  }

  lemma {:induction false} RunsAppend(s: State, a: seq<Step>, b: seq<Step>)
    requires Runs(s, a) && Runs(After(s, a), b)
    ensures Runs(s, a + b) && After(s, a + b) == After(After(s, a), b)
    decreases |a|
  {
    if a == [] {
      assert a + b == b;
    } else {
      assert (a + b)[1..] == a[1..] + b;
      RunsAppend(Next(s, a[0]), a[1..], b);
    }
  }

  lemma RunsSnoc(s: State, a: seq<Step>, step: Step)
    requires Runs(s, a) && Enabled(After(s, a), step)
    ensures Runs(s, a + [step]) && After(s, a + [step]) == Next(After(s, a), step)
  {
    RunsCons(After(s, a), step, []);
    assert [step] + [] == [step];
    RunsAppend(s, a, [step]);
  }

  // ----- the invariant

  /** Inside the critical section of the write mutex. */
  predicate InSection(pc: Pc) {
    pc.Sending? || pc.Leaving?
  }

  /** What the thread holding the mutex has sent so far. */
  function HolderSent(s: State): (m: seq<WireMsg>) {
    if s.lock.Some? && s.lock.value in s.threads && InSection(s.threads[s.lock.value])
    then s.threads[s.lock.value].sent else []
  }

  function Joined(history: seq<Call>): (m: seq<WireMsg>) {
    if history == [] then [] else Joined(history[..|history| - 1]) + history[|history| - 1].sent
  }

  /** What the close task has sent. */
  function CloserSent(c: Closer): (m: seq<WireMsg>) {
    match c
    case NotSpawned => []
    case BeforeEof => []
    case BeforeClose(eofSent) => if eofSent then [EofMsg] else []
    case Finished(eofSent, closeSent) =>
      (if eofSent then [EofMsg] else []) + (if closeSent then [CloseMsg] else [])
  }

  predicate MutexHeld(s: State) {
    && (forall t :: t in s.threads ==> (InSection(s.threads[t]) <==> s.lock == Some(t)))
    && (s.lock.Some? ==> s.lock.value in s.threads)
  }

  predicate ReadMutexHeld(s: State) {
    && (forall t :: t in s.threads ==> (s.threads[t].Reading? <==> s.readLock == Some(t)))
    && (s.readLock.Some? ==> s.readLock.value in s.threads)
  }

  /** Calls send a prefix of their messages, all of them when they report success, none once the half is gone. */
  predicate Honest(op: Op, sent: seq<WireMsg>, reply: Reply) {
    && sent <= Messages(op)
    && (reply.Done? ==> sent == Messages(op))
    && (reply.HalfTaken? ==> sent == [] && !op.Disconnect?)
  }

  predicate HolderOk(s: State) {
    s.lock.Some? && s.lock.value in s.threads ==>
      match s.threads[s.lock.value]
      case Sending(op, sent) => s.half && !op.Disconnect? && sent <= Messages(op)
      case Leaving(op, sent, reply) =>
        Honest(op, sent, reply) && (op.Disconnect? ==> reply.Done?) && (s.half <==> !op.Disconnect? && !reply.HalfTaken?)
      case _ => true
  }

  /** Once a disconnect is in the history every later call finds the half taken, and only then. */
  predicate HistoryOk(history: seq<Call>, half: bool) {
    if history == [] then
      half
    else
      var front, c := history[..|history| - 1], history[|history| - 1];
      if c.op.Disconnect? then
        !half && c.reply.Done? && c.sent == [] && (HistoryOk(front, true) || HistoryOk(front, false))
      else
        Honest(c.op, c.sent, c.reply) && (half <==> !c.reply.HalfTaken?) && HistoryOk(front, half)
  }

  predicate HalfOk(s: State) {
    (s.half <==> s.closer.NotSpawned?)
    && (var leaving := s.lock.Some? && s.lock.value in s.threads && s.threads[s.lock.value].Leaving?
                       && s.threads[s.lock.value].op.Disconnect?;
        if leaving then HistoryOk(s.history, true) || HistoryOk(s.history, false)
        else HistoryOk(s.history, s.half))
  }

  predicate Inv(s: State) {
    && MutexHeld(s)
    && ReadMutexHeld(s)
    && HolderOk(s)
    && HalfOk(s)
    && (HolderSent(s) != [] ==> s.half)
    && s.wire == Joined(s.history) + HolderSent(s) + CloserSent(s.closer)
  }

  lemma InvInit()
    ensures Inv(INIT)
  {
  }

  lemma JoinedSnoc(history: seq<Call>, c: Call)
    ensures Joined(history + [c]) == Joined(history) + c.sent
  {
    assert (history + [c])[..|history|] == history;
  }

  lemma HistorySnoc(history: seq<Call>, c: Call, half: bool)
    requires Honest(c.op, c.sent, c.reply) && (half <==> !c.op.Disconnect? && !c.reply.HalfTaken?)
    requires c.op.Disconnect? ==> c.reply.Done? && (HistoryOk(history, true) || HistoryOk(history, false))
    requires !c.op.Disconnect? ==> HistoryOk(history, half)
    ensures HistoryOk(history + [c], half)
  {
    assert (history + [c])[..|history|] == history;
  }

  lemma InvAcquire(s: State, t: Tid)
    requires Inv(s) && Enabled(s, Acquire(t))
    ensures Inv(Next(s, Acquire(t)))
  {
    hide Joined;
    assert HolderSent(s) == [] && HolderSent(Next(s, Acquire(t))) == [];
  }

  lemma InvSend(s: State, step: Step)
    requires Inv(s) && Enabled(s, step) && (step.Send? || step.SendFails? || step.SendsDone?)
    ensures Inv(Next(s, step))
  {
    var s' := Next(s, step);
    assert s.lock == Some(step.t) == s'.lock;
    if step.Send? {
      assert CloserSent(s.closer) == [];
      assert HolderSent(s') == HolderSent(s) + [Messages(s.threads[step.t].op)[|HolderSent(s)|]];
    }
  }

  lemma ReleaseFrees(s: State, t: Tid)
    requires MutexHeld(s) && ReadMutexHeld(s) && Enabled(s, Release(t))
    ensures s.lock == Some(t)
    ensures var s' := Next(s, Release(t));
            MutexHeld(s') && ReadMutexHeld(s') && s'.lock.None? && HolderOk(s') && HolderSent(s') == []
  {
    hide Honest, Messages;
    var s' := Next(s, Release(t));
    assert s.lock == Some(t) && s.readLock != Some(t);
    assert forall u :: u in s'.threads ==> u in s.threads && s'.threads[u] == s.threads[u];
  }

  lemma ReleaseRecords(s: State, t: Tid)
    requires Enabled(s, Release(t)) && s.lock == Some(t) && HolderOk(s) && HalfOk(s)
    ensures HalfOk(Next(s, Release(t)))
  {
    hide HistoryOk, Honest;
    var pc := s.threads[t];
    HistorySnoc(s.history, Call(pc.op, pc.sent, pc.reply), s.half);
  }

  lemma InvRelease(s: State, t: Tid)
    requires Inv(s) && Enabled(s, Release(t))
    ensures Inv(Next(s, Release(t)))
  {
    hide MutexHeld, ReadMutexHeld, HolderOk, HalfOk, Joined, CloserSent;
    var pc := s.threads[t];
    ReleaseFrees(s, t);
    ReleaseRecords(s, t);
    JoinedSnoc(s.history, Call(pc.op, pc.sent, pc.reply));
  }

  predicate OfReader(step: Step) {
    step.EnterRead? || step.AcquireRead? || step.ReadReturns?
  }

  lemma InvCloser(s: State, step: Step)
    requires Inv(s) && Enabled(s, step) && (step.CloserEof? || step.CloserClose?)
    ensures Inv(Next(s, step))
  {
    hide Joined, HistoryOk;
    assert HolderSent(s) == [] == HolderSent(Next(s, step));
  }

  /** Entering a call, and all that readers do, leaves the write side alone. */
  lemma InvAside(s: State, step: Step)
    requires Inv(s) && Enabled(s, step) && (step.Enter? || OfReader(step))
    ensures Inv(Next(s, step))
  {
    hide Joined, HistoryOk, Honest, Messages, CloserSent;
    var s' := Next(s, step);
    assert s'.lock == s.lock && !(s.lock == Some(step.t));
    assert s.lock.Some? && s.lock.value in s.threads ==> s'.threads[s.lock.value] == s.threads[s.lock.value];
    assert HolderSent(s') == HolderSent(s);
  }

  lemma InvNext(s: State, step: Step)
    requires Inv(s) && Enabled(s, step)
    ensures Inv(Next(s, step))
  {
    hide Inv, Next;
    match step {
      case Acquire(t) => InvAcquire(s, t);
      case Send(_) => InvSend(s, step);
      case SendFails(_) => InvSend(s, step);
      case SendsDone(_) => InvSend(s, step);
      case Release(t) => InvRelease(s, t);
      case CloserEof(_) => InvCloser(s, step);
      case CloserClose(_) => InvCloser(s, step);
      case _ => InvAside(s, step);
    }
  }

  lemma {:induction false} InvRun(s: State, steps: seq<Step>)
    requires Inv(s) && Runs(s, steps)
    ensures Inv(After(s, steps))
    decreases |steps|
  {
    if steps != [] {
      InvNext(s, steps[0]);
      InvRun(Next(s, steps[0]), steps[1..]);
    }
  }

  // ----- theorems over every run

  /** Everything sent by calls, in the order in which they held the mutex. */
  function Body(s: State): (m: seq<WireMsg>) {
    Joined(s.history) + HolderSent(s)
  }

  lemma {:induction false} NoCloseInCalls(history: seq<Call>, half: bool)
    requires HistoryOk(history, half)
    ensures CloseMsg !in Joined(history)
    decreases |history|
  {
    if history != [] {
      var front, c := history[..|history| - 1], history[|history| - 1];
      NoCloseInCalls(front, if c.op.Disconnect? && HistoryOk(front, true) then true else if c.op.Disconnect? then false else half);
      NoCloseInMessages(c.op);
      assert c.sent <= Messages(c.op);
    }
  }

  lemma NoCloseInMessages(op: Op)
    ensures CloseMsg !in Messages(op)
  {
  }

  /**
   In every interleaving the wire is what the calls sent, each call's messages contiguous and in
   mutex order, followed by what the close task sent. Only that task ever sends a Close.
   */
  lemma WireShape(steps: seq<Step>)
    requires Runs(INIT, steps)
    ensures var s := After(INIT, steps);
            && s.wire == Body(s) + CloserSent(s.closer)
            && CloseMsg !in Body(s)
            && (s.half <==> s.closer.NotSpawned?)
  {
    var s := After(INIT, steps);
    InvInit();
    InvRun(INIT, steps);
    var half := if HistoryOk(s.history, true) then true else false;
    NoCloseInCalls(s.history, half);
    if HolderSent(s) != [] {
      NoCloseInMessages(s.threads[s.lock.value].op);
    }
  }

  /** Once the close task has run undisturbed, the wire ends in exactly one Eof, Close pair. */
  lemma EndsInOnePair(steps: seq<Step>) returns (body: seq<WireMsg>)
    requires Runs(INIT, steps) && After(INIT, steps).closer == Finished(true, true)
    ensures After(INIT, steps).wire == body + [EofMsg, CloseMsg]
    ensures CloseMsg !in body
  {
    WireShape(steps);
    body := Body(After(INIT, steps));
  }

  /** After the take nothing but the close task reaches the wire, whatever the threads go on to call. */
  lemma {:induction false} TakenBodyIsFrozen(s: State, steps: seq<Step>)
    requires Inv(s) && !s.half && Runs(s, steps)
    ensures var s' := After(s, steps);
            !s'.half && Body(s') == Body(s) && s'.wire == Body(s) + CloserSent(s'.closer)
    decreases |steps|
  {
    if steps != [] {
      var now := Next(s, steps[0]);
      InvNext(s, steps[0]);
      assert HolderSent(s) == [] == HolderSent(now);
      if steps[0].Release? {
        var pc := s.threads[steps[0].t];
        JoinedSnoc(s.history, Call(pc.op, pc.sent, pc.reply));
      }
      TakenBodyIsFrozen(now, steps[1..]);
    }
  }

  /** Nothing follows the Close, however the run continues. */
  lemma NothingAfterClose(steps: seq<Step>, more: seq<Step>)
    requires Runs(INIT, steps) && After(INIT, steps).closer.Finished?
    requires Runs(After(INIT, steps), more)
    ensures After(After(INIT, steps), more).wire == After(INIT, steps).wire
  {
    var s := After(INIT, steps);
    InvInit();
    InvRun(INIT, steps);
    TakenBodyIsFrozen(s, more);
    FinishedStays(s, more);
  }

  lemma {:induction false} FinishedStays(s: State, steps: seq<Step>)
    requires Inv(s) && s.closer.Finished? && Runs(s, steps)
    ensures After(s, steps).closer == s.closer
    decreases |steps|
  {
    if steps != [] {
      InvNext(s, steps[0]);
      FinishedStays(Next(s, steps[0]), steps[1..]);
    }
  }

  predicate HasDisconnect(history: seq<Call>) {
    exists i :: 0 <= i < |history| && history[i].op.Disconnect?
  }

  lemma {:induction false} HistoryMeans(history: seq<Call>, half: bool, j: nat)
    requires HistoryOk(history, half) && j < |history|
    ensures Honest(history[j].op, history[j].sent, history[j].reply)
    ensures history[j].op.Disconnect? ==> history[j].reply.Done?
    ensures HasDisconnect(history[..j]) ==> history[j].sent == [] && (history[j].op.Disconnect? || history[j].reply.HalfTaken?)
    ensures !HasDisconnect(history[..j]) ==> !history[j].reply.HalfTaken?
    ensures history[j].reply.Done? ==> history[j].sent == Messages(history[j].op)
    decreases |history|
  {
    var front, c := history[..|history| - 1], history[|history| - 1];
    var before := if !c.op.Disconnect? then half else HistoryOk(front, true);
    if j < |front| {
      HistoryMeans(front, before, j);
      assert front[..j] == history[..j];
    } else {
      assert history[..j] == front;
      HalfMeansNoDisconnect(front, before);
      assert c.op.Disconnect? ==> c.sent == Messages(c.op);
    }
  }

  lemma {:induction false} HalfMeansNoDisconnect(history: seq<Call>, half: bool)
    requires HistoryOk(history, half)
    ensures half <==> !HasDisconnect(history)
    decreases |history|
  {
    if history != [] {
      var front, c := history[..|history| - 1], history[|history| - 1];
      if c.op.Disconnect? {
        assert history[|history| - 1].op.Disconnect?;
      } else {
        HalfMeansNoDisconnect(front, half);
        if HasDisconnect(front) {
          var i :| 0 <= i < |front| && front[i].op.Disconnect?;
          assert history[i].op.Disconnect?;
        }
        if HasDisconnect(history) {
          var i :| 0 <= i < |history| && history[i].op.Disconnect?;
          assert front[i].op.Disconnect?;
        }
      }
    }
  }

  /**
   Calls behave as if one at a time in mutex order: one that succeeds sent all its messages, and one
   is told that the half is gone exactly when a disconnect came before it, sending nothing.
   */
  lemma CallsAreSerial(steps: seq<Step>, j: nat)
    requires Runs(INIT, steps) && j < |After(INIT, steps).history|
    ensures var h := After(INIT, steps).history;
            && (h[j].reply.Done? ==> h[j].sent == Messages(h[j].op))
            && (h[j].reply.HalfTaken? <==> HasDisconnect(h[..j]) && !h[j].op.Disconnect?)
            && (HasDisconnect(h[..j]) ==> h[j].sent == [])
            && (h[j].op.Disconnect? ==> h[j].reply.Done?)
  {
    var s := After(INIT, steps);
    InvInit();
    InvRun(INIT, steps);
    HistoryMeans(s.history, HistoryOk(s.history, true), j);
  }

  /** No reachable state is stuck: the mutex holder can move, or a waiting thread can take the mutex. */
  lemma NeverStuck(steps: seq<Step>) returns (step: Step)
    requires Runs(INIT, steps)
    requires var s := After(INIT, steps);
             s.closer.BeforeEof? || s.closer.BeforeClose? || exists t :: t in s.threads && WriteSide(s.threads[t])
    ensures Enabled(After(INIT, steps), step)
    ensures !step.Enter? && !step.SendFails? && !OfReader(step)
  {
    var s := After(INIT, steps);
    InvInit();
    InvRun(INIT, steps);
    if s.lock.Some? {
      var t := s.lock.value;
      var pc := s.threads[t];
      step := if pc.Leaving? then Release(t) else if |pc.sent| < |Messages(pc.op)| then Send(t) else SendsDone(t);
    } else if s.closer.BeforeEof? {
      step := CloserEof(true);
    } else if s.closer.BeforeClose? {
      step := CloserClose(true);
    } else {
      var t :| t in s.threads && WriteSide(s.threads[t]);
      step := Acquire(t);
    }
  }

  // ----- what the messages carry

  /**
   What a call puts on the wire, packet by packet: a write its packets in order, a resize one window
   change with its columns and rows, an eof one Eof; all of that if it reports success, and up to where
   it failed if not.
   */
  predicate SendsItsOwn(op: Op, sent: seq<WireMsg>, done: bool) {
    match op
    case Write(packets) =>
      && |sent| <= |packets| && (done ==> |sent| == |packets|)
      && (forall i :: 0 <= i < |sent| ==> sent[i] == DataMsg(packets[i]))
    case HalfClose => sent == [EofMsg] || (sent == [] && !done)
    case Resize(cols, rows) => sent == [WindowChange(cols, rows)] || (sent == [] && !done)
    case Disconnect => sent == []
  }

  lemma HonestSendsItsOwn(op: Op, sent: seq<WireMsg>, reply: Reply)
    requires Honest(op, sent, reply)
    ensures SendsItsOwn(op, sent, reply.Done?)
  {
    assert sent == Messages(op)[..|sent|];
    assert |sent| == 0 ==> sent == [];
    if |Messages(op)| == 1 == |sent| {
      assert sent == [Messages(op)[0]];
    }
  }

  /** In every run every call sends its own messages. */
  lemma CallsSendTheirOwn(steps: seq<Step>, j: nat)
    requires Runs(INIT, steps) && j < |After(INIT, steps).history|
    ensures var c := After(INIT, steps).history[j]; SendsItsOwn(c.op, c.sent, c.reply.Done?)
  {
    var h := After(INIT, steps).history;
    InvInit();
    InvRun(INIT, steps);
    HistoryMeans(h, HistoryOk(h, true), j);
    HonestSendsItsOwn(h[j].op, h[j].sent, h[j].reply);
  }

  /** The data bytes on the wire. */
  function DataOn(wire: seq<WireMsg>): (b: seq<byte>) {
    if wire == [] then [] else (if wire[0].DataMsg? then wire[0].data else []) + DataOn(wire[1..])
  }

  function Concat(packets: seq<seq<byte>>): (b: seq<byte>) {
    if packets == [] then [] else packets[0] + Concat(packets[1..])
  }

  lemma OneByOne(data: seq<byte>, m: WireMsg)
    requires !m.DataMsg?
    ensures DataOn([DataMsg(data)]) == data == Concat([data]) && DataOn([m]) == []
  {
    assert data + [] == data;
  }

  /** The bytes that the first n packets of a write hand over. */
  function Handed(op: Op, n: nat): (b: seq<byte>) {
    if op.Write? && n <= |op.packets| then Concat(op.packets[..n]) else []
  }

  function HandedOver(history: seq<Call>): (b: seq<byte>) {
    if history == [] then []
    else HandedOver(history[..|history| - 1]) + Handed(history[|history| - 1].op, |history[|history| - 1].sent|)
  }

  lemma {:induction false} DataOnAppend(a: seq<WireMsg>, b: seq<WireMsg>)
    ensures DataOn(a + b) == DataOn(a) + DataOn(b)
    decreases |a|
  {
    if a == [] {
      assert a + b == b;
    } else {
      assert (a + b)[1..] == a[1..] + b;
      DataOnAppend(a[1..], b);
    }
  }

  lemma {:induction false} DataOfPackets(sent: seq<WireMsg>, packets: seq<seq<byte>>)
    requires |sent| == |packets| && forall i :: 0 <= i < |sent| ==> sent[i] == DataMsg(packets[i])
    ensures DataOn(sent) == Concat(packets)
    decreases |sent|
  {
    if sent != [] {
      DataOfPackets(sent[1..], packets[1..]);
    }
  }

  lemma DataOfCall(op: Op, sent: seq<WireMsg>, done: bool)
    requires SendsItsOwn(op, sent, done)
    ensures DataOn(sent) == Handed(op, |sent|)
    ensures op.Write? && done ==> DataOn(sent) == Concat(op.packets)
  {
    if op.Write? {
      DataOfPackets(sent, op.packets[..|sent|]);
      assert op.packets[..|op.packets|] == op.packets;
    }
  }

  lemma {:induction false} DataOfHistory(history: seq<Call>, half: bool)
    requires HistoryOk(history, half)
    ensures DataOn(Joined(history)) == HandedOver(history)
    decreases |history|
  {
    if history != [] {
      var front, c := history[..|history| - 1], history[|history| - 1];
      DataOfHistory(front, if c.op.Disconnect? then HistoryOk(front, true) else half);
      DataOnAppend(Joined(front), c.sent);
      HonestSendsItsOwn(c.op, c.sent, c.reply);
      DataOfCall(c.op, c.sent, c.reply.Done?);
    }
  }

  /** What the call inside the critical section has handed over so far. */
  function HolderHanded(s: State): (b: seq<byte>) {
    if s.lock.Some? && s.lock.value in s.threads && InSection(s.threads[s.lock.value])
    then Handed(s.threads[s.lock.value].op, |HolderSent(s)|) else []
  }

  lemma DataOfHolder(s: State)
    requires Inv(s)
    ensures DataOn(HolderSent(s)) == HolderHanded(s)
  {
    if s.lock.Some? && s.lock.value in s.threads && InSection(s.threads[s.lock.value]) {
      var pc := s.threads[s.lock.value];
      HonestSendsItsOwn(pc.op, pc.sent, SendFailed);
      DataOfCall(pc.op, pc.sent, false);
    }
  }

  lemma CloserCarriesNoData(c: Closer)
    ensures DataOn(CloserSent(c)) == []
  {
    assert DataOn([EofMsg]) == DataOn([CloseMsg]) == [];
    DataOnAppend([EofMsg], [CloseMsg]);
  }

  /**
   In every interleaving the data bytes on the wire are what the writes handed over, in the order in
   which they held the mutex: all of its bytes for a write that succeeded (CallsSendTheirOwn), its first
   packets for one that failed or is still sending. Nothing else carries data.
   */
  lemma WireCarriesWrites(steps: seq<Step>)
    requires Runs(INIT, steps)
    ensures var s := After(INIT, steps); DataOn(s.wire) == HandedOver(s.history) + HolderHanded(s)
  {
    hide Joined, HistoryOk, HolderSent, HolderHanded, CloserSent, DataOn, HandedOver;
    var s := After(INIT, steps);
    InvInit();
    InvRun(INIT, steps);
    DataOfHistory(s.history, if HistoryOk(s.history, true) then true else false);
    DataOfHolder(s);
    CloserCarriesNoData(s.closer);
    DataOnAppend(Joined(s.history) + HolderSent(s), CloserSent(s.closer));
    DataOnAppend(Joined(s.history), HolderSent(s));
  }

  // ----- readers and writers

  predicate WriteSide(pc: Pc) {
    !pc.WantRead? && !pc.Reading?
  }

  /** Steps of calls already under way on the write side. */
  predicate WritersOnly(steps: seq<Step>) {
    forall i :: 0 <= i < |steps| ==> steps[i].Acquire? || steps[i].Send? || steps[i].SendsDone? || steps[i].Release?
  }

  /** From inside the critical section to the end of the call. */
  lemma SectionEnds(s: State, t: Tid) returns (steps: seq<Step>)
    requires Inv(s) && t in s.threads && InSection(s.threads[t])
    ensures Runs(s, steps) && WritersOnly(steps)
    ensures After(s, steps).threads == s.threads - {t} && After(s, steps).lock.None?
  {
    var pc := s.threads[t];
    steps := [];
    if pc.Sending? {
      var m := Messages(pc.op);
      assert pc.sent == m[..|pc.sent|];
      steps := SendRun(s, t, pc.op, |pc.sent|, |m|);
      RunsSnoc(s, steps, SendsDone(t));
      steps := steps + [SendsDone(t)];
    }
    RunsSnoc(s, steps, Release(t));
    steps := steps + [Release(t)];
    assert After(s, steps).threads == s.threads - {t};
  }

  lemma FreeMutex(s: State) returns (steps: seq<Step>)
    requires Inv(s)
    ensures Runs(s, steps) && WritersOnly(steps)
    ensures var free := After(s, steps);
            && Inv(free) && free.lock.None?
            && free.threads == if s.lock.Some? then s.threads - {s.lock.value} else s.threads
  {
    steps := [];
    if s.lock.Some? {
      steps := SectionEnds(s, s.lock.value);
    }
    InvRun(s, steps);
  }

  lemma WaiterEnds(s: State, t: Tid) returns (steps: seq<Step>)
    requires Inv(s) && s.lock.None? && t in s.threads && s.threads[t].Waiting?
    ensures Runs(s, steps) && WritersOnly(steps) && t !in After(s, steps).threads
  {
    var now := Next(s, Acquire(t));
    InvNext(s, Acquire(t));
    var rest := SectionEnds(now, t);
    steps := [Acquire(t)] + rest;
    assert steps[1..] == rest;
  }

  /**
   A blocked reader never holds up the write side. Whatever threads sit in read, every call that has
   begun on the write side can run to its end by steps of writers alone: first the holder of the
   mutex leaves, then the call takes it. No reader moves meanwhile.
   */
  lemma ReadersNeverBlockWriters(steps: seq<Step>, t: Tid) returns (more: seq<Step>)
    requires Runs(INIT, steps)
    requires var s := After(INIT, steps); t in s.threads && WriteSide(s.threads[t])
    ensures var s := After(INIT, steps);
            && Runs(s, more) && WritersOnly(more)
            && t !in After(s, more).threads
            && After(s, more).readLock == s.readLock
            && (forall u :: u in s.threads && !WriteSide(s.threads[u]) ==>
                  u in After(s, more).threads && After(s, more).threads[u] == s.threads[u])
  {
    var s := After(INIT, steps);
    InvInit();
    InvRun(INIT, steps);
    more := FreeMutex(s);
    var free := After(s, more);
    if t in free.threads {
      var last := WaiterEnds(free, t);
      RunsAppend(s, more, last);
      more := more + last;
    }
    ReadersStay(s, more);
  }

  lemma {:induction false} ReadersStay(s: State, steps: seq<Step>)
    requires Runs(s, steps) && WritersOnly(steps)
    ensures After(s, steps).readLock == s.readLock
    ensures forall u :: u in s.threads && !WriteSide(s.threads[u]) ==>
              u in After(s, steps).threads && After(s, steps).threads[u] == s.threads[u]
    decreases |steps|
  {
    if steps != [] {
      ReadersStay(Next(s, steps[0]), steps[1..]);
    }
  }

  // ----- one call at a time: the methods, and the runs they are

  /** What a call returns when `through` of its messages get through. */
  function ReplyOf(half: bool, op: Op, through: nat): (r: Reply) {
    if op.Disconnect? then Done
    else if !half then HalfTaken
    else if through >= |Messages(op)| then Done
    else SendFailed
  }

  function SentBy(half: bool, op: Op, through: nat): (m: seq<WireMsg>) {
    if !half || op.Disconnect? then []
    else if through >= |Messages(op)| then Messages(op)
    else Messages(op)[..through]
  }

  /** The write side of SshSpikeChannel, and of SshSpikeSession's shell. */
  class Channel {
    var writeHalf: bool
    var closer: Closer
    var wire: seq<WireMsg>

    constructor ()
      ensures writeHalf && closer == NotSpawned && wire == []
    {
      writeHalf, closer, wire := true, NotSpawned, [];
    }

    /** wh.data_bytes, wh.eof or wh.window_change: message by message, until one fails. */
    method SendAll(op: Op, through: nat) returns (ok: bool)
      modifies this`wire
      ensures ok <==> through >= |Messages(op)|
      ensures wire == old(wire) + if ok then Messages(op) else Messages(op)[..through]
    {
      var m := Messages(op);
      var i := 0;
      while i < |m| && i < through
        invariant i <= |m| && i <= through
        invariant wire == old(wire) + m[..i]
      {
        wire := wire + [m[i]];
        i := i + 1;
      }
      ok := i == |m|;
      assert m[..|m|] == m;
    }

    method Send(op: Op, through: nat) returns (reply: Reply)
      requires !op.Disconnect?
      modifies this`wire
      ensures reply == ReplyOf(writeHalf, op, through)
      ensures wire == old(wire) + SentBy(writeHalf, op, through)
      ensures old(wire) <= wire
      ensures if writeHalf then SendsItsOwn(op, wire[|old(wire)|..], reply.Done?) && reply != HalfTaken
              else wire == old(wire) && reply == HalfTaken
      ensures op.Write? && reply.Done? ==> DataOn(wire) == DataOn(old(wire)) + Concat(op.packets)
      ensures op.Resize? && reply.Done? ==> wire == old(wire) + [WindowChange(op.cols, op.rows)]
      ensures op.HalfClose? && reply.Done? ==> wire == old(wire) + [EofMsg]
    {
      if !writeHalf {
        return HalfTaken;
      }
      var ok := SendAll(op, through);
      reply := if ok then Done else SendFailed;
      ghost var sent := SentBy(true, op, through);
      HonestSendsItsOwn(op, sent, reply);
      DataOfCall(op, sent, ok);
      DataOnAppend(old(wire), sent);
      assert wire[|old(wire)|..] == sent;
    }

    method Disconnect()
      modifies this`writeHalf, this`closer
      ensures !writeHalf
      ensures closer == if old(writeHalf) then BeforeEof else old(closer)
    {
      if writeHalf {
        writeHalf := false;
        closer := BeforeEof;
      }
    }

    /** The spawned task: both sends are attempted, their failures ignored. */
    method RunCloser(eofOk: bool, closeOk: bool)
      requires closer.BeforeEof?
      modifies this`closer, this`wire
      ensures closer == Finished(eofOk, closeOk)
      ensures wire == old(wire) + (if eofOk then [EofMsg] else []) + (if closeOk then [CloseMsg] else [])
    {
      if eofOk {
        wire := wire + [EofMsg];
      }
      closer := BeforeClose(eofOk);
      if closeOk {
        wire := wire + [CloseMsg];
      }
      closer := Finished(eofOk, closeOk);
    }
  }

  lemma {:induction false} SendRun(s: State, t: Tid, op: Op, i: nat, n: nat) returns (steps: seq<Step>)
    requires i <= n <= |Messages(op)|
    requires t in s.threads && s.threads[t] == Sending(op, Messages(op)[..i])
    ensures Runs(s, steps)
    ensures After(s, steps) == s.(wire := s.wire + Messages(op)[i..n], threads := s.threads[t := Sending(op, Messages(op)[..n])])
    ensures WritersOnly(steps)
    decreases n - i
  {
    hide Messages, Runs, After;
    if i == n {
      steps := [];
      RunsNone(s);
      assert s.threads[t := Sending(op, Messages(op)[..n])] == s.threads;
      assert s.wire + Messages(op)[i..n] == s.wire;
    } else {
      var now := Next(s, Step.Send(t));
      assert Messages(op)[..i] + [Messages(op)[i]] == Messages(op)[..i + 1];
      var rest := SendRun(now, t, op, i + 1, n);
      steps := [Step.Send(t)] + rest;
      RunsCons(s, Step.Send(t), rest);
      assert s.wire + [Messages(op)[i]] + Messages(op)[i + 1..n] == s.wire + Messages(op)[i..n];
      assert now.threads[t := Sending(op, Messages(op)[..n])] == s.threads[t := Sending(op, Messages(op)[..n])];
    }
  }

  /** The start of a call that nobody contends with: it gets the mutex and looks at the half. */
  lemma CallBegins(s: State, t: Tid, op: Op)
    requires t !in s.threads && s.lock.None?
    ensures Runs(s, [Enter(t, op), Acquire(t)])
    ensures After(s, [Enter(t, op), Acquire(t)]) == s.(
              lock := Some(t),
              half := s.half && !op.Disconnect?,
              closer := if s.half && op.Disconnect? then BeforeEof else s.closer,
              threads := s.threads[t := if op.Disconnect? then Leaving(op, [], Done)
                                        else if s.half then Sending(op, [])
                                        else Leaving(op, [], HalfTaken)])
  {
    RunsSnoc(s, [], Enter(t, op));
    assert [] + [Enter(t, op)] + [Acquire(t)] == [Enter(t, op), Acquire(t)];
    RunsSnoc(s, [] + [Enter(t, op)], Acquire(t));
    assert s.threads[t := Waiting(op)][t := Sending(op, [])] == s.threads[t := Sending(op, [])];
    assert s.threads[t := Waiting(op)][t := Leaving(op, [], Done)] == s.threads[t := Leaving(op, [], Done)];
    assert s.threads[t := Waiting(op)][t := Leaving(op, [], HalfTaken)] == s.threads[t := Leaving(op, [], HalfTaken)];
  }

  /** From having sent n messages, all of them or up to one that fails, to the end of the call. */
  lemma CallEnds(s: State, t: Tid, op: Op, n: nat) returns (steps: seq<Step>)
    requires n <= |Messages(op)| && t in s.threads && s.threads[t] == Sending(op, Messages(op)[..n])
    ensures Runs(s, steps)
    ensures n == |Messages(op)| ==> steps == [SendsDone(t), Release(t)]
    ensures After(s, steps) == s.(
              lock := None, threads := s.threads - {t},
              history := s.history + [Call(op, Messages(op)[..n], if n == |Messages(op)| then Done else SendFailed)])
  {
    var stop := if n == |Messages(op)| then SendsDone(t) else SendFails(t);
    RunsSnoc(s, [], stop);
    steps := [] + [stop];
    RunsSnoc(s, steps, Release(t));
    steps := steps + [Release(t)];
    assert After(s, steps).threads == s.threads - {t};
  }

  /** Each method call is a run of the step machine from Enter to Release, with the same effect. */
  lemma CallIsARun(s: State, t: Tid, op: Op, through: nat) returns (steps: seq<Step>)
    requires t !in s.threads && s.lock.None?
    ensures Runs(s, steps)
    ensures var sent, reply := SentBy(s.half, op, through), ReplyOf(s.half, op, through);
            After(s, steps) == s.(
              half := s.half && !op.Disconnect?,
              closer := if s.half && op.Disconnect? then BeforeEof else s.closer,
              wire := s.wire + sent,
              history := s.history + [Call(op, sent, reply)])
  {
    hide Next, Enabled, Runs, After;
    var m := Messages(op);
    CallBegins(s, t, op);
    steps := [Enter(t, op), Acquire(t)];
    var now := After(s, steps);
    if now.threads[t].Sending? {
      var n := if through >= |m| then |m| else through;
      assert m[..0] == [] && m[0..n] == m[..n] && m[..|m|] == m;
      var sends := SendRun(now, t, op, 0, n);
      RunsAppend(s, steps, sends);
      steps := steps + sends;
      var rest := CallEnds(After(s, steps), t, op, n);
      RunsAppend(s, steps, rest);
      steps := steps + rest;
    } else {
      ReleaseRun(s, steps, t);
      steps := steps + [Release(t)];
      assert s.wire + [] == s.wire;
    }
    assert After(s, steps).threads == s.threads;
  }

  lemma ReleaseRun(s: State, steps: seq<Step>, t: Tid)
    requires Runs(s, steps) && t in After(s, steps).threads && After(s, steps).threads[t].Leaving?
    ensures Runs(s, steps + [Release(t)])
    ensures var now := After(s, steps);
            var pc := now.threads[t];
            After(s, steps + [Release(t)]) == now.(
              lock := None, threads := now.threads - {t}, history := now.history + [Call(pc.op, pc.sent, pc.reply)])
  {
    RunsSnoc(s, steps, Release(t));
  }

  /** The close task is a run of the step machine with the method's effect, in any state and beside any threads. */
  lemma CloserIsARun(s: State, eofOk: bool, closeOk: bool)
    requires s.closer.BeforeEof?
    ensures Runs(s, [CloserEof(eofOk), CloserClose(closeOk)])
    ensures After(s, [CloserEof(eofOk), CloserClose(closeOk)]) == s.(
              closer := Finished(eofOk, closeOk),
              wire := s.wire + (if eofOk then [EofMsg] else []) + (if closeOk then [CloseMsg] else []))
  {
    var now := Next(s, CloserEof(eofOk));
    RunsNone(Next(now, CloserClose(closeOk)));
    RunsCons(now, CloserClose(closeOk), []);
    assert [CloserClose(closeOk)] + [] == [CloserClose(closeOk)];
    RunsCons(s, CloserEof(eofOk), [CloserClose(closeOk)]);
    assert [CloserEof(eofOk)] + [CloserClose(closeOk)] == [CloserEof(eofOk), CloserClose(closeOk)];
  }

  /** Half-closing twice is accepted twice and puts two Eofs on the wire. */
  lemma EofIsSentEachTime(s: State, t: Tid) returns (steps: seq<Step>)
    requires s.half && t !in s.threads && s.lock.None?
    ensures Runs(s, steps)
    ensures var e := After(s, steps);
            && e.wire == s.wire + [EofMsg, EofMsg]
            && e.history == s.history + [Call(HalfClose, [EofMsg], Done), Call(HalfClose, [EofMsg], Done)]
  {
    var once := CallIsARun(s, t, HalfClose, 1);
    var again := CallIsARun(After(s, once), t, HalfClose, 1);
    RunsAppend(s, once, again);
    steps := once + again;
  }

  /** The steps of an uncontended eof call whose send, if there is one, gets through. */
  function EofCall(half: bool, t: Tid): (steps: seq<Step>) {
    if half then [Enter(t, HalfClose), Acquire(t), Step.Send(t), SendsDone(t), Release(t)]
    else [Enter(t, HalfClose), Acquire(t), Release(t)]
  }

  lemma EofCallRuns(s: State, t: Tid)
    requires t !in s.threads && s.lock.None?
    ensures Runs(s, EofCall(s.half, t))
    ensures var sent := if s.half then [EofMsg] else [];
            After(s, EofCall(s.half, t)) == s.(
              wire := s.wire + sent,
              history := s.history + [Call(HalfClose, sent, if s.half then Done else HalfTaken)])
  {
    hide Runs, After;
    CallBegins(s, t, HalfClose);
    var steps := [Enter(t, HalfClose), Acquire(t)];
    if s.half {
      RunsSnoc(s, steps, Step.Send(t));
      assert [] + [EofMsg] == [EofMsg] == Messages(HalfClose)[..1];
      var rest := CallEnds(After(s, steps + [Step.Send(t)]), t, HalfClose, 1);
      RunsAppend(s, steps + [Step.Send(t)], rest);
      assert steps + [Step.Send(t)] + rest == EofCall(true, t);
    } else {
      ReleaseRun(s, steps, t);
      assert steps + [Release(t)] == EofCall(false, t);
      assert s.wire + [] == s.wire;
    }
    assert After(s, EofCall(s.half, t)).threads == s.threads;
  }

  /**
   When eof is idempotent, from every state in which nobody holds the mutex: a second call that gets
   through leaves the wire as the first left it exactly when the half was already taken.
   */
  lemma EofIsIdempotentExactly(s: State, t: Tid, u: Tid)
    requires t !in s.threads && u !in s.threads && s.lock.None?
    ensures var once, twice := EofCall(s.half, t), EofCall(s.half, t) + EofCall(s.half, u);
            && Runs(s, once) && Runs(s, twice)
            && (After(s, twice).wire == After(s, once).wire <==> !s.half)
  {
    EofCallRuns(s, t);
    var now := After(s, EofCall(s.half, t));
    EofCallRuns(now, u);
    RunsAppend(s, EofCall(s.half, t), EofCall(now.half, u));
    assert |After(now, EofCall(s.half, u)).wire| == |now.wire| + (if s.half then 1 else 0);
  }
}
