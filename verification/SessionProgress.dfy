/** What the calls of a session and its teardown can always bring to an end. */
module SessionProgress {
  import opened Wrappers
  import opened Session
  import opened SessionSafety
  import opened SessionCalls

  // ----- calls

  /** A step of a call that has begun. */
  predicate OfCall(step: Step) {
    !step.Enter? && !step.SayBye? && !step.ByeReturns?
  }

  predicate OfCalls(steps: seq<Step>) {
    forall i :: 0 <= i < |steps| ==> OfCall(steps[i])
  }

  /** The lock that thread t waits for, if it waits for one, is free. */
  predicate MayGoOn(s: State, t: Tid)
    requires t in s.threads
  {
    WaitsFor(s.threads[t]).Some? ==> Owner(s, WaitsFor(s.threads[t]).value).None?
  }

  /** The step that takes thread t on. A send or a use of the handle ends when the server lets it. */
  function Onward(s: State, t: Tid): (step: Step)
    requires t in s.threads && OpsOk(s) && MayGoOn(s, t)
    ensures Enabled(s, step) && OfCall(step) && step.t == t
  {
    match s.threads[t]
    case WantWrite(_) => LockWrite(t)
    case InWrite(op) => if op.Disconnect? then TakeShell(t) else if s.shell then StopShell(t) else TouchShell(t)
    case LeaveWrite(_) => UnlockWrite(t)
    case WantHandle(_) => LockHandle(t)
    case InHandle(_) => Look(t)
    case Using(_) => StopUsing(t)
    case WantParents(_) => LockParents(t)
    case InParents(_) => Drain(t)
    case Drained(_, _) => UnlockParents(t)
    case Spawning(_, _) => Spawn(t)
    case LeaveHandle => UnlockHandle(t)
  }

  /** How far a thread is from the end of its call. */
  function Rank(pc: Pc): (r: nat) {
    match pc
    case WantWrite(_) => 11
    case InWrite(_) => 10
    case LeaveWrite(_) => 9
    case WantHandle(_) => 8
    case InHandle(_) => 7
    case WantParents(_) => 6
    case InParents(_) => 5
    case Drained(_, _) => 4
    case Spawning(_, _) => 3
    case Using(_) => 2
    case LeaveHandle => 1
  }

  /** Some call can always go on: a waiting one can take its lock, or the lock's holder can move. */
  lemma NeverStuck(target: Conn, hops: seq<Conn>, steps: seq<Step>) returns (t: Tid, step: Step)
    requires Runs(Init(target, hops), steps) && After(Init(target, hops), steps).threads != map[]
    ensures var s := After(Init(target, hops), steps);
            && t in s.threads && Enabled(s, step) && OfCall(step) && step.t == t
            && (t in Next(s, step).threads ==> Rank(Next(s, step).threads[t]) < Rank(s.threads[t]))
  {
    var s := After(Init(target, hops), steps);
    ReachedInv(s, target, hops, steps);
    t :| t in s.threads;
    var waits := WaitsFor(s.threads[t]);
    if waits.Some? && Owner(s, waits.value).Some? {
      t := Owner(s, waits.value).value;
      HolderMayWait(s, target, hops, t, waits.value);
    }
    step := Onward(s, t);
    RankFalls(s, t);
  }

  lemma RankFalls(s: State, t: Tid)
    requires t in s.threads && OpsOk(s) && MayGoOn(s, t)
    ensures var s' := Next(s, Onward(s, t)); t in s'.threads ==> Rank(s'.threads[t]) < Rank(s.threads[t])
    ensures s.handle.None? ==> Next(s, Onward(s, t)).handle.None?
  {
  }

  lemma Advances(s: State, t: Tid, target: Conn, hops: seq<Conn>)
    requires Inv(s, target, hops) && t in s.threads && MayGoOn(s, t)
    ensures var s' := Next(s, Onward(s, t));
            && Inv(s', target, hops) && OthersStay(s, s', t)
            && (t in s'.threads ==> Rank(s'.threads[t]) < Rank(s.threads[t]))
            && (s.handle.None? ==> s'.handle.None?)
  {
    InvNext(s, Onward(s, t), target, hops);
    OthersNext(s, Onward(s, t));
    RankFalls(s, t);
  }

  lemma RunsCons(s: State, step: Step, rest: seq<Step>)
    requires Enabled(s, step) && Runs(Next(s, step), rest)
    ensures Runs(s, [step] + rest) && After(s, [step] + rest) == After(Next(s, step), rest)
  {
    assert ([step] + rest)[1..] == rest;
  }

  lemma HolderGoesOn(s: State, l: Lock, u: Tid, target: Conn, hops: seq<Conn>)
    requires Inv(s, target, hops) && u in s.threads && Owner(s, l) == Some(u)
    ensures MayGoOn(s, u)
  {
    HolderMayWait(s, target, hops, u, l);
  }

  /** After a step of its holder a lock is free or still in the same hands. */
  lemma LockKept(s: State, step: Step, l: Lock, u: Tid, target: Conn, hops: seq<Conn>)
    requires Inv(s, target, hops) && u in s.threads && Owner(s, l) == Some(u)
    requires Enabled(s, step) && OfCall(step) && step.t == u
    ensures Owner(Next(s, step), l).Some? ==> Owner(Next(s, step), l) == Some(u) && u in Next(s, step).threads
  {
    hide Next, Enabled;
    OwnLockNext(s, step, l);
  }

  /** The thread that holds a lock can give it back by its own steps. */
  lemma {:induction false} LockFreed(s: State, l: Lock, u: Tid, target: Conn, hops: seq<Conn>) returns (steps: seq<Step>)
    requires Inv(s, target, hops) && u in s.threads && Owner(s, l) == Some(u)
    ensures Runs(s, steps) && OfCalls(steps)
    ensures var e := After(s, steps);
            Inv(e, target, hops) && Owner(e, l).None? && OthersStay(s, e, u) && (s.handle.None? ==> e.handle.None?)
    decreases Rank(s.threads[u])
  {
    hide Runs, After, Next, Enabled, Onward, Rank, LocksOk, OwnershipOk, UsersOk, LogOk, OpsOk, Owner;
    HolderGoesOn(s, l, u, target, hops);
    var step := Onward(s, u);
    Advances(s, u, target, hops);
    var now := Next(s, step);
    LockKept(s, step, l, u, target, hops);
    var rest: seq<Step> := [];
    if Owner(now, l).Some? {
      rest := LockFreed(now, l, u, target, hops);
    } else {
      RunsNone(now);
    }
    steps := [step] + rest;
    RunsCons(s, step, rest);
  }

  lemma RunsNone(s: State)
    ensures Runs(s, []) && After(s, []) == s
  {
  }

  /** The calls that are disconnects, from their entry to their spawn. */
  predicate Disconnecting(pc: Pc) {
    match pc
    case WantWrite(op) => op.Disconnect?
    case InWrite(op) => op.Disconnect?
    case LeaveWrite(op) => op.Disconnect?
    case WantHandle(op) => op.Disconnect?
    case InHandle(op) => op.Disconnect?
    case Using(_) => false
    case LeaveHandle => false
    case _ => true
  }

  /** Once this thread's call has ended the session has no handle. */
  predicate EndsHandle(s: State, pc: Pc) {
    Disconnecting(pc) || (pc.LeaveHandle? && s.handle.None?)
  }

  lemma TakerHasHandle(s: State, t: Tid, target: Conn, hops: seq<Conn>)
    requires Inv(s, target, hops) && t in s.threads && Taking(s.threads[t])
    ensures s.handle.None?
  {
    hide Marks, Pending, Schedule, Plan, UsersOk, LogOk, OpsOk;
    assert Holds(s.threads[t], HandleLock) && Owner(s, HandleLock) == Some(t);
    assert Taker(s) == Some(s.threads[t]);
  }

  lemma HandleEndsAt(s: State, t: Tid)
    requires t in s.threads && OpsOk(s) && MayGoOn(s, t)
    requires EndsHandle(s, s.threads[t]) && (Taking(s.threads[t]) ==> s.handle.None?)
    ensures var s' := Next(s, Onward(s, t));
            if t in s'.threads then EndsHandle(s', s'.threads[t]) else s'.handle.None? && s'.handleLock.None?
  {
  }

  lemma HandleEnds(s: State, t: Tid, target: Conn, hops: seq<Conn>)
    requires Inv(s, target, hops) && t in s.threads && MayGoOn(s, t) && EndsHandle(s, s.threads[t])
    ensures var s' := Next(s, Onward(s, t));
            if t in s'.threads then EndsHandle(s', s'.threads[t]) else s'.handle.None? && s'.handleLock.None?
  {
    hide LocksOk, OwnershipOk, UsersOk, LogOk, OpsOk, Onward, Next, MayGoOn;
    if Taking(s.threads[t]) {
      TakerHasHandle(s, t, target, hops);
    }
    HandleEndsAt(s, t);
  }

  /** From any state of the invariant, a call that has begun can run to its end, other calls making way for it. */
  lemma {:induction false} CallEnds(s: State, t: Tid, target: Conn, hops: seq<Conn>) returns (steps: seq<Step>)
    requires Inv(s, target, hops) && t in s.threads
    ensures Runs(s, steps) && OfCalls(steps)
    ensures var e := After(s, steps);
            && Inv(e, target, hops) && t !in e.threads
            && (EndsHandle(s, s.threads[t]) ==> e.handle.None? && e.handleLock.None?)
    decreases Rank(s.threads[t])
  {
    hide Runs, After, Next, Enabled, Onward, Rank;
    var way := MakeWay(s, t, target, hops);
    var free := After(s, way);
    Advances(free, t, target, hops);
    var step := Onward(free, t);
    var now := Next(free, step);
    if EndsHandle(s, s.threads[t]) {
      HandleEnds(free, t, target, hops);
    }
    var rest: seq<Step> := [];
    if t in now.threads {
      rest := CallEnds(now, t, target, hops);
    } else {
      RunsNone(now);
    }
    RunsCons(free, step, rest);
    RunsAppend(s, way, [step] + rest);
    steps := way + ([step] + rest);
  }

  /** Whoever holds the lock that t waits for gives it back; t stays where it is. */
  lemma MakeWay(s: State, t: Tid, target: Conn, hops: seq<Conn>) returns (steps: seq<Step>)
    requires Inv(s, target, hops) && t in s.threads
    ensures Runs(s, steps) && OfCalls(steps)
    ensures var e := After(s, steps);
            && Inv(e, target, hops) && t in e.threads && e.threads[t] == s.threads[t] && MayGoOn(e, t)
            && (s.handle.None? ==> e.handle.None?)
  {
    hide Runs, After, Next, Enabled;
    steps := [];
    RunsNone(s);
    var waits := WaitsFor(s.threads[t]);
    if waits.Some? && Owner(s, waits.value).Some? {
      var u := Owner(s, waits.value).value;
      assert Holds(s.threads[u], waits.value) && u != t;
      steps := LockFreed(s, waits.value, u, target, hops);
    }
  }

  /** In every reachable state every call that has begun can run to its end by steps of begun calls alone. */
  lemma CallFinishes(target: Conn, hops: seq<Conn>, steps: seq<Step>, t: Tid) returns (more: seq<Step>)
    requires Runs(Init(target, hops), steps) && t in After(Init(target, hops), steps).threads
    ensures OfCalls(more) && Runs(Init(target, hops), steps + more)
    ensures t !in After(Init(target, hops), steps + more).threads
  {
    var s := After(Init(target, hops), steps);
    ReachedInv(s, target, hops, steps);
    more := CallEnds(s, t, target, hops);
    RunsAppend(Init(target, hops), steps, more);
  }

  // ----- the teardown

  /**
   Once spawned, the teardown finishes by itself, whatever locks are held and whichever byes time out:
   no thread has to take a step for it.
   */
  lemma TeardownFinishes(target: Conn, hops: seq<Conn>, steps: seq<Step>, slow: Conn -> bool) returns (more: seq<Step>)
    requires Runs(Init(target, hops), steps) && After(Init(target, hops), steps).tasks != []
    ensures OfTask(more, 0) && Runs(Init(target, hops), steps + more)
    ensures TornDown(After(Init(target, hops), steps + more))
    ensures Marks(After(Init(target, hops), steps + more).log) == Schedule(Plan(target, hops))
  {
    ByesFollowPlan(target, hops, steps);
    var s := After(Init(target, hops), steps);
    more := [];
    if s.tasks[0].queue == [] {
      RunsNone(s);
    } else {
      more := TeardownIsARun(s, 0, slow);
    }
    RunsAppend(Init(target, hops), steps, more);
    TeardownIsComplete(target, hops, steps + more);
  }

  /**
   From the entry of any disconnect call, at any point of any interleaving, to the finished teardown:
   first steps of begun calls end the call, then steps of the teardown task alone say every bye of the plan.
   */
  lemma DisconnectFinishes(target: Conn, hops: seq<Conn>, steps: seq<Step>, t: Tid, slow: Conn -> bool)
    returns (calls: seq<Step>, byes: seq<Step>)
    requires Runs(Init(target, hops), steps)
    requires t in After(Init(target, hops), steps).threads && Disconnecting(After(Init(target, hops), steps).threads[t])
    ensures OfCalls(calls) && OfTask(byes, 0) && Runs(Init(target, hops), steps + calls + byes)
    ensures var e := After(Init(target, hops), steps + calls + byes);
            t !in e.threads && TornDown(e) && Marks(e.log) == Schedule(Plan(target, hops))
  {
    var init := Init(target, hops);
    var s := After(init, steps);
    ReachedInv(s, target, hops, steps);
    calls := CallEnds(s, t, target, hops);
    RunsAppend(init, steps, calls);
    FreeHandleOwnsAllOrNothing(target, hops, steps + calls);
    byes := TeardownFinishes(target, hops, steps + calls, slow);
    RunsSplit(init, steps + calls, byes);
    TaskLeavesCalls(After(init, steps + calls), byes);
  }

  lemma {:induction false} RunsSplit(s: State, a: seq<Step>, b: seq<Step>)
    requires Runs(s, a + b)
    ensures Runs(s, a) && Runs(After(s, a), b) && After(s, a + b) == After(After(s, a), b)
    decreases |a|
  {
    if a == [] {
      assert a + b == b;
    } else {
      assert (a + b)[1..] == a[1..] + b;
      RunsSplit(Next(s, a[0]), a[1..], b);
    }
  }

  lemma {:induction false} TaskLeavesCalls(s: State, steps: seq<Step>)
    requires Runs(s, steps) && OfTask(steps, 0)
    ensures After(s, steps).threads == s.threads
    decreases |steps|
  {
    if steps != [] {
      TaskLeavesCalls(Next(s, steps[0]), steps[1..]);
    }
  }
}
