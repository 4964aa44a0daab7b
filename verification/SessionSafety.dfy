/** What every interleaving of calls on a session keeps, and how it ends what a dial began. */
module SessionSafety {
  import opened Wrappers
  import opened Session
  import Dial
  import DialSafety

  // ----- byes

  lemma {:induction false} ScheduleAt(order: seq<Conn>, i: nat)
    requires i < |order|
    ensures |Schedule(order)| == 2 * |order|
    ensures Schedule(order)[2 * i] == Start(order[i]) && Schedule(order)[2 * i + 1] == End(order[i])
    decreases |order|
  {
    if i > 0 {
      ScheduleAt(order[1..], i - 1);
    } else if |order| > 1 {
      ScheduleAt(order[1..], 0);
    }
  }

  lemma {:induction false} ScheduleLength(order: seq<Conn>)
    ensures |Schedule(order)| == 2 * |order|
  {
    if order != [] {
      ScheduleLength(order[1..]);
    }
  }

  /**
   In every interleaving the byes are said in the order target, last hop, ..., first hop, each one
   over (confirmed or timed out) before the next starts, so each connection gets at most one; and
   at most one task says them.
   */
  lemma ByesFollowPlan(target: Conn, hops: seq<Conn>, steps: seq<Step>)
    requires Runs(Init(target, hops), steps)
    ensures var s := After(Init(target, hops), steps);
            Marks(s.log) <= Schedule(Plan(target, hops)) && |s.tasks| <= 1
  {
    ReachedInv(After(Init(target, hops), steps), target, hops, steps);
  }

  /** A bye to a hop starts only after the connection that rides it has ended its own. */
  lemma RiderEndsFirst(target: Conn, hops: seq<Conn>, steps: seq<Step>, m: nat)
    requires Runs(Init(target, hops), steps)
    requires var marks := Marks(After(Init(target, hops), steps).log); m < |marks| && marks[m].Start?
    ensures var marks := Marks(After(Init(target, hops), steps).log);
            && m % 2 == 0 && m / 2 <= |hops|
            && marks[m].conn == Plan(target, hops)[m / 2]
            && (m > 0 ==> marks[m - 1] == End(Plan(target, hops)[m / 2 - 1]))
  {
    ByesFollowPlan(target, hops, steps);
    var order := Plan(target, hops);
    ScheduleLength(order);
    var i := m / 2;
    ScheduleAt(order, i);
    assert m == 2 * i || m == 2 * i + 1;
    if i > 0 {
      ScheduleAt(order, i - 1);
    }
  }

  // ----- locks

  /** Whenever the handle lock is free, a session without a handle has no parents left either. */
  lemma FreeHandleOwnsAllOrNothing(target: Conn, hops: seq<Conn>, steps: seq<Step>)
    requires Runs(Init(target, hops), steps)
    ensures var s := After(Init(target, hops), steps);
            s.handleLock.None? ==>
              (s.handle == Some(target) && s.parents == hops) || (s.handle.None? && s.parents == [] && |s.tasks| == 1)
  {
    ReachedInv(After(Init(target, hops), steps), target, hops, steps);
  }

  /** Whoever wants the parents holds the handle lock, so nobody else can be holding the parents. */
  lemma ParentsLockIsFree(s: State, target: Conn, hops: seq<Conn>, t: Tid)
    requires Inv(s, target, hops) && t in s.threads && s.threads[t].WantParents?
    ensures s.parentsLock.None?
  {
    assert s.handleLock == Some(t);
    forall u | u in s.threads ensures !Holds(s.threads[u], ParentsLock) {
      assert u == t || !Holds(s.threads[u], HandleLock);
    }
  }

  /** Whoever holds a lock and waits holds the handle, waits for the parents, and need not wait long. */
  lemma HolderMayWait(s: State, target: Conn, hops: seq<Conn>, t: Tid, l: Lock)
    requires Inv(s, target, hops) && t in s.threads && Owner(s, l) == Some(t)
    ensures WaitsFor(s.threads[t]).Some? ==>
              l == HandleLock && WaitsFor(s.threads[t]) == Some(ParentsLock) && s.parentsLock.None?
  {
    assert Holds(s.threads[t], l);
    if s.threads[t].WantParents? {
      ParentsLockIsFree(s, target, hops, t);
    }
  }

  /**
   The only nested acquisition is handle then parents, and there it never waits: whoever wants the
   parents finds their lock free.
   */
  lemma OnlyNestedLock(target: Conn, hops: seq<Conn>, steps: seq<Step>, t: Tid, l: Lock)
    requires Runs(Init(target, hops), steps)
    requires t in After(Init(target, hops), steps).threads
    requires Owner(After(Init(target, hops), steps), l) == Some(t)
    ensures var s := After(Init(target, hops), steps);
            WaitsFor(s.threads[t]).Some? ==>
              l == HandleLock && WaitsFor(s.threads[t]) == Some(ParentsLock) && s.parentsLock.None?
  {
    var s := After(Init(target, hops), steps);
    ReachedInv(s, target, hops, steps);
    HolderMayWait(s, target, hops, t, l);
  }

  /** Each thread in ts waits for a lock that the next one holds, and the last for one of the first. */
  predicate WaitCycle(s: State, ts: seq<Tid>) {
    && ts != []
    && (forall i :: 0 <= i < |ts| ==> ts[i] in s.threads && WaitsFor(s.threads[ts[i]]).Some?)
    && (forall i :: 0 <= i < |ts| ==> Owner(s, WaitsFor(s.threads[ts[i]]).value) == Some(ts[Following(i, |ts|)]))
  }

  function Following(i: nat, n: nat): (j: nat)
    requires i < n
    ensures j < n
  {
    if i + 1 == n then 0 else i + 1
  }

  /** No reachable state has a circular wait, of any length. */
  lemma NoCircularWait(target: Conn, hops: seq<Conn>, steps: seq<Step>, ts: seq<Tid>)
    requires Runs(Init(target, hops), steps)
    ensures !WaitCycle(After(Init(target, hops), steps), ts)
  {
    var s := After(Init(target, hops), steps);
    if WaitCycle(s, ts) {
      OnlyNestedLock(target, hops, steps, ts[Following(0, |ts|)], WaitsFor(s.threads[ts[0]]).value);
    }
  }

  // ----- refusals

  lemma {:induction false} LogMeans(log: seq<Event>, target: Conn, j: nat)
    requires LogOk(log, target) && j < |log|
    ensures EventOk(log[..j], log[j], target)
  {
    if j < |log| - 1 {
      LogMeans(log[..|log| - 1], target, j);
      assert log[..|log| - 1][..j] == log[..j];
    }
  }

  /**
   The take splits every run in two: before it calls use the target's handle, after it every call is
   refused and the handle is never touched again; there is one take. The same for the shell.
   */
  lemma TakeSplitsCalls(target: Conn, hops: seq<Conn>, steps: seq<Step>, j: nat)
    requires Runs(Init(target, hops), steps) && j < |After(Init(target, hops), steps).log|
    ensures var log := After(Init(target, hops), steps).log;
            && (log[j].Used? ==> !HandleTaken(log[..j]) && log[j].conn == target)
            && (log[j].Refused? ==> HandleTaken(log[..j]))
            && (log[j].TookHandle? ==> !HandleTaken(log[..j]) && log[j].conn == target)
            && (log[j].ByeStart? || log[j].ByeEnd? ==> HandleTaken(log[..j]))
            && (log[j].ShellSent? ==> !ShellTaken(log[..j]))
            && (log[j].ShellRefused? ==> ShellTaken(log[..j]))
            && (log[j].TookShell? ==> !ShellTaken(log[..j]))
  {
    var s := After(Init(target, hops), steps);
    ReachedInv(s, target, hops, steps);
    LogMeans(s.log, target, j);
  }

  /** A call that gets the mutex after the take is refused, whatever it came to do. */
  lemma RefusedAfterTake(target: Conn, hops: seq<Conn>, steps: seq<Step>, t: Tid)
    requires Runs(Init(target, hops), steps)
    ensures var s := After(Init(target, hops), steps);
            && (HandleTaken(s.log) && Enabled(s, Look(t)) && !s.threads[t].op.Disconnect? ==>
                  Next(s, Look(t)).log == s.log + [Refused(t)])
            && (ShellTaken(s.log) && Enabled(s, TouchShell(t)) ==>
                  Next(s, TouchShell(t)).log == s.log + [ShellRefused(t)])
            && (HandleTaken(s.log) ==> !Enabled(s, Use(t)))
  {
    var s := After(Init(target, hops), steps);
    ReachedInv(s, target, hops, steps);
  }

  /**
   Until the take a call that gets its mutex is served: it uses the target's handle, or its data goes out;
   and a disconnect that gets there first is the one that takes.
   */
  lemma ServedBeforeTake(target: Conn, hops: seq<Conn>, steps: seq<Step>, t: Tid)
    requires Runs(Init(target, hops), steps)
    ensures var s := After(Init(target, hops), steps);
            && (!HandleTaken(s.log) && Enabled(s, Look(t)) ==>
                  var s' := Next(s, Look(t));
                  if s.threads[t].op.Disconnect? then
                    s'.threads[t] == WantParents(target) && s'.handle == None && s'.log == s.log + [TookHandle(target)]
                  else
                    s'.threads[t] == Using(target) && s'.handle == Some(target) && s'.log == s.log)
            && (Enabled(s, Use(t)) ==> Next(s, Use(t)).log == s.log + [Used(t, target)])
            && (!ShellTaken(s.log) && Enabled(s, TouchShell(t)) ==> Next(s, TouchShell(t)).log == s.log + [ShellSent(t)])
            && (!ShellTaken(s.log) && Enabled(s, TakeShell(t)) ==>
                  !Next(s, TakeShell(t)).shell && Next(s, TakeShell(t)).log == s.log + [TookShell])
  {
    hide Marks, Pending, Schedule, Plan, LogOk;
    var s := After(Init(target, hops), steps);
    ReachedInv(s, target, hops, steps);
    if Enabled(s, Look(t)) {
      assert Owner(s, HandleLock) == Some(t) && Taker(s) == None;
    }
  }

  // ----- from dial to teardown

  /** The teardown task exists and has nothing left to say. */
  predicate TornDown(s: State) {
    |s.tasks| == 1 && s.tasks[0].queue == []
  }

  /** A finished teardown has said and ended every bye of the plan, and nothing is left owned. */
  lemma TeardownIsComplete(target: Conn, hops: seq<Conn>, steps: seq<Step>)
    requires Runs(Init(target, hops), steps) && TornDown(After(Init(target, hops), steps))
    ensures var s := After(Init(target, hops), steps);
            Marks(s.log) == Schedule(Plan(target, hops)) && s.handle.None? && s.parents == []
  {
    ReachedInv(After(Init(target, hops), steps), target, hops, steps);
  }

  function Ended(marks: seq<ByeMark>): (conns: seq<Conn>) {
    if marks == [] then []
    else (if marks[0].End? then [marks[0].conn] else []) + Ended(marks[1..])
  }

  lemma {:induction false} EndedOfSchedule(order: seq<Conn>)
    ensures Ended(Schedule(order)) == order
  {
    if order != [] {
      var m := Schedule(order);
      EndedOfSchedule(order[1..]);
      assert m[1..][1..] == Schedule(order[1..]);
      assert Ended(m[1..]) == [order[0]] + Ended(m[1..][1..]);
    }
  }

  /**
   From dial to the end of the teardown, through any interleaving: the connections closed are exactly
   the ones the dial left open, newest first, so each is closed before the one that carries it.
   */
  lemma DialThenTeardown(chain: seq<Dial.Hop>, o: Dial.Oracle, steps: seq<Step>)
    requires |chain| == |o.hops| > 0 && Dial.DialResult(chain, o).Ok?
    requires var owned := Dial.DialResult(chain, o).value;
             Runs(Init(owned.handle, owned.parents), steps) && TornDown(After(Init(owned.handle, owned.parents), steps))
    ensures var owned := Dial.DialResult(chain, o).value;
            var closed := Ended(Marks(After(Init(owned.handle, owned.parents), steps).log));
            && |closed| == |chain|
            && (forall i :: 0 <= i < |closed| ==> closed[i] == |chain| - 1 - i)
            && (set c | c in closed) == DialSafety.Alive(Dial.DialLog(chain, o))
  {
    var owned := Dial.DialResult(chain, o).value;
    TeardownIsComplete(owned.handle, owned.parents, steps);
    EndedOfSchedule(Plan(owned.handle, owned.parents));
    PlanCountsDown(|chain| - 1);
    DialSafety.DialIsSafe(chain, o);
  }

  lemma PlanCountsDown(n: nat)
    ensures var closed := Plan(n, Dial.Ascending(n));
            && |closed| == n + 1
            && (forall i :: 0 <= i < |closed| ==> closed[i] == n - i)
            && (set c | c in closed) == Dial.Below(n + 1)
  {
    var closed := Plan(n, Dial.Ascending(n));
    forall c: nat | c < n + 1 ensures c in closed {
      assert closed[n - c] == c;
    }
  }
}
