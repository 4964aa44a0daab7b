/** The calls of a session and its teardown task as the source writes them, and the runs they are. */
module SessionCalls {
  import opened Wrappers
  import opened Session
  import Dial

  // ----- what each of them does to the machine, when it meets no other

  /** A call on the connection: it uses the handle if there is one, and is refused if not. */
  function Borrowed(s: State, t: Tid): (s': State) {
    s.(log := s.log + [if s.handle.Some? then Used(t, s.handle.value) else Refused(t)])
  }

  function Disconnected(s: State): (s': State) {
    s.(
    shell := false, handle := None,
    parents := if s.handle.Some? then [] else s.parents,
    tasks := s.tasks + (if s.handle.Some? then [Task(Plan(s.handle.value, s.parents), false)] else []),
    log := s.log + (if s.shell then [TookShell] else []) + (if s.handle.Some? then [TookHandle(s.handle.value)] else []))
  }

  /** Byes one after the other; `slow` says which of them time out. */
  function Byes(order: seq<Conn>, slow: Conn -> bool): (e: seq<Event>) {
    if order == [] then [] else [ByeStart(order[0]), ByeEnd(order[0], slow(order[0]))] + Byes(order[1..], slow)
  }

  /** Task k says all it has to say. */
  function TornDownBy(s: State, k: nat, slow: Conn -> bool): (s': State)
    requires k < |s.tasks|
  {
    s.(tasks := s.tasks[k := Task([], false)], log := s.log + Byes(s.tasks[k].queue, slow))
  }

  /** Each connection's bye starts and ends once, in order, and ends as `slow` says. */
  lemma {:induction false} ByesOneByOne(order: seq<Conn>, slow: Conn -> bool, i: nat)
    requires i < |order|
    ensures |Byes(order, slow)| == 2 * |order|
    ensures Byes(order, slow)[2 * i] == ByeStart(order[i])
    ensures Byes(order, slow)[2 * i + 1] == ByeEnd(order[i], slow(order[i]))
    decreases |order|
  {
    if i > 0 {
      ByesOneByOne(order[1..], slow, i - 1);
    } else if |order| > 1 {
      ByesOneByOne(order[1..], slow, 0);
    }
  }

  lemma {:induction false} ByesAppend(a: seq<Conn>, b: seq<Conn>, slow: Conn -> bool)
    ensures Byes(a + b, slow) == Byes(a, slow) + Byes(b, slow)
    decreases |a|
  {
    if a == [] {
      assert a + b == b;
    } else {
      assert (a + b)[1..] == a[1..] + b;
      ByesAppend(a[1..], b, slow);
    }
  }

  lemma MarksOfBye(log: seq<Event>, conn: Conn, timedOut: bool)
    ensures Marks(log + [ByeStart(conn), ByeEnd(conn, timedOut)]) == Marks(log) + [Start(conn), End(conn)]
  {
    var one := log + [ByeStart(conn)];
    var two := log + [ByeStart(conn), ByeEnd(conn, timedOut)];
    assert one[..|log|] == log && two[..|one|] == one;
  }

  /** Such byes follow the schedule of their order. */
  lemma {:induction false} ByesAreScheduled(log: seq<Event>, order: seq<Conn>, slow: Conn -> bool)
    ensures Marks(log + Byes(order, slow)) == Marks(log) + Schedule(order)
    decreases |order|
  {
    hide Marks;
    if order == [] {
      assert log + [] == log;
    } else {
      var first := [ByeStart(order[0]), ByeEnd(order[0], slow(order[0]))];
      MarksOfBye(log, order[0], slow(order[0]));
      ByesAreScheduled(log + first, order[1..], slow);
      assert log + Byes(order, slow) == (log + first) + Byes(order[1..], slow);
    }
  }

  lemma {:induction false} ReversedDrop(s: seq<Conn>, i: nat)
    requires i < |s|
    ensures Reversed(s[i..]) == Reversed(s[i + 1..]) + [s[i]]
  {
    assert s[i..][1..] == s[i + 1..];
  }

  /** The plan of the hops from i on, one hop longer. */
  lemma PlanGrows(taken: Conn, hops: seq<Conn>, i: nat, slow: Conn -> bool)
    requires i < |hops|
    ensures Byes([taken] + Reversed(hops[i..]), slow)
            == Byes([taken] + Reversed(hops[i + 1..]), slow) + [ByeStart(hops[i]), ByeEnd(hops[i], slow(hops[i]))]
  {
    ReversedDrop(hops, i);
    ByesAppend([taken] + Reversed(hops[i + 1..]), [hops[i]], slow);
    assert [hops[i]][1..] == [];
    assert [taken] + Reversed(hops[i..]) == [taken] + Reversed(hops[i + 1..]) + [hops[i]];
  }

  // ----- the methods

  /** What the teardown task owns, and whether it has run. */
  datatype Teardown = Teardown(taken: Conn, hops: seq<Conn>, finished: bool)

  function TaskOf(t: Teardown): (task: Task) {
    Task(if t.finished then [] else Plan(t.taken, t.hops), false)
  }

  function TasksOf(teardowns: seq<Teardown>): (tasks: seq<Task>)
    ensures |tasks| == |teardowns|
    ensures forall k :: 0 <= k < |teardowns| ==> tasks[k] == TaskOf(teardowns[k])
  {
    seq(|teardowns|, k requires 0 <= k < |teardowns| => TaskOf(teardowns[k]))
  }

  /** SshSpikeSession without its readers: the three mutex-guarded fields and what disconnect spawns. */
  class SshSpikeSession {
    var writeHalf: bool
    var handle: Option<Conn>
    var parents: seq<Conn>
    var teardowns: seq<Teardown>
    var log: seq<Event>

    /** The state of the step machine between calls. */
    ghost function Machine(): (s: State)
      reads this
    {
      State(None, None, None, writeHalf, handle, parents, map[], TasksOf(teardowns), log)
    }

    constructor (owned: Dial.Owned)
      ensures Machine() == Init(owned.handle, owned.parents)
    {
      writeHalf, handle, parents := true, Some(owned.handle), owned.parents;
      teardowns, log := [], [];
    }

    /** Every operation on the connection begins here: with the handle, which it uses, or with "session closed". */
    method Borrow(t: Tid) returns (conn: Option<Conn>)
      modifies this`log
      ensures conn == handle
      ensures Machine() == Borrowed(old(Machine()), t)
    {
      conn := handle;
      log := log + [if conn.Some? then Used(t, conn.value) else Refused(t)];
    }

    method Disconnect()
      modifies this
      ensures Machine() == Disconnected(old(Machine()))
    {
      if writeHalf {
        writeHalf := false;
        log := log + [TookShell];
      }
      if handle.Some? {
        var taken := handle.value;
        handle := None;
        log := log + [TookHandle(taken)];
        var hops := parents;
        parents := [];
        teardowns := teardowns + [Teardown(taken, hops, false)];
        assert TasksOf(teardowns) == TasksOf(old(teardowns)) + [Task(Plan(taken, hops), false)];
      }
      assert TasksOf(old(teardowns)) + [] == TasksOf(old(teardowns));
    }

    /** handle.disconnect or parent.disconnect under a five-second timeout; either outcome ends it. */
    method Bye(conn: Conn, timedOut: bool)
      modifies this`log
      ensures log == old(log) + [ByeStart(conn), ByeEnd(conn, timedOut)]
    {
      log := log + [ByeStart(conn)];
      log := log + [ByeEnd(conn, timedOut)];
    }

    /** The spawned teardown: the target, then the hops from the last one back. */
    method RunTeardown(k: nat, slow: Conn -> bool)
      requires k < |teardowns| && !teardowns[k].finished
      modifies this`log, this`teardowns
      ensures Machine() == TornDownBy(old(Machine()), k, slow)
      ensures Marks(log) == Marks(old(log)) + Schedule(Plan(old(teardowns)[k].taken, old(teardowns)[k].hops))
    {
      hide Marks, Schedule;
      var taken, hops := teardowns[k].taken, teardowns[k].hops;
      Bye(taken, slow(taken));
      var i := |hops|;
      assert [taken][1..] == [] && Reversed(hops[i..]) == [] && [taken] + [] == [taken];
      while i > 0
        invariant 0 <= i <= |hops| && teardowns == old(teardowns)
        invariant log == old(log) + Byes([taken] + Reversed(hops[i..]), slow)
      {
        i := i - 1;
        Bye(hops[i], slow(hops[i]));
        PlanGrows(taken, hops, i, slow);
      }
      assert hops[0..] == hops;
      ByesAreScheduled(old(log), Plan(taken, hops), slow);
      teardowns := teardowns[k := Teardown(taken, hops, true)];
      assert TasksOf(teardowns) == TasksOf(old(teardowns))[k := Task([], false)];
    }
  }

  // ----- the runs they are

  lemma ShellTakeIsARun(s: State, t: Tid) returns (steps: seq<Step>)
    requires t !in s.threads && s.writeLock.None?
    ensures Runs(s, steps)
    ensures After(s, steps) == s.(shell := false, threads := s.threads[t := WantHandle(Disconnect)],
                                  log := s.log + (if s.shell then [TookShell] else []))
  {
    hide Runs, After;
    RunsOne(s, Enter(t, Disconnect));
    steps := [Enter(t, Disconnect)];
    RunsSnoc(s, steps, LockWrite(t));
    steps := steps + [LockWrite(t)];
    RunsSnoc(s, steps, TakeShell(t));
    steps := steps + [TakeShell(t)];
    RunsSnoc(s, steps, UnlockWrite(t));
    steps := steps + [UnlockWrite(t)];
    assert After(s, steps).threads == s.threads[t := WantHandle(Disconnect)];
  }

  lemma HandleTakeBegins(s: State, t: Tid) returns (steps: seq<Step>)
    requires t in s.threads && s.threads[t] == WantHandle(Disconnect)
    requires s.handleLock.None? && s.handle.Some?
    ensures Runs(s, steps)
    ensures After(s, steps) == s.(handleLock := Some(t), handle := None,
                                  threads := s.threads[t := WantParents(s.handle.value)],
                                  log := s.log + [TookHandle(s.handle.value)])
  {
    hide Runs, After;
    RunsOne(s, LockHandle(t));
    steps := [LockHandle(t)];
    RunsSnoc(s, steps, Look(t));
    steps := steps + [Look(t)];
    assert After(s, steps).threads == s.threads[t := WantParents(s.handle.value)];
  }

  lemma ParentsTake(s: State, t: Tid, target: Conn) returns (steps: seq<Step>)
    requires t in s.threads && s.threads[t] == WantParents(target) && s.parentsLock.None?
    ensures Runs(s, steps)
    ensures After(s, steps) == s.(parents := [], threads := s.threads[t := Spawning(target, s.parents)])
  {
    hide Runs, After;
    RunsOne(s, LockParents(t));
    steps := [LockParents(t)];
    RunsSnoc(s, steps, Drain(t));
    steps := steps + [Drain(t)];
    RunsSnoc(s, steps, UnlockParents(t));
    steps := steps + [UnlockParents(t)];
    assert After(s, steps).threads == s.threads[t := Spawning(target, s.parents)];
  }

  lemma HandleTakeEnds(s: State, t: Tid, target: Conn) returns (steps: seq<Step>)
    requires t in s.threads && s.threads[t] == WantParents(target) && s.parentsLock.None?
    ensures Runs(s, steps)
    ensures After(s, steps) == s.(handleLock := None, parents := [], threads := s.threads - {t},
                                  tasks := s.tasks + [Task(Plan(target, s.parents), false)])
  {
    hide Runs, After;
    steps := ParentsTake(s, t, target);
    RunsSnoc(s, steps, Spawn(t));
    steps := steps + [Spawn(t)];
    RunsSnoc(s, steps, UnlockHandle(t));
    steps := steps + [UnlockHandle(t)];
    assert After(s, steps).threads == s.threads - {t};
  }

  /** The start of a call on the connection that meets no other thread: the lock, and a look at the handle. */
  lemma LookIsARun(s: State, t: Tid) returns (steps: seq<Step>)
    requires t !in s.threads && s.handleLock.None?
    ensures Runs(s, steps)
    ensures After(s, steps) == s.(
              handleLock := Some(t),
              threads := s.threads[t := if s.handle.Some? then Using(s.handle.value) else LeaveHandle],
              log := s.log + (if s.handle.Some? then [] else [Refused(t)]))
  {
    hide Runs, After;
    RunsOne(s, Enter(t, UseHandle));
    steps := [Enter(t, UseHandle)];
    RunsSnoc(s, steps, LockHandle(t));
    steps := steps + [LockHandle(t)];
    RunsSnoc(s, steps, Look(t));
    steps := steps + [Look(t)];
    assert s.log + [] == s.log;
    assert After(s, steps).threads == s.threads[t := if s.handle.Some? then Using(s.handle.value) else LeaveHandle];
  }

  /**
   A call on the connection that meets no other thread is a run of the step machine with the method's
   effect: it locks, uses the handle if it is there and is refused if not, and leaves all else alone.
   */
  lemma BorrowIsARun(s: State, t: Tid) returns (steps: seq<Step>)
    requires t !in s.threads && s.handleLock.None?
    ensures Runs(s, steps)
    ensures After(s, steps) == Borrowed(s, t)
  {
    hide Runs, After;
    steps := LookIsARun(s, t);
    if s.handle.Some? {
      RunsSnoc(s, steps, Use(t));
      steps := steps + [Use(t)];
      RunsSnoc(s, steps, StopUsing(t));
      steps := steps + [StopUsing(t)];
    }
    RunsSnoc(s, steps, UnlockHandle(t));
    steps := steps + [UnlockHandle(t)];
    assert After(s, steps).threads == s.threads;
  }

  /** The same call made after a disconnect call, in any state where both meet no other thread, is refused. */
  lemma BorrowAfterDisconnect(s: State, t: Tid, u: Tid) returns (steps: seq<Step>)
    requires t !in s.threads && u !in s.threads
    requires s.writeLock.None? && s.handleLock.None? && s.parentsLock.None?
    ensures Runs(s, steps)
    ensures var e := After(s, steps); e.handle.None? && |e.log| > 0 && e.log[|e.log| - 1] == Refused(u)
  {
    var first := DisconnectIsARun(s, t);
    var second := BorrowIsARun(After(s, first), u);
    RunsAppend(s, first, second);
    steps := first + second;
  }

  lemma HandleIsGone(s: State, t: Tid) returns (steps: seq<Step>)
    requires t in s.threads && s.threads[t] == WantHandle(Disconnect)
    requires s.handleLock.None? && s.handle.None?
    ensures Runs(s, steps)
    ensures After(s, steps) == s.(threads := s.threads - {t})
  {
    hide Runs, After;
    RunsOne(s, LockHandle(t));
    steps := [LockHandle(t)];
    RunsSnoc(s, steps, Look(t));
    steps := steps + [Look(t)];
    RunsSnoc(s, steps, UnlockHandle(t));
    steps := steps + [UnlockHandle(t)];
    assert After(s, steps).threads == s.threads - {t};
  }

  /** A disconnect call that meets no other thread is a run of the step machine, with the method's effect. */
  lemma DisconnectIsARun(s: State, t: Tid) returns (steps: seq<Step>)
    requires t !in s.threads && s.writeLock.None? && s.handleLock.None? && s.parentsLock.None?
    ensures Runs(s, steps)
    ensures After(s, steps) == Disconnected(s)
  {
    var first := ShellTakeIsARun(s, t);
    var between := After(s, first);
    if s.handle.Some? {
      var second := HandleTakeBegins(between, t);
      RunsAppend(s, first, second);
      var third := HandleTakeEnds(After(s, first + second), t, s.handle.value);
      RunsAppend(s, first + second, third);
      steps := first + second + third;
    } else {
      var second := HandleIsGone(between, t);
      RunsAppend(s, first, second);
      steps := first + second;
      assert between.log + [] == between.log && s.tasks + [] == s.tasks;
    }
    assert After(s, steps).threads == s.threads;
  }
  /** Steps of teardown task k alone. */
  predicate OfTask(steps: seq<Step>, k: nat) {
    forall i :: 0 <= i < |steps| ==> (steps[i].SayBye? || steps[i].ByeReturns?) && steps[i].k == k
  }

  /** What is left of a task: a bye under way ends first. */
  function ByesLeft(task: Task, slow: Conn -> bool): (e: seq<Event>) {
    if task.queue != [] && task.saying then [ByeEnd(task.queue[0], slow(task.queue[0]))] + Byes(task.queue[1..], slow)
    else Byes(task.queue, slow)
  }

  /** A teardown task is a run of the step machine, with the method's effect, in any state and beside any threads. */
  lemma {:induction false} TeardownIsARun(s: State, k: nat, slow: Conn -> bool) returns (steps: seq<Step>)
    requires k < |s.tasks| && (s.tasks[k].queue == [] ==> !s.tasks[k].saying)
    ensures Runs(s, steps)
    ensures OfTask(steps, k)
    ensures After(s, steps) == s.(tasks := s.tasks[k := Task([], false)], log := s.log + ByesLeft(s.tasks[k], slow))
    ensures !s.tasks[k].saying ==> After(s, steps) == TornDownBy(s, k, slow)
    decreases 2 * |s.tasks[k].queue| + (if s.tasks[k].saying then 0 else 1)
  {
    var task := s.tasks[k];
    if task.queue == [] {
      steps := [];
      assert s.tasks[k := Task([], false)] == s.tasks && s.log + [] == s.log;
    } else {
      var conn := task.queue[0];
      var step := if task.saying then ByeReturns(k, slow(conn)) else SayBye(k);
      var now := Next(s, step);
      var rest := TeardownIsARun(now, k, slow);
      steps := [step] + rest;
      assert steps[1..] == rest;
      assert now.tasks[k := Task([], false)] == s.tasks[k := Task([], false)];
      assert now.log + ByesLeft(now.tasks[k], slow) == s.log + ByesLeft(task, slow);
    }
  }
}
