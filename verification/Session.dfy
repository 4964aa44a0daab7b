/**
 A connected session under any number of calling threads (ssh-transport/src/lib.rs:
 SshSpikeSession): three mutexes, the handle of the target and the handles of the hops under it,
 the take of all of them by disconnect, and the teardown task it spawns. A Step is one thing that
 one thread or one task does.
 */
module Session {
  import opened Wrappers

  type Tid = nat
  type Conn = nat

  /**
   disconnect; write and resize, which lock the write half; and exec, direct_tcpip_banner,
   open_direct_tcpip, request_remote_forward, cancel_remote_forward, sftp and sftp_read, which lock
   the handle for as long as they use it.
   */
  datatype Op = Disconnect | ShellSend | UseHandle

  /**
   Where a thread is. disconnect goes WantWrite, InWrite, LeaveWrite, WantHandle, InHandle and, if
   it took the handle, WantParents, InParents, Drained, Spawning; everything ends in LeaveHandle or
   LeaveWrite.
   */
  datatype Pc =
    | WantWrite(op: Op)
    | InWrite(op: Op)
    | LeaveWrite(op: Op)
    | WantHandle(op: Op)
    | InHandle(op: Op)
    | Using(conn: Conn)
    | WantParents(taken: Conn)
    | InParents(taken: Conn)
    | Drained(taken: Conn, hops: seq<Conn>)
    | Spawning(taken: Conn, hops: seq<Conn>)
    | LeaveHandle

  /** The spawned teardown: connections still to close, and whether the first one's bye is under way. */
  datatype Task = Task(queue: seq<Conn>, saying: bool)

  datatype Event =
    | Used(t: Tid, conn: Conn)
    | Refused(t: Tid)
    | ShellSent(t: Tid)
    | ShellRefused(t: Tid)
    | TookShell
    | TookHandle(conn: Conn)
    | ByeStart(conn: Conn)
    | ByeEnd(conn: Conn, timedOut: bool)

  datatype State = State(
    writeLock: Option<Tid>,
    handleLock: Option<Tid>,
    parentsLock: Option<Tid>,
    shell: bool,
    handle: Option<Conn>,
    parents: seq<Conn>,
    threads: map<Tid, Pc>,
    tasks: seq<Task>,
    log: seq<Event>)

  /** A session that owns a target and its hops, outermost first. */
  function Init(target: Conn, hops: seq<Conn>): (s: State) {
    State(None, None, None, true, Some(target), hops, map[], [], [])
  }

  function Reversed(s: seq<Conn>): (r: seq<Conn>)
    ensures |r| == |s|
    ensures forall i :: 0 <= i < |s| ==> r[i] == s[|s| - 1 - i]
  {
    if s == [] then [] else Reversed(s[1..]) + [s[0]]
  }

  datatype Step =
    | Enter(t: Tid, op: Op)
    | LockWrite(t: Tid)
    | TouchShell(t: Tid)
    | StopShell(t: Tid)
    | TakeShell(t: Tid)
    | UnlockWrite(t: Tid)
    | LockHandle(t: Tid)
    | Look(t: Tid)
    | Use(t: Tid)
    | StopUsing(t: Tid)
    | LockParents(t: Tid)
    | Drain(t: Tid)
    | UnlockParents(t: Tid)
    | Spawn(t: Tid)
    | UnlockHandle(t: Tid)
    | SayBye(k: nat)
    | ByeReturns(k: nat, timedOut: bool)

  predicate Enabled(s: State, step: Step) {
    match step
    case Enter(t, _) => t !in s.threads
    case LockWrite(t) => t in s.threads && s.threads[t].WantWrite? && s.writeLock.None?
    case TouchShell(t) => t in s.threads && s.threads[t] == InWrite(ShellSend)
    case StopShell(t) => t in s.threads && s.threads[t] == InWrite(ShellSend) && s.shell
    case TakeShell(t) => t in s.threads && s.threads[t] == InWrite(Disconnect)
    case UnlockWrite(t) => t in s.threads && s.threads[t].LeaveWrite?
    case LockHandle(t) => t in s.threads && s.threads[t].WantHandle? && s.handleLock.None?
    case Look(t) => t in s.threads && s.threads[t].InHandle?
    case Use(t) => t in s.threads && s.threads[t].Using?
    case StopUsing(t) => t in s.threads && s.threads[t].Using?
    case LockParents(t) => t in s.threads && s.threads[t].WantParents? && s.parentsLock.None?
    case Drain(t) => t in s.threads && s.threads[t].InParents?
    case UnlockParents(t) => t in s.threads && s.threads[t].Drained?
    case Spawn(t) => t in s.threads && s.threads[t].Spawning?
    case UnlockHandle(t) => t in s.threads && s.threads[t].LeaveHandle?
    case SayBye(k) => k < |s.tasks| && s.tasks[k].queue != [] && !s.tasks[k].saying
    case ByeReturns(k, _) => k < |s.tasks| && s.tasks[k].queue != [] && s.tasks[k].saying
  }

  function Goto(s: State, t: Tid, pc: Pc): (s': State) {
    s.(threads := s.threads[t := pc])
  }

  function Logged(s: State, e: Event): (s': State) {
    s.(log := s.log + [e])
  }

  /** What a call does with the handle it finds, the mutex in hand. */
  function Looked(s: State, t: Tid, op: Op): (s': State) {
    match s.handle
    case None => if op.Disconnect? then Goto(s, t, LeaveHandle) else Logged(Goto(s, t, LeaveHandle), Refused(t))
    case Some(conn) =>
      if op.Disconnect? then Logged(Goto(s.(handle := None), t, WantParents(conn)), TookHandle(conn))
      else Goto(s, t, Using(conn))
  }

  function Next(s: State, step: Step): (s': State)
    requires Enabled(s, step)
  {
    match step
    case Enter(t, op) => Goto(s, t, if op.UseHandle? then WantHandle(op) else WantWrite(op))
    case LockWrite(t) => Goto(s.(writeLock := Some(t)), t, InWrite(s.threads[t].op))
    case TouchShell(t) =>
      if s.shell then Logged(s, ShellSent(t))
      else Logged(Goto(s, t, LeaveWrite(ShellSend)), ShellRefused(t))
    case StopShell(t) => Goto(s, t, LeaveWrite(ShellSend))
    case TakeShell(t) =>
      var left := Goto(s.(shell := false), t, LeaveWrite(Disconnect));
      if s.shell then Logged(left, TookShell) else left
    case UnlockWrite(t) =>
      var free := s.(writeLock := None);
      if s.threads[t].op.Disconnect? then Goto(free, t, WantHandle(Disconnect)) else free.(threads := s.threads - {t})
    case LockHandle(t) => Goto(s.(handleLock := Some(t)), t, InHandle(s.threads[t].op))
    case Look(t) => Looked(s, t, s.threads[t].op)
    case Use(t) => Logged(s, Used(t, s.threads[t].conn))
    case StopUsing(t) => Goto(s, t, LeaveHandle)
    case LockParents(t) => Goto(s.(parentsLock := Some(t)), t, InParents(s.threads[t].taken))
    case Drain(t) => Goto(s.(parents := []), t, Drained(s.threads[t].taken, s.parents))
    case UnlockParents(t) => Goto(s.(parentsLock := None), t, Spawning(s.threads[t].taken, s.threads[t].hops))
    case Spawn(t) =>
      var pc := s.threads[t];
      Goto(s.(tasks := s.tasks + [Task([pc.taken] + Reversed(pc.hops), false)]), t, LeaveHandle)
    case UnlockHandle(t) => s.(handleLock := None, threads := s.threads - {t})
    case SayBye(k) =>
      var task := s.tasks[k];
      Logged(s.(tasks := s.tasks[k := task.(saying := true)]), ByeStart(task.queue[0]))
    case ByeReturns(k, timedOut) =>
      var task := s.tasks[k];
      Logged(s.(tasks := s.tasks[k := Task(task.queue[1..], false)]), ByeEnd(task.queue[0], timedOut))
  }

  predicate Runs(s: State, steps: seq<Step>)
    decreases |steps|
  {
    steps == [] || (Enabled(s, steps[0]) && Runs(Next(s, steps[0]), steps[1..]))
  }

  function After(s: State, steps: seq<Step>): (s': State)
    requires Runs(s, steps)
    decreases |steps|
  {
    if steps == [] then s else After(Next(s, steps[0]), steps[1..])
  }

  lemma {:induction false} RunsAppend(s: State, a: seq<Step>, b: seq<Step>)
    requires Runs(s, a) && Runs(After(s, a), b)
    ensures Runs(s, a + b) && After(s, a + b) == After(After(s, a), b)
    decreases |a|
  {
    if a == [] {
      assert a + b == b;
    } else {
      assert (a + b)[1..] == a[1..] + b;
      RunsAppend(Next(s, a[0]), a[1..], b);
    }
  }

  lemma RunsOne(s: State, step: Step)
    requires Enabled(s, step)
    ensures Runs(s, [step]) && After(s, [step]) == Next(s, step)
  {
    assert [step][1..] == [];
    assert After(Next(s, step), []) == Next(s, step);
  }

  lemma RunsSnoc(s: State, a: seq<Step>, step: Step)
    requires Runs(s, a) && Enabled(After(s, a), step)
    ensures Runs(s, a + [step]) && After(s, a + [step]) == Next(After(s, a), step)
  {
    RunsOne(After(s, a), step);
    RunsAppend(s, a, [step]);
  }

  // ----- who holds and who waits

  datatype Lock = WriteHalfLock | HandleLock | ParentsLock

  function Owner(s: State, l: Lock): (t: Option<Tid>) {
    match l
    case WriteHalfLock => s.writeLock
    case HandleLock => s.handleLock
    case ParentsLock => s.parentsLock
  }

  predicate Holds(pc: Pc, l: Lock) {
    match l
    case WriteHalfLock => pc.InWrite? || pc.LeaveWrite?
    case HandleLock => !pc.WantWrite? && !pc.InWrite? && !pc.LeaveWrite? && !pc.WantHandle?
    case ParentsLock => pc.InParents? || pc.Drained?
  }

  function WaitsFor(pc: Pc): (l: Option<Lock>) {
    match pc
    case WantWrite(_) => Some(WriteHalfLock)
    case WantHandle(_) => Some(HandleLock)
    case WantParents(_) => Some(ParentsLock)
    case _ => None
  }

  predicate LocksOk(s: State, l: Lock) {
    && (forall t :: t in s.threads ==> (Holds(s.threads[t], l) <==> Owner(s, l) == Some(t)))
    && (Owner(s, l).Some? ==> Owner(s, l).value in s.threads)
  }

  /** Only disconnect waits for or holds the write lock on its way to the handle; ShellSend never goes on. */
  predicate OpOk(pc: Pc) {
    match pc
    case WantWrite(op) => !op.UseHandle?
    case InWrite(op) => !op.UseHandle?
    case LeaveWrite(op) => !op.UseHandle?
    case WantHandle(op) => !op.ShellSend?
    case InHandle(op) => !op.ShellSend?
    case _ => true
  }

  predicate OpsOk(s: State) {
    forall t :: t in s.threads ==> OpOk(s.threads[t])
  }

  // ----- where the connections are

  /** The order of the byes: the target, then the hops, last hop first. */
  function Plan(target: Conn, hops: seq<Conn>): (order: seq<Conn>) {
    [target] + Reversed(hops)
  }

  datatype ByeMark = Start(conn: Conn) | End(conn: Conn)

  function Marks(log: seq<Event>): (m: seq<ByeMark>) {
    if log == [] then []
    else
      Marks(log[..|log| - 1])
      + match log[|log| - 1]
        case ByeStart(conn) => [Start(conn)]
        case ByeEnd(conn, _) => [End(conn)]
        case _ => []
  }

  /** Each bye is over before the next one starts. */
  function Schedule(order: seq<Conn>): (m: seq<ByeMark>) {
    if order == [] then [] else [Start(order[0]), End(order[0])] + Schedule(order[1..])
  }

  /** What a task has still to do. */
  function Pending(task: Task): (m: seq<ByeMark>) {
    if task.queue == [] then []
    else if task.saying then [End(task.queue[0])] + Schedule(task.queue[1..])
    else Schedule(task.queue)
  }

  /** The take is under way in the thread that holds the handle lock. */
  predicate Taking(pc: Pc) {
    pc.WantParents? || pc.InParents? || pc.Drained? || pc.Spawning?
  }

  /** The thread that is taking the connections, if any. */
  function Taker(s: State): (pc: Option<Pc>)
    ensures pc.Some? ==> Taking(pc.value)
  {
    if s.handleLock.Some? && s.handleLock.value in s.threads && Taking(s.threads[s.handleLock.value])
    then Some(s.threads[s.handleLock.value]) else None
  }

  /** Every connection is owned exactly once: by the session, by the thread taking it, or by the one task. */
  predicate OwnershipOk(s: State, target: Conn, hops: seq<Conn>) {
    match Taker(s)
    case Some(pc) =>
      && s.handle.None? && s.tasks == [] && Marks(s.log) == []
      && pc.taken == target
      && (if pc.Drained? || pc.Spawning? then s.parents == [] && pc.hops == hops else s.parents == hops)
    case None =>
      if s.handle.Some? then
        s.handle == Some(target) && s.parents == hops && s.tasks == [] && Marks(s.log) == []
      else
        s.parents == [] && |s.tasks| == 1 && Marks(s.log) + Pending(s.tasks[0]) == Schedule(Plan(target, hops))
  }

  /** A thread uses the target's handle only while the session still has it. */
  predicate UsersOk(s: State, target: Conn) {
    forall t :: t in s.threads && s.threads[t].Using? ==> s.threads[t].conn == target && s.handle == Some(target)
  }

  // ----- what the log says

  predicate HandleTaken(log: seq<Event>) {
    exists i :: 0 <= i < |log| && log[i].TookHandle?
  }

  predicate ShellTaken(log: seq<Event>) {
    exists i :: 0 <= i < |log| && log[i].TookShell?
  }

  /** Before the take calls go through, afterwards they are refused; there is one take. */
  predicate EventOk(past: seq<Event>, e: Event, target: Conn) {
    match e
    case Used(_, conn) => !HandleTaken(past) && conn == target
    case Refused(_) => HandleTaken(past)
    case ShellSent(_) => !ShellTaken(past)
    case ShellRefused(_) => ShellTaken(past)
    case TookShell => !ShellTaken(past)
    case TookHandle(conn) => !HandleTaken(past) && conn == target
    case ByeStart(_) => HandleTaken(past)
    case ByeEnd(_, _) => HandleTaken(past)
  }

  predicate LogOk(log: seq<Event>, target: Conn) {
    log == [] || (LogOk(log[..|log| - 1], target) && EventOk(log[..|log| - 1], log[|log| - 1], target))
  }

  predicate Inv(s: State, target: Conn, hops: seq<Conn>) {
    && LocksOk(s, WriteHalfLock) && LocksOk(s, HandleLock) && LocksOk(s, ParentsLock)
    && OpsOk(s)
    && OwnershipOk(s, target, hops)
    && UsersOk(s, target)
    && LogOk(s.log, target)
    && (HandleTaken(s.log) <==> s.handle.None?)
    && (ShellTaken(s.log) <==> !s.shell)
  }

  lemma InvInit(target: Conn, hops: seq<Conn>)
    ensures Inv(Init(target, hops), target, hops)
  {
  }

  lemma LogSnoc(log: seq<Event>, e: Event, target: Conn)
    ensures (log + [e])[..|log|] == log
    ensures LogOk(log, target) && EventOk(log, e, target) ==> LogOk(log + [e], target)
    ensures HandleTaken(log + [e]) <==> e.TookHandle? || HandleTaken(log)
    ensures ShellTaken(log + [e]) <==> e.TookShell? || ShellTaken(log)
  {
    var more := log + [e];
    assert more[..|log|] == log && more[|log|] == e;
    assert forall i :: 0 <= i < |log| ==> more[i] == log[i];
  }

  // ----- every step keeps the invariant

  predicate AllLocksOk(s: State) {
    LocksOk(s, WriteHalfLock) && LocksOk(s, HandleLock) && LocksOk(s, ParentsLock)
  }

  ghost predicate OthersStay(s: State, s': State, t: Tid) {
    forall u :: u != t ==> (u in s.threads <==> u in s'.threads) && (u in s.threads ==> s.threads[u] == s'.threads[u])
  }

  /** Thread t keeps, takes or gives back lock l, in step with where it goes. */
  predicate OwnLockOk(s: State, s': State, t: Tid, l: Lock) {
    && (t in s'.threads ==> (Holds(s'.threads[t], l) <==> Owner(s', l) == Some(t)))
    && (t !in s'.threads ==> Owner(s', l) != Some(t))
    && (Owner(s', l) == Owner(s, l) || (Owner(s, l) == None && Owner(s', l) == Some(t))
        || (Owner(s, l) == Some(t) && Owner(s', l) == None))
  }

  lemma LockFrame(s: State, s': State, t: Tid, l: Lock)
    requires LocksOk(s, l) && OthersStay(s, s', t) && OwnLockOk(s, s', t, l)
    ensures LocksOk(s', l)
  {
  }

  lemma OthersNext(s: State, step: Step)
    requires Enabled(s, step) && !step.SayBye? && !step.ByeReturns?
    ensures OthersStay(s, Next(s, step), step.t)
  {
  }

  /** Steps that lock or unlock one of the mutexes. */
  predicate Locking(step: Step) {
    || step.LockWrite? || step.UnlockWrite? || step.LockHandle? || step.UnlockHandle?
    || step.LockParents? || step.UnlockParents?
  }

  lemma OwnerNext(s: State, step: Step, l: Lock)
    requires Enabled(s, step) && !Locking(step)
    ensures Owner(Next(s, step), l) == Owner(s, l)
  {
  }

  lemma HolderNext(s: State, step: Step, l: Lock)
    requires Enabled(s, step) && !Locking(step) && !step.Enter? && !step.SayBye? && !step.ByeReturns?
    ensures step.t in s.threads && step.t in Next(s, step).threads
    ensures Holds(Next(s, step).threads[step.t], l) <==> Holds(s.threads[step.t], l)
  {
  }

  lemma LockingNext(s: State, step: Step, l: Lock)
    requires LocksOk(s, l) && Enabled(s, step) && Locking(step)
    ensures OwnLockOk(s, Next(s, step), step.t, l)
  {
  }

  lemma OwnLockNext(s: State, step: Step, l: Lock)
    requires LocksOk(s, l) && Enabled(s, step) && !step.SayBye? && !step.ByeReturns?
    ensures OwnLockOk(s, Next(s, step), step.t, l)
  {
    if Locking(step) {
      LockingNext(s, step, l);
    } else {
      OwnerNext(s, step, l);
      if !step.Enter? {
        HolderNext(s, step, l);
      }
    }
  }

  lemma LockNext(s: State, step: Step, l: Lock)
    requires LocksOk(s, l) && Enabled(s, step)
    ensures LocksOk(Next(s, step), l)
  {
    if !step.SayBye? && !step.ByeReturns? {
      OthersNext(s, step);
      OwnLockNext(s, step, l);
      LockFrame(s, Next(s, step), step.t, l);
    }
  }

  lemma OwnOpNext(s: State, step: Step)
    requires Enabled(s, step) && !step.SayBye? && !step.ByeReturns?
    requires step.t in s.threads ==> OpOk(s.threads[step.t])
    ensures step.t in Next(s, step).threads ==> OpOk(Next(s, step).threads[step.t])
  {
  }

  lemma OpsNext(s: State, step: Step)
    requires OpsOk(s) && Enabled(s, step)
    ensures OpsOk(Next(s, step))
  {
    hide OpOk;
    if !step.SayBye? && !step.ByeReturns? {
      OthersNext(s, step);
      OwnOpNext(s, step);
    }
  }

  lemma UsersFrame(s: State, s': State, t: Tid, target: Conn)
    requires UsersOk(s, target) && OthersStay(s, s', t) && s'.handle == s.handle
    requires t in s'.threads && s'.threads[t].Using? ==> s'.threads[t].conn == target && s.handle == Some(target)
    ensures UsersOk(s', target)
  {
  }

  /** Look is the one step that may empty the handle; its thread holds the lock, so nobody is using it. */
  lemma UsersLook(s: State, t: Tid, target: Conn)
    requires LocksOk(s, HandleLock) && UsersOk(s, target) && (s.handle.Some? ==> s.handle == Some(target))
    requires Enabled(s, Look(t))
    ensures UsersOk(Next(s, Look(t)), target)
  {
    forall u | u in s.threads && u != t ensures !s.threads[u].Using? {
      assert s.handleLock == Some(t) && !Holds(s.threads[u], HandleLock);
    }
  }

  lemma UsersNext(s: State, step: Step, target: Conn)
    requires AllLocksOk(s) && UsersOk(s, target) && (s.handle.Some? ==> s.handle == Some(target)) && Enabled(s, step)
    ensures UsersOk(Next(s, step), target)
  {
    if step.Look? {
      UsersLook(s, step.t, target);
    } else if !step.SayBye? && !step.ByeReturns? {
      OthersNext(s, step);
      UsersFrame(s, Next(s, step), step.t, target);
    }
  }

  /** The event of a step, if it has one. */
  function NewEvent(s: State, step: Step): (e: Option<Event>)
    requires Enabled(s, step)
  {
    match step
    case TouchShell(t) => Some(if s.shell then ShellSent(t) else ShellRefused(t))
    case TakeShell(_) => if s.shell then Some(TookShell) else None
    case Look(t) =>
      if s.threads[t].op.Disconnect? then (if s.handle.Some? then Some(TookHandle(s.handle.value)) else None)
      else if s.handle.Some? then None
      else Some(Refused(t))
    case Use(t) => Some(Used(t, s.threads[t].conn))
    case SayBye(k) => Some(ByeStart(s.tasks[k].queue[0]))
    case ByeReturns(k, timedOut) => Some(ByeEnd(s.tasks[k].queue[0], timedOut))
    case _ => None
  }

  lemma LogGrows(s: State, step: Step)
    requires Enabled(s, step)
    ensures var s', e := Next(s, step), NewEvent(s, step);
            && s'.log == s.log + (if e.Some? then [e.value] else [])
            && (s'.handle.None? <==> s.handle.None? || (e.Some? && e.value.TookHandle?))
            && (!s'.shell <==> !s.shell || (e.Some? && e.value.TookShell?))
  {
  }

  lemma EventNext(s: State, step: Step, target: Conn, hops: seq<Conn>)
    requires Inv(s, target, hops) && Enabled(s, step) && NewEvent(s, step).Some?
    ensures EventOk(s.log, NewEvent(s, step).value, target)
  {
  }

  lemma LogNext(s: State, step: Step, target: Conn, hops: seq<Conn>)
    requires Inv(s, target, hops) && Enabled(s, step)
    ensures var s' := Next(s, step);
            && LogOk(s'.log, target)
            && (HandleTaken(s'.log) <==> s'.handle.None?)
            && (ShellTaken(s'.log) <==> !s'.shell)
  {
    LogGrows(s, step);
    if NewEvent(s, step).Some? {
      EventNext(s, step, target, hops);
      LogSnoc(s.log, NewEvent(s, step).value, target);
    }
  }

  /** Steps that leave handle, parents, tasks and any take under way as they are. */
  predicate Quiet(step: Step) {
    || step.Enter? || step.LockWrite? || step.TouchShell? || step.StopShell? || step.TakeShell? || step.UnlockWrite?
    || step.LockHandle? || step.Use? || step.StopUsing? || step.LockParents? || step.UnlockHandle?
  }

  lemma QuietLog(s: State, step: Step)
    requires Enabled(s, step) && Quiet(step)
    ensures Marks(Next(s, step).log) == Marks(s.log)
  {
    var s' := Next(s, step);
    if |s'.log| > |s.log| {
      assert s'.log[..|s.log|] == s.log;
    }
  }

  lemma QuietTaker(s: State, step: Step)
    requires LocksOk(s, HandleLock) && Enabled(s, step) && Quiet(step)
    ensures Taker(Next(s, step)) ==
            if step.LockParents? then Some(InParents(s.threads[step.t].taken)) else Taker(s)
    ensures step.LockParents? ==> Taker(s) == Some(s.threads[step.t])
  {
  }

  lemma QuietKeeps(s: State, step: Step)
    requires Enabled(s, step) && Quiet(step)
    ensures var s' := Next(s, step); s'.handle == s.handle && s'.parents == s.parents && s'.tasks == s.tasks
  {
  }

  lemma OwnershipQuiet(s: State, step: Step, target: Conn, hops: seq<Conn>)
    requires LocksOk(s, HandleLock) && OwnershipOk(s, target, hops) && Enabled(s, step) && Quiet(step)
    ensures OwnershipOk(Next(s, step), target, hops)
  {
    hide Marks, Pending, Schedule, Plan, Taker;
    QuietLog(s, step);
    QuietTaker(s, step);
    QuietKeeps(s, step);
  }

  lemma LookIsQuiet(s: State, t: Tid)
    requires Enabled(s, Look(t))
    ensures Marks(Next(s, Look(t)).log) == Marks(s.log)
  {
    var s' := Next(s, Look(t));
    if |s'.log| > |s.log| {
      assert s'.log[..|s.log|] == s.log;
    }
  }

  lemma OwnershipLook(s: State, t: Tid, target: Conn, hops: seq<Conn>)
    requires LocksOk(s, HandleLock) && OwnershipOk(s, target, hops) && Enabled(s, Look(t))
    ensures OwnershipOk(Next(s, Look(t)), target, hops)
  {
    hide Marks, Pending, Schedule, Plan;
    var s' := Next(s, Look(t));
    assert s.handleLock == Some(t) == s'.handleLock && Taker(s) == None;
    LookIsQuiet(s, t);
    if s.handle.Some? && s.threads[t].op.Disconnect? {
      assert s'.threads[t] == WantParents(target) && s'.parents == hops && s'.tasks == [];
    } else {
      assert !Taking(s'.threads[t]);
      assert s'.handle == s.handle && s'.parents == s.parents && s'.tasks == s.tasks;
    }
  }

  lemma OwnershipTake(s: State, step: Step, target: Conn, hops: seq<Conn>)
    requires LocksOk(s, HandleLock) && OwnershipOk(s, target, hops) && Enabled(s, step)
    requires step.Drain? || step.UnlockParents?
    ensures OwnershipOk(Next(s, step), target, hops)
  {
    hide Marks, Pending, Schedule, Plan;
    assert Taker(s) == Some(s.threads[step.t]);
    assert Taker(Next(s, step)) == Some(Next(s, step).threads[step.t]);
  }

  /** Spawning hands the connections to the one task, which has the whole plan before it. */
  lemma OwnershipSpawn(s: State, t: Tid, target: Conn, hops: seq<Conn>)
    requires LocksOk(s, HandleLock) && OwnershipOk(s, target, hops) && Enabled(s, Spawn(t))
    ensures OwnershipOk(Next(s, Spawn(t)), target, hops)
  {
    hide Marks, Schedule;
    assert Taker(s) == Some(s.threads[t]) && Taker(Next(s, Spawn(t))) == None;
    assert Next(s, Spawn(t)).tasks == [Task(Plan(target, hops), false)];
    assert Marks(s.log) + Schedule(Plan(target, hops)) == Schedule(Plan(target, hops));
  }

  /** What a task says next. */
  function NextMark(s: State, step: Step): (mark: ByeMark)
    requires Enabled(s, step) && (step.SayBye? || step.ByeReturns?)
  {
    if step.SayBye? then Start(s.tasks[step.k].queue[0]) else End(s.tasks[step.k].queue[0])
  }

  lemma MarksNext(s: State, step: Step)
    requires Enabled(s, step) && (step.SayBye? || step.ByeReturns?)
    ensures Marks(Next(s, step).log) == Marks(s.log) + [NextMark(s, step)]
  {
    assert Next(s, step).log[..|s.log|] == s.log;
  }

  lemma PendingStart(queue: seq<Conn>)
    requires queue != []
    ensures Pending(Task(queue, false)) == [Start(queue[0])] + Pending(Task(queue, true))
  {
  }

  lemma PendingEnd(queue: seq<Conn>)
    requires queue != []
    ensures Pending(Task(queue, true)) == [End(queue[0])] + Pending(Task(queue[1..], false))
  {
  }

  lemma PendingNext(s: State, step: Step)
    requires Enabled(s, step) && (step.SayBye? || step.ByeReturns?)
    ensures Pending(s.tasks[step.k]) == [NextMark(s, step)] + Pending(Next(s, step).tasks[step.k])
  {
    hide Marks, Pending, Schedule;
    var task := s.tasks[step.k];
    if step.SayBye? {
      PendingStart(task.queue);
      assert task == Task(task.queue, false) && Next(s, step).tasks[step.k] == Task(task.queue, true);
    } else {
      PendingEnd(task.queue);
      assert task == Task(task.queue, true) && Next(s, step).tasks[step.k] == Task(task.queue[1..], false);
    }
  }

  lemma OwnershipInTask(s: State, step: Step, target: Conn, hops: seq<Conn>)
    requires OwnershipOk(s, target, hops) && Enabled(s, step) && (step.SayBye? || step.ByeReturns?)
    ensures OwnershipOk(Next(s, step), target, hops)
  {
    hide Marks, Pending, Schedule, Plan;
    assert |s.tasks| == 1 && step.k == 0;
    var task, s' := s.tasks[0], Next(s, step);
    MarksNext(s, step);
    PendingNext(s, step);
    assert Taker(s') == Taker(s);
    assert Marks(s'.log) + Pending(s'.tasks[0]) == Marks(s.log) + Pending(task);
  }

  lemma InvNext(s: State, step: Step, target: Conn, hops: seq<Conn>)
    requires Inv(s, target, hops) && Enabled(s, step)
    ensures Inv(Next(s, step), target, hops)
  {
    LockNext(s, step, WriteHalfLock);
    LockNext(s, step, HandleLock);
    LockNext(s, step, ParentsLock);
    OpsNext(s, step);
    UsersNext(s, step, target);
    LogNext(s, step, target, hops);
    if step.SayBye? || step.ByeReturns? {
      OwnershipInTask(s, step, target, hops);
    } else if Quiet(step) {
      OwnershipQuiet(s, step, target, hops);
    } else if step.Look? {
      OwnershipLook(s, step.t, target, hops);
    } else if step.Spawn? {
      OwnershipSpawn(s, step.t, target, hops);
    } else {
      OwnershipTake(s, step, target, hops);
    }
  }

  lemma {:induction false} InvRun(s: State, steps: seq<Step>, target: Conn, hops: seq<Conn>)
    requires Inv(s, target, hops) && Runs(s, steps)
    ensures Inv(After(s, steps), target, hops)
    decreases |steps|
  {
    if steps != [] {
      InvNext(s, steps[0], target, hops);
      InvRun(Next(s, steps[0]), steps[1..], target, hops);
    }
  }

  /** A state that some interleaving of calls on a fresh session leads to. */
  predicate Reached(s: State, target: Conn, hops: seq<Conn>, steps: seq<Step>) {
    Runs(Init(target, hops), steps) && After(Init(target, hops), steps) == s
  }

  lemma ReachedInv(s: State, target: Conn, hops: seq<Conn>, steps: seq<Step>)
    requires Reached(s, target, hops, steps)
    ensures Inv(s, target, hops)
  {
    InvInit(target, hops);
    InvRun(Init(target, hops), steps, target, hops);
  }
}
