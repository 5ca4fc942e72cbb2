/** The coroutine scheduler of kernel/runtime with the retry loops of kernel/net/tcp_stream.cc,
    as a transition system.

    Kernel steps happen at any time.  Steps of a routine happen while it is current; steps of
    the loop happen while no routine is.  The loop's phases are not ordered here, so every
    schedule of the program is among these runs. */
module SchedulerModel {
  import opened Options

  datatype Dir = Read | Write

  /** One side of a park: what a routine waits for on a descriptor. */
  datatype Wait = Wait(fd: nat, dir: Dir)

  datatype Mode = Idle | Running | Yielded | Parked(on: Wait, timed: bool)

  /** An entry of functions_: resume a routine after a tick yield, or start a task. */
  datatype Item = Resume(routine: nat) | Submit(task: nat)

  /** RoutinePool, with the history of its tasks; starting says that Start is in its loop. */
  datatype Pool = Pool(free: set<nat>, active: set<nat>, tasks: seq<nat>, submitted: seq<nat>, started: seq<nat>,
                       starting: bool)

  /** What the kernel knows: bytes or room available, descriptors hung up, undelivered edges. */
  datatype Kernel = Kernel(level: map<Wait, nat>, hung: set<nat>, edges: set<nat>)

  datatype State = State(
    pool: Pool,
    kernel: Kernel,
    current: Option<nat>,
    eagain: Option<Wait>,     // the current routine has just been refused here
    mode: map<nat, Mode>,
    park: map<Wait, nat>,     // read_routine_ and write_routine_ that are not null
    batch: seq<Item>,         // the functions being run
    functions: seq<Item>,
    events: seq<Wait>)        // results of epoll_wait not yet dispatched, reads before writes

  datatype Step =
    | Arrive(wait: Wait, n: nat)
    | Hangup(fd: nat)
    | Deliver(fd: nat)
    | Dispatch
    | Expire(routine: nat)
    | TakeBatch
    | RunItem
    | MainDo(task: nat)
    | StartCall(routine: nat)
    | StartEnd
    | Try(wait: Wait, n: nat)
    | Block(timed: bool)
    | Yield
    | Spawn(task: nat)
    | Finish

  // --------------------------------------------------------------------- kernel

  predicate Ready(k: Kernel, w: Wait) {
    w.fd in k.hung || (w in k.level && k.level[w] > 0)
  }

  function Raised(k: Kernel, w: Wait, n: nat): Kernel {
    k.(level := k.level[w := n + if w in k.level then k.level[w] else 0], edges := k.edges + {w.fd})
  }

  /** The readiness epoll reports for a descriptor on its ready list. */
  function Report(k: Kernel, fd: nat): seq<Wait> {
    (if Ready(k, Wait(fd, Read)) then [Wait(fd, Read)] else []) +
    (if Ready(k, Wait(fd, Write)) then [Wait(fd, Write)] else [])
  }

  // ------------------------------------------------------------------- routines

  /** Routine::Call on a suspended routine: Return comes back; a park forgets the routine. */
  function Continue(s: State, r: nat): State
    requires r in s.mode
  {
    s.(current := Some(r), mode := s.mode[r := Running],
       park := if s.mode[r].Parked? then s.park - {s.mode[r].on} else s.park)
  }

  /** Routine::Call on an idle routine: the head of the loop of RoutineProcess. */
  function Begin(s: State, r: nat): State
    requires s.pool.tasks != []
  {
    s.(current := Some(r), mode := s.mode[r := Running],
       pool := s.pool.(free := s.pool.free - {r}, active := s.pool.active + {r},
                       tasks := s.pool.tasks[1..], started := s.pool.started + [s.pool.tasks[0]]))
  }

  /** RoutinePool::Start up to its loop. */
  function Enqueue(s: State, task: nat): State {
    s.(pool := s.pool.(tasks := s.pool.tasks + [task], submitted := s.pool.submitted + [task], starting := true))
  }

  function Suspend(s: State, r: nat, m: Mode): State {
    s.(current := None, eagain := None, mode := s.mode[r := m])
  }

  predicate InMain(s: State) {
    s.current.None? && !s.pool.starting
  }

  predicate IsLeast(r: nat, free: set<nat>) {
    r in free && forall x :: x in free ==> r <= x
  }

  /** Which steps can be next.  A park takes one reader and one writer. */
  predicate Enabled(s: State, step: Step) {
    match step
    case Arrive(_, n) => n > 0
    case Hangup(_) => true
    case Deliver(fd) => InMain(s) && fd in s.kernel.edges
    case Dispatch => InMain(s) && s.events != []
    case Expire(r) => InMain(s) && r in s.mode && s.mode[r].Parked? && s.mode[r].timed
    case TakeBatch => InMain(s) && s.batch == []
    case RunItem => InMain(s) && s.batch != []
    case MainDo(_) => InMain(s)
    case StartCall(r) => s.current.None? && s.pool.starting && s.pool.tasks != [] && IsLeast(r, s.pool.free)
    case StartEnd => s.current.None? && s.pool.starting && (s.pool.tasks == [] || s.pool.free == {})
    case Try(_, n) => s.current.Some? && n > 0
    case Block(_) => s.current.Some? && s.eagain.Some? && s.eagain.value !in s.park
    case Yield => s.current.Some?
    case Spawn(_) => s.current.Some?
    case Finish => s.current.Some?
  }

  predicate Suspended(s: State, r: nat) {
    r in s.mode && (s.mode[r].Yielded? || s.mode[r].Parked?)
  }

  /** The assertions of RoutineProcess hold where it runs, and whoever is resumed from a park,
      from the queue or by its timer is suspended, so that RoutineProcess does not run there. */
  predicate Safe(s: State, step: Step) {
    match step
    case Dispatch => s.events != [] && (s.events[0] in s.park ==> Suspended(s, s.park[s.events[0]]))
    case Expire(r) => Suspended(s, r)
    case RunItem => s.batch != [] && (s.batch[0].Resume? ==> Suspended(s, s.batch[0].routine))
    case StartCall(r) => r in s.pool.free && r !in s.pool.active && s.pool.tasks != [] && r in s.mode && s.mode[r].Idle?
    case _ => true
  }

  function Next(s: State, step: Step): State
    requires Enabled(s, step) && Safe(s, step)
  {
    match step
    case Arrive(w, n) => s.(kernel := Raised(s.kernel, w, n))
    case Hangup(fd) => s.(kernel := s.kernel.(hung := s.kernel.hung + {fd}, edges := s.kernel.edges + {fd}))
    case Deliver(fd) => DoDeliver(s, fd)
    case Dispatch => DoDispatch(s)
    case Expire(r) => Continue(s, r)
    case TakeBatch => s.(batch := s.functions, functions := [])
    case RunItem => DoRunItem(s)
    case MainDo(task) => Enqueue(s, task)
    case StartCall(r) => Begin(s, r)
    case StartEnd => s.(pool := s.pool.(starting := false))
    case Try(w, n) => DoTry(s, w, n)
    case Block(timed) => DoBlock(s, timed)
    case Yield => DoYield(s)
    case Spawn(task) => s.(functions := s.functions + [Submit(task)])
    case Finish => DoFinish(s)
  }

  function DoDeliver(s: State, fd: nat): State {
    s.(kernel := s.kernel.(edges := s.kernel.edges - {fd}), events := s.events + Report(s.kernel, fd))
  }

  /** AsyncPark::Schedule, one side at a time. */
  function DoDispatch(s: State): State
    requires s.events != [] && (s.events[0] in s.park ==> s.park[s.events[0]] in s.mode)
  {
    var w := s.events[0];
    var t := s.(events := s.events[1..]);
    if w in s.park then Continue(t, s.park[w]) else t
  }

  function DoRunItem(s: State): State
    requires s.batch != [] && (s.batch[0].Resume? ==> s.batch[0].routine in s.mode)
  {
    var t := s.(batch := s.batch[1..]);
    match s.batch[0]
    case Resume(r) => Continue(t, r)
    case Submit(task) => Enqueue(t, task)
  }

  /** One read or write: it moves between one byte and what is there, ends at a hangup, or is
      refused with EAGAIN. */
  function DoTry(s: State, w: Wait, n: nat): State {
    if w in s.kernel.level && s.kernel.level[w] > 0 then
      var left := if n < s.kernel.level[w] then s.kernel.level[w] - n else 0;
      s.(eagain := None, kernel := s.kernel.(level := s.kernel.level[w := left]))
    else
      s.(eagain := if w.fd in s.kernel.hung then None else Some(w))
  }

  /** WaitRead or WatiWrite up to the suspension. */
  function DoBlock(s: State, timed: bool): State
    requires s.current.Some? && s.eagain.Some?
  {
    var r, w := s.current.value, s.eagain.value;
    Suspend(s, r, Parked(w, timed)).(park := s.park[w := r])
  }

  /** CheckTicks when the ticks are used up. */
  function DoYield(s: State): State
    requires s.current.Some?
  {
    Suspend(s, s.current.value, Yielded).(functions := s.functions + [Resume(s.current.value)])
  }

  /** The function returns: RoutineProcess puts its routine back and suspends it. */
  function DoFinish(s: State): State
    requires s.current.Some?
  {
    var r := s.current.value;
    Suspend(s, r, Idle).(pool := s.pool.(free := s.pool.free + {r}, active := s.pool.active - {r}))
  }

  // ------------------------------------------------------------------ invariant

  /** free and active partition the routines; free is idle; at most one runs. */
  predicate Listed(s: State) {
    && s.mode.Keys == s.pool.free + s.pool.active
    && s.pool.free !! s.pool.active
    && (forall r :: r in s.mode ==> (s.mode[r].Idle? <==> r in s.pool.free))
    && (forall r :: r in s.mode ==> (s.mode[r].Running? <==> s.current == Some(r)))
    && (s.current.Some? ==> s.current.value in s.mode)
    && (s.eagain.Some? ==> s.current.Some?)
  }

  /** A park holds a routine exactly while that routine is parked there. */
  predicate ParkedOnce(mode: map<nat, Mode>, park: map<Wait, nat>) {
    && (forall w :: w in park ==> park[w] in mode && mode[park[w]].Parked? && mode[park[w]].on == w)
    && (forall r :: r in mode && mode[r].Parked? ==> mode[r].on in park && park[mode[r].on] == r)
  }

  predicate Distinct(q: seq<Item>) {
    forall i, j :: 0 <= i < j < |q| && q[i].Resume? ==> q[i] != q[j]
  }

  /** The queue holds one resume for every routine that yielded, and no other. */
  predicate QueuedOnce(mode: map<nat, Mode>, q: seq<Item>) {
    && Distinct(q)
    && (forall i :: 0 <= i < |q| && q[i].Resume? ==> q[i].routine in mode && mode[q[i].routine].Yielded?)
    && (forall r :: r in mode && mode[r].Yielded? ==> Resume(r) in q)
  }

  predicate InOrder(p: Pool) {
    p.submitted == p.started + p.tasks
  }

  /** An event for w is on its way: its edge is undelivered, or its report is undispatched. */
  predicate Coming(s: State, w: Wait) {
    w.fd in s.kernel.edges || w in s.events
  }

  /** Nobody waits for what is already there without an event on its way. */
  predicate NoLostWakeup(s: State) {
    && (forall w :: w in s.park && Ready(s.kernel, w) ==> Coming(s, w))
    && (s.eagain.Some? && Ready(s.kernel, s.eagain.value) ==> Coming(s, s.eagain.value))
  }

  predicate Inv(s: State) {
    Listed(s) && ParkedOnce(s.mode, s.park) && QueuedOnce(s.mode, s.batch + s.functions) && InOrder(s.pool) && NoLostWakeup(s)
  }

  lemma InvIsSafe(s: State, step: Step)
    requires Inv(s) && Enabled(s, step)
    ensures Safe(s, step)
  {
    if step.RunItem? {
      assert s.batch[0] == (s.batch + s.functions)[0];
    }
  }

  // ----------------------------------------------------- steps that resume a routine

  lemma ContinueListed(s: State, r: nat)
    requires Listed(s) && s.current.None? && Suspended(s, r)
    ensures Listed(Continue(s, r))
  {
  }

  lemma ContinueParked(s: State, r: nat)
    requires ParkedOnce(s.mode, s.park) && r in s.mode
    ensures ParkedOnce(Continue(s, r).mode, Continue(s, r).park)
  {
  }

  lemma ContinueWaits(s: State, r: nat)
    requires r in s.mode && NoLostWakeup(s)
    ensures NoLostWakeup(Continue(s, r))
  {
    var t := Continue(s, r);
    assert forall w :: Coming(s, w) == Coming(t, w);
  }

  /** A parked routine has no resume in the queue. */
  lemma UnparkQueue(mode: map<nat, Mode>, q: seq<Item>, r: nat)
    requires QueuedOnce(mode, q) && r in mode && !mode[r].Yielded?
    ensures QueuedOnce(mode[r := Running], q) && QueuedOnce(mode[r := Idle], q)
    ensures forall w, timed :: QueuedOnce(mode[r := Parked(w, timed)], q)
  {
    assert Resume(r) !in q;
  }

  lemma PopQueue(mode: map<nat, Mode>, q: seq<Item>)
    requires QueuedOnce(mode, q) && q != []
    ensures q[0].Resume? ==> QueuedOnce(mode[q[0].routine := Running], q[1..])
    ensures q[0].Submit? ==> QueuedOnce(mode, q[1..])
  {
    var mode' := if q[0].Resume? then mode[q[0].routine := Running] else mode;
    forall i | 0 <= i < |q[1..]| && q[1..][i].Resume?
      ensures q[1..][i].routine in mode' && mode'[q[1..][i].routine].Yielded?
    {
      assert q[1..][i] == q[i + 1];
      assert q[0].Resume? ==> q[0] != q[i + 1];
    }
    forall r | r in mode' && mode'[r].Yielded?
      ensures Resume(r) in q[1..]
    {
      var i :| 0 <= i < |q| && q[i] == Resume(r);
      assert i > 0;
      assert q[1..][i - 1] == Resume(r);
    }
  }

  lemma DispatchInv(s: State)
    requires Inv(s) && InMain(s) && s.events != []
    ensures Safe(s, Dispatch) && Inv(DoDispatch(s))
  {
    InvIsSafe(s, Dispatch);
    var w := s.events[0];
    var t := s.(events := s.events[1..]);
    if w in s.park {
      var r := s.park[w];
      ContinueListed(t, r);
      ContinueParked(t, r);
      UnparkQueue(s.mode, s.batch + s.functions, r);
    }
    forall v | (v in DoDispatch(s).park) && Ready(s.kernel, v)
      ensures Coming(DoDispatch(s), v)
    {
      assert v != w;
      StillComing(s, v);
    }
  }

  lemma StillComing(s: State, v: Wait)
    requires s.events != [] && v != s.events[0] && Coming(s, v)
    ensures v in s.events ==> v in s.events[1..]
  {
    if v in s.events {
      var i :| 0 <= i < |s.events| && s.events[i] == v;
      assert s.events[1..][i - 1] == v;
    }
  }

  lemma ExpireInv(s: State, r: nat)
    requires Inv(s) && Enabled(s, Expire(r))
    ensures Inv(Continue(s, r))
  {
    ContinueListed(s, r);
    ContinueParked(s, r);
    ContinueWaits(s, r);
    UnparkQueue(s.mode, s.batch + s.functions, r);
  }

  lemma RunItemInv(s: State)
    requires Inv(s) && InMain(s) && s.batch != []
    ensures Safe(s, RunItem) && Inv(DoRunItem(s))
  {
    InvIsSafe(s, RunItem);
    var q := s.batch + s.functions;
    assert q[0] == s.batch[0] && q[1..] == s.batch[1..] + s.functions;
    PopQueue(s.mode, q);
    var t := s.(batch := s.batch[1..]);
    assert NoLostWakeup(t) by { SameWaits(s, t); }
    match s.batch[0]
    case Resume(r) =>
      ContinueListed(t, r);
      ContinueParked(t, r);
      ContinueWaits(t, r);
    case Submit(task) =>
      EnqueueInv(t, task);
  }

  lemma SameWaits(s: State, t: State)
    requires NoLostWakeup(s) && t.park == s.park && t.kernel == s.kernel && t.events == s.events
    requires t.eagain == s.eagain || t.eagain == None
    ensures NoLostWakeup(t)
  {
    assert forall w :: Coming(s, w) == Coming(t, w);
  }

  // ------------------------------------------------------------ steps of the pool

  lemma EnqueueInv(s: State, task: nat)
    requires Inv(s)
    ensures Inv(Enqueue(s, task))
  {
    SameWaits(s, Enqueue(s, task));
  }

  lemma BeginInv(s: State, r: nat)
    requires Inv(s) && s.current.None? && s.pool.tasks != [] && r in s.pool.free
    ensures Safe(s, StartCall(r)) && Inv(Begin(s, r))
  {
    SameWaits(s, Begin(s, r));
    UnparkQueue(s.mode, s.batch + s.functions, r);
    assert s.pool.tasks == [s.pool.tasks[0]] + s.pool.tasks[1..];
  }

  lemma FinishInv(s: State)
    requires Inv(s) && s.current.Some?
    ensures Inv(DoFinish(s))
  {
    SameWaits(s, DoFinish(s));
    UnparkQueue(s.mode, s.batch + s.functions, s.current.value);
  }

  // ------------------------------------------------------------ steps of a routine

  lemma BlockListed(s: State, timed: bool)
    requires Listed(s) && Enabled(s, Block(timed))
    ensures Listed(DoBlock(s, timed))
  {
  }

  lemma BlockParks(s: State, timed: bool)
    requires ParkedOnce(s.mode, s.park) && Listed(s) && Enabled(s, Block(timed))
    ensures ParkedOnce(DoBlock(s, timed).mode, DoBlock(s, timed).park)
  {
    var r, w := s.current.value, s.eagain.value;
    assert forall v :: v in s.park ==> s.park[v] != r;
  }

  lemma BlockInv(s: State, timed: bool)
    requires Inv(s) && Enabled(s, Block(timed))
    ensures Inv(DoBlock(s, timed))
  {
    BlockListed(s, timed);
    BlockParks(s, timed);
    UnparkQueue(s.mode, s.batch + s.functions, s.current.value);
    hide Listed, ParkedOnce, QueuedOnce;
    var t := DoBlock(s, timed);
    assert forall w :: Coming(s, w) == Coming(t, w);
  }

  lemma PushQueue(mode: map<nat, Mode>, q: seq<Item>, r: nat)
    requires QueuedOnce(mode, q) && r in mode && !mode[r].Yielded?
    ensures QueuedOnce(mode[r := Yielded], q + [Resume(r)])
  {
    assert Resume(r) !in q;
    assert (q + [Resume(r)])[|q|] == Resume(r);
    forall x | x in mode[r := Yielded] && mode[r := Yielded][x].Yielded?
      ensures Resume(x) in q + [Resume(r)]
    {
    }
  }

  lemma YieldInv(s: State)
    requires Inv(s) && s.current.Some?
    ensures Inv(DoYield(s))
  {
    var r := s.current.value;
    SameWaits(s, DoYield(s));
    PushQueue(s.mode, s.batch + s.functions, r);
    assert s.batch + (s.functions + [Resume(r)]) == s.batch + s.functions + [Resume(r)];
  }

  lemma SpawnInv(s: State, task: nat)
    requires Inv(s)
    ensures Inv(s.(functions := s.functions + [Submit(task)]))
  {
    var t := s.(functions := s.functions + [Submit(task)]);
    SameWaits(s, t);
    var q := s.batch + s.functions;
    assert t.batch + t.functions == q + [Submit(task)];
    forall r | r in s.mode && s.mode[r].Yielded?
      ensures Resume(r) in q + [Submit(task)]
    {
      assert Resume(r) in q;
    }
  }

  lemma TryInv(s: State, w: Wait, n: nat)
    requires Inv(s) && s.current.Some?
    ensures Inv(DoTry(s, w, n))
  {
    var t := DoTry(s, w, n);
    assert forall v :: Coming(s, v) == Coming(t, v);
    assert forall v :: Ready(t.kernel, v) ==> Ready(s.kernel, v);
  }

  // ------------------------------------------------------------ steps of the kernel

  lemma ArriveInv(s: State, w: Wait, n: nat)
    requires Inv(s)
    ensures Inv(s.(kernel := Raised(s.kernel, w, n)))
  {
    var t := s.(kernel := Raised(s.kernel, w, n));
    assert forall v :: Coming(s, v) ==> Coming(t, v);
    assert forall v :: Ready(t.kernel, v) && v != w ==> Ready(s.kernel, v);
  }

  lemma HangupInv(s: State, fd: nat)
    requires Inv(s)
    ensures Inv(s.(kernel := s.kernel.(hung := s.kernel.hung + {fd}, edges := s.kernel.edges + {fd})))
  {
    var t := s.(kernel := s.kernel.(hung := s.kernel.hung + {fd}, edges := s.kernel.edges + {fd}));
    assert forall v :: Coming(s, v) ==> Coming(t, v);
    assert forall v :: Ready(t.kernel, v) && v.fd != fd ==> Ready(s.kernel, v);
  }

  lemma Reported(k: Kernel, w: Wait)
    requires Ready(k, w)
    ensures w in Report(k, w.fd)
  {
    match w.dir
    case Read => assert Report(k, w.fd)[0] == w;
    case Write => assert Report(k, w.fd)[|Report(k, w.fd)| - 1] == w;
  }

  lemma DeliverInv(s: State, fd: nat)
    requires Inv(s) && s.current.None?
    ensures Inv(DoDeliver(s, fd))
  {
    hide Report;
    var t := DoDeliver(s, fd);
    forall w | w in t.park && Ready(t.kernel, w)
      ensures Coming(t, w)
    {
      assert Ready(s.kernel, w);
      if w.fd == fd {
        Reported(s.kernel, w);
      }
    }
  }

  /** Every step keeps the invariant and is safe. */
  lemma StepInv(s: State, step: Step)
    requires Inv(s) && Enabled(s, step)
    ensures Safe(s, step) && Inv(Next(s, step))
  {
    hide Inv, DoDeliver, DoDispatch, DoRunItem, DoTry, DoBlock, DoYield, DoFinish, Begin, Continue, Enqueue, Raised;
    InvIsSafe(s, step);
    match step
    case Arrive(w, n) => ArriveInv(s, w, n);
    case Hangup(fd) => HangupInv(s, fd);
    case Deliver(fd) => DeliverInv(s, fd);
    case Dispatch => DispatchInv(s);
    case Expire(r) => ExpireInv(s, r);
    case TakeBatch => TakeBatchInv(s);
    case RunItem => RunItemInv(s);
    case MainDo(task) => EnqueueInv(s, task);
    case StartCall(r) => BeginInv(s, r);
    case StartEnd => StartEndInv(s);
    case Try(w, n) => TryInv(s, w, n);
    case Block(timed) => BlockInv(s, timed);
    case Yield => YieldInv(s);
    case Spawn(task) => SpawnInv(s, task);
    case Finish => FinishInv(s);
  }

  lemma TakeBatchInv(s: State)
    requires Inv(s) && s.batch == []
    ensures Inv(s.(batch := s.functions, functions := []))
  {
    var t := s.(batch := s.functions, functions := []);
    assert t.batch + t.functions == s.batch + s.functions;
    SameWaits(s, t);
  }

  lemma StartEndInv(s: State)
    requires Inv(s)
    ensures Inv(s.(pool := s.pool.(starting := false)))
  {
    SameWaits(s, s.(pool := s.pool.(starting := false)));
  }

  // ----------------------------------------------------------------------- runs

  /** A pool of idle routines; descriptors may be ready or have edges from the start. */
  function Init(routines: set<nat>, kernel: Kernel): State {
    State(Pool(routines, {}, [], [], [], false), kernel, None, None, map r | r in routines :: Idle, map[], [], [], [])
  }

  ghost predicate Allowed(s: State, steps: seq<Step>)
    decreases |steps|
  {
    steps == [] || (Enabled(s, steps[0]) && (Safe(s, steps[0]) ==> Allowed(Next(s, steps[0]), steps[1..])))
  }

  ghost predicate NeverFails(s: State, steps: seq<Step>)
    decreases |steps|
  {
    steps == [] || (Enabled(s, steps[0]) && Safe(s, steps[0]) && NeverFails(Next(s, steps[0]), steps[1..]))
  }

  function Run(s: State, steps: seq<Step>): State
    requires NeverFails(s, steps)
    decreases |steps|
  {
    if steps == [] then s else Run(Next(s, steps[0]), steps[1..])
  }

  /** The tasks in the order in which Start was called with them. */
  function Submissions(s: State, steps: seq<Step>): seq<nat>
    requires NeverFails(s, steps)
    decreases |steps|
  {
    if steps == [] then []
    else
      (match steps[0]
       case MainDo(task) => [task]
       case RunItem => if s.batch[0].Submit? then [s.batch[0].task] else []
       case _ => []) + Submissions(Next(s, steps[0]), steps[1..])
  }

  lemma {:induction false} RunInv(s: State, steps: seq<Step>)
    requires Inv(s) && Allowed(s, steps)
    ensures NeverFails(s, steps) && Inv(Run(s, steps))
    ensures Run(s, steps).mode.Keys == s.mode.Keys
    ensures Run(s, steps).pool.submitted == s.pool.submitted + Submissions(s, steps)
    decreases |steps|
  {
    hide Inv, Next, Enabled, Safe;
    if steps != [] {
      StepInv(s, steps[0]);
      StepCounts(s, steps[0]);
      RunInv(Next(s, steps[0]), steps[1..]);
    }
  }

  lemma StepCounts(s: State, step: Step)
    requires Inv(s) && Enabled(s, step) && Safe(s, step)
    ensures Next(s, step).mode.Keys == s.mode.Keys
    ensures Next(s, step).pool.submitted == s.pool.submitted +
              match step
              case MainDo(task) => [task]
              case RunItem => if s.batch[0].Submit? then [s.batch[0].task] else []
              case _ => []
    ensures step.RunItem? ==> s.batch != []
  {
    hide Raised, Report, NoLostWakeup, QueuedOnce, ParkedOnce;
    assert Listed(s);
    assert s.current.Some? ==> s.mode[s.current.value := Idle].Keys == s.mode.Keys;
  }

  lemma InitInv(routines: set<nat>, kernel: Kernel)
    ensures Inv(Init(routines, kernel))
  {
  }

  /** In every run no assertion of RoutineProcess fails; whoever waits for what is already
      there has an event on its way; free and active partition the same routines throughout;
      and tasks start in the order of their submission. */
  lemma EveryRunIsSafe(routines: set<nat>, kernel: Kernel, steps: seq<Step>)
    requires Allowed(Init(routines, kernel), steps)
    ensures NeverFails(Init(routines, kernel), steps)
    ensures var s := Run(Init(routines, kernel), steps);
            && NoLostWakeup(s)
            && s.pool.free !! s.pool.active && s.pool.free + s.pool.active == routines
            && s.pool.started + s.pool.tasks == Submissions(Init(routines, kernel), steps)
  {
    hide Run, Allowed, NeverFails, Submissions;
    InitInv(routines, kernel);
    RunInv(Init(routines, kernel), steps);
    assert Init(routines, kernel).mode.Keys == routines;
  }

  /** When the loop has nothing left to deliver, nobody is parked on what is ready. */
  lemma QuietLoopLeavesNobodyWaiting(routines: set<nat>, kernel: Kernel, steps: seq<Step>, w: Wait)
    requires Allowed(Init(routines, kernel), steps) && NeverFails(Init(routines, kernel), steps)
    requires var s := Run(Init(routines, kernel), steps); s.kernel.edges == {} && s.events == [] && w in s.park
    ensures !Ready(Run(Init(routines, kernel), steps).kernel, w)
  {
    hide Run, Allowed, NeverFails, Ready;
    EveryRunIsSafe(routines, kernel, steps);
    var s := Run(Init(routines, kernel), steps);
    assert !Coming(s, w);
  }

  // -------------------------------------------------------------------- progress

  function Dispatches(steps: seq<Step>): nat {
    if steps == [] then 0 else (if steps[0].Dispatch? then 1 else 0) + Dispatches(steps[1..])
  }

  /** The routine r waits at w, and the report at place i of the events is for it. */
  predicate Awaits(s: State, w: Wait, r: nat, i: nat) {
    w in s.park && s.park[w] == r && i < |s.events| && s.events[i] == w
  }

  lemma DispatchAwaits(s: State, w: Wait, r: nat, i: nat)
    requires ParkedOnce(s.mode, s.park) && Awaits(s, w, r, i)
    ensures s.events != [] && (s.events[0] in s.park ==> s.park[s.events[0]] in s.mode)
    ensures DoDispatch(s).current == Some(r) || (i > 0 && Awaits(DoDispatch(s), w, r, i - 1))
  {
    if s.events[0] != w {
      assert s.events[1..][i - 1] == w;
    }
  }

  /** A step resumes the routine, or it still waits and only a dispatch brings its report closer. */
  lemma StepAwaits(s: State, step: Step, w: Wait, r: nat, i: nat)
    requires Inv(s) && Enabled(s, step) && Safe(s, step) && Awaits(s, w, r, i)
    ensures var t := Next(s, step);
            || t.current == Some(r)
            || (if step.Dispatch? then i > 0 && Awaits(t, w, r, i - 1) else Awaits(t, w, r, i))
  {
    hide DoDispatch, NoLostWakeup, QueuedOnce, Raised, Report;
    if step.Dispatch? {
      DispatchAwaits(s, w, r, i);
    }
  }

  /** Progress: in every run with enough dispatches for the reports up to its own, a parked
      routine is resumed, whatever kernel, loop and other routines do meanwhile. */
  lemma {:induction false} DispatchesResume(s: State, steps: seq<Step>, w: Wait, i: nat) returns (n: nat)
    requires Inv(s) && w in s.park && i < |s.events| && s.events[i] == w
    requires Allowed(s, steps) && Dispatches(steps) > i
    ensures n <= |steps| && NeverFails(s, steps[..n]) && Run(s, steps[..n]).current == Some(s.park[w])
    decreases |steps|
  {
    hide Inv, Next, Enabled, Safe;
    var r := s.park[w];
    StepInv(s, steps[0]);
    StepAwaits(s, steps[0], w, r, i);
    var t := Next(s, steps[0]);
    if t.current == Some(r) {
      n := 1;
      assert steps[..1][1..] == [];
    } else {
      var m := DispatchesResume(t, steps[1..], w, if steps[0].Dispatch? then i - 1 else i);
      n := m + 1;
      assert steps[..n][1..] == steps[1..][..m];
    }
  }

  /** So a routine that waits for what is there is resumed by as many dispatches as there are
      reports, once the edge of its descriptor has been delivered. */
  lemma ReadyRoutineIsResumed(routines: set<nat>, kernel: Kernel, before: seq<Step>, steps: seq<Step>, w: Wait) returns (n: nat)
    requires Allowed(Init(routines, kernel), before) && NeverFails(Init(routines, kernel), before)
    requires var s := Run(Init(routines, kernel), before);
             && w in s.park && Ready(s.kernel, w) && w.fd !in s.kernel.edges
             && Allowed(s, steps) && Dispatches(steps) >= |s.events|
    ensures var s := Run(Init(routines, kernel), before);
            n <= |steps| && NeverFails(s, steps[..n]) && Run(s, steps[..n]).current == Some(s.park[w])
  {
    hide Run, Allowed, NeverFails, Ready, Dispatches, Inv;
    var s := Run(Init(routines, kernel), before);
    InitInv(routines, kernel);
    RunInv(Init(routines, kernel), before);
    EveryRunIsSafe(routines, kernel, before);
    assert Coming(s, w);
    var i :| 0 <= i < |s.events| && s.events[i] == w;
    n := DispatchesResume(s, steps, w, i);
  }

  /** A timeout resumes its routine, takes it off its park and leaves every other one alone. */
  lemma ExpireResumes(s: State, r: nat)
    requires Inv(s) && Enabled(s, Expire(r)) && Safe(s, Expire(r))
    ensures var t := Next(s, Expire(r));
            && t.current == Some(r) && r in t.mode && t.mode[r] == Running
            && (forall w :: w in t.park ==> t.park[w] != r)
            && (forall w :: w in s.park && s.park[w] != r ==> w in t.park && t.park[w] == s.park[w])
  {
  }

  /** A step changes the mode of no routine but the one it resumes or suspends. */
  lemma OthersStay(s: State, step: Step, x: nat)
    requires Inv(s) && Enabled(s, step) && Safe(s, step) && x in s.mode
    requires s.current != Some(x) && Next(s, step).current != Some(x)
    ensures var t := Next(s, step); x in t.mode && t.mode[x] == s.mode[x]
  {
    hide NoLostWakeup, QueuedOnce, ParkedOnce, Raised, Report;
  }

  // ------------------------------------------------------------- the queue of the loop

  function RunItems(steps: seq<Step>): nat {
    if steps == [] then 0 else (if steps[0].RunItem? then 1 else 0) + RunItems(steps[1..])
  }

  /** The routine r waits for its turn at place i of what the loop has to run. */
  predicate Queued(s: State, r: nat, i: nat) {
    var q := s.batch + s.functions; i < |q| && q[i] == Resume(r)
  }

  lemma RunItemQueued(s: State, r: nat, i: nat)
    requires s.batch != [] && (s.batch[0].Resume? ==> s.batch[0].routine in s.mode) && Queued(s, r, i)
    ensures if i == 0 then DoRunItem(s).current == Some(r) else Queued(DoRunItem(s), r, i - 1)
  {
    assert s.batch[1..] + s.functions == (s.batch + s.functions)[1..];
  }

  /** A turn of the queue resumes the routine at its head and moves all others up; nothing else
      changes their places. */
  lemma StepQueued(s: State, step: Step, r: nat, i: nat)
    requires Enabled(s, step) && Safe(s, step) && Queued(s, r, i)
    ensures var t := Next(s, step);
            if !step.RunItem? then Queued(t, r, i)
            else if i == 0 then t.current == Some(r)
            else Queued(t, r, i - 1)
  {
    hide Raised, Report, DoRunItem;
    if step.RunItem? {
      RunItemQueued(s, r, i);
    }
  }

  /** Progress: a routine that has yielded is resumed as soon as the queue has had as many turns
      as there are entries up to its own, whatever else happens. */
  lemma {:induction false} TurnsResume(s: State, steps: seq<Step>, r: nat, i: nat) returns (n: nat)
    requires Inv(s) && Queued(s, r, i) && Allowed(s, steps) && RunItems(steps) > i
    ensures n <= |steps| && NeverFails(s, steps[..n]) && Run(s, steps[..n]).current == Some(r)
    decreases |steps|
  {
    hide Inv, Next, Enabled, Safe, Queued;
    StepInv(s, steps[0]);
    StepQueued(s, steps[0], r, i);
    var t := Next(s, steps[0]);
    if steps[0].RunItem? && i == 0 {
      n := 1;
      assert steps[..1][1..] == [];
    } else {
      var m := TurnsResume(t, steps[1..], r, if steps[0].RunItem? then i - 1 else i);
      n := m + 1;
      assert steps[..n][1..] == steps[1..][..m];
    }
  }

  /** The queue does get its turns: with an empty batch the loop can take what has been queued,
      all of it and in order, and then run the first entry. */
  lemma TakeBatchOpensTheQueue(s: State)
    requires InMain(s) && s.batch == []
    ensures Enabled(s, TakeBatch) && Safe(s, TakeBatch)
    ensures var t := Next(s, TakeBatch);
            t.batch == s.functions && t.functions == [] && (s.functions != [] ==> Enabled(t, RunItem))
  {
  }

  /** A routine that yields is the last in the queue. */
  lemma YieldQueues(s: State)
    requires s.current.Some?
    ensures Enabled(s, Yield) && Safe(s, Yield)
    ensures Queued(Next(s, Yield), s.current.value, |s.batch + s.functions|) && Next(s, Yield).current == None
  {
  }

  // -------------------------------------------------------- tasks handed over by routines

  function Spawned(steps: seq<Step>): seq<nat> {
    if steps == [] then [] else (if steps[0].Spawn? then [steps[0].task] else []) + Spawned(steps[1..])
  }

  function Submits(q: seq<Item>): seq<nat> {
    if q == [] then [] else (if q[0].Submit? then [q[0].task] else []) + Submits(q[1..])
  }

  /** The tasks that the queue has handed to Start. */
  function HandedOver(s: State, steps: seq<Step>): seq<nat>
    requires NeverFails(s, steps)
    decreases |steps|
  {
    if steps == [] then []
    else
      (if steps[0].RunItem? && s.batch[0].Submit? then [s.batch[0].task] else [])
      + HandedOver(Next(s, steps[0]), steps[1..])
  }

  function SubmitOf(x: Item): seq<nat> {
    if x.Submit? then [x.task] else []
  }

  lemma SubmitsCons(x: Item, q: seq<Item>)
    ensures Submits([x] + q) == SubmitOf(x) + Submits(q)
    ensures Submits([]) == []
  {
    assert ([x] + q)[1..] == q;
  }

  lemma {:induction false} SubmitsJoin(a: seq<Item>, b: seq<Item>)
    ensures Submits(a + b) == Submits(a) + Submits(b)
  {
    hide Submits, SubmitOf;
    SubmitsCons(Submit(0), []);
    if a == [] {
      assert a + b == b;
      assert [] + Submits(b) == Submits(b);
    } else {
      SubmitsJoin(a[1..], b);
      SubmitsCons(a[0], a[1..]);
      SubmitsCons(a[0], a[1..] + b);
      assert a == [a[0]] + a[1..];
      assert a + b == [a[0]] + (a[1..] + b);
      assert SubmitOf(a[0]) + (Submits(a[1..]) + Submits(b)) == SubmitOf(a[0]) + Submits(a[1..]) + Submits(b);
    }
  }

  lemma SubmitsOne(x: Item)
    ensures Submits([x]) == if x.Submit? then [x.task] else []
  {
    assert [x][1..] == [];
  }

  lemma QueueStep(s: State, step: Step)
    requires Enabled(s, step) && Safe(s, step)
    ensures var q := s.batch + s.functions;
            var t := Next(s, step);
            var u := t.batch + t.functions;
            && (step.RunItem? ==> q != [] && s.batch[0] == q[0] && u == q[1..])
            && (step.Spawn? ==> u == q + [Submit(step.task)])
            && (step.Yield? ==> s.current.Some? && u == q + [Resume(s.current.value)])
            && (!step.RunItem? && !step.Spawn? && !step.Yield? ==> u == q)
  {
    hide Raised, Report;
  }

  lemma Carry(x: seq<nat>, a: seq<nat>, b: seq<nat>, c: seq<nat>, d: seq<nat>)
    requires a + b == c + d
    ensures (x + a) + b == (x + c) + d
  {
    assert (x + a) + b == x + (a + b);
    assert (x + c) + d == x + (c + d);
  }

  /** What was queued and what routines hand over comes out of the queue in that order. */
  lemma {:induction false} SpawnedAreHandedOver(s: State, steps: seq<Step>)
    requires NeverFails(s, steps)
    ensures var t := Run(s, steps);
            Submits(s.batch + s.functions) + Spawned(steps) == HandedOver(s, steps) + Submits(t.batch + t.functions)
    decreases |steps|
  {
    hide Next, Enabled, Safe, Submits;
    if steps != [] {
      var step := steps[0];
      var t := Next(s, step);
      var q, u := s.batch + s.functions, t.batch + t.functions;
      QueueStep(s, step);
      SpawnedAreHandedOver(t, steps[1..]);
      var spawned, out := Spawned(steps[1..]), HandedOver(t, steps[1..]);
      assert Spawned(steps) == (if step.Spawn? then [step.task] else []) + spawned;
      assert !step.RunItem? ==> HandedOver(s, steps) == [] + out == out;
      if step.RunItem? {
        assert q == [q[0]] + u;
        SubmitsJoin([q[0]], u);
        SubmitsOne(q[0]);
        var e := Run(t, steps[1..]);
        Carry(Submits([q[0]]), Submits(u), spawned, out, Submits(e.batch + e.functions));
        assert [] + spawned == spawned;
      } else if step.Spawn? {
        SubmitsJoin(q, [Submit(step.task)]);
        SubmitsOne(Submit(step.task));
      } else if step.Yield? {
        SubmitsJoin(q, [Resume(s.current.value)]);
        SubmitsOne(Resume(s.current.value));
        assert Submits(q) + [] == Submits(q);
      }
    }
  }

  /** In every run the tasks that routines hand over are, in this order, those the queue has given
      to Start and those still in it: none is lost, repeated or overtaken. */
  lemma NoSpawnIsLost(routines: set<nat>, kernel: Kernel, steps: seq<Step>)
    requires Allowed(Init(routines, kernel), steps)
    ensures NeverFails(Init(routines, kernel), steps)
    ensures var s := Run(Init(routines, kernel), steps);
            Spawned(steps) == HandedOver(Init(routines, kernel), steps) + Submits(s.batch + s.functions)
  {
    hide Run, Allowed, NeverFails, Spawned, HandedOver;
    InitInv(routines, kernel);
    RunInv(Init(routines, kernel), steps);
    SpawnedAreHandedOver(Init(routines, kernel), steps);
    assert Submits([] + []) == [];
    assert [] + Spawned(steps) == Spawned(steps);
  }

  // ---------------------------------------------------------------- bytes and refusals

  function Level(k: Kernel, w: Wait): nat {
    if w in k.level then k.level[w] else 0
  }

  /** What a step brings to one side of a descriptor, and what it takes from there. */
  function Brought(step: Step, w: Wait): nat {
    if step.Arrive? && step.wait == w then step.n else 0
  }

  function Took(s: State, step: Step, w: Wait): nat {
    if !step.Try? || step.wait != w then 0 else if step.n < Level(s.kernel, w) then step.n else Level(s.kernel, w)
  }

  function AllBrought(steps: seq<Step>, w: Wait): nat {
    if steps == [] then 0 else Brought(steps[0], w) + AllBrought(steps[1..], w)
  }

  function AllTook(s: State, steps: seq<Step>, w: Wait): nat
    requires NeverFails(s, steps)
    decreases |steps|
  {
    if steps == [] then 0 else Took(s, steps[0], w) + AllTook(Next(s, steps[0]), steps[1..], w)
  }

  /** A call is refused exactly when nothing is there and the descriptor is not hung up; only the
      calls of routines take what has arrived. */
  lemma StepTransfers(s: State, step: Step, w: Wait)
    requires Enabled(s, step) && Safe(s, step)
    ensures Level(Next(s, step).kernel, w) + Took(s, step, w) == Level(s.kernel, w) + Brought(step, w)
    ensures step.Try? ==> (Next(s, step).eagain == Some(step.wait) <==> !Ready(s.kernel, step.wait))
    ensures step.Try? && Ready(s.kernel, step.wait) ==> Next(s, step).eagain == None
  {
    hide Report;
  }

  /** In every run what has arrived on a descriptor has been taken by calls or is still there. */
  lemma {:induction false} BytesAreConserved(s: State, steps: seq<Step>, w: Wait)
    requires NeverFails(s, steps)
    ensures Level(Run(s, steps).kernel, w) + AllTook(s, steps, w) == Level(s.kernel, w) + AllBrought(steps, w)
    decreases |steps|
  {
    hide Next, Enabled, Safe, Level, Took, Brought;
    if steps != [] {
      StepTransfers(s, steps[0], w);
      BytesAreConserved(Next(s, steps[0]), steps[1..], w);
    }
  }

  /** Every way the loop can resume a routine other than RoutinePool::Start. */
  predicate ResumedBy(s: State, r: nat, step: Step) {
    match step
    case Dispatch => s.events != [] && s.events[0] in s.park && s.park[s.events[0]] == r
    case RunItem => s.batch != [] && s.batch[0] == Resume(r)
    case Expire(x) => x == r && r in s.mode && s.mode[r].Parked? && s.mode[r].timed
    case _ => false
  }

  /** A suspended routine has one place that can resume it; an idle or running one has none. */
  lemma OneResumeEach(s: State, r: nat)
    requires Inv(s) && r in s.mode
    ensures forall w :: w in s.park && s.park[w] == r ==> s.mode[r].Parked? && s.mode[r].on == w
    ensures Resume(r) in s.batch + s.functions <==> s.mode[r].Yielded?
    ensures var q := s.batch + s.functions;
            forall i, j :: 0 <= i < j < |q| ==> !(q[i] == Resume(r) == q[j])
    ensures s.mode[r].Parked? ==> s.mode[r].on in s.park && s.park[s.mode[r].on] == r
    ensures forall step :: (s.mode[r].Idle? || s.mode[r].Running?) ==> !ResumedBy(s, r, step)
  {
    var q := s.batch + s.functions;
    assert s.batch != [] ==> q[0] == s.batch[0];
  }

  // ---------------------------------------------------- RoutinePool::Start terminates

  /** While Start is in its loop no step adds a task and every call takes one. */
  lemma StartTakesTasks(s: State, step: Step)
    requires Enabled(s, step) && Safe(s, step) && s.pool.starting
    ensures |Next(s, step).pool.tasks| == |s.pool.tasks| - if step.StartCall? then 1 else 0
    ensures !Next(s, step).pool.starting ==> s.pool.tasks == [] || s.pool.free == {}
  {
    hide Raised, Report;
  }

  function StartCalls(steps: seq<Step>): nat {
    if steps == [] then 0 else (if steps[0].StartCall? then 1 else 0) + StartCalls(steps[1..])
  }

  ghost predicate StaysStarting(s: State, steps: seq<Step>)
    requires NeverFails(s, steps)
    decreases |steps|
  {
    s.pool.starting && (steps != [] ==> StaysStarting(Next(s, steps[0]), steps[1..]))
  }

  /** One call of Start resumes at most as many routines as there are tasks. */
  lemma {:induction false} StartIsBounded(s: State, steps: seq<Step>)
    requires NeverFails(s, steps) && StaysStarting(s, steps)
    ensures StartCalls(steps) + |Run(s, steps).pool.tasks| == |s.pool.tasks|
    decreases |steps|
  {
    hide Next, Enabled, Safe;
    if steps != [] {
      StartTakesTasks(s, steps[0]);
      StartIsBounded(Next(s, steps[0]), steps[1..]);
    }
  }

  // ------------------------------------------------------- two readers on one park

  /** Suspended for good: no park, no queue entry and no timer leads back to r. */
  predicate Stranded(s: State, r: nat) {
    && r in s.mode && s.mode[r].Parked? && !s.mode[r].timed && r !in s.pool.free && s.current != Some(r)
    && (forall w :: w in s.park ==> s.park[w] != r)
    && Resume(r) !in s.batch + s.functions
  }

  /** Without the rule of one routine per side of a park, a second routine takes the place of
      the first.  An untimed first one is stranded at once.  A timed first one is resumed by its
      timer, which clears the place of the second: an untimed second one is stranded then. */
  lemma SecondReaderStrandsOne(s: State, timed: bool)
    requires Inv(s) && s.current.Some? && s.eagain.Some? && s.eagain.value in s.park
    ensures var first, second, w := s.park[s.eagain.value], s.current.value, s.eagain.value;
            var t := DoBlock(s, timed);
            && first in s.mode && s.mode[first].Parked? && first != second && !Inv(t)
            && (!s.mode[first].timed ==> Stranded(t, first))
            && (s.mode[first].timed ==>
                  && Enabled(AfterStart(t), Expire(first)) && first in t.mode
                  && w !in Continue(t, first).park && (!timed ==> Stranded(Continue(t, first), second)))
  {
    var first, second := s.park[s.eagain.value], s.current.value;
    assert Resume(first) !in s.batch + s.functions && Resume(second) !in s.batch + s.functions;
  }

  /** The loop once Start has returned. */
  function AfterStart(s: State): State {
    s.(pool := s.pool.(starting := false))
  }

  /** A task that starts and is refused on a descriptor. */
  function Reading(task: nat, r: nat, w: Wait): seq<Step> {
    [MainDo(task), StartCall(r), Try(w, 1)]
  }

  lemma ReadingSteps(s: State, task: nat, r: nat, w: Wait)
    requires Listed(s) && InMain(s) && s.pool.tasks == [] && IsLeast(r, s.pool.free)
    ensures var s1 := Enqueue(s, task);
            && s1.pool.tasks == [task]
            && var s2 := Begin(s1, r);
               && Enabled(s, MainDo(task)) && Safe(s, MainDo(task)) && Next(s, MainDo(task)) == s1
               && Enabled(s1, StartCall(r)) && Safe(s1, StartCall(r)) && Next(s1, StartCall(r)) == s2
               && Enabled(s2, Try(w, 1)) && Safe(s2, Try(w, 1)) && Next(s2, Try(w, 1)) == DoTry(s2, w, 1)
  {
    hide DoTry;
  }

  lemma RefusedState(s: State, task: nat, r: nat, w: Wait)
    requires s.pool.tasks == [] && !Ready(s.kernel, w)
    ensures var t := DoTry(Begin(Enqueue(s, task), r), w, 1);
            && t.current == Some(r) && t.eagain == Some(w) && t.park == s.park && t.mode == s.mode[r := Running]
            && t.pool.tasks == [] && t.pool.starting && t.pool.free == s.pool.free - {r} && t.kernel == s.kernel
  {
  }

  lemma ReadsAndIsRefused(s: State, task: nat, r: nat, w: Wait)
    requires Inv(s) && InMain(s) && s.pool.tasks == [] && IsLeast(r, s.pool.free) && !Ready(s.kernel, w)
    ensures var t := DoTry(Begin(Enqueue(s, task), r), w, 1);
            && Allowed(s, Reading(task, r, w)) && NeverFails(s, Reading(task, r, w)) && Run(s, Reading(task, r, w)) == t
            && t.current == Some(r) && t.eagain == Some(w) && t.park == s.park && t.mode == s.mode[r := Running]
            && t.pool.tasks == [] && t.pool.starting && t.pool.free == s.pool.free - {r} && t.kernel == s.kernel
  {
    hide Run, Allowed, NeverFails, Listed, NoLostWakeup, QueuedOnce, ParkedOnce, Next, Enabled, Safe, DoTry, Begin, Enqueue;
    ReadingSteps(s, task, r, w);
    RefusedState(s, task, r, w);
    var s1 := Enqueue(s, task);
    var s2 := Begin(s1, r);
    RunNone(DoTry(s2, w, 1));
    RunCons(s2, Try(w, 1), []);
    RunCons(s1, StartCall(r), [Try(w, 1)] + []);
    RunCons(s, MainDo(task), [StartCall(r)] + ([Try(w, 1)] + []));
    assert [MainDo(task)] + ([StartCall(r)] + ([Try(w, 1)] + [])) == Reading(task, r, w);
  }

  lemma ParksAndStartEnds(s: State, timed: bool)
    requires Enabled(s, Block(timed)) && s.pool.starting && s.pool.tasks == []
    ensures var steps := [Block(timed), StartEnd];
            && Allowed(s, steps) && NeverFails(s, steps) && Run(s, steps) == AfterStart(DoBlock(s, timed))
  {
    hide Run, Allowed, NeverFails;
    var s1 := DoBlock(s, timed);
    RunNone(AfterStart(s1));
    RunCons(s1, StartEnd, []);
    RunCons(s, Block(timed), [StartEnd] + []);
    assert [Block(timed)] + ([StartEnd] + []) == [Block(timed), StartEnd];
  }

  lemma {:induction false} RunJoin(s: State, a: seq<Step>, b: seq<Step>)
    requires Allowed(s, a) && NeverFails(s, a) && Allowed(Run(s, a), b) && NeverFails(Run(s, a), b)
    ensures Allowed(s, a + b) && NeverFails(s, a + b) && Run(s, a + b) == Run(Run(s, a), b)
    decreases |a|
  {
    hide Next, Enabled, Safe;
    if a == [] {
      assert a + b == b;
    } else {
      assert (a + b)[1..] == a[1..] + b;
      RunJoin(Next(s, a[0]), a[1..], b);
    }
  }

  /** Such states are reached: two tasks read the same descriptor. */
  lemma TwoReadersMeet(timed: bool)
    ensures var w := Wait(5, Read);
            var steps := Reading(7, 1, w) + [Block(timed), StartEnd] + Reading(8, 2, w);
            var s0 := Init({1, 2}, Kernel(map[], {}, {}));
            && Allowed(s0, steps) && NeverFails(s0, steps)
            && var s := Run(s0, steps);
               && Inv(s) && s.current == Some(2) && s.eagain == Some(w) && w in s.park && s.park[w] == 1
               && 1 in s.mode && s.mode[1] == Parked(w, timed)
  {
    hide Run, Allowed, NeverFails, Inv, Reading, DoTry, Begin, Enqueue;
    var w := Wait(5, Read);
    var k := Kernel(map[], {}, {});
    var s0 := Init({1, 2}, k);
    InitInv({1, 2}, k);
    ReadsAndIsRefused(s0, 7, 1, w);
    var s3 := Run(s0, Reading(7, 1, w));
    ParksAndStartEnds(s3, timed);
    RunJoin(s0, Reading(7, 1, w), [Block(timed), StartEnd]);
    var a := Reading(7, 1, w) + [Block(timed), StartEnd];
    RunInv(s0, a);
    var s5 := Run(s0, a);
    ReadsAndIsRefused(s5, 8, 2, w);
    RunJoin(s0, a, Reading(8, 2, w));
    RunInv(s0, a + Reading(8, 2, w));
  }

  lemma RunCons(s: State, step: Step, rest: seq<Step>)
    requires Enabled(s, step) && Safe(s, step)
    requires Allowed(Next(s, step), rest) && NeverFails(Next(s, step), rest)
    ensures Allowed(s, [step] + rest) && NeverFails(s, [step] + rest)
    ensures Run(s, [step] + rest) == Run(Next(s, step), rest)
  {
    hide Next, Enabled, Safe;
    assert ([step] + rest)[1..] == rest;
  }

  lemma RunNone(s: State)
    ensures Allowed(s, []) && NeverFails(s, []) && Run(s, []) == s
  {
  }

  lemma StrandedStep(s: State, r: nat, step: Step)
    requires Stranded(s, r) && Enabled(s, step) && Safe(s, step)
    ensures Stranded(Next(s, step), r)
  {
    hide Raised, Report, Ready;
    var q := s.batch + s.functions;
    match step
    case TakeBatch => assert s.functions + [] == q;
    case RunItem => assert q[0] == s.batch[0] && q[1..] == s.batch[1..] + s.functions;
    case Yield => assert s.batch + (s.functions + [Resume(s.current.value)]) == q + [Resume(s.current.value)];
    case Spawn(task) => assert s.batch + (s.functions + [Submit(task)]) == q + [Submit(task)];
    case _ =>
  }

  lemma {:induction false} StrandedForever(s: State, r: nat, steps: seq<Step>)
    requires Stranded(s, r) && NeverFails(s, steps)
    ensures Stranded(Run(s, steps), r)
    decreases |steps|
  {
    hide Stranded, Next, Enabled, Safe;
    if steps != [] {
      StrandedStep(s, r, steps[0]);
      StrandedForever(Next(s, steps[0]), r, steps[1..]);
    }
  }
}
