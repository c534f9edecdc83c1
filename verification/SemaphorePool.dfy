/** The semaphore thread pool: workers block on a counting semaphore, submitters push under a
    mutex and then release one permit, and the destructor closes the gate, asks every worker to
    stop and releases one permit per worker. After the destructor's body the members are destroyed in the
    reverse of their declaration: the semaphore, the mutex and the queue go before the vector of workers is
    joined. Every mutex-protected section, semaphore operation
    and stop-token read is one step; any number of submitters, including running tasks, may
    interleave with the workers and the destructor. */
module SemaphorePool {
  import opened Common

  type Task = int

  /** Where a worker stands in `worker_loop`. */
  datatype Pc =
    | AtAcquire           // blocked on, or about to call, sem_.acquire()
    | Holding             // took a permit, about to read its stop token
    | Checking            // saw the stop request, about to test the queue
    | ToPop               // about to lock and pop
    | Running(task: nat)  // executing the task that was popped task-th
    | Exited

  predicate HasPermit(p: Pc) { p.Holding? || p.Checking? || p.ToPop? }
  predicate IsExited(p: Pc) { p.Exited? }
  predicate IsBlocked(p: Pc) { p.AtAcquire? }
  function InHand(p: Pc): Option<nat> { if p.Running? then Some(p.task) else None }

  datatype State = State(
    pcs: seq<Pc>,          // one entry per worker
    tasks: seq<Task>,      // tasks_
    permits: nat,          // sem_
    unreleased: nat,       // submitters between their push and their sem_.release()
    stopping: bool,        // stopping_
    asked: nat,            // workers 0..asked-1 had request_stop() called
    released: bool,        // the destructor executed sem_.release(n)
    accepted: seq<Task>,   // history of accepted submissions
    popped: seq<Task>,     // history of pops
    finished: seq<nat>,    // history of completions, as pop numbers
    retries: nat,          // how often a worker found the queue empty and continued
    dead: bool,            // sem_, mtx_ and tasks_ have been destroyed
    freed: seq<Task>,      // the tasks that were still queued then
    misused: bool)         // a destroyed member has been used; behaviour is undefined from here on

  function Init(n: nat): State {
    State(seq(n, i => AtAcquire), [], 0, 0, false, 0, false, [], [], [], 0, false, [], false)
  }

  datatype Action =
    | Push(t: Task) | ReleaseOne
    | Acquire(w: nat) | ReadStop(w: nat) | CheckEmpty(w: nat) | Pop(w: nat) | Finish(w: nat)
    | CloseGate | RequestStop | ReleaseAll | DestroyMembers

  /** One step; `None` means the step cannot be taken now (wrong place, or blocked). After the members are
      gone nobody may start a submission; whoever was already using the pool goes on. */
  function Step(s: State, a: Action): Option<State> {
    if s.misused then None
    else if !s.dead then LiveStep(s, a)
    else if UsesMember(s, a) then Some(s.(misused := true))
    else if a.ReadStop? || a.Finish? then LiveStep(s, a)
    else None
  }

  /** The action is what comes next for its thread, and needs the semaphore, the mutex or the queue. */
  predicate UsesMember(s: State, a: Action) {
    match a
    case Acquire(w) => w < |s.pcs| && s.pcs[w].AtAcquire?
    case CheckEmpty(w) => w < |s.pcs| && s.pcs[w].Checking?
    case Pop(w) => w < |s.pcs| && s.pcs[w].ToPop?
    case ReleaseOne => s.unreleased > 0
    case _ => false
  }

  function LiveStep(s: State, a: Action): Option<State> {
    match a
    case Push(t) =>  // a submission after the gate closed throws and changes nothing
      if s.stopping then Some(s)
      else Some(s.(tasks := s.tasks + [t], unreleased := s.unreleased + 1, accepted := s.accepted + [t]))
    case ReleaseOne =>
      if s.unreleased == 0 then None
      else Some(s.(unreleased := s.unreleased - 1, permits := s.permits + 1))
    case Acquire(w) =>
      if w >= |s.pcs| || !s.pcs[w].AtAcquire? || s.permits == 0 then None
      else Some(s.(pcs := s.pcs[w := Holding], permits := s.permits - 1))
    case ReadStop(w) =>
      if w >= |s.pcs| || !s.pcs[w].Holding? then None
      else Some(s.(pcs := s.pcs[w := if w < s.asked then Checking else ToPop]))
    case CheckEmpty(w) =>
      if w >= |s.pcs| || !s.pcs[w].Checking? then None
      else Some(s.(pcs := s.pcs[w := if s.tasks == [] then Exited else ToPop]))
    case Pop(w) =>
      if w >= |s.pcs| || !s.pcs[w].ToPop? then None
      else if s.tasks == [] then Some(s.(pcs := s.pcs[w := AtAcquire], retries := s.retries + 1))
      else Some(s.(pcs := s.pcs[w := Running(|s.popped|)], tasks := s.tasks[1..],
                   popped := s.popped + [s.tasks[0]]))
    case Finish(w) =>
      if w >= |s.pcs| || !s.pcs[w].Running? then None
      else Some(s.(pcs := s.pcs[w := AtAcquire], finished := s.finished + [s.pcs[w].task]))
    case CloseGate => if s.stopping then None else Some(s.(stopping := true))
    case RequestStop =>
      if !s.stopping || s.asked >= |s.pcs| then None else Some(s.(asked := s.asked + 1))
    case ReleaseAll =>
      if !s.stopping || s.asked != |s.pcs| || s.released then None
      else Some(s.(released := true, permits := s.permits + |s.pcs|))
    case DestroyMembers => if !s.released then None else Some(s.(dead := true, freed := s.tasks, tasks := []))
  }

  function Run(s: State, acts: seq<Action>): Option<State>
    decreases |acts|
  {
    if acts == [] then Some(s)
    else match Step(s, acts[0]) case None => None case Some(s') => Run(s', acts[1..])
  }

  /** The conservation law: every permit ever created is accounted for. */
  ghost predicate Conserved(s: State) {
    s.permits + Count(s.pcs, HasPermit) + s.unreleased + Count(s.pcs, IsExited) + s.retries
      == |s.tasks| + |s.freed| + (if s.released then |s.pcs| else 0)
  }

  ghost predicate Inv(s: State) {
    && Conserved(s)
    && s.accepted == s.popped + s.tasks + s.freed
    && ExactlyOnce(s.pcs, InHand, |s.popped|, s.finished)
    && (s.released ==> s.stopping && s.asked == |s.pcs|)
    && s.asked <= |s.pcs| && (0 < s.asked ==> s.stopping)
    && (s.retries > 0 || Count(s.pcs, IsExited) > 0 ==> s.released && s.tasks == [] && s.freed == [])
    && (if s.dead then s.released && s.tasks == [] else s.freed == [] && !s.misused)
  }

  lemma InitInv(n: nat)
    ensures Inv(Init(n))
  {
    CountPositive(Init(n).pcs, HasPermit);
    CountPositive(Init(n).pcs, IsExited);
  }

  /** How one worker's move shows up in both counts at once. */
  lemma MoveWorker(pcs: seq<Pc>, w: nat, pc: Pc)
    requires w < |pcs|
    ensures Count(pcs[w := pc], HasPermit) + (if HasPermit(pcs[w]) then 1 else 0)
         == Count(pcs, HasPermit) + (if HasPermit(pc) then 1 else 0)
    ensures Count(pcs[w := pc], IsExited) + (if IsExited(pcs[w]) then 1 else 0)
         == Count(pcs, IsExited) + (if IsExited(pc) then 1 else 0)
  {
    CountUpdate(pcs, w, pc, HasPermit);
    CountUpdate(pcs, w, pc, IsExited);
  }

  lemma PopInv(s: State, w: nat, s': State)
    requires Inv(s) && !s.dead && LiveStep(s, Pop(w)) == Some(s')
    ensures Inv(s')
  {
    MoveWorker(s.pcs, w, s'.pcs[w]);
    if s.tasks == [] {
      ExactlyOnceKept(s.pcs, s'.pcs, InHand, |s.popped|, s.finished);
    } else {
      assert s.tasks == [s.tasks[0]] + s.tasks[1..];
      assert s'.accepted == s'.popped + s'.tasks + s'.freed;
      ExactlyOnceTake(s.pcs, w, s'.pcs[w], InHand, |s.popped|, s.finished);
    }
  }

  /** A worker moves on without touching the queue. */
  lemma MoveInv(s: State, w: nat, a: Action, s': State)
    requires Inv(s) && (a == Acquire(w) || a == ReadStop(w) || a == CheckEmpty(w)) && LiveStep(s, a) == Some(s')
    requires s.dead ==> a.ReadStop?
    ensures Inv(s')
  {
    MoveWorker(s.pcs, w, s'.pcs[w]);
    ExactlyOnceKept(s.pcs, s'.pcs, InHand, |s.popped|, s.finished);
  }

  lemma FinishInv(s: State, w: nat, s': State)
    requires Inv(s) && LiveStep(s, Finish(w)) == Some(s')
    ensures Inv(s')
  {
    MoveWorker(s.pcs, w, AtAcquire);
    ExactlyOnceFinish(s.pcs, w, AtAcquire, InHand, |s.popped|, s.finished);
  }

  lemma PushInv(s: State, t: Task, s': State)
    requires Inv(s) && !s.dead && LiveStep(s, Push(t)) == Some(s')
    ensures Inv(s')
  {
    assert s.popped + (s.tasks + [t]) + [] == (s.popped + s.tasks + []) + [t];
  }

  /** The calls of the destructor, the destruction of the members, and the pending releases. */
  lemma ShutdownInv(s: State, a: Action, s': State)
    requires Inv(s) && !s.dead && (a.CloseGate? || a.RequestStop? || a.ReleaseAll? || a.DestroyMembers? || a.ReleaseOne?)
    requires LiveStep(s, a) == Some(s')
    ensures Inv(s')
  {
    assert s.popped + s.tasks + [] == s.popped + [] + s.tasks;
  }

  lemma LiveStepInv(s: State, a: Action, s': State)
    requires Inv(s) && LiveStep(s, a) == Some(s') && (s.dead ==> a.ReadStop? || a.Finish?)
    ensures Inv(s')
  {
    match a
    case Push(t) => PushInv(s, t, s');
    case Acquire(w) => MoveInv(s, w, a, s');
    case ReadStop(w) => MoveInv(s, w, a, s');
    case CheckEmpty(w) => MoveInv(s, w, a, s');
    case Pop(w) => PopInv(s, w, s');
    case Finish(w) => FinishInv(s, w, s');
    case _ => ShutdownInv(s, a, s');
  }

  lemma StepInv(s: State, a: Action)
    requires Inv(s) && Step(s, a).Some?
    ensures Inv(Step(s, a).value)
  {
    if !(s.dead && UsesMember(s, a)) {
      LiveStepInv(s, a, Step(s, a).value);
    }
  }

  lemma {:induction false} RunInv(s: State, acts: seq<Action>)
    requires Inv(s) && Run(s, acts).Some?
    ensures Inv(Run(s, acts).value)
    decreases |acts|
  {
    if acts != [] {
      StepInv(s, acts[0]);
      RunInv(Step(s, acts[0]).value, acts[1..]);
    }
  }

  ghost predicate Reachable(s: State) {
    exists n: nat, acts :: Run(Init(n), acts) == Some(s)
  }

  lemma ReachableInv(s: State)
    requires Reachable(s)
    ensures Inv(s)
  {
    var n: nat, acts :| Run(Init(n), acts) == Some(s);
    InitInv(n);
    RunInv(Init(n), acts);
  }

  // ---- What every run keeps ----

  /** The tasks submitted before the gate closed, in order, read off the run. */
  function Submitted(acts: seq<Action>): seq<Task> {
    if acts == [] || acts[0].CloseGate? then []
    else (if acts[0].Push? then [acts[0].t] else []) + Submitted(acts[1..])
  }

  lemma AcceptedStep(s: State, a: Action)
    requires Step(s, a).Some?
    ensures Step(s, a).value.accepted == if a.Push? && !s.stopping then s.accepted + [a.t] else s.accepted
    ensures Step(s, a).value.stopping == (s.stopping || a.CloseGate?)
    ensures s.dead ==> !a.Push?
  {
  }

  lemma {:induction false} AcceptedIsSubmitted(s: State, acts: seq<Action>)
    requires Run(s, acts).Some?
    ensures Run(s, acts).value.accepted == s.accepted + if s.stopping then [] else Submitted(acts)
    decreases |acts|
  {
    if acts != [] {
      var a, rest := acts[0], acts[1..];
      AcceptedStep(s, a);
      AcceptedIsSubmitted(Step(s, a).value, rest);
      Associative(s.accepted, if a.Push? then [a.t] else [], Submitted(rest));
    }
  }

  /** Tasks leave the queue in the order in which they were submitted before the gate closed, none skipped, none
      twice; each popped task is in exactly one of two places: finished, or in the hands of one worker. What the
      destruction of the queue frees was never popped. */
  lemma FifoOnce(n: nat, acts: seq<Action>)
    requires Run(Init(n), acts).Some?
    ensures var s := Run(Init(n), acts).value;
      && s.accepted == Submitted(acts) == s.popped + s.tasks + s.freed
      && (s.freed != [] ==> s.dead)
      && ExactlyOnce(s.pcs, InHand, |s.popped|, s.finished)
  {
    InitInv(n);
    RunInv(Init(n), acts);
    AcceptedIsSubmitted(Init(n), acts);
  }

  /** Before the destructor's final release nobody has exited or retried, and a worker that holds
      a permit is owed a task. */
  lemma PermitOwnsATask(s: State, w: nat)
    requires Reachable(s) && !s.released && w < |s.pcs| && HasPermit(s.pcs[w])
    ensures s.tasks != [] && s.retries == 0
    ensures forall v :: 0 <= v < |s.pcs| ==> !s.pcs[v].Exited?
  {
    ReachableInv(s);
    CountPositive(s.pcs, HasPermit);
    CountPositive(s.pcs, IsExited);
  }

  /** As soon as one worker has exited, every accepted task has been popped and no further task
      can ever be accepted. */
  lemma ExitMeansDrained(s: State, w: nat)
    requires Reachable(s) && w < |s.pcs| && s.pcs[w].Exited?
    ensures s.popped == s.accepted && s.stopping
    ensures forall t :: Step(s, Push(t)).Some? ==> Step(s, Push(t)) == Some(s)
  {
    ReachableInv(s);
    CountPositive(s.pcs, IsExited);
  }

  /** What the destructor relies on and the declaration order of the members does not give it: the semaphore,
      the mutex and the queue are still there while the workers are being joined. */
  predicate MembersOutliveJoins(s: State) {
    !s.dead
  }

  /** When all workers have exited, every task submitted before the gate closed ran to completion exactly once. */
  lemma AllExitedMeansAllRan(n: nat, acts: seq<Action>)
    requires n > 0 && Run(Init(n), acts).Some? && MembersOutliveJoins(Run(Init(n), acts).value)
    requires var s := Run(Init(n), acts).value; forall w :: 0 <= w < |s.pcs| ==> s.pcs[w].Exited?
    ensures var s := Run(Init(n), acts).value;
      && s.popped == Submitted(acts)
      && (forall k :: 0 <= k < |s.popped| ==> k in s.finished)
      && (forall i, j :: 0 <= i < j < |s.finished| ==> s.finished[i] != s.finished[j])
  {
    var s := Run(Init(n), acts).value;
    FifoOnce(n, acts);
    WorkersStay(Init(n), acts);
    ExitMeansDrained(s, 0);
    ReachableInv(s);
  }

  lemma {:induction false} WorkersStay(s: State, acts: seq<Action>)
    requires Run(s, acts).Some?
    ensures |Run(s, acts).value.pcs| == |s.pcs|
    decreases |acts|
  {
    if acts != [] {
      WorkersStay(Step(s, acts[0]).value, acts[1..]);
    }
  }

  /** A queued task is never stranded: some permit exists, or is about to exist, for it. */
  lemma QueuedTaskHasPermit(s: State)
    requires Reachable(s) && s.tasks != []
    ensures s.permits > 0 || s.unreleased > 0 || exists w :: 0 <= w < |s.pcs| && HasPermit(s.pcs[w])
  {
    ReachableInv(s);
    CountPositive(s.pcs, HasPermit);
  }

  // ---- Shutdown: what it achieves, and when it hangs ----

  /** Nothing can move any more: the destructor has finished its calls, no submitter is about to
      release, no permit is left and no worker is between acquire and the end of its task. */
  predicate Quiescent(s: State) {
    && s.released && s.unreleased == 0 && s.permits == 0
    && forall w :: 0 <= w < |s.pcs| ==> s.pcs[w].AtAcquire? || s.pcs[w].Exited?
  }

  /** At quiescence the workers still blocked in `acquire` number exactly the empty-queue retries. */
  lemma BlockedEqualsRetries(s: State)
    requires Reachable(s) && MembersOutliveJoins(s) && Quiescent(s)
    ensures s.tasks == [] && Count(s.pcs, IsBlocked) == s.retries
  {
    ReachableInv(s);
    CountPositive(s.pcs, HasPermit);
    CountPositive(s.pcs, IsExited);
    CountSplit(s.pcs, IsBlocked, IsExited);
  }

  /** So the joins in the destructor return exactly when no worker ever took the `continue` branch. */
  lemma JoinsReturnIffNoRetry(s: State)
    requires Reachable(s) && MembersOutliveJoins(s) && Quiescent(s)
    ensures (forall w :: 0 <= w < |s.pcs| ==> s.pcs[w].Exited?) <==> s.retries == 0
  {
    ReachableInv(s);
    BlockedEqualsRetries(s);
    CountPositive(s.pcs, IsBlocked);
  }

  predicate CanMove(s: State, w: nat) {
    Step(s, Acquire(w)).Some? || Step(s, ReadStop(w)).Some? || Step(s, CheckEmpty(w)).Some?
    || Step(s, Pop(w)).Some? || Step(s, Finish(w)).Some?
  }

  /** Quiescence is the only way to be stuck after the destructor's release: otherwise some step of
      a worker, or a pending release, is enabled. */
  lemma StuckOnlyWhenQuiescent(s: State)
    requires Reachable(s) && MembersOutliveJoins(s) && s.released && !Quiescent(s)
    ensures Step(s, ReleaseOne).Some? || (exists w :: 0 <= w < |s.pcs| && CanMove(s, w))
         || (forall w :: 0 <= w < |s.pcs| ==> s.pcs[w].Exited?)
  {
    ReachableInv(s);
    if s.unreleased == 0 && exists w :: 0 <= w < |s.pcs| && !s.pcs[w].Exited? {
      var w :| 0 <= w < |s.pcs| && !s.pcs[w].Exited?;
      if s.permits == 0 {
        var v :| 0 <= v < |s.pcs| && !s.pcs[v].AtAcquire? && !s.pcs[v].Exited?;
        assert CanMove(s, v);
      } else {
        assert CanMove(s, w);
      }
    }
  }

  /** Reachable states are closed under steps. */
  ghost function Go(s: State, a: Action): (s': State)
    requires Reachable(s) && Step(s, a).Some?
    ensures Some(s') == Step(s, a) && Reachable(s')
  {
    ReachableStep(s, a);
    Step(s, a).value
  }

  lemma ReachableStep(s: State, a: Action)
    requires Reachable(s) && Step(s, a).Some?
    ensures Reachable(Step(s, a).value)
  {
    var n: nat, acts :| Run(Init(n), acts) == Some(s);
    RunConcat(Init(n), acts, [a]);
    assert Run(s, [a]) == Step(s, a);
    assert Run(Init(n), acts + [a]) == Step(s, a);
  }

  lemma {:induction false} RunConcat(s: State, xs: seq<Action>, ys: seq<Action>)
    requires Run(s, xs).Some?
    ensures Run(s, xs + ys) == Run(Run(s, xs).value, ys)
    decreases |xs|
  {
    if xs == [] {
      assert xs + ys == ys;
    } else {
      assert (xs + ys)[1..] == xs[1..] + ys;
      RunConcat(Step(s, xs[0]).value, xs[1..], ys);
    }
  }

  /** A pool of no workers accepts tasks and never runs one, so the guarantee needs a worker. */
  lemma NoWorkersNeverRun(t: Task)
    ensures exists s :: Reachable(s) && |s.pcs| == 0 && s.released && s.accepted == [t] && s.finished == []
  {
    var s := Init(0);
    assert Run(s, []) == Some(s);
    s := Go(Go(Go(Go(s, Push(t)), ReleaseOne), CloseGate), ReleaseAll);
  }

  // ---- The pool object ----

  datatype Error = Stopped

  /** The atomic section that worker `w` executes next in `worker_loop`. */
  function WorkerAction(s: State, w: nat): Action
    requires w < |s.pcs|
  {
    match s.pcs[w]
    case AtAcquire => Acquire(w)
    case Holding => ReadStop(w)
    case Checking => CheckEmpty(w)
    case ToPop => Pop(w)
    case Running(_) => Finish(w)
    case Exited => Acquire(w)
  }

  /** The next thing the destructor does: set the flag, the request_stop loop, the release, and the
      destruction of the members declared after the workers. */
  function DestructorAction(s: State): Action {
    if !s.stopping then CloseGate else if s.asked < |s.pcs| then RequestStop
    else if !s.released then ReleaseAll else DestroyMembers
  }

  class ThreadPool {
    var tasks: seq<Task>
    var permits: nat
    var stopping: bool
    var pcs: seq<Pc>
    var asked: nat
    var released: bool
    var unreleased: nat
    var pops: nat
    ghost var accepted: seq<Task>
    ghost var popped: seq<Task>
    ghost var finished: seq<nat>
    ghost var retries: nat
    ghost var dead: bool
    ghost var freed: seq<Task>
    ghost var misused: bool

    ghost predicate Valid()
      reads this
    {
      Inv(View()) && pops == |popped|
    }

    ghost function View(): State
      reads this
    {
      State(pcs, tasks, permits, unreleased, stopping, asked, released, accepted, popped, finished, retries, dead, freed, misused)
    }

    constructor (n: nat)
      ensures Valid() && View() == Init(n)
    {
      pcs := seq(n, i => AtAcquire);
      tasks, permits, stopping, asked, released, unreleased, pops := [], 0, false, 0, false, 0, 0;
      accepted, popped, finished, retries, dead, freed, misused := [], [], [], 0, false, [], false;
      new;
      InitInv(n);
    }

    /** The locked part of `submit` and `submit_detach`. */
    method Submit(t: Task) returns (r: Result<(), Error>)
      requires Valid() && !dead
      modifies this
      ensures Valid() && Step(old(View()), Push(t)) == Some(View())
      ensures r.Err? <==> old(stopping)
      ensures accepted == if r.Ok? then old(accepted) + [t] else old(accepted)
    {
      StepInv(View(), Push(t));
      if stopping {
        return Err(Stopped);
      }
      tasks := tasks + [t];
      unreleased := unreleased + 1;
      accepted := accepted + [t];
      r := Ok(());
    }

    /** The `sem_.release()` that follows. */
    method ReleaseAfterSubmit() returns (moved: bool)
      requires Valid() && !dead
      modifies this
      ensures Valid() && Step(old(View()), ReleaseOne) == if moved then Some(View()) else None
      ensures !moved ==> View() == old(View())
    {
      moved := unreleased > 0;
      if moved {
        StepInv(View(), ReleaseOne);
        unreleased := unreleased - 1;
        permits := permits + 1;
      }
    }

    /** The loop up to the pop: acquire, read the stop token, and leave if stopped and nothing is queued. */
    method WorkerGate(w: nat) returns (moved: bool)
      requires Valid() && !dead && w < |pcs| && (pcs[w].AtAcquire? || pcs[w].Holding? || pcs[w].Checking?)
      modifies this
      ensures Valid()
      ensures Step(old(View()), WorkerAction(old(View()), w)) == if moved then Some(View()) else None
      ensures !moved ==> View() == old(View())
    {
      moved := !(pcs[w].AtAcquire? && permits == 0);
      if moved {
        ghost var before := View();
        StepInv(before, WorkerAction(before, w));
        match pcs[w] {
          case AtAcquire =>
            permits := permits - 1;
            pcs := pcs[w := Holding];
          case Holding =>
            pcs := pcs[w := if w < asked then Checking else ToPop];
          case Checking =>
            pcs := pcs[w := if tasks == [] then Exited else ToPop];
        }
        assert View() == Step(before, WorkerAction(before, w)).value;
      }
    }

    /** The pop: take the front task, or go round again. */
    method WorkerPop(w: nat) returns (task: Option<Task>)
      requires Valid() && !dead && w < |pcs| && pcs[w].ToPop?
      modifies this
      ensures Valid() && Step(old(View()), Pop(w)) == Some(View())
      ensures task == (if old(tasks) == [] then None else Some(old(tasks)[0]))
      ensures task.Some? ==> pcs[w].Running? && pcs[w].task < |popped| && popped[pcs[w].task] == task.value
    {
      ghost var before := View();
      StepInv(before, Pop(w));
      if tasks == [] {
        retries := retries + 1;
        pcs := pcs[w := AtAcquire];
        task := None;
      } else {
        var front := tasks[0];
        task := Some(front);
        tasks := tasks[1..];
        popped := popped + [front];
        pcs := pcs[w := Running(pops)];
        pops := pops + 1;
      }
      assert View() == Step(before, Pop(w)).value;
    }

    /** `task(st)` returns. */
    method WorkerRan(w: nat)
      requires Valid() && !dead && w < |pcs| && pcs[w].Running?
      modifies this
      ensures Valid() && Step(old(View()), Finish(w)) == Some(View())
    {
      StepInv(View(), Finish(w));
      finished := finished + [pcs[w].task];
      pcs := pcs[w := AtAcquire];
    }

    /** Worker `w` advances through the next section of its loop, or stays blocked, while the members live. */
    method WorkerLoop(w: nat) returns (moved: bool)
      requires Valid() && !dead && w < |pcs|
      modifies this
      ensures Valid()
      ensures Step(old(View()), WorkerAction(old(View()), w)) == if moved then Some(View()) else None
      ensures !moved ==> View() == old(View())
    {
      moved := true;
      match pcs[w] {
        case Exited => moved := false;
        case ToPop => var task := WorkerPop(w);
        case Running(_) => WorkerRan(w);
        case _ => moved := WorkerGate(w);
      }
    }

    /** `sem_.release(workers_.size())`. */
    method ReleaseAllPermits()
      modifies `released, `permits
      ensures View() == old(View()).(released := true, permits := old(permits) + |pcs|)
    {
      released := true;
      permits := permits + |pcs|;
    }

    /** The members declared after the workers are destroyed, the queue with what it holds. */
    method DestroyOwned()
      modifies `dead, `freed, `tasks
      ensures View() == old(View()).(dead := true, freed := old(tasks), tasks := [])
    {
      dead, freed := true, tasks;
      tasks := [];
    }

    /** The destructor advances by one call, or, after the last, destroys the members. */
    method Destructor()
      requires Valid() && !dead
      modifies this
      ensures Valid() && Step(old(View()), DestructorAction(old(View()))) == Some(View())
      ensures dead <==> old(released)
      ensures asked == if old(stopping) && old(asked) < |pcs| then old(asked) + 1 else old(asked)
    {
      ghost var before := View();
      StepInv(before, DestructorAction(before));
      if !stopping {
        stopping := true;
      } else if asked < |pcs| {
        asked := asked + 1;
      } else if !released {
        ReleaseAllPermits();
      } else {
        DestroyOwned();
      }
      assert View() == Step(before, DestructorAction(before)).value;
    }
  }
}
