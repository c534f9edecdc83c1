/** The condition-variable thread pool with a draining shutdown. Each worker waits with
    `condition_variable_any::wait(lock, stop_token, predicate)`; destroying the pool stops and joins
    the workers one at a time, and then the other members. A critical section under the pool's mutex is one step. Waiting follows
    C++20 [thread.condvarany.intwait]: a worker leaves the wait when the queue is non-empty or its own
    stop was requested, a stop request cannot fall between its last test and its sleep, and
    requesting the stop of a waiting worker notifies every sleeper. */
module DrainingPool {
  import opened Common

  type Task = int

  datatype Pc =
    | Ready               // about to lock the mutex and test
    | Sleeping            // inside wait, not notified
    | Woken               // notified or woken spuriously, about to relock and test
    | Running(task: nat, owes: bool)  // executing the task that was popped task-th, outside the lock; `owes` if
                                      // the task is between a push of its own and its notify_one
    | Exited

  predicate IsAwake(p: Pc) { p.Ready? || p.Woken? }
  predicate IsWoken(p: Pc) { p.Woken? }
  predicate Owes(p: Pc) { p.Running? && p.owes }
  function InHand(p: Pc): Option<nat> { if p.Running? then Some(p.task) else None }

  datatype State = State(
    pcs: seq<Pc>,
    stop: seq<bool>,       // each jthread's own stop token
    tasks: seq<Task>,      // _tasks
    outside: nat,          // submitters other than running tasks, between their push and their notify_one
    destroying: bool,      // the pool's destructor has begun; only running tasks still submit
    dead: bool,            // _cv, _mutex and _tasks are destroyed
    misused: bool,         // history: a destroyed _cv was notified
    freed: seq<Task>,      // history: the tasks destroyed with _tasks
    accepted: seq<Task>,
    popped: seq<Task>,
    finished: seq<nat>)

  function Init(n: nat): State {
    State(seq(n, i => Ready), seq(n, i => false), [], 0, false, false, false, [], [], [], [])
  }

  function WakeAll(pcs: seq<Pc>): (r: seq<Pc>)
    ensures |r| == |pcs|
  {
    seq(|pcs|, i requires 0 <= i < |pcs| => if pcs[i].Sleeping? then Woken else pcs[i])
  }

  datatype Action =
    | SubmitOutside(t: Task)          // any thread, before destruction begins
    | SubmitInside(w: nat, t: Task)   // the task worker w is running submits
    | NotifyOne(from: Option<nat>, v: nat)  // notify_one, by a worker's task or from outside, reaches sleeper v
    | NotifyNobody(from: Option<nat>)   // notify_one while nobody sleeps
    | Spurious(v: nat)
    | Enter(w: nat)                   // the worker's critical section
    | Finish(w: nat)
    | BeginDestroy
    | RequestStop(w: nat)             // first half of ~jthread; the join is the wait for Exited
    | DestroyMembers                  // after the last join

  function Submitted(s: State, t: Task): State {
    s.(tasks := s.tasks + [t], accepted := s.accepted + [t])
  }

  /** The notification that `from` still had to give is given. */
  function Notified(s: State, from: Option<nat>): (r: Option<State>)
    ensures r.Some? ==> |r.value.pcs| == |s.pcs| && r.value.stop == s.stop
  {
    match from
    case None => if s.outside == 0 then None else Some(s.(outside := s.outside - 1, misused := s.misused || s.dead))
    case Some(w) =>
      if w >= |s.pcs| || !Owes(s.pcs[w]) then None
      else Some(s.(pcs := s.pcs[w := s.pcs[w].(owes := false)], misused := s.misused || s.dead))
  }

  /** Notifications still to come. */
  function Pending(s: State): nat {
    s.outside + Count(s.pcs, Owes)
  }

  function Step(s: State, a: Action): (r: Option<State>)
    requires |s.stop| == |s.pcs|
    ensures r.Some? ==> |r.value.pcs| == |s.pcs| == |r.value.stop|
  {
    match a
    case SubmitOutside(t) => if s.destroying then None else Some(Submitted(s, t).(outside := s.outside + 1))
    case SubmitInside(w, t) =>
      if w >= |s.pcs| || !s.pcs[w].Running? || s.pcs[w].owes then None
      else Some(Submitted(s, t).(pcs := s.pcs[w := s.pcs[w].(owes := true)]))
    case NotifyOne(from, v) =>
      if v >= |s.pcs| || !s.pcs[v].Sleeping? then None
      else (match Notified(s, from) case None => None case Some(s1) => Some(s1.(pcs := s1.pcs[v := Woken])))
    case NotifyNobody(from) =>
      if exists v :: 0 <= v < |s.pcs| && s.pcs[v].Sleeping? then None else Notified(s, from)
    case Spurious(v) =>
      if v >= |s.pcs| || !s.pcs[v].Sleeping? then None else Some(s.(pcs := s.pcs[v := Woken]))
    case Enter(w) =>
      if w >= |s.pcs| || !IsAwake(s.pcs[w]) then None
      else if s.tasks != [] then
        Some(s.(pcs := s.pcs[w := Running(|s.popped|, false)], tasks := s.tasks[1..], popped := s.popped + [s.tasks[0]]))
      else Some(s.(pcs := s.pcs[w := if s.stop[w] then Exited else Sleeping]))
    case Finish(w) =>
      if w >= |s.pcs| || !s.pcs[w].Running? || s.pcs[w].owes then None
      else Some(s.(pcs := s.pcs[w := Ready], finished := s.finished + [s.pcs[w].task]))
    case BeginDestroy => if s.destroying then None else Some(s.(destroying := true))
    case RequestStop(w) =>
      if !s.destroying || w >= |s.pcs| || s.stop[w]
         || exists v :: 0 <= v < |s.pcs| && s.stop[v] && !s.pcs[v].Exited? then None
      else Some(s.(stop := s.stop[w := true], pcs := if s.pcs[w].Sleeping? then WakeAll(s.pcs) else s.pcs))
    case DestroyMembers =>
      if !s.destroying || s.dead || !AllExited(s) then None else Some(s.(dead := true, freed := s.tasks, tasks := []))
  }

  predicate AllExited(s: State) {
    forall w :: 0 <= w < |s.pcs| ==> s.pcs[w].Exited?
  }

  function Run(s: State, acts: seq<Action>): Option<State>
    requires |s.stop| == |s.pcs|
    decreases |acts|
  {
    if acts == [] then Some(s)
    else match Step(s, acts[0]) case None => None case Some(s') => Run(s', acts[1..])
  }

  ghost predicate SomeoneSleeps(s: State) {
    exists v :: 0 <= v < |s.pcs| && s.pcs[v].Sleeping?
  }

  ghost predicate SomeoneLives(s: State) {
    exists v :: 0 <= v < |s.pcs| && !s.pcs[v].Exited?
  }

  /** Who has been told to stop. */
  ghost predicate StopsInv(s: State)
    requires |s.stop| == |s.pcs|
  {
    && (forall w :: 0 <= w < |s.pcs| && s.pcs[w].Exited? ==> s.stop[w])
    && (forall w :: 0 <= w < |s.pcs| && s.pcs[w].Sleeping? ==> !s.stop[w])
    && (forall w :: 0 <= w < |s.pcs| && s.stop[w] ==> s.destroying)
    && (forall v, w :: 0 <= v < w < |s.pcs| && s.stop[v] && s.stop[w] ==> s.pcs[v].Exited? || s.pcs[w].Exited?)
  }

  ghost predicate Inv(s: State) {
    && |s.stop| == |s.pcs|
    && s.accepted == s.popped + s.tasks + s.freed
    && ExactlyOnce(s.pcs, InHand, |s.popped|, s.finished)
    && StopsInv(s)
    && (SomeoneSleeps(s) ==> |s.tasks| <= Pending(s) + Count(s.pcs, IsWoken))
    && (s.tasks != [] && |s.pcs| > 0 ==> SomeoneLives(s))
    && (|s.pcs| == 0 ==> s.popped == [])
    && (s.freed != [] ==> |s.pcs| == 0) && (!s.dead ==> s.freed == [])
    && (s.dead ==> s.destroying && AllExited(s) && s.tasks == [])
    && (s.misused ==> s.dead)
  }

  lemma InitInv(n: nat)
    ensures Inv(Init(n))
  {
    var s := Init(n);
    assert StopsInv(s) && !SomeoneSleeps(s);
    assert ExactlyOnce(s.pcs, InHand, 0, s.finished);
  }

  /** Nobody exits or falls asleep, and the shutdown does not advance. */
  predicate Steady(s: State, s': State) {
    && |s'.pcs| == |s.pcs| && s'.stop == s.stop && s'.destroying == s.destroying && s'.dead == s.dead && s'.freed == s.freed
    && (s'.misused ==> s.misused || s.dead)
    && forall v :: 0 <= v < |s.pcs| ==> s'.pcs[v].Exited? == s.pcs[v].Exited? && (s'.pcs[v].Sleeping? ==> s.pcs[v].Sleeping?)
  }

  lemma SteadyStops(s: State, s': State)
    requires |s.stop| == |s.pcs| && StopsInv(s) && Steady(s, s')
    ensures StopsInv(s')
    ensures SomeoneSleeps(s') ==> SomeoneSleeps(s)
    ensures SomeoneLives(s) <==> SomeoneLives(s')
  {
    if v :| 0 <= v < |s.pcs| && !s.pcs[v].Exited? {
      assert !s'.pcs[v].Exited?;
    }
  }

  /** A steady step keeps the invariant if it keeps the accounts and loses no wake-up. */
  lemma SteadyInv(s: State, s': State)
    requires Inv(s) && Steady(s, s')
    requires s'.accepted == s'.popped + s'.tasks + s'.freed && ExactlyOnce(s'.pcs, InHand, |s'.popped|, s'.finished)
    requires SomeoneSleeps(s) ==> |s'.tasks| <= Pending(s') + Count(s'.pcs, IsWoken)
    requires s'.tasks != [] && |s.pcs| > 0 ==> SomeoneLives(s)
    requires (|s.pcs| == 0 ==> s'.popped == []) && (s.dead ==> s'.tasks == [])
    ensures Inv(s')
  {
    SteadyStops(s, s');
  }

  lemma SubmitInv(s: State, a: Action, s': State)
    requires Inv(s) && (a.SubmitOutside? || a.SubmitInside?) && Step(s, a) == Some(s')
    ensures Inv(s')
  {
    ExactlyOnceKept(s.pcs, s'.pcs, InHand, |s.popped|, s.finished);
    if a.SubmitInside? {
      CountUpdate(s.pcs, a.w, s'.pcs[a.w], IsWoken);
      CountUpdate(s.pcs, a.w, s'.pcs[a.w], Owes);
      assert !s.pcs[a.w].Exited?;
    } else if |s.pcs| > 0 {
      assert !s.pcs[0].Exited?;
    }
    assert !s.dead;
    assert s.popped + (s.tasks + [a.t]) + [] == (s.popped + s.tasks + []) + [a.t];
    SteadyInv(s, s');
  }

  /** Giving a notification, apart from its effect on a sleeper, costs one pending. */
  lemma NotifiedKeeps(s: State, from: Option<nat>, s1: State)
    requires Inv(s) && Notified(s, from) == Some(s1)
    ensures Pending(s1) == Pending(s) - 1 && Count(s1.pcs, IsWoken) == Count(s.pcs, IsWoken)
    ensures Steady(s, s1) && ExactlyOnce(s1.pcs, InHand, |s.popped|, s.finished)
    ensures SomeoneSleeps(s) <==> SomeoneSleeps(s1)
    ensures s1 == s.(pcs := s1.pcs, outside := s1.outside, misused := s1.misused)
  {
    if from.Some? {
      CountUpdate(s.pcs, from.value, s1.pcs[from.value], IsWoken);
      CountUpdate(s.pcs, from.value, s1.pcs[from.value], Owes);
    }
    ExactlyOnceKept(s.pcs, s1.pcs, InHand, |s.popped|, s.finished);
    if v :| 0 <= v < |s.pcs| && s.pcs[v].Sleeping? {
      assert s1.pcs[v].Sleeping?;
    }
  }

  /** Waking a sleeper. */
  lemma WokenKeeps(s: State, v: nat)
    requires |s.stop| == |s.pcs| && v < |s.pcs| && s.pcs[v].Sleeping? && ExactlyOnce(s.pcs, InHand, |s.popped|, s.finished)
    ensures var s' := s.(pcs := s.pcs[v := Woken]);
      Steady(s, s') && ExactlyOnce(s'.pcs, InHand, |s.popped|, s.finished)
      && Pending(s') == Pending(s) && Count(s'.pcs, IsWoken) == Count(s.pcs, IsWoken) + 1
  {
    CountUpdate(s.pcs, v, Woken, IsWoken);
    CountUpdate(s.pcs, v, Woken, Owes);
    ExactlyOnceKept(s.pcs, s.pcs[v := Woken], InHand, |s.popped|, s.finished);
  }

  lemma NotifyOneInv(s: State, from: Option<nat>, v: nat, s': State)
    requires Inv(s) && Step(s, NotifyOne(from, v)) == Some(s')
    ensures Inv(s')
  {
    var s1 := Notified(s, from).value;
    NotifiedKeeps(s, from, s1);
    WokenKeeps(s1, v);
    NotifiedThenWoken(s, s1, v);
    SteadyInv(s, s');
  }

  lemma NotifiedThenWoken(s: State, s1: State, v: nat)
    requires Steady(s, s1) && v < |s.pcs| && s.pcs[v].Sleeping?
    ensures Steady(s, s1.(pcs := s1.pcs[v := Woken])) && SomeoneLives(s) && SomeoneSleeps(s)
  {
  }

  lemma NotifyNobodyInv(s: State, from: Option<nat>, s': State)
    requires Inv(s) && Step(s, NotifyNobody(from)) == Some(s')
    ensures Inv(s')
  {
    NotifiedKeeps(s, from, s');
    assert !SomeoneSleeps(s);
    SteadyInv(s, s');
  }

  lemma SpuriousInv(s: State, v: nat, s': State)
    requires Inv(s) && Step(s, Spurious(v)) == Some(s')
    ensures Inv(s')
  {
    WokenKeeps(s, v);
    SteadyInv(s, s');
  }

  lemma PopAccounts(popped: seq<Task>, tasks: seq<Task>, freed: seq<Task>)
    requires tasks != []
    ensures popped + tasks + freed == popped + [tasks[0]] + tasks[1..] + freed
  {
  }

  /** A worker takes the front task. */
  lemma PopInv(s: State, w: nat, s': State)
    requires Inv(s) && s.tasks != [] && Step(s, Enter(w)) == Some(s')
    ensures Inv(s')
  {
    assert SomeoneLives(s);
    CountUpdate(s.pcs, w, s'.pcs[w], IsWoken);
    CountUpdate(s.pcs, w, s'.pcs[w], Owes);
    PopAccounts(s.popped, s.tasks, s.freed);
    ExactlyOnceTake(s.pcs, w, s'.pcs[w], InHand, |s.popped|, s.finished);
    SteadyInv(s, s');
  }

  /** A worker finds the queue empty, and exits or goes to sleep. */
  lemma LeaveInv(s: State, w: nat, s': State)
    requires Inv(s) && s.tasks == [] && Step(s, Enter(w)) == Some(s')
    ensures Inv(s')
  {
    ExactlyOnceKept(s.pcs, s'.pcs, InHand, |s.popped|, s.finished);
  }

  lemma EnterInv(s: State, w: nat, s': State)
    requires Inv(s) && Step(s, Enter(w)) == Some(s')
    ensures Inv(s')
  {
    if s.tasks != [] {
      PopInv(s, w, s');
    } else {
      LeaveInv(s, w, s');
    }
  }

  lemma FinishInv(s: State, w: nat, s': State)
    requires Inv(s) && Step(s, Finish(w)) == Some(s')
    ensures Inv(s')
  {
    CountUpdate(s.pcs, w, Ready, IsWoken);
    CountUpdate(s.pcs, w, Ready, Owes);
    ExactlyOnceFinish(s.pcs, w, Ready, InHand, |s.popped|, s.finished);
    SteadyInv(s, s');
  }

  lemma RequestStopInv(s: State, w: nat, s': State)
    requires Inv(s) && Step(s, RequestStop(w)) == Some(s')
    ensures Inv(s')
  {
    ExactlyOnceKept(s.pcs, s'.pcs, InHand, |s.popped|, s.finished);
    if s.tasks != [] && |s.pcs| > 0 {
      var v :| 0 <= v < |s.pcs| && !s.pcs[v].Exited?;
      assert !s'.pcs[v].Exited?;
    }
  }

  lemma DestroyInv(s: State, s': State)
    requires Inv(s) && Step(s, DestroyMembers) == Some(s')
    ensures Inv(s')
  {
    assert s.popped + s.tasks + [] == s.popped + [] + s.tasks;
  }

  lemma StepInv(s: State, a: Action)
    requires Inv(s) && Step(s, a).Some?
    ensures Inv(Step(s, a).value)
  {
    var s' := Step(s, a).value;
    match a
    case SubmitOutside(t) => SubmitInv(s, a, s');
    case SubmitInside(w, t) => SubmitInv(s, a, s');
    case NotifyOne(from, v) => NotifyOneInv(s, from, v, s');
    case NotifyNobody(from) => NotifyNobodyInv(s, from, s');
    case Spurious(v) => SpuriousInv(s, v, s');
    case Enter(w) => EnterInv(s, w, s');
    case Finish(w) => FinishInv(s, w, s');
    case RequestStop(w) => RequestStopInv(s, w, s');
    case DestroyMembers => DestroyInv(s, s');
    case BeginDestroy =>
      assert SomeoneLives(s) ==> SomeoneLives(s');
  }

  lemma {:induction false} RunInv(s: State, acts: seq<Action>)
    requires Inv(s) && Run(s, acts).Some?
    ensures Inv(Run(s, acts).value)
    decreases |acts|
  {
    if acts != [] {
      StepInv(s, acts[0]);
      RunInv(Step(s, acts[0]).value, acts[1..]);
    }
  }

  ghost predicate Reachable(s: State) {
    exists n: nat, acts :: Run(Init(n), acts) == Some(s)
  }

  lemma ReachableInv(s: State)
    requires Reachable(s)
    ensures Inv(s)
  {
    var n: nat, acts :| Run(Init(n), acts) == Some(s);
    InitInv(n);
    RunInv(Init(n), acts);
  }

  // ---- What every run keeps ----

  /** A worker leaves only with its own stop requested; and it leaves an empty queue behind. */
  lemma ExitIsOwnAndEmpty(s: State, w: nat)
    requires Reachable(s) && w < |s.pcs| && |s.stop| == |s.pcs|
    ensures s.pcs[w].Exited? ==> s.stop[w]
    ensures !s.pcs[w].Exited? && Step(s, Enter(w)).Some? && Step(s, Enter(w)).value.pcs[w].Exited?
            ==> s.tasks == [] && s.stop[w]
  {
    ReachableInv(s);
  }

  /** While tasks are queued somebody is left to run them, exactly if the pool was made with a worker. */
  lemma NonEmptyQueueHasLiveWorker(s: State)
    requires Reachable(s) && s.tasks != []
    ensures SomeoneLives(s) <==> |s.pcs| > 0
  {
    ReachableInv(s);
  }

  /** All tasks submitted, from outside and by running tasks, in order, read off the run. */
  function SubmittedBy(acts: seq<Action>): seq<Task> {
    if acts == [] then []
    else (if acts[0].SubmitOutside? || acts[0].SubmitInside? then [acts[0].t] else []) + SubmittedBy(acts[1..])
  }

  lemma AcceptedStep(s: State, a: Action)
    requires |s.stop| == |s.pcs| && Step(s, a).Some?
    ensures Step(s, a).value.accepted == if a.SubmitOutside? || a.SubmitInside? then s.accepted + [a.t] else s.accepted
  {
  }

  lemma {:induction false} AcceptedIsSubmitted(s: State, acts: seq<Action>)
    requires |s.stop| == |s.pcs| && Run(s, acts).Some?
    ensures Run(s, acts).value.accepted == s.accepted + SubmittedBy(acts)
    ensures |Run(s, acts).value.pcs| == |s.pcs|
    decreases |acts|
  {
    if acts != [] {
      var a, rest := acts[0], acts[1..];
      AcceptedStep(s, a);
      AcceptedIsSubmitted(Step(s, a).value, rest);
      Associative(s.accepted, if a.SubmitOutside? || a.SubmitInside? then [a.t] else [], SubmittedBy(rest));
    }
  }

  /** Tasks leave the queue in the order in which they were submitted, none skipped, none twice; each popped task is
      finished or in the hands of one worker. */
  lemma FifoOnce(n: nat, acts: seq<Action>)
    requires Run(Init(n), acts).Some?
    ensures var s := Run(Init(n), acts).value;
      && |s.pcs| == n && s.accepted == SubmittedBy(acts) == s.popped + s.tasks + s.freed
      && ExactlyOnce(s.pcs, InHand, |s.popped|, s.finished)
  {
    InitInv(n);
    RunInv(Init(n), acts);
    AcceptedIsSubmitted(Init(n), acts);
  }

  /** Destruction drains: once every worker has been joined, every task that was ever submitted ran to completion
      exactly once, in the order of the submissions, including tasks submitted by other tasks during the shutdown;
      a pool without workers is the exception. */
  lemma AllJoinedMeansAllRan(n: nat, acts: seq<Action>)
    requires Run(Init(n), acts).Some? && AllExited(Run(Init(n), acts).value)
    ensures var s := Run(Init(n), acts).value;
      && (s.popped == SubmittedBy(acts) <==> n > 0 || SubmittedBy(acts) == [])
      && (forall k :: 0 <= k < |s.popped| ==> k in s.finished)
      && (forall i, j :: 0 <= i < j < |s.finished| ==> s.finished[i] != s.finished[j])
  {
    FifoOnce(n, acts);
    InitInv(n);
    RunInv(Init(n), acts);
  }

  /** No wake-up is lost: if anyone sleeps, every queued task is matched by a notification still to
      come or by a worker that has been woken and is about to test the queue. */
  lemma NoLostWakeUp(s: State)
    requires Reachable(s) && SomeoneSleeps(s)
    ensures |s.tasks| <= Pending(s) + Count(s.pcs, IsWoken)
  {
    ReachableInv(s);
  }

  /** From `s` to `s'` sleeper `v` has been woken, and nobody else, at the cost of one pending notification. */
  ghost predicate Wakes(s: State, s': State, v: nat) {
    && v < |s.pcs| == |s'.pcs| && s'.pcs[v] == Woken && Pending(s') == Pending(s) - 1
    && forall u :: 0 <= u < |s.pcs| && u != v ==> s'.pcs[u].Sleeping? == s.pcs[u].Sleeping? && s'.pcs[u].Woken? == s.pcs[u].Woken?
  }

  lemma NotifiedWakes(s: State, from: Option<nat>, s1: State, v: nat)
    requires Inv(s) && Notified(s, from) == Some(s1) && v < |s.pcs| && s.pcs[v].Sleeping?
    ensures Wakes(s, s1.(pcs := s1.pcs[v := Woken]), v)
  {
    NotifiedKeeps(s, from, s1);
    CountUpdate(s1.pcs, v, Woken, Owes);
  }

  /** A notification costs one that was pending and wakes exactly one sleeper, or nobody if nobody sleeps; any sleeper
      can also wake by itself. */
  lemma NotificationWakesOne(s: State, from: Option<nat>, v: nat)
    requires Reachable(s) && |s.stop| == |s.pcs| && v < |s.pcs| && s.pcs[v].Sleeping?
    ensures Step(s, NotifyNobody(from)).None? && Step(s, Spurious(v)) == Some(s.(pcs := s.pcs[v := Woken]))
    ensures Notified(s, from).Some? <==> Step(s, NotifyOne(from, v)).Some?
    ensures Notified(s, from).Some? ==> Wakes(s, Step(s, NotifyOne(from, v)).value, v)
  {
    ReachableInv(s);
    if Notified(s, from).Some? {
      NotifiedWakes(s, from, Notified(s, from).value, v);
    }
  }

  /** So a queued task can be brought forward, exactly if the pool has a worker: some worker can enter its
      critical section, or is running a task, or sleeps with a notification pending. */
  lemma QueuedTaskCanMove(s: State)
    requires Reachable(s) && s.tasks != []
    ensures (exists w :: 0 <= w < |s.pcs| && (IsAwake(s.pcs[w]) || s.pcs[w].Running? || (s.pcs[w].Sleeping? && Pending(s) > 0)))
            <==> |s.pcs| > 0
  {
    ReachableInv(s);
    CountPositive(s.pcs, IsWoken);
    if |s.pcs| > 0 {
      var v :| 0 <= v < |s.pcs| && !s.pcs[v].Exited?;
      if s.pcs[v].Sleeping? {
        assert SomeoneSleeps(s);
      }
    }
  }

  /** A join never waits for a sleeper: the worker whose stop was requested can move until it exits.
      At most one worker at a time is being waited for. */
  lemma JoinedWorkerCanMove(s: State, w: nat)
    requires Reachable(s) && |s.stop| == |s.pcs| && w < |s.pcs| && s.stop[w] && !s.pcs[w].Exited?
    ensures Step(s, Enter(w)).Some? || Step(s, Finish(w)).Some? || Notified(s, Some(w)).Some?
    ensures forall v :: 0 <= v < |s.pcs| && v != w && s.stop[v] ==> s.pcs[v].Exited?
  {
    ReachableInv(s);
  }

  /** A pool of no workers keeps its tasks for ever, so the guarantees need a worker. */
  lemma NoWorkersNeverRun(t: Task)
    ensures exists s :: Reachable(s) && |s.pcs| == 0 && s.destroying && s.tasks == s.accepted == [t]
  {
    var acts := [SubmitOutside(t), BeginDestroy];
    var s1 := Submitted(Init(0), t).(outside := 1);
    var s := s1.(destroying := true);
    assert Step(Init(0), acts[0]) == Some(s1);
    assert Run(s, []) == Some(s);
    assert Run(s1, [BeginDestroy]) == Some(s);
    assert acts[1..] == [BeginDestroy];
    assert Run(Init(0), acts) == Some(s);
  }

  // ---- The pool object ----

  class ThreadPool {
    var pcs: seq<Pc>
    var stop: seq<bool>
    var tasks: seq<Task>
    var outside: nat
    var destroying: bool
    var dead: bool
    var pops: nat
    ghost var misused: bool
    ghost var freed: seq<Task>
    ghost var accepted: seq<Task>
    ghost var popped: seq<Task>
    ghost var finished: seq<nat>

    ghost predicate Valid()
      reads this
    {
      Inv(View()) && pops == |popped|
    }

    ghost function View(): State
      reads this
    {
      State(pcs, stop, tasks, outside, destroying, dead, misused, freed, accepted, popped, finished)
    }

    constructor (numThreads: nat)
      ensures Valid() && View() == Init(numThreads)
    {
      pcs, stop := seq(numThreads, i => Ready), seq(numThreads, i => false);
      tasks, outside, destroying, dead, pops := [], 0, false, false, 0;
      misused, freed, accepted, popped, finished := false, [], [], [], [];
      new;
      InitInv(numThreads);
    }

    /** `_tasks.emplace(f)`. */
    method Emplace(t: Task)
      modifies `tasks, `accepted
      ensures View() == Submitted(old(View()), t)
      ensures tasks == old(tasks) + [t] && accepted == old(accepted) + [t]
    {
      tasks := tasks + [t];
      accepted := accepted + [t];
    }

    /** The submitter owes a notification. */
    method Owe(from: Option<nat>)
      requires from.Some? ==> from.value < |pcs| && pcs[from.value].Running?
      modifies `outside, `pcs
      ensures View() == old(View()).(outside := if from.None? then old(outside) + 1 else old(outside),
                pcs := if from.None? then old(pcs) else old(pcs)[from.value := old(pcs)[from.value].(owes := true)])
    {
      match from
      case None => outside := outside + 1;
      case Some(w) => pcs := pcs[w := pcs[w].(owes := true)];
    }

    /** The locked part of `submit`, called from outside (`from` is None) or by the task that worker
        `from` is running; the caller must not submit from outside once destruction has begun. */
    method Submit(t: Task, from: Option<nat>)
      requires Valid()
      requires match from case None => !destroying case Some(w) => w < |pcs| && pcs[w].Running? && !pcs[w].owes
      modifies this
      ensures Valid()
      ensures Some(View()) == Step(old(View()), match from case None => SubmitOutside(t) case Some(w) => SubmitInside(w, t))
      ensures accepted == old(accepted) + [t]
    {
      ghost var before, a := View(), if from.None? then SubmitOutside(t) else SubmitInside(from.value, t);
      StepInv(before, a);
      Emplace(t);
      Owe(from);
      assert View() == Step(before, a).value;
    }

    /** `_cv.notify_one()` for a submission; the scheduler picks the sleeper. */
    method NotifyOne(from: Option<nat>, sleeper: Option<nat>)
      requires Valid() && match from case None => outside > 0 case Some(w) => w < |pcs| && Owes(pcs[w])
      requires match sleeper
               case Some(v) => v < |pcs| && pcs[v].Sleeping?
               case None => forall v :: 0 <= v < |pcs| ==> !pcs[v].Sleeping?
      modifies this
      ensures Valid()
      ensures Some(View()) == Step(old(View()), match sleeper case Some(v) => Action.NotifyOne(from, v) case None => NotifyNobody(from))
    {
      ghost var before, a := View(), if sleeper.Some? then Action.NotifyOne(from, sleeper.value) else NotifyNobody(from);
      StepInv(before, a);
      misused := misused || dead;
      match from {
        case None => outside := outside - 1;
        case Some(w) => pcs := pcs[w := pcs[w].(owes := false)];
      }
      if sleeper.Some? {
        pcs := pcs[sleeper.value := Woken];
      }
      assert View() == Step(before, a).value;
    }

    /** The worker's locked section, from the lock to the end of the wait and the pop. */
    method WorkerSection(w: nat) returns (task: Option<Task>)
      requires Valid() && w < |pcs| && IsAwake(pcs[w])
      modifies this
      ensures Valid() && Step(old(View()), Enter(w)) == Some(View())
      ensures task == if old(tasks) == [] then None else Some(old(tasks)[0])
      ensures task.Some? ==> pcs[w].Running? && pcs[w].task < |popped| && popped[pcs[w].task] == task.value
    {
      ghost var before := View();
      StepInv(before, Enter(w));
      var ready := tasks != [];  // the predicate passed to wait
      task := None;
      if !stop[w] && !ready {
        pcs := pcs[w := Sleeping];
      } else if !ready {         // wait returned false
        pcs := pcs[w := Exited];
      } else {
        var front := tasks[0];
        tasks := tasks[1..];
        popped := popped + [front];
        task := Some(front);
        pcs := pcs[w := Running(pops, false)];
        pops := pops + 1;
      }
      assert View() == Step(before, Enter(w)).value;
    }

    method TaskDone(w: nat)
      requires Valid() && w < |pcs| && pcs[w].Running? && !pcs[w].owes
      modifies this
      ensures Valid() && Step(old(View()), Finish(w)) == Some(View())
    {
      StepInv(View(), Finish(w));
      finished := finished + [pcs[w].task];
      pcs := pcs[w := Ready];
    }

    /** The destructor begins. */
    method BeginDestruction()
      requires Valid() && !destroying
      modifies this
      ensures Valid() && Step(old(View()), BeginDestroy) == Some(View())
    {
      StepInv(View(), BeginDestroy);
      destroying := true;
    }

    /** `request_stop` in the destructor of worker `w`'s jthread, all earlier ones being joined. */
    method RequestStop(w: nat)
      requires Valid() && destroying && w < |pcs| && !stop[w]
      requires forall v :: 0 <= v < |pcs| && stop[v] ==> pcs[v].Exited?
      modifies this
      ensures Valid() && Step(old(View()), Action.RequestStop(w)) == Some(View())
    {
      StepInv(View(), Action.RequestStop(w));
      stop := stop[w := true];
      if pcs[w].Sleeping? {
        pcs := WakeAll(pcs);  // the stop callback notifies every sleeper
      }
    }

    /** The rest of the destructor, after the last join: the other members go, the queue with what it holds. */
    method DestroyQueue()
      requires Valid() && destroying && !dead && forall w :: 0 <= w < |pcs| ==> pcs[w].Exited?
      modifies this
      ensures Valid() && Step(old(View()), DestroyMembers) == Some(View())
    {
      StepInv(View(), DestroyMembers);
      freed, tasks := tasks, [];
      dead := true;
    }
  }
}
