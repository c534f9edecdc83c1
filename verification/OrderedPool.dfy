/** The two ordered pools. In both, `submit` makes a packaged task, first queues its future (or the
    handler that waits for it) and then hands the task to a work pool; a reader pulls the queue in
    order and waits for the future it pulled. In ThreadPoolOrderedFuture the readers are the callers
    of `get` and the queue may be bounded; in ThreadPoolOrdered the only reader is the single thread
    of the handler pool, and its return from the wait is the moment it runs the handler. Workers take
    tasks in any order and run at any speed. */
module OrderedPool {
  import opened Common

  /** What a task's future will deliver: a value or an exception. */
  type Outcome = int

  datatype Submitter = SIdle | Created(id: nat) | Queued(id: nat)   // Queued: before m_pool.submit
  datatype Worker = WIdle | Executing(id: nat)
  datatype Reader = RIdle | Waiting(k: nat, id: nat)                // pulled k-th, a future of task id

  function Pulled(r: Reader): Option<nat> { if r.Waiting? then Some(r.k) else None }

  /** Where a task is. */
  datatype Place = WithSubmitter(i: nat) | InPool | WithWorker(w: nat) | Done

  datatype State = State(
    bound: Option<nat>,        // capacity of the ordered queue, if any
    jobs: seq<Outcome>,        // what task id will deliver
    submitters: seq<Submitter>, workers: seq<Worker>, readers: seq<Reader>,
    queue: seq<nat>,           // m_queue of futures, or the handler pool's queue
    pool: seq<nat>,            // tasks handed to m_pool and not yet taken
    ready: seq<Option<Outcome>>,  // shared state of the futures
    place: seq<Place>,         // history: where each task is
    pushed: seq<nat>,          // history: futures in the order they were queued
    started: seq<nat>,         // history: tasks in the order they were taken
    pulls: nat,
    returned: seq<nat>,        // history: pull numbers in the order the readers returned
    outcomes: seq<Outcome>)    // history: what they returned

  function Init(bound: Option<nat>, submitters: nat, workers: nat, readers: nat): State {
    State(bound, [], seq(submitters, i => SIdle), seq(workers, i => WIdle), seq(readers, i => RIdle),
          [], [], [], [], [], [], 0, [], [])
  }

  datatype Action =
    | Create(i: nat, outcome: Outcome) | PushFuture(i: nat) | SubmitTask(i: nat)
    | Take(w: nat, pos: nat) | Complete(w: nat)
    | Pull(r: nat) | Return(r: nat)

  ghost predicate Shaped(s: State) {
    |s.ready| == |s.jobs| == |s.place|
  }

  function Step(s: State, a: Action): Option<State>
    requires Shaped(s)
  {
    match a
    case Create(i, o) =>
      if i >= |s.submitters| || !s.submitters[i].SIdle? then None
      else Some(s.(submitters := s.submitters[i := Created(|s.jobs|)], jobs := s.jobs + [o],
                   ready := s.ready + [None], place := s.place + [WithSubmitter(i)]))
    case PushFuture(i) =>
      if i >= |s.submitters| || !s.submitters[i].Created? || (s.bound.Some? && |s.queue| >= s.bound.value) then None
      else var id := s.submitters[i].id;
        Some(s.(submitters := s.submitters[i := Queued(id)], queue := s.queue + [id], pushed := s.pushed + [id]))
    case SubmitTask(i) =>
      if i >= |s.submitters| || !s.submitters[i].Queued? || s.submitters[i].id >= |s.place| then None
      else var id := s.submitters[i].id;
        Some(s.(submitters := s.submitters[i := SIdle], pool := s.pool + [id], place := s.place[id := InPool]))
    case Take(w, pos) =>
      if w >= |s.workers| || !s.workers[w].WIdle? || pos >= |s.pool| || s.pool[pos] >= |s.place| then None
      else var id := s.pool[pos];
        Some(s.(workers := s.workers[w := Executing(id)], pool := s.pool[..pos] + s.pool[pos + 1..],
                place := s.place[id := WithWorker(w)], started := s.started + [id]))
    case Complete(w) =>
      if w >= |s.workers| || !s.workers[w].Executing? || s.workers[w].id >= |s.jobs| then None
      else var id := s.workers[w].id;
        Some(s.(workers := s.workers[w := WIdle], ready := s.ready[id := Some(s.jobs[id])], place := s.place[id := Done]))
    case Pull(r) =>
      if r >= |s.readers| || !s.readers[r].RIdle? || s.queue == [] then None
      else Some(s.(readers := s.readers[r := Waiting(s.pulls, s.queue[0])], queue := s.queue[1..], pulls := s.pulls + 1))
    case Return(r) =>
      if r >= |s.readers| || !s.readers[r].Waiting? || s.readers[r].id >= |s.ready| || s.ready[s.readers[r].id].None? then None
      else Some(s.(readers := s.readers[r := RIdle], returned := s.returned + [s.readers[r].k],
                   outcomes := s.outcomes + [s.ready[s.readers[r].id].value]))
  }

  /** Every task is in exactly the place recorded for it. */
  ghost predicate PlacesInv(s: State) {
    && Shaped(s)
    && (forall i :: 0 <= i < |s.submitters| && !s.submitters[i].SIdle? ==> s.submitters[i].id < |s.jobs| && s.place[s.submitters[i].id] == WithSubmitter(i))
    && (forall w :: 0 <= w < |s.workers| && s.workers[w].Executing? ==> s.workers[w].id < |s.jobs| && s.place[s.workers[w].id] == WithWorker(w))
    && (forall p :: 0 <= p < |s.pool| ==> s.pool[p] < |s.jobs| && s.place[s.pool[p]] == InPool)
    && (forall p, q :: 0 <= p < q < |s.pool| ==> s.pool[p] != s.pool[q])
    && (forall id :: 0 <= id < |s.jobs| ==> AtPlace(s, id))
  }

  ghost predicate AtPlace(s: State, id: nat)
    requires Shaped(s) && id < |s.jobs|
  {
    match s.place[id]
    case WithSubmitter(i) => i < |s.submitters| && !s.submitters[i].SIdle? && s.submitters[i].id == id && s.ready[id] == None
    case InPool => id in s.pool && s.ready[id] == None
    case WithWorker(w) => w < |s.workers| && s.workers[w] == Executing(id) && s.ready[id] == None
    case Done => s.ready[id] == Some(s.jobs[id])
  }

  /** A future is queued once, before its task can be taken; a task is taken once. */
  ghost predicate LogsInv(s: State)
    requires PlacesInv(s)
  {
    && (forall j, k :: 0 <= j < k < |s.pushed| ==> s.pushed[j] != s.pushed[k])
    && (forall id :: id in s.pushed ==> id < |s.jobs|)
    && (forall id :: 0 <= id < |s.jobs| ==> id in s.pushed || Unqueued(s, id))
    && (forall i :: 0 <= i < |s.submitters| && s.submitters[i].Created? ==> s.submitters[i].id !in s.pushed)
    && (forall j, k :: 0 <= j < k < |s.started| ==> s.started[j] != s.started[k])
    && (forall id :: id in s.started ==> id < |s.jobs| && (s.place[id].WithWorker? || s.place[id].Done?))
    && (forall id :: 0 <= id < |s.jobs| && (s.place[id].WithWorker? || s.place[id].Done?) ==> id in s.started)
  }

  ghost predicate Unqueued(s: State, id: nat)
    requires Shaped(s) && id < |s.jobs|
  {
    s.place[id].WithSubmitter? && s.place[id].i < |s.submitters| && s.submitters[s.place[id].i] == Created(id)
  }

  ghost predicate ReadersInv(s: State)
    requires Shaped(s)
  {
    && s.pulls <= |s.pushed| && s.queue == s.pushed[s.pulls..]
    && (s.bound.Some? ==> |s.queue| <= s.bound.value)
    && ExactlyOnce(s.readers, Pulled, s.pulls, s.returned)
    && (forall r :: 0 <= r < |s.readers| && s.readers[r].Waiting? ==> s.readers[r].k < s.pulls && s.readers[r].id == s.pushed[s.readers[r].k])
    && |s.outcomes| == |s.returned|
    && (forall j :: 0 <= j < |s.returned| ==> s.returned[j] < s.pulls && ReturnedRight(s, j))
    && (|s.readers| == 1 ==> OneReaderInOrder(s.readers[0], s.pulls, s.returned))
  }

  /** A single reader returns from its pulls in pull order. */
  ghost predicate OneReaderInOrder(r: Reader, pulls: nat, returned: seq<nat>) {
    && |returned| + (if r.Waiting? then 1 else 0) == pulls
    && (r.Waiting? ==> r.k == |returned|)
    && (forall j :: 0 <= j < |returned| ==> returned[j] == j)
  }

  ghost predicate ReturnedRight(s: State, j: nat)
    requires Shaped(s) && j < |s.returned| == |s.outcomes|
  {
    && s.returned[j] < |s.pushed| && s.pushed[s.returned[j]] < |s.jobs|
    && s.outcomes[j] == s.jobs[s.pushed[s.returned[j]]]
    && s.place[s.pushed[s.returned[j]]].Done?
  }

  ghost predicate Inv(s: State) {
    PlacesInv(s) && LogsInv(s) && ReadersInv(s)
  }

  lemma InitInv(bound: Option<nat>, submitters: nat, workers: nat, readers: nat)
    ensures Inv(Init(bound, submitters, workers, readers))
  {
  }

  /** The readers are unaffected by steps that keep the queue, their own state and every result. */
  lemma ReadersKept(s: State, s': State)
    requires Shaped(s) && ReadersInv(s) && Shaped(s') && s.jobs <= s'.jobs
    requires s'.queue == s.queue && s'.pushed == s.pushed && s'.pulls == s.pulls && s'.bound == s.bound
    requires s'.readers == s.readers && s'.returned == s.returned && s'.outcomes == s.outcomes
    requires forall id :: 0 <= id < |s.jobs| && s.place[id].Done? ==> s'.place[id].Done?
    ensures ReadersInv(s')
  {
    forall j | 0 <= j < |s'.returned|
      ensures ReturnedRight(s', j)
    {
      assert ReturnedRight(s, j);
    }
  }

  lemma CreateInv(s: State, i: nat, o: Outcome, s': State)
    requires Inv(s) && Step(s, Create(i, o)) == Some(s')
    ensures Inv(s')
  {
    forall id | 0 <= id < |s'.jobs|
      ensures AtPlace(s', id) && (id in s'.pushed || Unqueued(s', id))
    {
      assert id < |s.jobs| ==> AtPlace(s, id) && (id in s.pushed || Unqueued(s, id));
    }
    ReadersKept(s, s');
  }

  lemma PushFutureInv(s: State, i: nat, s': State)
    requires Inv(s) && Step(s, PushFuture(i)) == Some(s')
    ensures Inv(s')
  {
    forall id | 0 <= id < |s'.jobs|
      ensures AtPlace(s', id) && (id in s'.pushed || Unqueued(s', id))
    {
      assert AtPlace(s, id) && (id in s.pushed || Unqueued(s, id));
      assert s'.pushed[|s.pushed|] == s.submitters[i].id;
    }
    assert s'.queue == s'.pushed[s'.pulls..];
    forall j | 0 <= j < |s'.returned|
      ensures ReturnedRight(s', j)
    {
      assert ReturnedRight(s, j);
    }
  }

  lemma SubmitTaskPlaces(s: State, i: nat, s': State)
    requires Inv(s) && Step(s, SubmitTask(i)) == Some(s')
    ensures PlacesInv(s')
  {
    assert AtPlace(s, s.submitters[i].id);
    assert s'.pool[|s.pool|] == s.submitters[i].id;
    forall id | 0 <= id < |s'.jobs|
      ensures AtPlace(s', id)
    {
      assert AtPlace(s, id);
      assert id in s.pool ==> id in s'.pool;
    }
  }

  lemma SubmitTaskInv(s: State, i: nat, s': State)
    requires Inv(s) && Step(s, SubmitTask(i)) == Some(s')
    ensures Inv(s')
  {
    SubmitTaskPlaces(s, i, s');
    var id0 := s.submitters[i].id;
    assert id0 in s.pushed || Unqueued(s, id0);
    forall id | 0 <= id < |s'.jobs|
      ensures id in s'.pushed || Unqueued(s', id)
    {
      assert id in s.pushed || Unqueued(s, id);
    }
    ReadersKept(s, s');
  }

  lemma PoolWithout(pool: seq<nat>, pos: nat)
    requires pos < |pool|
    ensures var rest := pool[..pos] + pool[pos + 1..];
      (forall p :: 0 <= p < |rest| ==> rest[p] == pool[if p < pos then p else p + 1])
      && (forall id :: id in pool && id != pool[pos] ==> id in rest)
  {
    var rest := pool[..pos] + pool[pos + 1..];
    forall id | id in pool && id != pool[pos]
      ensures id in rest
    {
      var p :| 0 <= p < |pool| && pool[p] == id;
      assert rest[if p < pos then p else p - 1] == id;
    }
  }

  lemma TakePlaces(s: State, w: nat, pos: nat, s': State)
    requires Inv(s) && Step(s, Take(w, pos)) == Some(s')
    ensures PlacesInv(s')
  {
    var id0 := s.pool[pos];
    assert AtPlace(s, id0);
    PoolWithout(s.pool, pos);
    forall id | 0 <= id < |s'.jobs|
      ensures AtPlace(s', id)
    {
      assert AtPlace(s, id);
    }
  }

  lemma TakeInv(s: State, w: nat, pos: nat, s': State)
    requires Inv(s) && Step(s, Take(w, pos)) == Some(s')
    ensures Inv(s')
  {
    TakePlaces(s, w, pos, s');
    var id0 := s.pool[pos];
    assert s.place[id0] == InPool && s'.started[|s.started|] == id0;
    forall id | 0 <= id < |s'.jobs|
      ensures id in s'.pushed || Unqueued(s', id)
    {
      assert id in s.pushed || Unqueued(s, id);
    }
    forall id | 0 <= id < |s'.jobs| && (s'.place[id].WithWorker? || s'.place[id].Done?)
      ensures id in s'.started
    {
      assert id != id0 ==> id in s.started;
    }
    ReadersKept(s, s');
  }

  lemma CompleteInv(s: State, w: nat, s': State)
    requires Inv(s) && Step(s, Complete(w)) == Some(s')
    ensures Inv(s')
  {
    assert AtPlace(s, s.workers[w].id);
    forall id | 0 <= id < |s'.jobs|
      ensures AtPlace(s', id) && (id in s'.pushed || Unqueued(s', id))
    {
      assert AtPlace(s, id) && (id in s.pushed || Unqueued(s, id));
    }
    ReadersKept(s, s');
  }

  /** Steps of the readers keep the tasks where they are. */
  lemma PlacesKept(s: State, s': State)
    requires Inv(s) && s' == s.(readers := s'.readers, queue := s'.queue, pulls := s'.pulls, returned := s'.returned, outcomes := s'.outcomes)
    ensures PlacesInv(s') && LogsInv(s')
  {
    forall id | 0 <= id < |s'.jobs|
      ensures AtPlace(s', id) && (id in s'.pushed || Unqueued(s', id))
    {
      assert AtPlace(s, id) && (id in s.pushed || Unqueued(s, id));
    }
  }

  lemma PullInv(s: State, r: nat, s': State)
    requires Inv(s) && Step(s, Pull(r)) == Some(s')
    ensures Inv(s')
  {
    PlacesKept(s, s');
    ExactlyOnceTake(s.readers, r, s'.readers[r], Pulled, s.pulls, s.returned);
    forall j | 0 <= j < |s'.returned|
      ensures ReturnedRight(s', j)
    {
      assert ReturnedRight(s, j);
    }
  }

  lemma ReturnInv(s: State, r: nat, s': State)
    requires Inv(s) && Step(s, Return(r)) == Some(s')
    ensures Inv(s')
  {
    PlacesKept(s, s');
    ExactlyOnceFinish(s.readers, r, RIdle, Pulled, s.pulls, s.returned);
    assert AtPlace(s, s.readers[r].id);
    forall j | 0 <= j < |s'.returned|
      ensures ReturnedRight(s', j)
    {
      assert j < |s.returned| ==> ReturnedRight(s, j);
    }
  }

  lemma StepInv(s: State, a: Action)
    requires Inv(s) && Step(s, a).Some?
    ensures Inv(Step(s, a).value)
  {
    var s' := Step(s, a).value;
    match a
    case Create(i, o) => CreateInv(s, i, o, s');
    case PushFuture(i) => PushFutureInv(s, i, s');
    case SubmitTask(i) => SubmitTaskInv(s, i, s');
    case Take(w, pos) => TakeInv(s, w, pos, s');
    case Complete(w) => CompleteInv(s, w, s');
    case Pull(r) => PullInv(s, r, s');
    case Return(r) => ReturnInv(s, r, s');
  }

  function Run(s: State, acts: seq<Action>): Option<State>
    requires Shaped(s)
    decreases |acts|
  {
    if acts == [] then Some(s)
    else match Step(s, acts[0]) case None => None case Some(s') => Run(s', acts[1..])
  }

  lemma {:induction false} RunInv(s: State, acts: seq<Action>)
    requires Inv(s) && Run(s, acts).Some?
    ensures Inv(Run(s, acts).value)
    decreases |acts|
  {
    if acts != [] {
      StepInv(s, acts[0]);
      RunInv(Step(s, acts[0]).value, acts[1..]);
    }
  }

  ghost predicate Reachable(s: State) {
    exists b, i: nat, w: nat, r: nat, acts :: Run(Init(b, i, w, r), acts) == Some(s)
  }

  lemma ReachableInv(s: State)
    requires Reachable(s)
    ensures Inv(s)
  {
    var b, i: nat, w: nat, r: nat, acts :| Run(Init(b, i, w, r), acts) == Some(s);
    InitInv(b, i, w, r);
    RunInv(Init(b, i, w, r), acts);
  }

  // ---- What every run keeps ----

  /** What the callers may expect, read off their calls alone: which outcomes were submitted, in which order their
      futures were queued, and which of them each pull stands for. It knows neither tasks nor workers. */
  datatype Ledger = Ledger(
    created: seq<Outcome>,       // what the submitted tasks deliver, in the order they were made
    latest: map<nat, Outcome>,   // what the task that each submitter made last delivers
    queued: seq<Outcome>,        // what the tasks deliver whose futures were queued, in that order
    pulls: nat,
    waiting: map<nat, nat>,      // the number of each reader's last pull
    answers: seq<Outcome>)       // what the readers are owed, in the order they return

  const EMPTY_LEDGER := Ledger([], map[], [], 0, map[], [])

  function Note(l: Ledger, a: Action): Ledger {
    match a
    case Create(i, o) => l.(created := l.created + [o], latest := l.latest[i := o])
    case PushFuture(i) => if i in l.latest then l.(queued := l.queued + [l.latest[i]]) else l
    case Pull(r) => l.(waiting := l.waiting[r := l.pulls], pulls := l.pulls + 1)
    case Return(r) =>
      if r in l.waiting && l.waiting[r] < |l.queued| then l.(answers := l.answers + [l.queued[l.waiting[r]]]) else l
    case _ => l
  }

  function NoteAll(l: Ledger, acts: seq<Action>): Ledger
    decreases |acts|
  {
    if acts == [] then l else NoteAll(Note(l, acts[0]), acts[1..])
  }

  /** The machine's bookkeeping is the callers'. */
  ghost predicate Agrees(s: State, l: Ledger) {
    && Inv(s) && s.jobs == l.created && s.pulls == l.pulls && s.outcomes == l.answers
    && (forall i :: 0 <= i < |s.submitters| && s.submitters[i].Created? ==> i in l.latest && l.latest[i] == s.jobs[s.submitters[i].id])
    && |s.pushed| == |l.queued| && (forall k :: 0 <= k < |s.pushed| ==> s.pushed[k] < |s.jobs| && l.queued[k] == s.jobs[s.pushed[k]])
    && (forall r :: 0 <= r < |s.readers| && s.readers[r].Waiting? ==> r in l.waiting && l.waiting[r] == s.readers[r].k)
  }

  lemma ReturnAgrees(s: State, l: Ledger, r: nat)
    requires Agrees(s, l) && Step(s, Return(r)).Some?
    ensures Agrees(Step(s, Return(r)).value, Note(l, Return(r)))
  {
    var s' := Step(s, Return(r)).value;
    StepInv(s, Return(r));
    assert s.readers[r].k < |s.pushed|;
    assert ReturnedRight(s', |s.returned|);
  }

  lemma SubmitAgrees(s: State, l: Ledger, a: Action)
    requires Agrees(s, l) && (a.Create? || a.PushFuture?) && Step(s, a).Some?
    ensures Agrees(Step(s, a).value, Note(l, a))
  {
    StepInv(s, a);
  }

  lemma AgreesStep(s: State, l: Ledger, a: Action)
    requires Agrees(s, l) && Step(s, a).Some?
    ensures Agrees(Step(s, a).value, Note(l, a))
  {
    if a.Return? {
      ReturnAgrees(s, l, a.r);
    } else if a.Create? || a.PushFuture? {
      SubmitAgrees(s, l, a);
    } else {
      StepInv(s, a);
    }
  }

  lemma {:induction false} AgreesRun(s: State, l: Ledger, acts: seq<Action>)
    requires Agrees(s, l) && Run(s, acts).Some?
    ensures Agrees(Run(s, acts).value, NoteAll(l, acts))
    decreases |acts|
  {
    if acts != [] {
      AgreesStep(s, l, acts[0]);
      AgreesRun(Step(s, acts[0]).value, Note(l, acts[0]), acts[1..]);
    }
  }

  /** Whatever the workers' schedule, every reader returns what the callers' own actions say it is owed: the one
      that pulled k-th the outcome that was submitted with the future queued k-th, and only after that task has
      completed; no pull is answered twice. */
  lemma KthGetReturnsKthTask(bound: Option<nat>, submitters: nat, workers: nat, readers: nat, acts: seq<Action>)
    requires Run(Init(bound, submitters, workers, readers), acts).Some?
    ensures var s, l := Run(Init(bound, submitters, workers, readers), acts).value, NoteAll(EMPTY_LEDGER, acts);
      && s.jobs == l.created && s.outcomes == l.answers && |s.returned| == |s.outcomes| && |s.pushed| == |l.queued|
      && (forall j :: 0 <= j < |s.returned| ==> s.returned[j] < |l.queued| && s.outcomes[j] == l.queued[s.returned[j]])
      && (forall i, j :: 0 <= i < j < |s.returned| ==> s.returned[i] != s.returned[j])
      && (forall j :: 0 <= j < |s.returned| ==> IsDone(s, s.pushed[s.returned[j]]))
  {
    var s0 := Init(bound, submitters, workers, readers);
    InitInv(bound, submitters, workers, readers);
    AgreesRun(s0, EMPTY_LEDGER, acts);
    var s := Run(s0, acts).value;
    assert forall j :: 0 <= j < |s.returned| ==> ReturnedRight(s, j);
  }

  predicate IsDone(s: State, id: nat) {
    id < |s.place| && s.place[id].Done?
  }

  /** With one reader, as in the handler pool, handlers run in submission order: the j-th to run is the one whose
      task was queued j-th, with what was submitted. Each runs after its own task has completed. */
  lemma HandlersInSubmissionOrder(bound: Option<nat>, submitters: nat, workers: nat, acts: seq<Action>)
    requires Run(Init(bound, submitters, workers, 1), acts).Some?
    ensures var s, queued := Run(Init(bound, submitters, workers, 1), acts).value, NoteAll(EMPTY_LEDGER, acts).queued;
      && |s.outcomes| <= |queued| == |s.pushed| && s.outcomes == queued[..|s.outcomes|]
      && (forall j :: 0 <= j < |s.outcomes| ==> IsDone(s, s.pushed[j]))
  {
    KthGetReturnsKthTask(bound, submitters, workers, 1, acts);
    var s0 := Init(bound, submitters, workers, 1);
    InitInv(bound, submitters, workers, 1);
    RunInv(s0, acts);
    ReadersStay(s0, acts);
    var s := Run(s0, acts).value;
    forall j | 0 <= j < |s.outcomes|
      ensures s.returned[j] == j && IsDone(s, s.pushed[j])
    {
      assert IsDone(s, s.pushed[s.returned[j]]);
    }
  }

  lemma {:induction false} ReadersStay(s: State, acts: seq<Action>)
    requires Shaped(s) && Run(s, acts).Some?
    ensures |Run(s, acts).value.readers| == |s.readers|
    decreases |acts|
  {
    if acts != [] {
      ReadersStay(Step(s, acts[0]).value, acts[1..]);
    }
  }

  /** The future of a task is queued exactly once, no later than the task is handed to the pool, and is ready
      exactly when the task has completed; the task is started exactly once, by the worker that runs or ran it. The
      queue respects its bound. */
  lemma OncePerTask(s: State)
    requires Reachable(s)
    ensures Shaped(s) && (s.bound.Some? ==> |s.queue| <= s.bound.value)
    ensures forall id: nat :: id < |s.jobs| ==>
      && multiset(s.pushed)[id] == (if s.place[id].WithSubmitter? && IsCreating(s, id) then 0 else 1)
      && multiset(s.started)[id] == (if s.place[id].WithWorker? || s.place[id].Done? then 1 else 0)
      && s.ready[id] == (if s.place[id].Done? then Some(s.jobs[id]) else None)
  {
    ReachableInv(s);
    forall id: nat | id < |s.jobs|
      ensures multiset(s.pushed)[id] == (if s.place[id].WithSubmitter? && IsCreating(s, id) then 0 else 1)
      ensures multiset(s.started)[id] == (if s.place[id].WithWorker? || s.place[id].Done? then 1 else 0)
      ensures s.ready[id] == (if s.place[id].Done? then Some(s.jobs[id]) else None)
    {
      assert AtPlace(s, id) && (id in s.pushed || Unqueued(s, id));
      OnceInDistinct(s.pushed, id);
      OnceInDistinct(s.started, id);
    }
  }

  /** A submitter that has made its task is kept waiting exactly while the bounded queue is full. */
  lemma QueueingBlocksIffFull(s: State, i: nat)
    requires Reachable(s) && Shaped(s) && i < |s.submitters| && s.submitters[i].Created?
    ensures Step(s, PushFuture(i)).None? <==> s.bound == Some(|s.queue|)
  {
    ReachableInv(s);
  }

  /** Some submitter has made the task and not queued its future yet. */
  predicate IsCreating(s: State, id: nat) {
    exists i :: 0 <= i < |s.submitters| && s.submitters[i] == Created(id)
  }

  lemma {:induction false} OnceInDistinct(xs: seq<nat>, x: nat)
    requires forall j, k :: 0 <= j < k < |xs| ==> xs[j] != xs[k]
    ensures multiset(xs)[x] == if x in xs then 1 else 0
  {
    if xs != [] {
      var n := |xs| - 1;
      OnceInDistinct(xs[..n], x);
      assert xs == xs[..n] + [xs[n]];
    }
  }

  /** Worker `w` can take the task at `pos` of the pool or, if it is busy, become free to. */
  ghost predicate CanTake(s: State, w: nat, pos: nat)
    requires Shaped(s) && w < |s.workers| && pos < |s.pool| && s.pool[pos] < |s.place|
  {
    if s.workers[w].WIdle? then
      Step(s, Take(w, pos)).Some? && Step(s, Take(w, pos)).value.place[s.pool[pos]] == WithWorker(w)
    else
      Step(s, Complete(w)).Some? && Step(s, Complete(w)).value.workers[w].WIdle?
  }

  /** A waiting reader is never abandoned: according to where its task is, the reader returns, or the submitter
      that holds the task can hand it to the pool, or the worker that runs it can complete it, or it lies in the
      pool, where every worker can take it or finish what it is running. */
  lemma WaitedTaskCanMove(s: State, r: nat)
    requires Reachable(s) && Shaped(s) && r < |s.readers| && s.readers[r].Waiting?
    ensures var id := s.readers[r].id;
      id < |s.place| &&
      match s.place[id]
      case Done => Step(s, Return(r)).Some?
      case WithSubmitter(i) => Step(s, SubmitTask(i)).Some? && Step(s, SubmitTask(i)).value.place[id] == InPool
      case WithWorker(w) => Step(s, Complete(w)).Some? && Step(s, Complete(w)).value.place[id] == Done
      case InPool => exists pos :: 0 <= pos < |s.pool| && s.pool[pos] == id && forall w :: 0 <= w < |s.workers| ==> CanTake(s, w, pos)
  {
    ReachableInv(s);
    var id := s.readers[r].id;
    assert id in s.pushed;
    assert AtPlace(s, id);
    if s.place[id].InPool? {
      var pos: nat :| pos < |s.pool| && s.pool[pos] == id;
      assert forall w :: 0 <= w < |s.workers| ==> CanTake(s, w, pos);
    }
  }

  // ---- The pool object ----

  class Pool {
    const bound: Option<nat>
    var jobs: seq<Outcome>
    var submitters: seq<Submitter>
    var workers: seq<Worker>
    var readers: seq<Reader>
    var queue: seq<nat>
    var pool: seq<nat>
    var ready: seq<Option<Outcome>>
    var pulls: nat
    ghost var place: seq<Place>
    ghost var pushed: seq<nat>
    ghost var started: seq<nat>
    ghost var returned: seq<nat>
    ghost var outcomes: seq<Outcome>

    ghost function View(): State
      reads this
    {
      State(bound, jobs, submitters, workers, readers, queue, pool, ready, place, pushed, started, pulls, returned, outcomes)
    }

    ghost predicate Valid()
      reads this
    {
      Inv(View())
    }

    constructor (bound: Option<nat>, submitters: nat, workers: nat, readers: nat)
      ensures Valid() && View() == Init(bound, submitters, workers, readers)
    {
      this.bound := bound;
      this.submitters := seq(submitters, i => SIdle);
      this.workers := seq(workers, i => WIdle);
      this.readers := seq(readers, i => RIdle);
      jobs, queue, pool, ready, pulls := [], [], [], [], 0;
      place, pushed, started, returned, outcomes := [], [], [], [], [];
    }

    /** submit: make the packaged task and its future. */
    method MakeTask(i: nat, outcome: Outcome)
      requires Valid() && i < |submitters| && submitters[i].SIdle?
      modifies this
      ensures Valid() && Step(old(View()), Create(i, outcome)) == Some(View())
      ensures jobs == old(jobs) + [outcome] && submitters[i] == Created(|old(jobs)|)
    {
      StepInv(View(), Create(i, outcome));
      submitters := submitters[i := Created(|jobs|)];
      jobs, ready, place := jobs + [outcome], ready + [None], place + [WithSubmitter(i)];
    }

    /** submit: queue the future (or the handler); `done` is false while a bounded queue is full. */
    method QueueFuture(i: nat) returns (done: bool)
      requires Valid() && i < |submitters| && submitters[i].Created?
      modifies this
      ensures Valid() && Step(old(View()), PushFuture(i)) == if done then Some(View()) else None
      ensures !done ==> View() == old(View())
      ensures !done <==> bound == Some(|old(queue)|)
    {
      done := bound.None? || |queue| < bound.value;
      if done {
        StepInv(View(), PushFuture(i));
        var id := submitters[i].id;
        submitters := submitters[i := Queued(id)];
        queue, pushed := queue + [id], pushed + [id];
      }
    }

    /** submit: hand the task to the work pool. */
    method HandToPool(i: nat)
      requires Valid() && i < |submitters| && submitters[i].Queued?
      modifies this
      ensures Valid() && Step(old(View()), SubmitTask(i)) == Some(View())
    {
      StepInv(View(), SubmitTask(i));
      var id := submitters[i].id;
      submitters := submitters[i := SIdle];
      pool, place := pool + [id], place[id := InPool];
    }

    method WorkerTakes(w: nat, pos: nat)
      requires Valid() && w < |workers| && workers[w].WIdle? && pos < |pool|
      modifies this
      ensures Valid() && Step(old(View()), Take(w, pos)) == Some(View())
    {
      StepInv(View(), Take(w, pos));
      var id := pool[pos];
      workers := workers[w := Executing(id)];
      pool, place, started := pool[..pos] + pool[pos + 1..], place[id := WithWorker(w)], started + [id];
    }

    method WorkerCompletes(w: nat)
      requires Valid() && w < |workers| && workers[w].Executing?
      modifies this
      ensures Valid() && Step(old(View()), Complete(w)) == Some(View())
    {
      StepInv(View(), Complete(w));
      var id := workers[w].id;
      workers := workers[w := WIdle];
      ready, place := ready[id := Some(jobs[id])], place[id := Done];
    }

    /** get, or the handler thread: `m_queue.pull()`; blocks on an empty queue. */
    method PullFuture(r: nat) returns (done: bool)
      requires Valid() && r < |readers| && readers[r].RIdle?
      modifies this
      ensures Valid() && Step(old(View()), Pull(r)) == if done then Some(View()) else None
      ensures !done ==> View() == old(View())
    {
      done := queue != [];
      if done {
        StepInv(View(), Pull(r));
        readers := readers[r := Waiting(pulls, queue[0])];
        queue, pulls := queue[1..], pulls + 1;
      }
    }

    /** get, or the handler thread: wait for the pulled future; None while it is not ready. */
    method WaitFuture(r: nat) returns (outcome: Option<Outcome>)
      requires Valid() && r < |readers| && readers[r].Waiting?
      modifies this
      ensures Valid() && Step(old(View()), Return(r)) == if outcome.Some? then Some(View()) else None
      ensures outcome.Some? ==> outcomes == old(outcomes) + [outcome.value]
      ensures outcome.None? ==> View() == old(View())
    {
      assert readers[r].id == pushed[readers[r].k];
      assert readers[r].id in pushed;
      outcome := ready[readers[r].id];
      if outcome.Some? {
        StepInv(View(), Return(r));
        returned, outcomes := returned + [readers[r].k], outcomes + [outcome.value];
        readers := readers[r := RIdle];
      }
    }
  }
}
