/** The push-only lock-free stack: a node is linked in with a weak compare-exchange loop. Nodes are
    never freed, so an address (an index into `heap`) is never reused. Each atomic operation is a
    sequentially consistent step, any number of threads push, and a compare-exchange may fail
    spuriously. */
module CasStack {
  import opened Common

  datatype Node = Node(data: int, next: Option<nat>)

  datatype Pc =
    | Idle
    | Fresh(node: nat)               // allocated, about to load head
    | Trying(node: nat, seen: nat)   // about to compare-exchange; `seen` successes preceded the last load

  function Owned(p: Pc): Option<nat> {
    if p.Idle? then None else Some(p.node)
  }

  datatype State = State(
    heap: seq<Node>,
    head: Option<nat>,
    threads: seq<Pc>,
    successes: seq<nat>,      // history: the nodes linked in, oldest first
    mine: seq<seq<nat>>,      // history: the nodes each thread allocated, in program order
    values: seq<int>)         // history: the value pushed with each node

  function Init(n: nat): State {
    State([], None, seq(n, i => Idle), [], seq(n, i => []), [])
  }

  datatype Action = New(i: nat, data: int) | Load(i: nat) | Cas(i: nat, spurious: bool)

  function Step(s: State, a: Action): Option<State>
    requires |s.mine| == |s.threads|
  {
    if a.i >= |s.threads| then None
    else match (a, s.threads[a.i])
      case (New(i, d), Idle) =>
        Some(s.(heap := s.heap + [Node(d, None)], threads := s.threads[i := Fresh(|s.heap|)],
                mine := s.mine[i := s.mine[i] + [|s.heap|]], values := s.values + [d]))
      case (Load(i), Fresh(n)) =>
        if n >= |s.heap| then None else Some(Reload(s, i, n))
      case (Cas(i, spurious), Trying(n, _)) =>
        if n >= |s.heap| then None
        else if s.head == s.heap[n].next && !spurious then
          Some(s.(head := Some(n), threads := s.threads[i := Idle], successes := s.successes + [n]))
        else Some(Reload(s, i, n))
      case _ => None
  }

  /** Storing the current head in the node's `next`: the first load, or a failed compare-exchange. */
  function Reload(s: State, i: nat, n: nat): State
    requires i < |s.threads| && n < |s.heap|
  {
    s.(heap := s.heap[n := s.heap[n].(next := s.head)], threads := s.threads[i := Trying(n, |s.successes|)])
  }

  function Run(s: State, acts: seq<Action>): Option<State>
    requires |s.mine| == |s.threads|
    decreases |acts|
  {
    if acts == [] then Some(s)
    else match Step(s, acts[0]) case None => None case Some(s') => Run(s', acts[1..])
  }

  function Reverse(s: seq<nat>): (r: seq<nat>)
    ensures |r| == |s|
    ensures forall k :: 0 <= k < |s| ==> r[k] == s[|s| - 1 - k]
  {
    if s == [] then [] else [s[|s| - 1]] + Reverse(s[..|s| - 1])
  }

  /** Following `next` from `p` meets exactly the nodes `xs`, in order, and then null. */
  ghost predicate ListFrom(heap: seq<Node>, p: Option<nat>, xs: seq<nat>)
    decreases |xs|
  {
    if xs == [] then p == None
    else p == Some(xs[0]) && xs[0] < |heap| && ListFrom(heap, heap[xs[0]].next, xs[1..])
  }

  predicate Distinct(xs: seq<nat>) {
    forall i, j :: 0 <= i < j < |xs| ==> xs[i] != xs[j]
  }

  function Top(successes: seq<nat>): Option<nat> {
    if successes == [] then None else Some(successes[|successes| - 1])
  }

  function LinkedOf(mine: seq<nat>, p: Pc): seq<nat> {
    if p.Idle? || mine == [] then mine else mine[..|mine| - 1]
  }

  /** The elements of `xs` that occur in `own`, in the order of `xs`. */
  function Filter(xs: seq<nat>, own: seq<nat>): seq<nat> {
    if xs == [] then [] else Filter(xs[..|xs| - 1], own) + (if xs[|xs| - 1] in own then [xs[|xs| - 1]] else [])
  }

  ghost predicate Inv(s: State) {
    && |s.mine| == |s.threads|
    && DataInv(s)
    && ListInv(s)
    && ThreadsInv(s)
    && ProgramOrder(s)
  }

  /** Every node still holds the value it was pushed with. */
  ghost predicate DataInv(s: State) {
    |s.values| == |s.heap| && forall n :: 0 <= n < |s.heap| ==> s.heap[n].data == s.values[n]
  }

  /** The list is the successful nodes, newest first, each of them once. */
  ghost predicate ListInv(s: State) {
    && ListFrom(s.heap, s.head, Reverse(s.successes))
    && s.head == Top(s.successes)
    && Distinct(s.successes)
    && (forall n :: n in s.successes ==> n < |s.heap|)
  }

  /** Every node being pushed is one thread's alone and not yet linked; a loaded head is the one after `seen`
      successes. */
  ghost predicate ThreadsInv(s: State) {
    && (forall i :: 0 <= i < |s.threads| && !s.threads[i].Idle? ==> s.threads[i].node < |s.heap| && s.threads[i].node !in s.successes)
    && (forall i, j :: 0 <= i < j < |s.threads| && !s.threads[i].Idle? ==> Owned(s.threads[i]) != Owned(s.threads[j]))
    && (forall i :: 0 <= i < |s.threads| && s.threads[i].Trying? ==>
          s.threads[i].seen <= |s.successes| && s.heap[s.threads[i].node].next == Top(s.successes[..s.threads[i].seen]))
  }

  /** What each thread allocated is what it linked in, in that order, plus the node it is working on. */
  ghost predicate ProgramOrder(s: State)
    requires |s.mine| == |s.threads|
  {
    && Allocations(s)
    && (forall i :: 0 <= i < |s.threads| ==>
          Filter(s.successes, s.mine[i]) == LinkedOf(s.mine[i], s.threads[i]))
    && (forall n :: n in s.successes ==> SomeThreads(s.mine, n))
  }

  predicate SomeThreads(mine: seq<seq<nat>>, n: nat) {
    exists i :: 0 <= i < |mine| && n in mine[i]
  }

  /** Every node is allocated by one thread; the one being pushed is its last. */
  ghost predicate Allocations(s: State)
    requires |s.mine| == |s.threads|
  {
    && (forall i, n :: 0 <= i < |s.mine| && n in s.mine[i] ==> n < |s.heap|)
    && (forall i, j, n :: 0 <= i < j < |s.mine| && n in s.mine[i] ==> n !in s.mine[j])
    && (forall i :: 0 <= i < |s.threads| && !s.threads[i].Idle? ==> s.mine[i] != [] && s.mine[i][|s.mine[i]| - 1] == s.threads[i].node)
  }

  lemma InitInv(n: nat)
    ensures Inv(Init(n))
  {
  }

  lemma ReverseMembers(s: seq<nat>)
    ensures forall m :: m in Reverse(s) ==> m in s
  {
  }

  /** A list is unaffected by changes to nodes outside it. */
  lemma {:induction false} ListFrame(heap: seq<Node>, heap': seq<Node>, p: Option<nat>, xs: seq<nat>)
    requires ListFrom(heap, p, xs) && |heap| <= |heap'|
    requires forall m :: m in xs ==> m < |heap| && heap'[m] == heap[m]
    ensures ListFrom(heap', p, xs)
    decreases |xs|
  {
    if xs != [] {
      assert forall m :: m in xs[1..] ==> m in xs;
      ListFrame(heap, heap', heap[xs[0]].next, xs[1..]);
    }
  }

  /** Filtering ignores an element that is not in the list. */
  lemma {:induction false} FilterIgnores(xs: seq<nat>, own: seq<nat>, n: nat)
    requires n !in xs
    ensures Filter(xs, own + [n]) == Filter(xs, own)
  {
    if xs != [] {
      FilterIgnores(xs[..|xs| - 1], own, n);
    }
  }

  lemma NewAllocation(s: State, i: nat, s': State)
    requires |s.mine| == |s.threads| == |s'.threads| && i < |s.threads| && Allocations(s) && |s'.heap| == |s.heap| + 1
    requires s'.mine == s.mine[i := s.mine[i] + [|s.heap|]] && s'.threads == s.threads[i := Fresh(|s.heap|)]
    ensures Allocations(s')
  {
  }

  lemma NewOrder(s: State, i: nat, d: int, s': State)
    requires Inv(s) && i < |s.threads| && s.threads[i].Idle? && Step(s, New(i, d)) == Some(s')
    ensures ProgramOrder(s')
  {
    var own, node := s.mine[i], |s.heap|;
    assert s'.mine == s.mine[i := own + [node]] && s'.threads == s.threads[i := Fresh(node)];
    NewAllocation(s, i, s');
    forall j | 0 <= j < |s.threads|
      ensures Filter(s'.successes, s'.mine[j]) == LinkedOf(s'.mine[j], s'.threads[j])
    {
      if j == i {
        FilterIgnores(s.successes, own, node);
        assert (own + [node])[..|own|] == own;
      }
    }
    forall n | n in s'.successes
      ensures SomeThreads(s'.mine, n)
    {
      assert SomeThreads(s.mine, n);
      var j :| 0 <= j < |s.mine| && n in s.mine[j];
      assert n in s'.mine[j];
    }
  }

  lemma NewThreads(s: State, i: nat, node: nat, s': State)
    requires ListInv(s) && ThreadsInv(s) && i < |s.threads| && node == |s.heap|
    requires s'.successes == s.successes && |s'.heap| == node + 1 && s'.heap[..node] == s.heap && s'.threads == s.threads[i := Fresh(node)]
    ensures ThreadsInv(s')
  {
    forall j | 0 <= j < |s'.threads| && s'.threads[j].Trying?
      ensures s'.heap[s'.threads[j].node] == s.heap[s.threads[j].node]
    {
      assert s'.heap[..node][s.threads[j].node] == s.heap[s.threads[j].node];
    }
  }

  lemma NewInv(s: State, i: nat, d: int, s': State)
    requires Inv(s) && i < |s.threads| && s.threads[i].Idle? && Step(s, New(i, d)) == Some(s')
    ensures Inv(s')
  {
    NewOrder(s, i, d, s');
    NewThreads(s, i, |s.heap|, s');
    ReverseMembers(s.successes);
    ListFrame(s.heap, s'.heap, s.head, Reverse(s.successes));
  }

  lemma ReloadThreads(s: State, i: nat, n: nat)
    requires ListInv(s) && ThreadsInv(s) && i < |s.threads| && n < |s.heap| && |s.mine| == |s.threads|
    requires Owned(s.threads[i]) == Some(n)
    ensures ThreadsInv(Reload(s, i, n))
  {
    assert s.successes[..|s.successes|] == s.successes;
  }

  lemma ReloadInv(s: State, i: nat, n: nat)
    requires Inv(s) && i < |s.threads| && n < |s.heap| && Owned(s.threads[i]) == Some(n)
    ensures Inv(Reload(s, i, n))
  {
    ReloadThreads(s, i, n);
    ReverseMembers(s.successes);
    ListFrame(s.heap, Reload(s, i, n).heap, s.head, Reverse(s.successes));
  }

  /** Linking in a thread's last node extends that thread's filtered list and no other's. */
  lemma LinkFilter(s: State, i: nat, n: nat, j: nat)
    requires |s.mine| == |s.threads| && ProgramOrder(s) && i < |s.threads| && s.threads[i].Trying? && s.threads[i].node == n
    requires j < |s.threads|
    ensures Filter(s.successes + [n], s.mine[j]) == LinkedOf(s.mine[j], if j == i then Idle else s.threads[j])
  {
    var own := s.mine[i];
    assert own == own[..|own| - 1] + [n] && n in own;
    assert n in s.mine[j] <==> j == i;
    assert (s.successes + [n])[..|s.successes|] == s.successes;
  }

  lemma LinkOwned(s: State, i: nat, n: nat)
    requires |s.mine| == |s.threads| && ProgramOrder(s) && i < |s.threads| && !s.threads[i].Idle? && s.threads[i].node == n
    ensures forall m :: m in s.successes + [n] ==> SomeThreads(s.mine, m)
  {
    assert s.mine[i][|s.mine[i]| - 1] == n;
    assert SomeThreads(s.mine, n);
  }

  lemma LinkAllocations(s: State, i: nat, s': State)
    requires |s.mine| == |s.threads| && Allocations(s) && i < |s.threads|
    requires s'.heap == s.heap && s'.mine == s.mine && s'.threads == s.threads[i := Idle]
    ensures Allocations(s')
  {
  }

  lemma LinkOrder(s: State, i: nat, s': State)
    requires |s.mine| == |s.threads| && ProgramOrder(s) && i < |s.threads| && s.threads[i].Trying?
    requires s' == s.(head := s'.head, threads := s.threads[i := Idle], successes := s.successes + [s.threads[i].node])
    ensures ProgramOrder(s')
  {
    var n := s.threads[i].node;
    LinkAllocations(s, i, s');
    LinkOwned(s, i, n);
    forall j | 0 <= j < |s'.threads|
      ensures Filter(s'.successes, s'.mine[j]) == LinkedOf(s'.mine[j], s'.threads[j])
    {
      LinkFilter(s, i, n, j);
    }
  }

  lemma ReverseAppend(xs: seq<nat>, n: nat)
    ensures Reverse(xs + [n]) == [n] + Reverse(xs)
  {
    assert (xs + [n])[..|xs|] == xs;
  }

  lemma LinkList(heap: seq<Node>, n: nat, xs: seq<nat>)
    requires n < |heap| && ListFrom(heap, heap[n].next, Reverse(xs))
    ensures ListFrom(heap, Some(n), Reverse(xs + [n]))
  {
    ReverseAppend(xs, n);
    assert ([n] + Reverse(xs))[1..] == Reverse(xs);
  }

  lemma LinkThreads(s: State, i: nat, s': State)
    requires ThreadsInv(s) && i < |s.threads| && s.threads[i].Trying? && s'.heap == s.heap
    requires s'.threads == s.threads[i := Idle] && s'.successes == s.successes + [s.threads[i].node]
    ensures ThreadsInv(s')
  {
    forall j | 0 <= j < |s'.threads| && s'.threads[j].Trying?
      ensures s'.successes[..s'.threads[j].seen] == s.successes[..s'.threads[j].seen]
    {
    }
    forall j | 0 <= j < |s'.threads| && !s'.threads[j].Idle?
      ensures s'.threads[j].node !in s'.successes
    {
      assert Owned(s.threads[j]) != Owned(s.threads[i]);
    }
  }

  lemma LinkInv(s: State, i: nat, s': State)
    requires Inv(s) && i < |s.threads| && s.threads[i].Trying? && s.head == s.heap[s.threads[i].node].next
    requires Step(s, Cas(i, false)) == Some(s')
    ensures Inv(s')
  {
    LinkOrder(s, i, s');
    LinkList(s.heap, s.threads[i].node, s.successes);
    LinkThreads(s, i, s');
  }

  lemma StepInv(s: State, a: Action)
    requires Inv(s) && Step(s, a).Some?
    ensures Inv(Step(s, a).value)
  {
    var s' := Step(s, a).value;
    match a
    case New(i, d) => NewInv(s, i, d, s');
    case Load(i) => ReloadInv(s, i, s.threads[i].node);
    case Cas(i, spurious) =>
      var n := s.threads[i].node;
      if s.head == s.heap[n].next && !spurious {
        LinkInv(s, i, s');
      } else {
        ReloadInv(s, i, n);
      }
  }

  lemma {:induction false} RunInv(s: State, acts: seq<Action>)
    requires Inv(s) && Run(s, acts).Some?
    ensures Inv(Run(s, acts).value)
    decreases |acts|
  {
    if acts != [] {
      StepInv(s, acts[0]);
      RunInv(Step(s, acts[0]).value, acts[1..]);
    }
  }

  ghost predicate Reachable(s: State) {
    exists n: nat, acts :: Run(Init(n), acts) == Some(s)
  }

  lemma ReachableInv(s: State)
    requires Reachable(s)
    ensures Inv(s)
  {
    var n: nat, acts :| Run(Init(n), acts) == Some(s);
    InitInv(n);
    RunInv(Init(n), acts);
  }

  // ---- What every run keeps ----

  predicate Within(xs: seq<nat>, bound: nat) {
    forall k :: 0 <= k < |xs| ==> xs[k] < bound
  }

  /** The values pushed by the nodes `xs`, in their order. */
  function ValuesOf(values: seq<int>, xs: seq<nat>): seq<int>
    requires Within(xs, |values|)
  {
    seq(|xs|, k requires 0 <= k < |xs| => values[xs[k]])
  }

  lemma NextValue(values: seq<int>, xs: seq<nat>, k: nat)
    requires Within(xs, |values|) && k < |xs|
    ensures ValuesOf(values, xs)[..k + 1] == ValuesOf(values, xs)[..k] + [values[xs[k]]]
  {
  }

  lemma NodesHoldValues(s: State)
    requires Inv(s)
    ensures Within(Reverse(s.successes), |s.heap|) && |s.heap| == |s.values|
    ensures forall k :: 0 <= k < |s.successes| ==> s.heap[Reverse(s.successes)[k]].data == s.values[Reverse(s.successes)[k]]
  {
    var xs := Reverse(s.successes);
    forall k | 0 <= k < |xs|
      ensures xs[k] < |s.heap|
    {
      assert xs[k] == s.successes[|xs| - 1 - k] && xs[k] in s.successes;
    }
  }

  /** The values pushed in a run, in the order of their allocations, by anyone or by thread `i`. */
  function Pushes(acts: seq<Action>): seq<int> {
    if acts == [] then []
    else Pushes(acts[..|acts| - 1]) + (if acts[|acts| - 1].New? then [acts[|acts| - 1].data] else [])
  }

  function PushesBy(acts: seq<Action>, i: nat): seq<int> {
    if acts == [] then []
    else
      var a := acts[|acts| - 1];
      PushesBy(acts[..|acts| - 1], i) + (if a.New? && a.i == i then [a.data] else [])
  }

  /** The nodes of thread `i` hold the same values, and the new one the value pushed. */
  predicate OwnValues(s: State, a: Action, s': State, i: nat)
    requires i < |s.mine| == |s'.mine| && Within(s.mine[i], |s.values|)
  {
    && Within(s'.mine[i], |s'.values|)
    && ValuesOf(s'.values, s'.mine[i]) == ValuesOf(s.values, s.mine[i]) + (if a.New? && a.i == i then [a.data] else [])
  }

  lemma OwnStep(s: State, a: Action, i: nat)
    requires Inv(s) && Step(s, a).Some? && i < |s.threads| && Within(s.mine[i], |s.values|)
    ensures |Step(s, a).value.mine| == |s.mine| && OwnValues(s, a, Step(s, a).value, i)
  {
    var s', own := Step(s, a).value, s.mine[i];
    forall k | 0 <= k < |own|
      ensures s'.values[own[k]] == s.values[own[k]]
    {
    }
    if a.New? && a.i == i {
      assert s'.mine[i] == own + [|s.values|];
    } else {
      assert s'.mine[i] == own;
    }
  }

  lemma ValuesStep(s: State, a: Action)
    requires Inv(s) && Step(s, a).Some?
    ensures Step(s, a).value.values == s.values + (if a.New? then [a.data] else [])
    ensures |Step(s, a).value.threads| == |s.threads|
  {
  }

  /** The history of values is what the run pushed, and each thread's nodes hold what it pushed, in its order. */
  ghost predicate Recorded(s: State, n: nat, acts: seq<Action>) {
    && Inv(s) && |s.threads| == n && s.values == Pushes(acts)
    && forall i :: 0 <= i < n ==> OwnRecorded(s, acts, i)
  }

  predicate OwnRecorded(s: State, acts: seq<Action>, i: nat)
    requires i < |s.mine|
  {
    Within(s.mine[i], |s.values|) && ValuesOf(s.values, s.mine[i]) == PushesBy(acts, i)
  }

  lemma PushesSnoc(acts: seq<Action>, a: Action, i: nat)
    ensures Pushes(acts + [a]) == Pushes(acts) + (if a.New? then [a.data] else [])
    ensures PushesBy(acts + [a], i) == PushesBy(acts, i) + (if a.New? && a.i == i then [a.data] else [])
  {
    assert (acts + [a])[..|acts|] == acts;
  }

  lemma RecordedStep(s: State, n: nat, acts: seq<Action>, a: Action)
    requires Recorded(s, n, acts) && Step(s, a).Some?
    ensures Recorded(Step(s, a).value, n, acts + [a])
  {
    var s' := Step(s, a).value;
    ValuesStep(s, a);
    StepInv(s, a);
    PushesSnoc(acts, a, 0);
    forall i | 0 <= i < n
      ensures OwnRecorded(s', acts + [a], i)
    {
      assert OwnRecorded(s, acts, i);
      OwnStep(s, a, i);
      PushesSnoc(acts, a, i);
    }
  }

  lemma {:induction false} RecordedRun(s: State, n: nat, before: seq<Action>, acts: seq<Action>)
    requires Recorded(s, n, before) && Run(s, acts).Some?
    ensures Recorded(Run(s, acts).value, n, before + acts)
    decreases |acts|
  {
    if acts == [] {
      assert before + acts == before;
    } else {
      var a, rest := acts[0], acts[1..];
      RecordedStep(s, n, before, a);
      RecordedRun(Step(s, a).value, n, before + [a], rest);
      assert acts == [a] + rest;
      Associative(before, [a], rest);
    }
  }

  lemma HistoryIsPushes(n: nat, acts: seq<Action>)
    requires Run(Init(n), acts).Some?
    ensures Recorded(Run(Init(n), acts).value, n, acts)
  {
    InitInv(n);
    assert forall i :: 0 <= i < n ==> OwnRecorded(Init(n), [], i);
    RecordedRun(Init(n), n, [], acts);
    assert [] + acts == acts;
  }

  /** The list from head is acyclic and is exactly the nodes of the successful compare-exchanges, newest first:
      nothing is lost and nothing appears twice. Each of them holds the value it was pushed with. */
  lemma ListIsReversedSuccesses(n: nat, acts: seq<Action>)
    requires Run(Init(n), acts).Some?
    ensures var s, list := Run(Init(n), acts).value, Reverse(Run(Init(n), acts).value.successes);
      && ListFrom(s.heap, s.head, list) && Distinct(list)
      && Within(list, |s.heap|) && |s.heap| == |Pushes(acts)|
      && forall k :: 0 <= k < |list| ==> s.heap[list[k]].data == Pushes(acts)[list[k]]
  {
    HistoryIsPushes(n, acts);
    NodesHoldValues(Run(Init(n), acts).value);
  }

  /** There is only one list from a given pointer, so the previous statement determines it. */
  lemma {:induction false} ListUnique(heap: seq<Node>, p: Option<nat>, xs: seq<nat>, ys: seq<nat>)
    requires ListFrom(heap, p, xs) && ListFrom(heap, p, ys)
    ensures xs == ys
    decreases |xs|
  {
    if xs != [] {
      assert ys != [];
      ListUnique(heap, heap[xs[0]].next, xs[1..], ys[1..]);
      assert xs == [xs[0]] + xs[1..] && ys == [ys[0]] + ys[1..];
    }
  }

  /** Read oldest first, the nodes of one thread are linked in its program order, up to the push it has not
      completed, with the values of its pushes; every linked node belongs to some thread. */
  lemma OwnPushesInProgramOrder(n: nat, acts: seq<Action>, i: nat)
    requires Run(Init(n), acts).Some? && i < n
    ensures var s := Run(Init(n), acts).value;
      && |s.threads| == |s.mine| == n && Filter(s.successes, s.mine[i]) == LinkedOf(s.mine[i], s.threads[i])
      && (!s.threads[i].Idle? ==>
            s.mine[i] != [] && s.mine[i][|s.mine[i]| - 1] == s.threads[i].node && s.threads[i].node !in s.successes)
      && Within(s.mine[i], |s.values|) && ValuesOf(s.values, s.mine[i]) == PushesBy(acts, i)
      && (forall x :: x in s.successes ==> SomeThreads(s.mine, x))
  {
    HistoryIsPushes(n, acts);
    assert OwnRecorded(Run(Init(n), acts).value, acts, i);
  }

  /** The stack is lock-free and free of ABA: a compare-exchange that is not spurious succeeds exactly
      when no other push has succeeded since the last load. */
  lemma FailsOnlyIfOvertaken(s: State, i: nat)
    requires Reachable(s) && |s.mine| == |s.threads| && i < |s.threads| && s.threads[i].Trying?
    ensures Step(s, Cas(i, false)).Some?
    ensures Step(s, Cas(i, false)).value.threads[i].Idle? <==> |s.successes| == s.threads[i].seen
  {
    ReachableInv(s);
    var seen := s.threads[i].seen;
    if seen < |s.successes| {
      assert seen > 0 ==> s.successes[..seen][seen - 1] == s.successes[seen - 1] != s.successes[|s.successes| - 1];
    } else {
      assert s.successes[..seen] == s.successes;
    }
  }

  // ---- The stack object ----

  class LockFreeStack {
    var heap: seq<Node>
    var head: Option<nat>
    var threads: seq<Pc>
    ghost var successes: seq<nat>
    ghost var mine: seq<seq<nat>>
    ghost var values: seq<int>
    var links: nat

    ghost predicate Valid()
      reads this
    {
      Inv(View()) && links == |successes|
    }

    ghost function View(): State
      reads this
    {
      State(heap, head, threads, successes, mine, values)
    }

    constructor (n: nat)
      ensures Valid() && View() == Init(n)
    {
      heap, head, threads := [], None, seq(n, i => Idle);
      successes, mine, values, links := [], seq(n, i => []), [], 0;
    }

    /** push: `new node(data)`. */
    method NewNode(i: nat, data: int)
      requires Valid() && i < |threads| && threads[i].Idle?
      modifies this
      ensures Valid() && Step(old(View()), New(i, data)) == Some(View())
      ensures values == old(values) + [data] && heap == old(heap) + [Node(data, None)]
    {
      StepInv(View(), New(i, data));
      threads := threads[i := Fresh(|heap|)];
      mine := mine[i := mine[i] + [|heap|]];
      heap := heap + [Node(data, None)];
      values := values + [data];
    }

    /** push: `new_node->next = head.load()`. */
    method LoadHead(i: nat)
      requires Valid() && i < |threads| && threads[i].Fresh?
      modifies this
      ensures Valid() && Step(old(View()), Load(i)) == Some(View())
    {
      StepInv(View(), Load(i));
      var newNode := threads[i].node;
      heap := heap[newNode := heap[newNode].(next := head)];
      threads := threads[i := Trying(newNode, links)];
    }

    /** A compare-exchange that finds the expected head links the node in. */
    method Link(i: nat)
      requires i < |threads| && threads[i].Trying?
      modifies `head, `threads, `successes, `links
      ensures View() == old(View()).(head := Some(old(threads[i].node)), threads := old(threads)[i := Idle],
                          successes := old(successes) + [old(threads[i].node)])
      ensures links == old(links) + 1
    {
      var newNode := threads[i].node;
      head := Some(newNode);
      threads := threads[i := Idle];
      successes := successes + [newNode];
      links := links + 1;
    }

    /** One that fails stores the head it found in the node. */
    method Reload(i: nat)
      requires i < |threads| && threads[i].Trying? && threads[i].node < |heap|
      modifies `heap, `threads
      ensures View() == old(View()).(heap := old(heap)[old(threads[i].node) := old(heap)[old(threads[i].node)].(next := head)],
                          threads := old(threads)[i := Trying(old(threads[i].node), links)])
    {
      var newNode := threads[i].node;
      heap := heap[newNode := heap[newNode].(next := head)];
      threads := threads[i := Trying(newNode, links)];
    }

    /** push: one `compare_exchange_weak(new_node->next, new_node)`; on failure the head is reloaded. */
    method CompareExchangeWeak(i: nat, spurious: bool) returns (ok: bool)
      requires Valid() && i < |threads| && threads[i].Trying?
      modifies this
      ensures Valid() && Step(old(View()), Cas(i, spurious)) == Some(View())
      ensures ok <==> threads[i].Idle?
      ensures ok ==> successes == old(successes) + [old(threads[i].node)]
      ensures !ok ==> successes == old(successes)
    {
      ghost var before := View();
      StepInv(before, Cas(i, spurious));
      ok := head == heap[threads[i].node].next && !spurious;
      if ok {
        Link(i);
      } else {
        Reload(i);
      }
      assert View() == Step(before, Cas(i, spurious)).value;
    }

    /** The walk from head to null that prints the stack: it terminates and meets the values of the
        successful pushes, newest first. */
    method Values() returns (out: seq<int>)
      requires Valid()
      ensures Within(Reverse(successes), |values|)
      ensures out == ValuesOf(values, Reverse(successes))
    {
      NodesHoldValues(View());
      var node := head;
      ghost var all := Reverse(successes);
      ghost var rest := all;
      out := [];
      while node.Some?
        invariant ListFrom(heap, node, rest)
        invariant |out| + |rest| == |all| && rest == all[|out|..]
        invariant out == ValuesOf(values, all)[..|out|]
        decreases |rest|
      {
        NextValue(values, all, |out|);
        assert node.value == rest[0] == all[|out|];
        out := out + [heap[node.value].data];
        node := heap[node.value].next;
        rest := rest[1..];
      }
    }
  }
}
