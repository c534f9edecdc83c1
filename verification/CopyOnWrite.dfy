/** Copy-on-write handles over a reference-counted heap, and the document history built on them.
    The heap maps addresses to live objects, so every access to an object is an obligation that it
    has not been freed. A handle is a copy_on_write variable; its pointer is null after a move. */
module CopyOnWrite {
  import opened Common

  type Addr = nat
  type Handle = nat
  type T = int

  /** implementation_t. */
  datatype Cell = Cell(count: nat, value: T)

  datatype State = State(
    heap: map<Addr, Cell>,
    next: Addr,                          // addresses from here on are unused
    handles: map<Handle, Option<Addr>>)  // object_m of every live handle

  function Owners(s: State, a: Addr): set<Handle> {
    set h | h in s.handles && s.handles[h] == Some(a)
  }

  /** No handle dangles. */
  ghost predicate Live(s: State) {
    forall h :: h in s.handles && s.handles[h].Some? ==> s.handles[h].value in s.heap
  }

  /** Besides, each live object counts exactly the handles that point to it, and has at least one. */
  ghost predicate WF(s: State) {
    && Live(s)
    && (forall a :: a in s.heap ==> a < s.next && s.heap[a].count == |Owners(s, a)| && Owners(s, a) != {})
  }

  /** What a handle reads. */
  function ValueOf(s: State, h: Handle): Option<T>
    requires h in s.handles && (s.handles[h].Some? ==> s.handles[h].value in s.heap)
  {
    match s.handles[h] case None => None case Some(a) => Some(s.heap[a].value)
  }

  /** What all handles read, as if each held its own value. */
  ghost function Values(s: State): map<Handle, Option<T>>
    requires Live(s)
  {
    map h | h in s.handles :: ValueOf(s, h)
  }

  // ---- The operations, step by step ----

  /** `new implementation_t(v)`, not yet owned by a handle. */
  function Alloc(s: State, v: T): State {
    s.(heap := s.heap[s.next := Cell(1, v)], next := s.next + 1)
  }

  /** release(): drop one reference, free the object with the last one. */
  function Release(s: State, p: Option<Addr>): State
    requires p.Some? ==> p.value in s.heap && s.heap[p.value].count > 0
  {
    if p.None? then s
    else
      var c := s.heap[p.value];
      if c.count - 1 != 0 then s.(heap := s.heap[p.value := c.(count := c.count - 1)])
      else s.(heap := s.heap - {p.value})
  }

  function Create(s: State, h: Handle, v: T): State {
    Alloc(s, v).(handles := s.handles[h := Some(s.next)])
  }

  function CopyConstruct(s: State, h: Handle, g: Handle): State
    requires g in s.handles && (s.handles[g].Some? ==> s.handles[g].value in s.heap)
  {
    var s1 := s.(handles := s.handles[h := s.handles[g]]);
    match s.handles[g]
    case None => s1
    case Some(a) => s1.(heap := s.heap[a := s.heap[a].(count := s.heap[a].count + 1)])
  }

  function MoveConstruct(s: State, h: Handle, g: Handle): State
    requires g in s.handles
  {
    s.(handles := s.handles[h := s.handles[g]][g := None])
  }

  predicate Usable(s: State, h: Handle) {
    h in s.handles && (s.handles[h].Some? ==> s.handles[h].value in s.heap && s.heap[s.handles[h].value].count > 0)
  }

  function Destroy(s: State, h: Handle): State
    requires Usable(s, h)
  {
    Release(s, s.handles[h]).(handles := s.handles - {h})
  }

  /** reset(new implementation_t(v)): the new object is made before the old one is released. */
  function Reset(s: State, h: Handle, v: T): State
    requires Usable(s, h) && (s.handles[h].Some? ==> s.handles[h].value < s.next)
  {
    Release(Alloc(s, v), s.handles[h]).(handles := s.handles[h := Some(s.next)])
  }

  /** operator=(T). */
  function Assign(s: State, h: Handle, v: T): State
    requires Usable(s, h) && (s.handles[h].Some? ==> s.handles[h].value < s.next)
  {
    match s.handles[h]
    case None => Create(s, h, v)
    case Some(a) => if s.heap[a].count == 1 then SetValue(s, a, v) else Reset(s, h, v)
  }

  /** A store through a reference to the object at `a`. */
  function SetValue(s: State, a: Addr, v: T): State
    requires a in s.heap
  {
    s.(heap := s.heap[a := s.heap[a].(value := v)])
  }

  /** write(): make sure the handle is the only owner, copying the value if it is not. */
  function Write(s: State, h: Handle): (r: State)
    requires Usable(s, h) && s.handles[h].Some? && s.handles[h].value < s.next
    ensures h in r.handles && r.handles[h].Some? && r.handles[h].value in r.heap
  {
    var a := s.handles[h].value;
    if s.heap[a].count == 1 then s else Reset(s, h, s.heap[a].value)
  }

  // ---- Each operation keeps the counts exact and acts on independent values ----

  /** Handles other than the listed ones keep pointer and value. */
  ghost predicate Untouched(s: State, s': State, changed: set<Handle>)
    requires Live(s) && Live(s')
  {
    forall k :: k in s.handles && k !in changed ==>
      k in s'.handles && s'.handles[k] == s.handles[k] && ValueOf(s', k) == ValueOf(s, k)
  }

  /** From one changed handle to the whole picture. */
  lemma ValuesUpdated(s: State, s': State, h: Handle)
    requires Live(s) && Live(s') && Untouched(s, s', {h}) && s'.handles.Keys == s.handles.Keys + {h}
    ensures Values(s') == Values(s)[h := ValueOf(s', h)]
  {
  }

  lemma CreateCounts(s: State, h: Handle, v: T)
    requires WF(s) && (h in s.handles ==> s.handles[h] == None)
    ensures WF(Create(s, h, v))
  {
    var s' := Create(s, h, v);
    assert Owners(s', s.next) == {h};
    forall b | b in s.heap
      ensures Owners(s', b) == Owners(s, b)
    {
    }
  }

  lemma CreateUntouched(s: State, h: Handle, v: T)
    requires Live(s) && Live(Create(s, h, v)) && s.next !in s.heap
    ensures Untouched(s, Create(s, h, v), {h})
  {
  }

  lemma CreateIsInsert(s: State, h: Handle, v: T)
    requires WF(s) && (h in s.handles ==> s.handles[h] == None)
    ensures WF(Create(s, h, v)) && Untouched(s, Create(s, h, v), {h})
    ensures Values(Create(s, h, v)) == Values(s)[h := Some(v)]
  {
    CreateCounts(s, h, v);
    CreateUntouched(s, h, v);
    ValuesUpdated(s, Create(s, h, v), h);
  }

  lemma CopyCounts(s: State, h: Handle, g: Handle)
    requires WF(s) && h !in s.handles && g in s.handles
    ensures WF(CopyConstruct(s, h, g))
  {
    var s' := CopyConstruct(s, h, g);
    forall b | b in s.heap
      ensures s'.heap[b].count == |Owners(s', b)| && Owners(s', b) != {}
    {
      if s.handles[g] == Some(b) {
        assert Owners(s', b) == Owners(s, b) + {h};
        assert h !in Owners(s, b);
      } else {
        assert Owners(s', b) == Owners(s, b);
      }
    }
  }

  lemma CopyUntouched(s: State, h: Handle, g: Handle)
    requires WF(s) && h !in s.handles && g in s.handles
    ensures WF(CopyConstruct(s, h, g)) && Untouched(s, CopyConstruct(s, h, g), {h})
    ensures ValueOf(CopyConstruct(s, h, g), h) == ValueOf(s, g)
    ensures CopyConstruct(s, h, g).handles.Keys == s.handles.Keys + {h}
  {
    CopyCounts(s, h, g);
    var s' := CopyConstruct(s, h, g);
    forall k | k in s.handles
      ensures s'.handles[k] == s.handles[k] && ValueOf(s', k) == ValueOf(s, k)
    {
    }
  }

  lemma CopyIsCopy(s: State, h: Handle, g: Handle)
    requires WF(s) && h !in s.handles && g in s.handles
    ensures WF(CopyConstruct(s, h, g)) && Untouched(s, CopyConstruct(s, h, g), {h})
    ensures Values(CopyConstruct(s, h, g)) == Values(s)[h := Values(s)[g]]
  {
    CopyUntouched(s, h, g);
    ValuesUpdated(s, CopyConstruct(s, h, g), h);
  }

  lemma MoveCounts(s: State, h: Handle, g: Handle)
    requires WF(s) && h !in s.handles && g in s.handles
    ensures WF(MoveConstruct(s, h, g))
  {
    var s' := MoveConstruct(s, h, g);
    forall b | b in s.heap
      ensures |Owners(s', b)| == |Owners(s, b)| && Owners(s', b) != {}
    {
      if s.handles[g] == Some(b) {
        var rest := Owners(s, b) - {g};
        assert g in Owners(s, b) && Owners(s, b) == rest + {g};
        assert Owners(s', b) == rest + {h} && h !in rest;
      } else {
        assert Owners(s', b) == Owners(s, b);
      }
    }
  }

  lemma MoveIsMove(s: State, h: Handle, g: Handle)
    requires WF(s) && h !in s.handles && g in s.handles
    ensures WF(MoveConstruct(s, h, g)) && Untouched(s, MoveConstruct(s, h, g), {h, g})
    ensures Values(MoveConstruct(s, h, g)) == Values(s)[h := Values(s)[g]][g := None]
  {
    MoveCounts(s, h, g);
    var s' := MoveConstruct(s, h, g);
    forall k | k in s'.handles
      ensures ValueOf(s', k) == if k == g then None else if k == h then ValueOf(s, g) else ValueOf(s, k)
    {
    }
    ValuesMoved(s, s', h, g);
  }

  lemma ValuesMoved(s: State, s': State, h: Handle, g: Handle)
    requires Live(s) && Live(s') && g in s.handles && h !in s.handles && s'.handles.Keys == s.handles.Keys + {h}
    requires forall k :: k in s'.handles ==> ValueOf(s', k) == if k == g then None else if k == h then ValueOf(s, g) else ValueOf(s, k)
    ensures Values(s') == Values(s)[h := Values(s)[g]][g := None]
  {
  }

  /** `h` stops pointing to its object: it disappears or becomes null. */
  predicate LetGo(s: State, h: Handle, handles': map<Handle, Option<Addr>>) {
    && h in s.handles
    && handles'.Keys - {h} == s.handles.Keys - {h}
    && (forall k :: k in s.handles && k != h ==> k in handles' && handles'[k] == s.handles[k])
    && (h in handles' ==> handles'[h] == None)
  }

  lemma OwnersAfter(s: State, h: Handle, handles': map<Handle, Option<Addr>>, b: Addr)
    requires LetGo(s, h, handles')
    ensures Owners(s.(handles := handles'), b) == Owners(s, b) - {h}
  {
    var s' := s.(handles := handles');
    forall k
      ensures k in Owners(s', b) <==> k in Owners(s, b) - {h}
    {
      if k in handles' && k != h {
        assert k in handles'.Keys - {h};
      }
    }
  }

  /** The count tells whether `h` is the last owner. */
  lemma LastOwner(s: State, h: Handle, a: Addr)
    requires WF(s) && h in s.handles && s.handles[h] == Some(a)
    ensures a in s.heap && s.heap[a].count == |Owners(s, a) - {h}| + 1
    ensures s.heap[a].count == 1 <==> Owners(s, a) == {h}
  {
    assert h in Owners(s, a);
    var rest := Owners(s, a) - {h};
    assert Owners(s, a) == rest + {h};
    if s.heap[a].count == 1 {
      assert rest == {};
    }
  }

  lemma ReleaseCounts(s: State, h: Handle, handles': map<Handle, Option<Addr>>)
    requires WF(s) && LetGo(s, h, handles')
    ensures Usable(s, h)
    ensures WF(Release(s, s.handles[h]).(handles := handles'))
  {
    if s.handles[h].Some? {
      LastOwner(s, h, s.handles[h].value);
    }
    var s1 := s.(handles := handles');
    var s' := Release(s, s.handles[h]).(handles := handles');
    forall b | b in s'.heap
      ensures b < s'.next && s'.heap[b].count == |Owners(s', b)| && Owners(s', b) != {}
    {
      OwnersAfter(s, h, handles', b);
      assert Owners(s', b) == Owners(s1, b);
      if s.handles[h] != Some(b) {
        assert h !in Owners(s, b);
        assert Owners(s, b) - {h} == Owners(s, b);
      } else {
        assert |Owners(s', b)| > 0;
      }
    }
    forall k | k in handles' && handles'[k].Some?
      ensures handles'[k].value in s'.heap
    {
      assert k != h;
      assert k in handles'.Keys - {h};
      if handles'[k] == s.handles[h] {
        assert k in Owners(s, s.handles[h].value);
      }
    }
  }

  lemma ReleaseUntouched(s: State, h: Handle, handles': map<Handle, Option<Addr>>)
    requires WF(s) && LetGo(s, h, handles')
    ensures Usable(s, h) && WF(Release(s, s.handles[h]).(handles := handles'))
    ensures Untouched(s, Release(s, s.handles[h]).(handles := handles'), {h})
  {
    ReleaseCounts(s, h, handles');
  }

  /** Destroying a handle removes its value and no other; an object is freed exactly with its last
      handle. */
  lemma DestroyIsRemove(s: State, h: Handle)
    requires WF(s) && h in s.handles
    ensures Usable(s, h) && WF(Destroy(s, h)) && Untouched(s, Destroy(s, h), {h})
    ensures Values(Destroy(s, h)) == Values(s) - {h}
    ensures forall a :: a in s.heap ==> (a !in Destroy(s, h).heap <==> Owners(s, a) == {h})
  {
    ReleaseUntouched(s, h, s.handles - {h});
    forall a | a in s.heap
      ensures a !in Destroy(s, h).heap <==> Owners(s, a) == {h}
    {
      if s.handles[h] == Some(a) {
        LastOwner(s, h, a);
      } else {
        assert h !in Owners(s, a);
      }
    }
  }

  lemma ResetIsUpdate(s: State, h: Handle, v: T)
    requires WF(s) && h in s.handles
    ensures Usable(s, h) && (s.handles[h].Some? ==> s.handles[h].value < s.next)
    ensures WF(Reset(s, h, v)) && Untouched(s, Reset(s, h, v), {h})
    ensures Values(Reset(s, h, v)) == Values(s)[h := Some(v)]
  {
    var handles' := s.handles[h := None];
    ReleaseUntouched(s, h, handles');
    var s1 := Release(s, s.handles[h]).(handles := handles');
    CreateIsInsert(s1, h, v);
    ResetIsReleaseCreate(s, h, v);
    ValuesUpdated(s, Reset(s, h, v), h);
  }

  /** Allocating before releasing gives the same store as releasing first. */
  lemma ResetIsReleaseCreate(s: State, h: Handle, v: T)
    requires WF(s) && Usable(s, h) && (s.handles[h].Some? ==> s.handles[h].value < s.next)
    ensures Reset(s, h, v) == Create(Release(s, s.handles[h]).(handles := s.handles[h := None]), h, v)
  {
    var s1 := Release(s, s.handles[h]).(handles := s.handles[h := None]);
    assert Reset(s, h, v).handles == Create(s1, h, v).handles;
    assert Reset(s, h, v).heap == Create(s1, h, v).heap;
  }

  lemma SetKeepsCounts(s: State, a: Addr, v: T)
    requires WF(s) && a in s.heap
    ensures WF(SetValue(s, a, v))
  {
    forall b | b in s.heap
      ensures Owners(SetValue(s, a, v), b) == Owners(s, b)
    {
    }
  }

  /** A store through a reference affects the handle it was obtained from and nobody else exactly when
      that handle is the object's only owner. */
  lemma ReferenceIsPrivateIff(s: State, h: Handle, v: T)
    requires WF(s) && h in s.handles && s.handles[h].Some? && s.heap[s.handles[h].value].value != v
    ensures WF(SetValue(s, s.handles[h].value, v))
    ensures Untouched(s, SetValue(s, s.handles[h].value, v), {h}) <==> s.heap[s.handles[h].value].count == 1
  {
    var a := s.handles[h].value;
    var s' := SetValue(s, a, v);
    SetKeepsCounts(s, a, v);
    LastOwner(s, h, a);
    if Owners(s, a) == {h} {
      assert forall k :: k in s.handles && k != h ==> k !in Owners(s, a);
    } else {
      var k :| k in Owners(s, a) - {h};
      assert ValueOf(s', k) != ValueOf(s, k);
    }
  }

  lemma SetPrivate(s: State, h: Handle, v: T)
    requires WF(s) && h in s.handles && s.handles[h].Some? && s.heap[s.handles[h].value].count == 1
    ensures WF(SetValue(s, s.handles[h].value, v)) && Untouched(s, SetValue(s, s.handles[h].value, v), {h})
    ensures Values(SetValue(s, s.handles[h].value, v)) == Values(s)[h := Some(v)]
  {
    var a := s.handles[h].value;
    SetKeepsCounts(s, a, v);
    LastOwner(s, h, a);
    assert forall k :: k in s.handles && k != h ==> k !in Owners(s, a);
    ValuesUpdated(s, SetValue(s, a, v), h);
  }

  /** An object owned by this handle alone is reused; otherwise the handle gets a new one, and nothing else moves. */
  predicate InPlaceIffOwned(s: State, h: Handle, s': State)
    requires h in s.handles && (s.handles[h].Some? ==> s.handles[h].value in s.heap)
  {
    if s.handles[h].Some? && s.heap[s.handles[h].value].count == 1 then s'.handles == s.handles && s'.next == s.next
    else s'.handles == s.handles[h := Some(s.next)] && s'.next == s.next + 1
  }

  /** Assignment of a value changes what this handle reads and nothing else. */
  lemma AssignIsUpdate(s: State, h: Handle, v: T)
    requires WF(s) && h in s.handles
    ensures Usable(s, h) && (s.handles[h].Some? ==> s.handles[h].value < s.next)
    ensures WF(Assign(s, h, v)) && Untouched(s, Assign(s, h, v), {h})
    ensures Values(Assign(s, h, v)) == Values(s)[h := Some(v)]
    ensures InPlaceIffOwned(s, h, Assign(s, h, v))
  {
    ResetIsUpdate(s, h, v);
    match s.handles[h]
    case None => CreateIsInsert(s, h, v);
    case Some(a) =>
      if s.heap[a].count == 1 {
        SetPrivate(s, h, v);
      }
  }

  lemma ResetIsPrivate(s: State, h: Handle, v: T)
    requires Usable(s, h) && (s.handles[h].Some? ==> s.handles[h].value < s.next)
    ensures Reset(s, h, v).handles[h] == Some(s.next) && s.next in Reset(s, h, v).heap && Reset(s, h, v).heap[s.next].count == 1
  {
  }

  /** write() changes no value at all and leaves the handle the only owner. */
  lemma WriteMakesPrivate(s: State, h: Handle)
    requires WF(s) && h in s.handles && s.handles[h].Some?
    ensures Usable(s, h) && s.handles[h].value < s.next
    ensures WF(Write(s, h)) && Untouched(s, Write(s, h), {h}) && Values(Write(s, h)) == Values(s)
    ensures Write(s, h).heap[Write(s, h).handles[h].value].count == 1
    ensures InPlaceIffOwned(s, h, Write(s, h))
  {
    LastOwner(s, h, s.handles[h].value);
    var c := s.heap[s.handles[h].value];
    if c.count == 1 {
      assert Write(s, h) == s;
    } else {
      assert Write(s, h) == Reset(s, h, c.value);
      ResetIsUpdate(s, h, c.value);
      ResetIsPrivate(s, h, c.value);
      assert Values(s)[h] == Some(c.value);
      assert Values(s)[h := Some(c.value)] == Values(s);
    }
  }

  /** So a store through the reference that write() returns is an update of this handle alone. */
  lemma WriteIsolates(s: State, h: Handle, v: T)
    requires WF(s) && h in s.handles && s.handles[h].Some?
    ensures Usable(s, h) && s.handles[h].value < s.next
    ensures WF(WriteThrough(s, h, v)) && Untouched(s, WriteThrough(s, h, v), {h})
    ensures Values(WriteThrough(s, h, v)) == Values(s)[h := Some(v)]
  {
    WriteMakesPrivate(s, h);
    var s1 := Write(s, h);
    SetPrivate(s1, h, v);
    assert forall k :: k in s.handles && k != h ==> ValueOf(s1, k) == ValueOf(s, k);
  }

  /** `h.write() = v`. */
  function WriteThrough(s: State, h: Handle, v: T): State
    requires Usable(s, h) && s.handles[h].Some? && s.handles[h].value < s.next
  {
    SetValue(Write(s, h), Write(s, h).handles[h].value, v)
  }

  // ---- Documents and their history ----

  /** history_t: a stack of documents, each a vector of handles; handles from `unused` on are free. */
  datatype History = History(store: State, unused: Handle, docs: seq<seq<Handle>>)

  function Elems(doc: seq<Handle>): set<Handle> {
    set k | k in doc
  }

  predicate Distinct(doc: seq<Handle>) {
    forall i, j :: 0 <= i < j < |doc| ==> doc[i] != doc[j]
  }

  function Last(hist: History): seq<Handle>
    requires hist.docs != []
  {
    hist.docs[|hist.docs| - 1]
  }

  /** A history in good order: the counts are exact, and the documents are vectors of live handles, no handle
      occurring twice in one or in two of them. The stack may be empty, and there may be other handles. */
  ghost predicate Whole(hist: History) {
    && WF(hist.store)
    && (forall k :: k in hist.store.handles ==> k < hist.unused)
    && (forall d, k :: 0 <= d < |hist.docs| && k in hist.docs[d] ==> k in hist.store.handles)
    && (forall d :: 0 <= d < |hist.docs| ==> Distinct(hist.docs[d]))
    && (forall d, e, k :: 0 <= d < e < |hist.docs| && k in hist.docs[d] ==> k !in hist.docs[e])
  }

  /** What the operations on the current document need of it. */
  ghost predicate Inv(hist: History) {
    && WF(hist.store) && hist.docs != []
    && (forall k :: k in hist.store.handles ==> k < hist.unused)
    && (forall k :: k in Last(hist) ==> k in hist.store.handles)
    && Distinct(Last(hist))
  }

  /** Copying a vector of handles: the copies get the handles `unused`, `unused + 1`, ... */
  function CopyAll(s: State, unused: Handle, doc: seq<Handle>): State
    requires WF(s) && (forall k :: k in s.handles ==> k < unused) && (forall k :: k in doc ==> k in s.handles)
    decreases |doc|
  {
    if doc == [] then s
    else
      CopyIsCopy(s, unused, doc[0]);
      CopyAll(CopyConstruct(s, unused, doc[0]), unused + 1, doc[1..])
  }

  function Numbered(unused: Handle, n: nat): seq<Handle> {
    seq(n, i => unused + i)
  }

  /** Destroying a vector of handles. */
  function DestroyAll(s: State, doc: seq<Handle>): State
    requires WF(s) && (forall k :: k in doc ==> k in s.handles) && Distinct(doc)
    decreases |doc|
  {
    if doc == [] then s
    else
      DestroyIsRemove(s, doc[0]);
      assert forall k :: k in doc[1..] ==> k != doc[0] && k in Destroy(s, doc[0]).handles;
      DestroyAll(Destroy(s, doc[0]), doc[1..])
  }

  /** commit: push a copy of the current document. */
  function Commit(hist: History): History
    requires Inv(hist)
  {
    var doc := Last(hist);
    History(CopyAll(hist.store, hist.unused, doc), hist.unused + |doc|, hist.docs + [Numbered(hist.unused, |doc|)])
  }

  /** undo: pop the current document. */
  function Undo(hist: History): History
    requires Inv(hist)
  {
    hist.(store := DestroyAll(hist.store, Last(hist)), docs := hist.docs[..|hist.docs| - 1])
  }

  /** Edits of the current document through the vector and handle operations. */
  datatype Edit =
    | EmplaceBack(v: T)
    | AssignAt(i: nat, v: T)    // current(h)[i] = v
    | WriteAt(i: nat, v: T)     // current(h)[i].write() = v
    | CopyBack(i: nat)          // current(h).push_back(current(h)[i])
    | MoveBack(i: nat)          // current(h).push_back(move(current(h)[i]))
    | PopBack

  function WithLast(hist: History, store: State, doc: seq<Handle>): History
    requires hist.docs != []
  {
    hist.(store := store, docs := hist.docs[..|hist.docs| - 1] + [doc])
  }

  /** None for an index out of range, or write() on a moved-from handle, whose assertion fails. */
  function Apply(hist: History, e: Edit): Option<History>
    requires Inv(hist)
  {
    var s, doc, unused := hist.store, Last(hist), hist.unused;
    match e
    case EmplaceBack(v) => Some(WithLast(hist, Create(s, unused, v), doc + [unused]).(unused := unused + 1))
    case AssignAt(i, v) =>
      if i >= |doc| then None
      else
        AssignIsUpdate(s, doc[i], v);
        Some(WithLast(hist, Assign(s, doc[i], v), doc))
    case WriteAt(i, v) =>
      if i >= |doc| || s.handles[doc[i]].None? then None
      else
        WriteIsolates(s, doc[i], v);
        Some(WithLast(hist, WriteThrough(s, doc[i], v), doc))
    case CopyBack(i) =>
      if i >= |doc| then None
      else Some(WithLast(hist, CopyConstruct(s, unused, doc[i]), doc + [unused]).(unused := unused + 1))
    case MoveBack(i) =>
      if i >= |doc| then None
      else Some(WithLast(hist, MoveConstruct(s, unused, doc[i]), doc + [unused]).(unused := unused + 1))
    case PopBack =>
      if doc == [] then None
      else
        DestroyIsRemove(s, doc[|doc| - 1]);
        Some(WithLast(hist, Destroy(s, doc[|doc| - 1]), doc[..|doc| - 1]))
  }

  /** What the current document reads. */
  function Content(s: State, doc: seq<Handle>): seq<Option<T>>
    requires forall k :: k in doc ==> k in s.handles && (s.handles[k].Some? ==> s.handles[k].value in s.heap)
  {
    seq(|doc|, i requires 0 <= i < |doc| => ValueOf(s, doc[i]))
  }

  /** The same edit on a plain vector of values, `None` standing for a moved-from element. */
  function PureEdit(xs: seq<Option<T>>, e: Edit): Option<seq<Option<T>>> {
    match e
    case EmplaceBack(v) => Some(xs + [Some(v)])
    case AssignAt(i, v) => if i >= |xs| then None else Some(xs[i := Some(v)])
    case WriteAt(i, v) => if i >= |xs| || xs[i].None? then None else Some(xs[i := Some(v)])
    case CopyBack(i) => if i >= |xs| then None else Some(xs + [xs[i]])
    case MoveBack(i) => if i >= |xs| then None else Some(xs[i := None] + [xs[i]])
    case PopBack => if xs == [] then None else Some(xs[..|xs| - 1])
  }

  /** The handles outside the current document, with their pointers and values: what edits must not
      touch. */
  ghost predicate SameOutside(hist: History, hist': History)
    requires Inv(hist) && Inv(hist')
  {
    && hist'.store.handles.Keys - Elems(Last(hist')) == hist.store.handles.Keys - Elems(Last(hist))
    && forall k :: k in hist.store.handles && k !in Last(hist) ==>
         k in hist'.store.handles && hist'.store.handles[k] == hist.store.handles[k] && ValueOf(hist'.store, k) == ValueOf(hist.store, k)
  }

  lemma InPlaceContent(s: State, s': State, doc: seq<Handle>, i: nat, v: T)
    requires Live(s) && Live(s') && i < |doc| && Distinct(doc) && (forall k :: k in doc ==> k in s.handles)
    requires s'.handles.Keys == s.handles.Keys && Values(s') == Values(s)[doc[i] := Some(v)]
    ensures Content(s', doc) == Content(s, doc)[i := Some(v)]
  {
    forall j | 0 <= j < |doc|
      ensures ValueOf(s', doc[j]) == if j == i then Some(v) else ValueOf(s, doc[j])
    {
      assert Values(s')[doc[j]] == if j == i then Some(v) else Values(s)[doc[j]];
    }
  }

  lemma InPlacePure(hist: History, e: Edit, i: nat, v: T)
    requires Inv(hist) && i < |Last(hist)| && (e == AssignAt(i, v) || e == WriteAt(i, v)) && Apply(hist, e).Some?
    requires var hist' := Apply(hist, e).value;
      WF(hist'.store) && Untouched(hist.store, hist'.store, {Last(hist)[i]})
      && Values(hist'.store) == Values(hist.store)[Last(hist)[i] := Some(v)]
    ensures var hist' := Apply(hist, e).value;
      Inv(hist') && SameOutside(hist, hist') && hist'.docs[..|hist'.docs| - 1] == hist.docs[..|hist.docs| - 1]
      && Content(hist'.store, Last(hist')) == Content(hist.store, Last(hist))[i := Some(v)]
  {
    var hist', doc := Apply(hist, e).value, Last(hist);
    assert Last(hist') == doc;
    assert hist'.store.handles.Keys == Values(hist'.store).Keys == hist.store.handles.Keys;
    InPlaceContent(hist.store, hist'.store, doc, i, v);
  }

  ghost predicate Grows(hist: History, e: Edit, hist': History, changed: set<Handle>) {
    && Inv(hist) && (e.EmplaceBack? || e.CopyBack? || e.MoveBack?) && Apply(hist, e) == Some(hist')
    && changed == (if e.MoveBack? then {hist.unused, Last(hist)[e.i]} else {hist.unused})
    && WF(hist'.store) && Untouched(hist.store, hist'.store, changed)
  }

  lemma GrowShape(hist: History, e: Edit, hist': History, changed: set<Handle>)
    requires Grows(hist, e, hist', changed)
    ensures Inv(hist') && SameOutside(hist, hist') && hist'.docs[..|hist'.docs| - 1] == hist.docs[..|hist.docs| - 1]
    ensures Last(hist') == Last(hist) + [hist.unused]
  {
    var doc := Last(hist);
    assert Last(hist') == doc + [hist.unused];
    assert hist'.store.handles.Keys == hist.store.handles.Keys + {hist.unused};
    assert Elems(Last(hist')) == Elems(doc) + {hist.unused};
  }

  /** The document of `doc` with the new handle `h` behind it reads as the edited vector. */
  lemma GrowContent(s: State, s': State, doc: seq<Handle>, h: Handle, e: Edit, changed: set<Handle>)
    requires Live(s) && Live(s') && Distinct(doc) && (forall k :: k in doc ==> k in s.handles) && h !in s.handles && h in s'.handles
    requires Untouched(s, s', changed) && (e.EmplaceBack? || ((e.CopyBack? || e.MoveBack?) && e.i < |doc|))
    requires changed == if e.MoveBack? then {h, doc[e.i]} else {h}
    requires ValueOf(s', h) == if e.EmplaceBack? then Some(e.v) else ValueOf(s, doc[e.i])
    requires e.MoveBack? ==> doc[e.i] in s'.handles && ValueOf(s', doc[e.i]) == None
    ensures (forall k :: k in doc + [h] ==> k in s'.handles) && Some(Content(s', doc + [h])) == PureEdit(Content(s, doc), e)
  {
    var after := PureEdit(Content(s, doc), e).value;
    forall j | 0 <= j <= |doc|
      ensures (doc + [h])[j] in s'.handles && ValueOf(s', (doc + [h])[j]) == after[j]
    {
      if j < |doc| && !(e.MoveBack? && j == e.i) {
        assert doc[j] in s.handles && doc[j] !in changed;
      }
    }
    assert Content(s', doc + [h]) == after;
  }

  lemma GrowPure(hist: History, e: Edit, hist': History, changed: set<Handle>)
    requires Grows(hist, e, hist', changed) && hist.unused in hist'.store.handles
    requires ValueOf(hist'.store, hist.unused) == (if e.EmplaceBack? then Some(e.v) else ValueOf(hist.store, Last(hist)[e.i]))
    requires e.MoveBack? ==> Last(hist)[e.i] in hist'.store.handles && ValueOf(hist'.store, Last(hist)[e.i]) == None
    ensures Inv(hist') && SameOutside(hist, hist') && hist'.docs[..|hist'.docs| - 1] == hist.docs[..|hist.docs| - 1]
    ensures Some(Content(hist'.store, Last(hist'))) == PureEdit(Content(hist.store, Last(hist)), e)
  {
    GrowShape(hist, e, hist', changed);
    GrowContent(hist.store, hist'.store, Last(hist), hist.unused, e, changed);
  }

  lemma PopPure(hist: History)
    requires Inv(hist) && Last(hist) != []
    requires WF(Apply(hist, PopBack).value.store)
    requires Untouched(hist.store, Apply(hist, PopBack).value.store, {Last(hist)[|Last(hist)| - 1]})
    ensures var hist' := Apply(hist, PopBack).value;
      Inv(hist') && SameOutside(hist, hist') && hist'.docs[..|hist'.docs| - 1] == hist.docs[..|hist.docs| - 1]
      && Some(Content(hist'.store, Last(hist'))) == PureEdit(Content(hist.store, Last(hist)), PopBack)
  {
    var hist', doc := Apply(hist, PopBack).value, Last(hist);
    var rest, last := doc[..|doc| - 1], doc[|doc| - 1];
    assert Last(hist') == rest;
    assert hist'.store.handles.Keys == hist.store.handles.Keys - {last};
    SplitLast(doc);
    assert forall j :: 0 <= j < |rest| ==> doc[j] in doc && rest[j] != last;
    assert Content(hist'.store, rest) == Content(hist.store, doc)[..|doc| - 1];
  }

  lemma SplitLast(doc: seq<Handle>)
    requires doc != [] && Distinct(doc)
    ensures var rest, last := doc[..|doc| - 1], doc[|doc| - 1];
      Distinct(rest) && last !in rest && Elems(rest) == Elems(doc) - {last} && forall k :: k in rest ==> k in doc
  {
    assert doc == doc[..|doc| - 1] + [doc[|doc| - 1]];
  }

  /** `hist'` is `hist` with the edit made on the current document and nothing else touched. */
  ghost predicate EditedPurely(hist: History, e: Edit, hist': History)
    requires Inv(hist)
  {
    && Inv(hist') && SameOutside(hist, hist') && hist'.docs[..|hist'.docs| - 1] == hist.docs[..|hist.docs| - 1]
    && Some(Content(hist'.store, Last(hist'))) == PureEdit(Content(hist.store, Last(hist)), e)
  }

  lemma EmplaceIsPure(hist: History, v: T)
    requires Inv(hist)
    ensures EditedPurely(hist, EmplaceBack(v), Apply(hist, EmplaceBack(v)).value)
  {
    var s, unused := hist.store, hist.unused;
    CreateIsInsert(s, unused, v);
    assert Values(Create(s, unused, v))[unused] == Some(v);
    GrowPure(hist, EmplaceBack(v), Apply(hist, EmplaceBack(v)).value, {unused});
  }

  lemma CopyBackIsPure(hist: History, i: nat)
    requires Inv(hist) && i < |Last(hist)|
    ensures EditedPurely(hist, CopyBack(i), Apply(hist, CopyBack(i)).value)
  {
    var s, unused, g := hist.store, hist.unused, Last(hist)[i];
    CopyUntouched(s, unused, g);
    GrowPure(hist, CopyBack(i), Apply(hist, CopyBack(i)).value, {unused});
  }

  lemma MoveBackIsPure(hist: History, i: nat)
    requires Inv(hist) && i < |Last(hist)|
    ensures EditedPurely(hist, MoveBack(i), Apply(hist, MoveBack(i)).value)
  {
    var s, unused, g := hist.store, hist.unused, Last(hist)[i];
    MoveIsMove(s, unused, g);
    assert Values(MoveConstruct(s, unused, g))[unused] == Values(s)[g];
    GrowPure(hist, MoveBack(i), Apply(hist, MoveBack(i)).value, {unused, g});
  }

  lemma InPlaceIsPure(hist: History, e: Edit)
    requires Inv(hist) && (e.AssignAt? || e.WriteAt?) && e.i < |Last(hist)| && Apply(hist, e).Some?
    ensures EditedPurely(hist, e, Apply(hist, e).value)
  {
    if e.AssignAt? {
      AssignIsUpdate(hist.store, Last(hist)[e.i], e.v);
    } else {
      WriteIsolates(hist.store, Last(hist)[e.i], e.v);
    }
    InPlacePure(hist, e, e.i, e.v);
  }

  /** An edit acts on the current document as on a vector of independent values, and on nothing else. */
  lemma EditIsPure(hist: History, e: Edit)
    requires Inv(hist)
    ensures Apply(hist, e).Some? <==> PureEdit(Content(hist.store, Last(hist)), e).Some?
    ensures Apply(hist, e).Some? ==> EditedPurely(hist, e, Apply(hist, e).value)
  {
    if Apply(hist, e).Some? {
      match e
      case EmplaceBack(v) => EmplaceIsPure(hist, v);
      case CopyBack(i) => CopyBackIsPure(hist, i);
      case MoveBack(i) => MoveBackIsPure(hist, i);
      case PopBack => DestroyIsRemove(hist.store, Last(hist)[|Last(hist)| - 1]); PopPure(hist);
      case _ => InPlaceIsPure(hist, e);
    }
  }

  /** The store after copying the handles of `doc`. */
  ghost predicate HoldsCopies(s: State, s': State, unused: Handle, doc: seq<Handle>)
    requires Live(s) && Live(s') && (forall k :: k in doc ==> k in s.handles)
  {
    && Untouched(s, s', {})
    && (forall k :: k in s'.handles <==> k in s.handles || unused <= k < unused + |doc|)
    && (forall j :: 0 <= j < |doc| ==> ValueOf(s', unused + j) == ValueOf(s, doc[j]))
  }

  lemma CopiesFirst(s: State, s1: State, s': State, unused: Handle, doc: seq<Handle>)
    requires Live(s) && Live(s1) && Live(s') && doc != []
    requires (forall k :: k in s.handles ==> k < unused) && (forall k :: k in doc ==> k in s.handles)
    requires Untouched(s, s1, {unused}) && s1.handles.Keys == s.handles.Keys + {unused} && ValueOf(s1, unused) == ValueOf(s, doc[0])
    requires forall k :: k in doc[1..] ==> k in s1.handles
    requires HoldsCopies(s1, s', unused + 1, doc[1..])
    ensures HoldsCopies(s, s', unused, doc)
  {
    assert forall k :: k in s1.handles <==> k in s.handles || k == unused;
    forall j | 0 <= j < |doc|
      ensures unused + j in s'.handles && ValueOf(s', unused + j) == ValueOf(s, doc[j])
    {
      if j == 0 {
        assert unused in s1.handles;
      } else {
        assert doc[j] == doc[1..][j - 1] && doc[j] in doc;
        assert ValueOf(s', unused + 1 + (j - 1)) == ValueOf(s1, doc[j]);
      }
    }
  }

  lemma CopyFirst(s: State, unused: Handle, doc: seq<Handle>)
    requires WF(s) && doc != [] && (forall k :: k in s.handles ==> k < unused) && (forall k :: k in doc ==> k in s.handles)
    ensures var s1 := CopyConstruct(s, unused, doc[0]);
      WF(s1) && (forall k :: k in s1.handles ==> k < unused + 1) && (forall k :: k in doc[1..] ==> k in s1.handles)
      && CopyAll(s, unused, doc) == CopyAll(s1, unused + 1, doc[1..])
  {
    CopyUntouched(s, unused, doc[0]);
    assert forall k :: k in doc[1..] ==> k in CopyConstruct(s, unused, doc[0]).handles.Keys;
  }

  lemma {:induction false} CopyAllIsCopy(s: State, unused: Handle, doc: seq<Handle>)
    requires WF(s) && (forall k :: k in s.handles ==> k < unused) && (forall k :: k in doc ==> k in s.handles)
    ensures WF(CopyAll(s, unused, doc)) && HoldsCopies(s, CopyAll(s, unused, doc), unused, doc)
    decreases |doc|
  {
    if doc != [] {
      CopyUntouched(s, unused, doc[0]);
      CopyFirst(s, unused, doc);
      var s1, rest := CopyConstruct(s, unused, doc[0]), doc[1..];
      CopyAllIsCopy(s1, unused + 1, rest);
      CopiesFirst(s, s1, CopyAll(s1, unused + 1, rest), unused, doc);
    }
  }

  lemma DestroysFirst(s: State, s1: State, s': State, doc: seq<Handle>)
    requires Live(s) && Live(s1) && Live(s') && doc != []
    requires Untouched(s, s1, {doc[0]}) && s1.handles.Keys == s.handles.Keys - {doc[0]}
    requires Untouched(s1, s', Elems(doc[1..])) && s'.handles.Keys == s1.handles.Keys - Elems(doc[1..])
    ensures Untouched(s, s', Elems(doc)) && s'.handles.Keys == s.handles.Keys - Elems(doc)
  {
    assert doc == [doc[0]] + doc[1..];
    assert Elems(doc) == Elems(doc[1..]) + {doc[0]};
    assert forall k :: k in s1.handles <==> k in s.handles && k != doc[0];
  }

  lemma {:induction false} DestroyAllIsRemove(s: State, doc: seq<Handle>)
    requires WF(s) && (forall k :: k in doc ==> k in s.handles) && Distinct(doc)
    ensures var s' := DestroyAll(s, doc);
      WF(s') && Untouched(s, s', Elems(doc)) && s'.handles.Keys == s.handles.Keys - Elems(doc)
    decreases |doc|
  {
    if doc == [] {
      assert Elems(doc) == {};
    } else {
      DestroyIsRemove(s, doc[0]);
      var s1 := Destroy(s, doc[0]);
      assert forall k :: k in doc[1..] ==> k != doc[0] && k in s1.handles;
      DestroyAllIsRemove(s1, doc[1..]);
      DestroysFirst(s, s1, DestroyAll(s, doc), doc);
    }
  }

  lemma NumberedElems(unused: Handle, n: nat)
    ensures forall k :: k in Numbered(unused, n) <==> unused <= k < unused + n
    ensures Distinct(Numbered(unused, n))
  {
    var doc := Numbered(unused, n);
    forall k | unused <= k < unused + n
      ensures k in doc
    {
      assert doc[k - unused] == k;
    }
  }

  lemma CopiesRead(s: State, s': State, unused: Handle, doc: seq<Handle>)
    requires Live(s) && Live(s') && (forall k :: k in s.handles ==> k < unused) && (forall k :: k in doc ==> k in s.handles)
    requires HoldsCopies(s, s', unused, doc)
    ensures forall k :: k in Numbered(unused, |doc|) ==> k in s'.handles && k !in s.handles
    ensures Content(s', Numbered(unused, |doc|)) == Content(s, doc)
    ensures s'.handles.Keys - Elems(Numbered(unused, |doc|)) == s.handles.Keys
  {
    NumberedElems(unused, |doc|);
  }

  /** commit makes a document that reads the same and touches nothing that existed. */
  lemma CommitIsCopy(hist: History)
    requires Inv(hist)
    ensures var h1 := Commit(hist);
      Inv(h1) && h1.docs[..|h1.docs| - 1] == hist.docs && Untouched(hist.store, h1.store, {})
      && Content(h1.store, Last(h1)) == Content(hist.store, Last(hist))
      && h1.store.handles.Keys - Elems(Last(h1)) == hist.store.handles.Keys
      && forall k :: k in hist.store.handles ==> k !in Last(h1)
  {
    CopyAllIsCopy(hist.store, hist.unused, Last(hist));
    CopiesRead(hist.store, Commit(hist).store, hist.unused, Last(hist));
    NumberedElems(hist.unused, |Last(hist)|);
  }

  /** The handles and what they read determine the heap: no object outlives its handles. */
  lemma HeapDetermined(s: State, s': State)
    requires WF(s) && WF(s') && s'.handles == s.handles
    requires forall k :: k in s.handles ==> ValueOf(s', k) == ValueOf(s, k)
    ensures s'.heap == s.heap
  {
    forall a
      ensures a in s.heap <==> a in s'.heap
      ensures a in s.heap ==> s'.heap[a] == s.heap[a]
    {
      assert Owners(s', a) == Owners(s, a);
      if a in s.heap {
        var k :| k in Owners(s, a);
        assert ValueOf(s', k) == ValueOf(s, k);
      }
      if a in s'.heap {
        var k :| k in Owners(s', a);
      }
    }
  }

  // ---- The whole history ----

  datatype Op = DoCommit | DoUndo | DoEdit(edit: Edit)

  /** None where the program's assertion on the size of the history fails, or the edit does. */
  function Do(hist: History, op: Op): Option<History>
    requires Whole(hist)
  {
    if hist.docs == [] then None
    else match op
      case DoCommit => Some(Commit(hist))
      case DoUndo => Some(Undo(hist))
      case DoEdit(e) => Apply(hist, e)
  }

  /** What all documents read. */
  function Contents(hist: History): (r: seq<seq<Option<T>>>)
    requires Whole(hist)
    ensures |r| == |hist.docs|
  {
    seq(|hist.docs|, d requires 0 <= d < |hist.docs| => Content(hist.store, hist.docs[d]))
  }

  /** The same operation on a stack of plain vectors. */
  function PureDo(xss: seq<seq<Option<T>>>, op: Op): Option<seq<seq<Option<T>>>> {
    if xss == [] then None
    else
      var below, xs := xss[..|xss| - 1], xss[|xss| - 1];
      match op
      case DoCommit => Some(xss + [xs])
      case DoUndo => Some(below)
      case DoEdit(e) => match PureEdit(xs, e) case None => None case Some(ys) => Some(below + [ys])
  }

  /** A handle of one of the documents from the `n`-th on. */
  ghost predicate InUpper(docs: seq<seq<Handle>>, n: nat, k: Handle) {
    exists d :: n <= d < |docs| && k in docs[d]
  }

  /** From `hist` to `hist'` the first `n` documents are the same vectors, and no handle outside the other ones
      has come, gone or changed. */
  ghost predicate Frozen(hist: History, hist': History, n: nat)
    requires Live(hist.store) && Live(hist'.store)
  {
    && n <= |hist.docs| && n <= |hist'.docs| && hist'.docs[..n] == hist.docs[..n]
    && (forall k :: k in hist.store.handles && !InUpper(hist.docs, n, k) ==> FrozenHandle(hist, hist', n, k))
    && (forall k :: k in hist'.store.handles && !InUpper(hist'.docs, n, k) ==> k in hist.store.handles && !InUpper(hist.docs, n, k))
  }

  ghost predicate FrozenHandle(hist: History, hist': History, n: nat, k: Handle)
    requires Live(hist.store) && Live(hist'.store) && k in hist.store.handles
  {
    && k in hist'.store.handles && hist'.store.handles[k] == hist.store.handles[k]
    && ValueOf(hist'.store, k) == ValueOf(hist.store, k) && !InUpper(hist'.docs, n, k)
  }

  lemma FrozenTransitive(h0: History, h1: History, h2: History, n: nat)
    requires Live(h0.store) && Live(h1.store) && Live(h2.store) && Frozen(h0, h1, n) && Frozen(h1, h2, n)
    ensures Frozen(h0, h2, n)
  {
    forall k | k in h0.store.handles && !InUpper(h0.docs, n, k)
      ensures FrozenHandle(h0, h2, n, k)
    {
      assert FrozenHandle(h0, h1, n, k);
      assert FrozenHandle(h1, h2, n, k);
    }
  }

  /** What frozen documents read does not change. */
  lemma FrozenContents(hist: History, hist': History, n: nat)
    requires Whole(hist) && Whole(hist') && Frozen(hist, hist', n)
    ensures Contents(hist')[..n] == Contents(hist)[..n]
  {
    forall d | 0 <= d < n
      ensures Content(hist'.store, hist'.docs[d]) == Content(hist.store, hist.docs[d])
    {
      var doc := hist.docs[d];
      assert hist'.docs[d] == hist'.docs[..n][d] == hist.docs[..n][d] == doc;
      forall i | 0 <= i < |doc|
        ensures doc[i] in hist'.store.handles && ValueOf(hist'.store, doc[i]) == ValueOf(hist.store, doc[i])
      {
        assert doc[i] in doc && !InUpper(hist.docs, n, doc[i]);
        assert FrozenHandle(hist, hist', n, doc[i]);
      }
    }
  }

  lemma FrozenLower(hist: History, hist': History, m: nat, n: nat)
    requires Live(hist.store) && Live(hist'.store) && Frozen(hist, hist', m) && n <= m
    ensures Frozen(hist, hist', n)
  {
    assert hist'.docs[..n] == hist'.docs[..m][..n] == hist.docs[..n];
    UpperLower(hist.docs, hist'.docs, m, n);
    UpperLower(hist'.docs, hist.docs, m, n);
    forall k | k in hist.store.handles && !InUpper(hist.docs, n, k)
      ensures FrozenHandle(hist, hist', n, k)
    {
      assert FrozenHandle(hist, hist', m, k);
    }
  }

  lemma UpperLower(docs: seq<seq<Handle>>, docs': seq<seq<Handle>>, m: nat, n: nat)
    requires n <= m <= |docs| && m <= |docs'| && docs[..m] == docs'[..m]
    ensures forall k :: InUpper(docs, m, k) ==> InUpper(docs, n, k)
    ensures forall k :: InUpper(docs, n, k) ==> InUpper(docs, m, k) || InUpper(docs', n, k)
  {
    forall k | InUpper(docs, n, k) && !InUpper(docs, m, k)
      ensures InUpper(docs', n, k)
    {
      var d :| n <= d < |docs| && k in docs[d];
      assert docs'[d] == docs'[..m][d] == docs[..m][d] == docs[d];
    }
  }

  lemma UpperTop(docs: seq<seq<Handle>>, n: nat)
    requires n == |docs| || n + 1 == |docs|
    ensures forall k :: InUpper(docs, n, k) <==> n < |docs| && k in docs[n]
  {
  }

  /** A history whose first `m` documents are frozen is in good order if the one above them is. */
  lemma FrozenWhole(hist: History, hist': History, m: nat)
    requires Whole(hist) && WF(hist'.store) && Frozen(hist, hist', m) && |hist'.docs| <= m + 1
    requires forall k :: k in hist'.store.handles ==> k < hist'.unused
    requires |hist'.docs| == m + 1 ==> Distinct(Last(hist')) && forall k :: k in Last(hist') ==> k in hist'.store.handles
    ensures Whole(hist')
  {
    forall d, k | 0 <= d < m && k in hist'.docs[d]
      ensures hist'.docs[d] == hist.docs[d] && k in hist'.store.handles && !InUpper(hist'.docs, m, k)
    {
      assert hist'.docs[d] == hist'.docs[..m][d] == hist.docs[..m][d] == hist.docs[d];
      assert !InUpper(hist.docs, m, k);
      assert FrozenHandle(hist, hist', m, k);
    }
    assert forall d :: 0 <= d < m ==> hist'.docs[..m][d] == hist.docs[..m][d];
  }

  // ---- Each operation acts on the top of the stack as on plain vectors ----

  lemma CommitFrozen(hist: History)
    requires Whole(hist) && hist.docs != []
    ensures Whole(Commit(hist)) && Frozen(hist, Commit(hist), |hist.docs|)
    ensures Content(Commit(hist).store, Last(Commit(hist))) == Content(hist.store, Last(hist))
  {
    CommitIsCopy(hist);
    var h1, n := Commit(hist), |hist.docs|;
    assert h1.docs[..n] == hist.docs[..n];
    PushFrozen(hist, h1);
    FrozenWhole(hist, h1, n);
  }

  lemma PushFrozen(hist: History, h1: History)
    requires Live(hist.store) && Live(h1.store) && Untouched(hist.store, h1.store, {})
    requires |h1.docs| == |hist.docs| + 1 && h1.docs[..|hist.docs|] == hist.docs[..|hist.docs|]
    requires h1.store.handles.Keys - Elems(Last(h1)) == hist.store.handles.Keys && forall k :: k in hist.store.handles ==> k !in Last(h1)
    ensures Frozen(hist, h1, |hist.docs|)
  {
    UpperTop(h1.docs, |hist.docs|);
    UpperTop(hist.docs, |hist.docs|);
    assert forall k :: k in h1.store.handles.Keys - Elems(Last(h1)) <==> k in hist.store.handles.Keys;
  }

  lemma UndoFrozen(hist: History)
    requires Whole(hist) && hist.docs != []
    ensures Whole(Undo(hist)) && Frozen(hist, Undo(hist), |hist.docs| - 1)
  {
    DestroyAllIsRemove(hist.store, Last(hist));
    var h1, n := Undo(hist), |hist.docs| - 1;
    UpperTop(h1.docs, n);
    UpperTop(hist.docs, n);
    assert h1.docs[..n] == hist.docs[..n];
    assert forall k :: k in h1.store.handles.Keys <==> k in hist.store.handles.Keys && k !in Elems(Last(hist));
    FrozenWhole(hist, h1, n);
  }

  lemma EditFrozen(hist: History, e: Edit)
    requires Whole(hist) && hist.docs != [] && Apply(hist, e).Some? && EditedPurely(hist, e, Apply(hist, e).value)
    ensures Whole(Apply(hist, e).value) && Frozen(hist, Apply(hist, e).value, |hist.docs| - 1)
  {
    SameDepth(hist, e);
    ReplacedFrozen(hist, Apply(hist, e).value);
    FrozenWhole(hist, Apply(hist, e).value, |hist.docs| - 1);
  }

  lemma ReplacedFrozen(hist: History, h1: History)
    requires Inv(hist) && Inv(h1) && SameOutside(hist, h1)
    requires |h1.docs| == |hist.docs| && h1.docs[..|hist.docs| - 1] == hist.docs[..|hist.docs| - 1]
    ensures Frozen(hist, h1, |hist.docs| - 1)
  {
    var n := |hist.docs| - 1;
    UpperTop(h1.docs, n);
    UpperTop(hist.docs, n);
    forall k | k in hist.store.handles && k !in Last(hist)
      ensures k in h1.store.handles && k !in Last(h1)
    {
      assert k in hist.store.handles.Keys - Elems(Last(hist));
    }
    forall k | k in h1.store.handles && k !in Last(h1)
      ensures k in hist.store.handles && k !in Last(hist)
    {
      assert k in h1.store.handles.Keys - Elems(Last(h1));
    }
  }

  /** Above the frozen documents one document is left. */
  lemma TopContents(hist: History, h1: History, n: nat)
    requires Whole(hist) && Whole(h1) && Frozen(hist, h1, n) && |h1.docs| == n + 1
    ensures Contents(h1) == Contents(hist)[..n] + [Content(h1.store, Last(h1))]
  {
    FrozenContents(hist, h1, n);
    assert Contents(h1) == Contents(h1)[..n] + [Contents(h1)[n]];
  }

  lemma CommitPure(hist: History, h1: History)
    requires Whole(hist) && Whole(h1) && hist.docs != [] && Frozen(hist, h1, |hist.docs|) && |h1.docs| == |hist.docs| + 1
    requires Content(h1.store, Last(h1)) == Content(hist.store, Last(hist))
    ensures PureDo(Contents(hist), DoCommit) == Some(Contents(h1))
  {
    TopContents(hist, h1, |hist.docs|);
    assert Contents(hist)[..|hist.docs|] == Contents(hist);
  }

  lemma UndoPure(hist: History)
    requires Whole(hist) && hist.docs != []
    ensures Whole(Undo(hist)) && PureDo(Contents(hist), DoUndo) == Some(Contents(Undo(hist)))
  {
    UndoFrozen(hist);
    FrozenContents(hist, Undo(hist), |hist.docs| - 1);
    var yss := Contents(Undo(hist));
    assert yss[..|yss|] == yss;
  }

  lemma EditPure(hist: History, e: Edit, h1: History)
    requires Whole(hist) && Whole(h1) && hist.docs != [] && Frozen(hist, h1, |hist.docs| - 1) && |h1.docs| == |hist.docs|
    requires Some(Content(h1.store, Last(h1))) == PureEdit(Content(hist.store, Last(hist)), e)
    ensures PureDo(Contents(hist), DoEdit(e)) == Some(Contents(h1))
  {
    TopContents(hist, h1, |hist.docs| - 1);
  }

  lemma SameDepth(hist: History, e: Edit)
    requires Inv(hist) && Apply(hist, e).Some?
    ensures |Apply(hist, e).value.docs| == |hist.docs|
  {
  }

  /** One operation: it fails exactly when it does on the stack of plain vectors, and otherwise leaves what that
      one leaves; only a commit may start from the `n` documents that stay frozen. */
  lemma DoIsPure(hist: History, op: Op, n: nat)
    requires Whole(hist)
    ensures Do(hist, op).Some? <==> PureDo(Contents(hist), op).Some?
    ensures Do(hist, op).Some? ==> Whole(Do(hist, op).value) && Some(Contents(Do(hist, op).value)) == PureDo(Contents(hist), op)
    ensures Do(hist, op).Some? && (n < |hist.docs| || (n == |hist.docs| && op.DoCommit?)) ==> Frozen(hist, Do(hist, op).value, n)
  {
    if hist.docs != [] && op.DoEdit? {
      EditIsPure(hist, op.edit);
    }
    if Do(hist, op).Some? {
      match op {
        case DoCommit => CommitFrozen(hist); CommitPure(hist, Commit(hist));
        case DoUndo => UndoPure(hist); UndoFrozen(hist);
        case DoEdit(e) => EditFrozen(hist, e); SameDepth(hist, e); EditPure(hist, e, Apply(hist, e).value);
      }
      if n < |hist.docs| || (n == |hist.docs| && op.DoCommit?) {
        FrozenLower(hist, Do(hist, op).value, if op.DoCommit? then |hist.docs| else |hist.docs| - 1, n);
      }
    }
  }

  // ---- Whole runs ----

  function DoAll(hist: History, ops: seq<Op>): Option<History>
    requires Whole(hist)
    decreases |ops|
  {
    if ops == [] then Some(hist)
    else
      DoIsPure(hist, ops[0], 0);
      match Do(hist, ops[0]) case None => None case Some(h1) => DoAll(h1, ops[1..])
  }

  function PureDoAll(xss: seq<seq<Option<T>>>, ops: seq<Op>): Option<seq<seq<Option<T>>>>
    decreases |ops|
  {
    if ops == [] then Some(xss)
    else match PureDo(xss, ops[0]) case None => None case Some(yss) => PureDoAll(yss, ops[1..])
  }

  /** Any sequence of commits, edits and undos succeeds exactly when it does on a stack of independent vectors of
      plain values, and leaves documents that read as those; handles outside the documents are left alone. */
  lemma {:induction false} HistoryIsPure(hist: History, ops: seq<Op>)
    requires Whole(hist)
    ensures DoAll(hist, ops).Some? <==> PureDoAll(Contents(hist), ops).Some?
    ensures DoAll(hist, ops).Some? ==>
      Whole(DoAll(hist, ops).value) && Some(Contents(DoAll(hist, ops).value)) == PureDoAll(Contents(hist), ops)
      && Frozen(hist, DoAll(hist, ops).value, 0)
    decreases |ops|
  {
    if ops != [] {
      DoIsPure(hist, ops[0], 0);
      if Do(hist, ops[0]).Some? {
        var h1 := Do(hist, ops[0]).value;
        HistoryIsPure(h1, ops[1..]);
        if DoAll(h1, ops[1..]).Some? {
          FrozenTransitive(hist, h1, DoAll(h1, ops[1..]).value, 0);
        }
      }
    }
  }

  /** The operations reach down to depth `n` at most to commit from there. */
  predicate Above(hist: History, ops: seq<Op>, n: nat)
    requires Whole(hist)
    decreases |ops|
  {
    ops == [] ||
      (DoIsPure(hist, ops[0], n);
       && (n < |hist.docs| || (n == |hist.docs| && ops[0].DoCommit?))
       && Do(hist, ops[0]).Some? && Above(Do(hist, ops[0]).value, ops[1..], n))
  }

  lemma {:induction false} AboveFrozen(hist: History, ops: seq<Op>, n: nat)
    requires Whole(hist) && n <= |hist.docs| && Above(hist, ops, n)
    ensures DoAll(hist, ops).Some? && Whole(DoAll(hist, ops).value) && Frozen(hist, DoAll(hist, ops).value, n)
    decreases |ops|
  {
    if ops != [] {
      var h1 := Do(hist, ops[0]).value;
      DoIsPure(hist, ops[0], n);
      AboveFrozen(h1, ops[1..], n);
      FrozenTransitive(hist, h1, DoAll(h1, ops[1..]).value, n);
    }
  }

  /** Commits, edits and undos in any order that only commit from the depth they start at and end at that depth
      restore the history exactly: the same documents, the same handles and the same heap, with every count and
      value, and with every object made since then freed. */
  lemma UndoRestores(hist: History, ops: seq<Op>)
    requires Whole(hist) && Above(hist, ops, |hist.docs|)
    ensures DoAll(hist, ops).Some?
    ensures var h1 := DoAll(hist, ops).value;
      Whole(h1) && |h1.docs| >= |hist.docs| && (|h1.docs| == |hist.docs| ==>
        h1.docs == hist.docs && h1.store.handles == hist.store.handles && h1.store.heap == hist.store.heap)
  {
    AboveFrozen(hist, ops, |hist.docs|);
    var h1, n := DoAll(hist, ops).value, |hist.docs|;
    if |h1.docs| == n {
      UpperTop(hist.docs, n);
      UpperTop(h1.docs, n);
      assert h1.docs == h1.docs[..n] == hist.docs[..n] == hist.docs;
      assert forall k :: k in hist.store.handles ==> FrozenHandle(hist, h1, n, k);
      assert h1.store.handles == hist.store.handles;
      HeapDetermined(hist.store, h1.store);
    }
  }

  /** `history_t h(1)`. */
  function Fresh(): History {
    History(State(map[], 0, map[]), 0, [[]])
  }

  /** Nothing leaks: whatever a program did to a new history, every object alive belongs to a document. */
  lemma NothingLeaks(ops: seq<Op>, a: Addr)
    ensures Whole(Fresh())
    ensures DoAll(Fresh(), ops).Some? ==>
      var h1 := DoAll(Fresh(), ops).value;
      a in h1.store.heap <==> exists k :: InUpper(h1.docs, 0, k) && k in h1.store.handles && h1.store.handles[k] == Some(a)
  {
    HistoryIsPure(Fresh(), ops);
    if DoAll(Fresh(), ops).Some? {
      var h1 := DoAll(Fresh(), ops).value;
      if a in h1.store.heap {
        var k :| k in Owners(h1.store, a);
        assert InUpper(h1.docs, 0, k);
      }
    }
  }

  /** One turn of the copying loop. */
  lemma CopyNext(s: State, unused: Handle, doc: seq<Handle>, i: nat)
    requires WF(s) && i < |doc| && (forall k :: k in s.handles ==> k < unused) && (forall k :: k in doc ==> k in s.handles)
    ensures var s1 := CopyConstruct(s, unused, doc[i]);
      WF(s1) && (forall k :: k in s1.handles ==> k < unused + 1) && (forall k :: k in doc ==> k in s1.handles)
      && CopyAll(s, unused, doc[i..]) == CopyAll(s1, unused + 1, doc[i + 1..])
  {
    CopyUntouched(s, unused, doc[i]);
    assert doc[i..][0] == doc[i] && doc[i..][1..] == doc[i + 1..];
    assert forall k :: k in doc ==> k in CopyConstruct(s, unused, doc[i]).handles.Keys;
  }

  // ---- The library object: heap, handles and history updated in place ----

  class Library {
    var heap: map<Addr, Cell>
    var next: Addr
    var handles: map<Handle, Option<Addr>>
    var unused: Handle
    var docs: seq<seq<Handle>>

    ghost function Store(): State
      reads this
    {
      State(heap, next, handles)
    }

    ghost function View(): History
      reads this
    {
      History(Store(), unused, docs)
    }

    ghost predicate Valid()
      reads this
    {
      WF(Store()) && forall k :: k in handles ==> k < unused
    }

    /** history_t h(1). */
    constructor ()
      ensures Valid() && Whole(View()) && View() == Fresh()
    {
      heap, next, handles, unused, docs := map[], 0, map[], 0, [[]];
    }

    /** copy_on_write(T). */
    method Construct(v: T) returns (h: Handle)
      requires Valid()
      modifies `heap, `next, `handles, `unused
      ensures Valid() && h == old(unused) && unused == old(unused) + 1 && Store() == Create(old(Store()), h, v)
    {
      CreateIsInsert(Store(), unused, v);
      h := unused;
      heap := heap[next := Cell(1, v)];
      handles := handles[h := Some(next)];
      next, unused := next + 1, unused + 1;
    }

    /** copy_on_write(const copy_on_write&). */
    method CopyOf(g: Handle) returns (h: Handle)
      requires Valid() && g in handles
      modifies `heap, `handles, `unused
      ensures Valid() && h == old(unused) && unused == old(unused) + 1 && Store() == CopyConstruct(old(Store()), h, g)
    {
      CopyIsCopy(Store(), unused, g);
      h := unused;
      var target := handles[g];
      if target.Some? {
        heap := heap[target.value := heap[target.value].(count := heap[target.value].count + 1)];
      }
      handles := handles[h := target];
      unused := unused + 1;
    }

    /** copy_on_write(copy_on_write&&). */
    method MoveOf(g: Handle) returns (h: Handle)
      requires Valid() && g in handles
      modifies `handles, `unused
      ensures Valid() && h == old(unused) && unused == old(unused) + 1 && Store() == MoveConstruct(old(Store()), h, g)
    {
      MoveIsMove(Store(), unused, g);
      h := unused;
      handles := handles[h := handles[g]];
      handles := handles[g := None];
      unused := unused + 1;
    }

    /** release(), on the pointer of handle `h`. */
    method ReleasePointer(p: Option<Addr>)
      requires p.Some? ==> p.value in heap && heap[p.value].count > 0
      modifies `heap
      ensures Store() == Release(old(Store()), p)
    {
      if p.None? {
        return;
      }
      var a := p.value;
      heap := heap[a := heap[a].(count := heap[a].count - 1)];
      if heap[a].count != 0 {
        return;
      }
      heap := heap - {a};
      assert heap == old(heap) - {a};
    }

    /** ~copy_on_write(). */
    method DestroyHandle(h: Handle)
      requires Valid() && h in handles
      modifies `heap, `handles
      ensures Usable(old(Store()), h) && Valid() && Store() == Destroy(old(Store()), h)
    {
      DestroyIsRemove(Store(), h);
      ReleasePointer(handles[h]);
      handles := handles - {h};
    }

    /** operator=(T). */
    method AssignValue(h: Handle, v: T)
      requires Valid() && h in handles
      modifies `heap, `next, `handles
      ensures Valid() && Values(Store()) == old(Values(Store()))[h := Some(v)]
      ensures Usable(old(Store()), h) && (old(handles)[h].Some? ==> old(handles)[h].value < old(next)) && Store() == Assign(old(Store()), h, v)
    {
      ghost var before := Store();
      AssignIsUpdate(before, h, v);
      var target := handles[h];
      if target.None? {
        heap := heap[next := Cell(1, v)];
        handles := handles[h := Some(next)];
        next := next + 1;
      } else if heap[target.value].count == 1 {
        heap := heap[target.value := heap[target.value].(value := v)];
      } else {
        ResetTo(h, v);
      }
      assert Store() == Assign(before, h, v);
    }

    /** reset(new implementation_t(v)). */
    method ResetTo(h: Handle, v: T)
      requires Valid() && h in handles
      modifies `heap, `next, `handles
      ensures Usable(old(Store()), h) && (old(handles)[h].Some? ==> old(handles)[h].value < old(next))
      ensures Valid() && Store() == Reset(old(Store()), h, v)
    {
      ResetIsUpdate(Store(), h, v);
      var to := next;
      heap := heap[to := Cell(1, v)];
      next := next + 1;
      ReleasePointer(handles[h]);
      handles := handles[h := Some(to)];
    }

    /** write(): the address whose value the caller may now store to. */
    method WriteReference(h: Handle) returns (a: Addr)
      requires Valid() && h in handles && handles[h].Some?
      modifies `heap, `next, `handles
      ensures Valid() && Values(Store()) == old(Values(Store()))
      ensures Usable(old(Store()), h) && old(handles)[h].value < old(next) && Store() == Write(old(Store()), h)
      ensures h in handles && handles[h] == Some(a) && a in heap && heap[a].count == 1
    {
      WriteMakesPrivate(Store(), h);
      var v := heap[handles[h].value].value;
      if !(heap[handles[h].value].count == 1) {
        ResetTo(h, v);
      }
      a := handles[h].value;
    }

    /** read(). */
    method ReadValue(h: Handle) returns (v: T)
      requires Valid() && h in handles && handles[h].Some?
      ensures Some(v) == Values(Store())[h]
    {
      v := heap[handles[h].value].value;
    }

    /** commit: the vector copy constructor copies the handles one by one. */
    method CommitDocument()
      requires Inv(View())
      modifies this
      ensures Inv(old(View())) && View() == Commit(old(View()))
    {
      var doc, copy := docs[|docs| - 1], [];
      ghost var s0, u0 := Store(), unused;
      assert doc[0..] == doc;
      for i := 0 to |doc|
        invariant Valid() && docs == old(docs) && (forall k :: k in doc ==> k in handles)
        invariant unused == u0 + i && copy == Numbered(u0, i)
        invariant CopyAll(s0, u0, doc) == CopyAll(Store(), unused, doc[i..])
      {
        CopyNext(Store(), unused, doc, i);
        var h := CopyOf(doc[i]);
        copy := copy + [h];
      }
      docs := docs + [copy];
    }

    /** undo: the vector destructor destroys the handles one by one. */
    method UndoDocument()
      requires Inv(View())
      modifies this
      ensures Inv(old(View())) && View() == Undo(old(View()))
    {
      var doc := docs[|docs| - 1];
      ghost var s0 := Store();
      assert doc[0..] == doc;
      for i := 0 to |doc|
        invariant Valid() && docs == old(docs) && unused == old(unused)
        invariant Distinct(doc) && (forall j :: i <= j < |doc| ==> doc[j] in handles)
        invariant DestroyAll(s0, doc) == DestroyAll(Store(), doc[i..])
      {
        assert doc[i..][0] == doc[i] && doc[i..][1..] == doc[i + 1..];
        DestroyIsRemove(Store(), doc[i]);
        DestroyHandle(doc[i]);
      }
      docs := docs[..|docs| - 1];
    }
  }
}
