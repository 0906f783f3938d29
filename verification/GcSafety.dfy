/**
 What a collection leaves behind: when no survivor refers to a freed object,
 and that the next collection can start from the result of this one.
 */
module GcSafety {
  import opened Common
  import opened GcHeap
  import opened Collector

  /** The heap a collection leaves. */
  ghost function HeapAfter(h: Heap, st: State, finalized: set<Ref>): Heap
  {
    FinalHeap(MidHeap(h, st), Survivors(h, st, finalized))
  }

  /** A heap a collection may start from. */
  ghost predicate Collectable(h: Heap, st: State)
  {
    NoStrays(h, st.current) && OpenSlotsLive(h, st.current) && Roots(h, st) <= h.Keys
  }

  /**
   Every surviving weak-key, strong-value table holds, under keys that are not
   collectable, only values that survive. Convergence skips such entries.
   */
  ghost predicate PlainKeysHoldLiveValues(h: Heap, live: set<Ref>)
  {
    forall t, n :: t in live && t in h && IsEphemeronTable(h[t]) && n in h[t].hash && n.used && !n.key.Obj?
      && n.value.Obj?
      ==> n.value.ref in live
  }

  /** The checkable sufficient form: collectable values only under collectable keys. */
  ghost predicate PlainKeysHoldPlainValues(h: Heap)
  {
    forall t, n :: t in h && IsEphemeronTable(h[t]) && n in h[t].hash && n.used && n.value.Obj? ==> n.key.Obj?
  }

  lemma ClearingKeysIsUntraced(h: Heap, cur: Ref, live: set<Ref>)
    ensures GraphOf(ClearWeakHeap(h, Keys, live), cur) == GraphOf(h, cur)
  {
    hide HighWater, FramesRefs, NodesRefs, OptionsRefs, ValueRefs;
    var h' := ClearWeakHeap(h, Keys, live);
    forall o | o in h
      ensures Children(h', cur, o) == Children(h, cur, o)
    {
      if h[o].Table? && h[o].weakKeys {
        NodesRefsSame(h'[o].hash, h[o].hash, true, h[o].weakValues);
      }
    }
  }

  /** Freeing objects outside a closed set changes no edge inside it. */
  lemma FreeingIsUntraced(h: Heap, cur: Ref, live: set<Ref>, o: Ref)
    requires o in live && live <= h.Keys && ClosedIn(GraphOf(h, cur), live)
    ensures Children(h - (h.Keys - live), cur, o) == Children(h, cur, o)
  {
    ChildrenWithin(h, cur, o, live);
    if h[o].OpenUpVal? {
      assert h[o].thread in Children(h, cur, o);
    }
  }

  lemma SurvivorsClosed(h: Heap, st: State, finalized: set<Ref>)
    requires Collectable(h, st)
    ensures var live := Survivors(h, st, finalized);
      live <= h.Keys && Roots(h, st) <= live && Closed(h, st.current, live)
  {
    SurvivorBounds(h, st, finalized);
    ReachIsLeast(h, st.current, Roots(h, st) + Doomed(h, st, finalized));
  }

  /** A survivor keeps exactly its strong edges. */
  lemma EdgesAfter(h: Heap, st: State, finalized: set<Ref>)
    requires Collectable(h, st)
    ensures var live, h' := Survivors(h, st, finalized), HeapAfter(h, st, finalized);
      && h'.Keys == live && live <= h.Keys
      && forall o :: o in live ==> ChildSet(h', st.current, o) == ChildSet(h, st.current, o)
  {
    hide Survivors, Children, MidHeap, Roots, Closed, ClosedIn, ClearWeak;
    var cur, live, mid := st.current, Survivors(h, st, finalized), MidHeap(h, st);
    var h2 := ClearWeakHeap(mid, Values, live);
    var h3 := ClearWeakHeap(h2, Keys, live);
    SurvivorBounds(h, st, finalized);
    MidHeapFacts(h, st);
    ClearingValuesIsUntraced(mid, cur, live);
    ClearingKeysIsUntraced(h2, cur, live);
    forall o | o in live
      ensures ChildSet(HeapAfter(h, st, finalized), cur, o) == ChildSet(h, cur, o)
    {
      FreeingIsUntraced(h3, cur, live, o);
      assert GraphOf(h3, cur)[o] == GraphOf(h, cur)[o];
    }
  }

  lemma EdgeAfter(h: Heap, st: State, finalized: set<Ref>, o: Ref, r: Ref)
    requires Collectable(h, st) && o in Survivors(h, st, finalized)
    ensures HeapAfter(h, st, finalized).Keys == Survivors(h, st, finalized) <= h.Keys
    ensures Edge(HeapAfter(h, st, finalized), st.current, o, r) <==> Edge(h, st.current, o, r)
  {
    hide Survivors, HeapAfter, Children, Edge;
    EdgesAfter(h, st, finalized);
    ChildrenAreEdges(h, st.current, o, r);
    ChildrenAreEdges(HeapAfter(h, st, finalized), st.current, o, r);
    assert r in ChildSet(HeapAfter(h, st, finalized), st.current, o) <==> r in ChildSet(h, st.current, o);
  }

  // ----- Table entries -----

  /** A hash node after a collection: dead weak keys go with their value, weak values stay if strongly reached. */
  ghost function NodeAfter(n: Node, wk: bool, wv: bool, strong: set<Ref>, live: set<Ref>): Node
  {
    if !n.used then n
    else if wk && n.key.Obj? && n.key.ref !in live then Node(true, Nil, Nil)
    else n.(value := if wv then KeepLive(n.value, strong) else n.value)
  }

  lemma ObjectAfter(h: Heap, st: State, finalized: set<Ref>, o: Ref)
    requires Collectable(h, st) && o in Survivors(h, st, finalized)
    ensures o in h && o in HeapAfter(h, st, finalized)
    ensures var strong, live := StrongReach(h, st.current, Roots(h, st)), Survivors(h, st, finalized);
      HeapAfter(h, st, finalized)[o]
      == ClearWeak(ClearWeak(ClearWeak(WipeObject(h, st, o), Values, strong), Values, live), Keys, live)
  {
    hide Survivors, StrongReach, Roots, NoStrays, OpenSlotsLive, Reach, ClearWeak, WipeObject;
    SurvivorBounds(h, st, finalized);
  }

  lemma ThreeClears(o: Object, strong: set<Ref>, live: set<Ref>)
    requires strong <= live
    ensures var o' := ClearWeak(ClearWeak(ClearWeak(o, Values, strong), Values, live), Keys, live);
      if !o.Table? then o' == o else
        && o'.Table? && o'.metatable == o.metatable && o'.weakKeys == o.weakKeys && o'.weakValues == o.weakValues
        && |o'.items| == |o.items| && |o'.hash| == |o.hash|
        && (forall i :: 0 <= i < |o.items| ==>
              o'.items[i] == if o.weakValues then KeepLive(o.items[i], strong) else o.items[i])
        && (forall i :: 0 <= i < |o.hash| ==>
              o'.hash[i] == NodeAfter(o.hash[i], o.weakKeys, o.weakValues, strong, live))
  {
  }

  lemma EntriesAfter(h: Heap, st: State, finalized: set<Ref>, t: Ref)
    requires Collectable(h, st) && t in Survivors(h, st, finalized)
    ensures t in h && t in HeapAfter(h, st, finalized)
    ensures h[t].Table? <==> HeapAfter(h, st, finalized)[t].Table?
    ensures h[t].Table? ==>
      var strong, live := StrongReach(h, st.current, Roots(h, st)), Survivors(h, st, finalized);
      var o, o' := h[t], HeapAfter(h, st, finalized)[t];
      && o'.Table? && o'.metatable == o.metatable && o'.weakKeys == o.weakKeys && o'.weakValues == o.weakValues
      && |o'.items| == |o.items| && |o'.hash| == |o.hash|
      && (forall i :: 0 <= i < |o.items| ==>
            o'.items[i] == if o.weakValues then KeepLive(o.items[i], strong) else o.items[i])
      && (forall i :: 0 <= i < |o.hash| ==> o'.hash[i] == NodeAfter(o.hash[i], o.weakKeys, o.weakValues, strong, live))
  {
    hide Survivors, StrongReach, Roots, NoStrays, OpenSlotsLive, Reach, ClearWeak, HeapAfter;
    SurvivorBounds(h, st, finalized);
    ObjectAfter(h, st, finalized, t);
    ThreeClears(WipeObject(h, st, t), StrongReach(h, st.current, Roots(h, st)), Survivors(h, st, finalized));
  }

  /** The table entries of a survivor, seen through the entries it started with. */
  lemma EntryAfter(h: Heap, st: State, finalized: set<Ref>, t: Ref, r: Ref)
    requires Collectable(h, st) && t in Survivors(h, st, finalized)
    requires t in HeapAfter(h, st, finalized) && EntryRef(HeapAfter(h, st, finalized), t, r)
    requires PlainKeysHoldLiveValues(h, Survivors(h, st, finalized))
    ensures r in Survivors(h, st, finalized)
  {
    hide Survivors, StrongReach, Roots, NoStrays, OpenSlotsLive, Reach, HeapAfter;
    var live, strong := Survivors(h, st, finalized), StrongReach(h, st.current, Roots(h, st));
    SurvivorBounds(h, st, finalized);
    SurvivorsClosed(h, st, finalized);
    EntriesAfter(h, st, finalized, t);
    EdgesAfter(h, st, finalized);
    var o, o' := h[t], HeapAfter(h, st, finalized)[t];
    assert o.Table?;
    if Obj(r) in o'.items {
      var i :| 0 <= i < |o'.items| && o'.items[i] == Obj(r);
      if !o.weakValues {
        assert Obj(r) in o.items && Edge(h, st.current, t, r);
      }
    } else {
      var n' :| n' in o'.hash && n'.used && (n'.key == Obj(r) || n'.value == Obj(r));
      var i :| 0 <= i < |o'.hash| && o'.hash[i] == n';
      NodeRefAfter(h, st.current, t, i, strong, live, r);
    }
  }

  lemma NodeRefAfter(h: Heap, cur: Ref, t: Ref, i: nat, strong: set<Ref>, live: set<Ref>, r: Ref)
    requires t in live && t in h && h[t].Table? && i < |h[t].hash| && strong <= live && Closed(h, cur, live)
    requires PlainKeysHoldLiveValues(h, live)
    requires var n' := NodeAfter(h[t].hash[i], h[t].weakKeys, h[t].weakValues, strong, live);
      n'.used && (n'.key == Obj(r) || n'.value == Obj(r))
    ensures r in live
  {
    var n, wk, wv := h[t].hash[i], h[t].weakKeys, h[t].weakValues;
    assert n in h[t].hash;
    if !wk && (n.key == Obj(r) || (!wv && n.value == Obj(r))) {
      assert Edge(h, cur, t, r);
    } else if wk && !wv && n.value == Obj(r) && n.key.Obj? {
      assert Ephemeron(h, t, n.key.ref, r);
    }
  }

  /**
   No survivor refers to a freed object, by a traced edge or by any table entry,
   exactly when the surviving ephemeron tables hold only surviving values under
   keys that are not collectable.
   */
  lemma NoDanglingIff(h: Heap, st: State, finalized: set<Ref>)
    requires Collectable(h, st)
    ensures NoStrays(HeapAfter(h, st, finalized), st.current)
        <==> PlainKeysHoldLiveValues(h, Survivors(h, st, finalized))
  {
    hide Survivors, StrongReach, Roots, OpenSlotsLive, Reach, HeapAfter;
    var live, h' := Survivors(h, st, finalized), HeapAfter(h, st, finalized);
    EdgesAfter(h, st, finalized);
    SurvivorsClosed(h, st, finalized);
    if PlainKeysHoldLiveValues(h, live) {
      forall o, r | o in h' && Edge(h', st.current, o, r)
        ensures r in h'
      {
        EdgeAfter(h, st, finalized, o, r);
      }
      forall t, r | t in h' && EntryRef(h', t, r)
        ensures r in h'
      {
        EntryAfter(h, st, finalized, t, r);
      }
    } else {
      var t, n :| t in live && t in h && IsEphemeronTable(h[t]) && n in h[t].hash && n.used && !n.key.Obj?
        && n.value.Obj? && n.value.ref !in live;
      EntriesAfter(h, st, finalized, t);
      var i :| 0 <= i < |h[t].hash| && h[t].hash[i] == n;
      assert h'[t].hash[i] == n;
      assert n in h'[t].hash;
      assert EntryRef(h', t, n.value.ref);
    }
  }

  /** Heaps that keep collectable values only under collectable keys are safe. */
  lemma PlainTablesNeverDangle(h: Heap, st: State, finalized: set<Ref>)
    requires Collectable(h, st) && PlainKeysHoldPlainValues(h)
    ensures NoStrays(HeapAfter(h, st, finalized), st.current)
  {
    hide Survivors, HeapAfter, Collectable, NoStrays;
    NoDanglingIff(h, st, finalized);
  }

  // ----- Stack slots -----

  /** A slot of a surviving thread: live ones are kept, and so is what they hold; dead ones of the two threads that
      are wiped are nil; the rest is untouched. */
  ghost predicate SlotAfter(h: Heap, st: State, live: set<Ref>, h': Heap, t: Ref, i: nat)
    requires t in h && h[t].Thread? && i < |h[t].stack|
  {
    && t in h' && h'[t].Thread? && |h'[t].stack| == |h[t].stack|
    && if SlotLive(h[t], t == st.current, i) then
         h'[t].stack[i] == h[t].stack[i] && (h[t].stack[i].Obj? ==> h[t].stack[i].ref in live)
       else
         h'[t].stack[i] == if t == st.main || t == st.current then Nil else h[t].stack[i]
  }

  lemma SlotsAfter(h: Heap, st: State, finalized: set<Ref>, t: Ref, i: nat)
    requires Collectable(h, st) && t in Survivors(h, st, finalized) && t in h && h[t].Thread? && i < |h[t].stack|
    ensures SlotAfter(h, st, Survivors(h, st, finalized), HeapAfter(h, st, finalized), t, i)
  {
    hide Survivors, HeapAfter, NoStrays, OpenSlotsLive, Roots, StrongReach, SlotLive;
    ObjectAfter(h, st, finalized, t);
    SurvivorsClosed(h, st, finalized);
    DeadFromIff(h[t], t == st.current, i);
    if SlotLive(h[t], t == st.current, i) && h[t].stack[i].Obj? {
      assert Edge(h, st.current, t, h[t].stack[i].ref);
    }
  }

  /** What a collection does to the stacks of the threads it keeps. */
  method CollectStacks(gc: GC)
    requires gc.AtRest() && !gc.collecting
    modifies gc
    ensures gc.heap == old(HeapAfter(gc.heap, gc.state, gc.finalized))
    ensures forall t, i: nat :: t in gc.heap && old(t in gc.heap && gc.heap[t].Thread? && i < |gc.heap[t].stack|) ==>
      SlotAfter(old(gc.heap), old(gc.state), gc.heap.Keys, gc.heap, t, i)
  {
    hide Survivors, NoStrays, OpenSlotsLive, Roots, Filter, MidHeap, FinalHeap, Doomed, Sound, SlotAfter;
    ghost var h, st, finalized := gc.heap, gc.state, gc.finalized;
    SoundCollectable(h, st, gc.cache, gc.all);
    EdgesAfter(h, st, finalized);
    gc.FullGc();
    forall t, i: nat | t in gc.heap && t in h && h[t].Thread? && i < |h[t].stack|
      ensures SlotAfter(h, st, gc.heap.Keys, gc.heap, t, i)
    {
      SlotsAfter(h, st, finalized, t, i);
    }
  }

  // ----- The next collection -----

  lemma RootsAfter(h: Heap, st: State, finalized: set<Ref>)
    requires Collectable(h, st) && st.main in h && h[st.main].Thread? && st.current in h && h[st.current].Thread?
    ensures Roots(HeapAfter(h, st, finalized), st) <= HeapAfter(h, st, finalized).Keys
  {
    hide Survivors, HeapAfter, Children, NoStrays, OpenSlotsLive, ClearWeak;
    var live, h' := Survivors(h, st, finalized), HeapAfter(h, st, finalized);
    SurvivorsClosed(h, st, finalized);
    EdgesAfter(h, st, finalized);
    forall t | t == st.main || t == st.current
      ensures forall r :: r in ThreadRoots(h', st.current, t) ==> r in Roots(h, st)
    {
      assert t in ThreadRoots(h, st.current, t);
      assert t in Roots(h, st);
      ThreadAfter(h, st, finalized, t);
      forall r | r in ThreadRoots(h', st.current, t)
        ensures r in Roots(h, st)
      {
        if r in Children(h', st.current, t) {
          assert r in ChildSet(h', st.current, t) && r in ChildSet(h, st.current, t);
        }
        assert r in ThreadRoots(h, st.current, t);
      }
    }
    forall r | r in Roots(h', st)
      ensures r in live
    {
      assert r in RootRefs(h', st);
      assert r in RootRefs(h, st) || r in ThreadRoots(h', st.current, st.main)
        || r in ThreadRoots(h', st.current, st.current);
    }
  }

  lemma ThreadAfter(h: Heap, st: State, finalized: set<Ref>, t: Ref)
    requires Collectable(h, st) && t in Survivors(h, st, finalized) && t in h && h[t].Thread?
    ensures t in HeapAfter(h, st, finalized)
    ensures var o, o' := h[t], HeapAfter(h, st, finalized)[t];
      && o'.Thread? && o'.openUpvals == o.openUpvals && |o'.stack| == |o.stack|
      && forall strict :: DeadFrom(o', strict) == DeadFrom(o, strict)
  {
    hide Survivors, HeapAfter, NoStrays, OpenSlotsLive, Roots, StrongReach;
    ObjectAfter(h, st, finalized, t);
  }

  lemma OpenSlotsAfter(h: Heap, st: State, finalized: set<Ref>)
    requires Collectable(h, st)
    ensures OpenSlotsLive(HeapAfter(h, st, finalized), st.current)
  {
    hide Survivors, HeapAfter, Roots, StrongReach, NoStrays, DeadFrom;
    var live, h' := Survivors(h, st, finalized), HeapAfter(h, st, finalized);
    SurvivorsClosed(h, st, finalized);
    EdgesAfter(h, st, finalized);
    forall u | u in h' && h'[u].OpenUpVal?
      ensures var t := h'[u].thread;
        t in h' && h'[t].Thread? && h'[u].slot < DeadFrom(h'[t], t == st.current) && h'[u].slot < |h'[t].stack|
    {
      ObjectAfter(h, st, finalized, u);
      assert h[u] == h'[u];
      assert Edge(h, st.current, u, h[u].thread);
      ThreadAfter(h, st, finalized, h[u].thread);
    }
  }

  lemma SoundAfter(h: Heap, st: State, finalized: set<Ref>, cache: map<Ref, Ref>, all: seq<Ref>, caches: map<Ref, Ref>)
    requires Sound(h, st, cache, all) && PlainKeysHoldLiveValues(h, Survivors(h, st, finalized))
    requires SubCache(caches, cache) && caches.Keys <= Survivors(h, st, finalized)
    requires forall p :: p in caches ==> caches[p] in Survivors(h, st, finalized)
    ensures Sound(HeapAfter(h, st, finalized), st, caches, Filter(all, Survivors(h, st, finalized)))
  {
    hide Survivors, HeapAfter, NoStrays, OpenSlotsLive, Roots, Filter, PlainKeysHoldLiveValues, StrongReach,
      ClearWeakHeap;
    var live, h' := Survivors(h, st, finalized), HeapAfter(h, st, finalized);
    NoDanglingIff(h, st, finalized);
    OpenSlotsAfter(h, st, finalized);
    RootsAfter(h, st, finalized);
    EdgesAfter(h, st, finalized);
    FilterNoDups(all, live);
    forall o ensures o in Filter(all, live) <==> o in h' { FilterMember(all, live, o); }
    ThreadRootsSurvive(h, st, finalized);
    ThreadAfter(h, st, finalized, st.main);
    ThreadAfter(h, st, finalized, st.current);
    forall p | p in caches
      ensures p in h' && h'[p].Proto?
    {
      ObjectAfter(h, st, finalized, p);
    }
  }

  lemma ThreadRootsSurvive(h: Heap, st: State, finalized: set<Ref>)
    requires Collectable(h, st)
    ensures st.main in Survivors(h, st, finalized) && st.current in Survivors(h, st, finalized)
  {
    hide Survivors, NoStrays, OpenSlotsLive, Children;
    SurvivorsClosed(h, st, finalized);
    assert st.main in ThreadRoots(h, st.current, st.main) && st.current in ThreadRoots(h, st.current, st.current);
    assert st.main in RootRefs(h, st) && st.current in RootRefs(h, st);
    assert st.main in Roots(h, st) && st.current in Roots(h, st);
  }

  /** A collection of a heap without orphaned entries leaves the collector ready for the next one. */
  method CollectAndRest(gc: GC)
    requires gc.AtRest() && !gc.collecting
    requires PlainKeysHoldLiveValues(gc.heap, Survivors(gc.heap, gc.state, gc.finalized))
    modifies gc
    ensures gc.AtRest() && !gc.collecting
    ensures gc.heap.Keys == old(Survivors(gc.heap, gc.state, gc.finalized))
  {
    hide Survivors, NoStrays, OpenSlotsLive, Roots, Filter, PlainKeysHoldLiveValues, MidHeap, FinalHeap, Doomed, Sound;
    ghost var h, st, finalized, cache, all := gc.heap, gc.state, gc.finalized, gc.cache, gc.all;
    gc.FullGc();
    SoundAfter(h, st, finalized, cache, all, gc.cache);
    SoundCollectable(h, st, cache, all);
    EdgesAfter(h, st, finalized);
  }

  // ----- Sequences of collections -----

  /** What the program, finalizers included, may have made of the heap before a collection. */
  datatype World = World(heap: Heap, state: State, cache: map<Ref, Ref>, all: seq<Ref>)

  /** No object was taken off the queue twice, and whatever was taken is flagged. */
  ghost predicate TakenOnce(taken: seq<Ref>, finalized: set<Ref>)
  {
    NoDups(taken) && Elems(taken) <= finalized
  }

  lemma {:induction false} ElemsAppend(s: seq<Ref>, t: seq<Ref>)
    ensures Elems(s + t) == Elems(s) + Elems(t)
  {
    if s == [] {
      assert s + t == t;
    } else {
      ElemsAppend(s[1..], t);
      assert (s + t)[1..] == s[1..] + t;
    }
  }

  /** A collection queues no object a second time: it takes only objects that are not flagged. */
  lemma QueuedOnce(taken: seq<Ref>, h: Heap, st: State, finalized: set<Ref>, all: seq<Ref>)
    requires TakenOnce(taken, finalized) && NoDups(all)
    ensures var queue := Filter(all, Doomed(h, st, finalized));
      TakenOnce(taken + queue, finalized + Elems(queue))
  {
    hide Filter, HasGc, StrongReach, Roots;
    var queue := Filter(all, Doomed(h, st, finalized));
    FilterNoDups(all, Doomed(h, st, finalized));
    ElemsAppend(taken, queue);
    forall i, j | 0 <= i < |taken| && 0 <= j < |queue| ensures taken[i] != queue[j] {
      ElemsMember(taken, taken[i]);
      FilterMember(all, Doomed(h, st, finalized), queue[j]);
    }
  }

  lemma SoundList(w: World)
    requires Sound(w.heap, w.state, w.cache, w.all)
    ensures NoDups(w.all)
  {
  }

  /** Over any sequence of collections, with any program running in between, no object is queued twice. */
  method Collections(gc: GC, worlds: seq<World>)
    requires gc.phase == Pause && IsWhite(gc.white) && !gc.collecting && gc.finalize == []
    requires TakenOnce(gc.taken, gc.finalized)
    requires forall i :: 0 <= i < |worlds| ==> Sound(worlds[i].heap, worlds[i].state, worlds[i].cache, worlds[i].all)
    modifies gc
    ensures gc.phase == Pause && !gc.collecting && gc.finalize == []
    ensures TakenOnce(gc.taken, gc.finalized)
    ensures old(gc.taken) <= gc.taken && old(gc.finalized) <= gc.finalized
  {
    hide Survivors, Sound, Filter, MidHeap, FinalHeap, Doomed, TakenOnce, SubCache;
    for i := 0 to |worlds|
      invariant gc.phase == Pause && IsWhite(gc.white) && !gc.collecting && gc.finalize == []
      invariant TakenOnce(gc.taken, gc.finalized)
      invariant old(gc.taken) <= gc.taken && old(gc.finalized) <= gc.finalized
    {
      var w := worlds[i];
      gc.heap, gc.state, gc.cache, gc.all := w.heap, w.state, w.cache, w.all;
      gc.mark := map o | o in w.heap :: gc.white;
      SoundList(w);
      QueuedOnce(gc.taken, w.heap, w.state, gc.finalized, w.all);
      ghost var queue := Filter(w.all, Doomed(w.heap, w.state, gc.finalized));
      assert [] + queue == queue;
      gc.FullGc();
    }
  }

  lemma SoundCollectable(h: Heap, st: State, cache: map<Ref, Ref>, all: seq<Ref>)
    requires Sound(h, st, cache, all)
    ensures Collectable(h, st)
  {
  }
}
