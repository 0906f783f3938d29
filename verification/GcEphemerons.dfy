/**
 What only ephemerons keep: such objects are finalized and dropped from weak
 values while the program can still reach them.
 */
module GcEphemerons {
  import opened Common
  import opened GcHeap
  import opened Collector
  import opened GcSafety

  /** `o` can be reached from the value of a weak-key entry whose table and key are in `live`. */
  ghost predicate Behind(h: Heap, cur: Ref, live: set<Ref>, o: Ref)
  {
    exists t, k, v :: t in live && t in h && k in live && Ephemeron(h, t, k, v) && o in StrongReach(h, cur, {v})
  }

  /** Whatever is reachable is strongly reachable from the roots, or from the value of an ephemeron that is. */
  lemma ReachIsStrongOrBehind(h: Heap, cur: Ref, roots: set<Ref>, o: Ref)
    requires NoStrays(h, cur) && roots <= h.Keys
    ensures o in Reach(h, cur, roots) <==>
      o in StrongReach(h, cur, roots) || Behind(h, cur, Reach(h, cur, roots), o)
  {
    hide Edge, Ephemeron, StrongReach, Reach, NoStrays;
    var live, strong := Reach(h, cur, roots), StrongReach(h, cur, roots);
    ReachIsLeast(h, cur, roots);
    StrongReachIsLeast(h, cur, roots);
    if Behind(h, cur, live, o) {
      var t, k, v :| t in live && t in h && k in live && Ephemeron(h, t, k, v) && o in StrongReach(h, cur, {v});
      EphemeronKnown(h, cur, t, k, v);
      StrongReachIsLeast(h, cur, {v});
    }
    var s := set r | r in live && (r in strong || Behind(h, cur, live, r));
    forall a, b | a in s && a in h && Edge(h, cur, a, b) ensures b in s { BehindStep(h, cur, roots, a, b); }
    forall t, k, v | t in s && t in h && k in s && Ephemeron(h, t, k, v) ensures v in s {
      EphemeronKnown(h, cur, t, k, v);
      StrongReachIsLeast(h, cur, {v});
      assert v in StrongReach(h, cur, {v});
    }
    assert Closed(h, cur, s);
  }

  lemma EphemeronKnown(h: Heap, cur: Ref, t: Ref, k: Ref, v: Ref)
    requires NoStrays(h, cur) && t in h && Ephemeron(h, t, k, v)
    ensures v in h
  {
    assert EntryRef(h, t, v);
  }

  lemma BehindStep(h: Heap, cur: Ref, roots: set<Ref>, a: Ref, b: Ref)
    requires NoStrays(h, cur) && roots <= h.Keys && a in h && Edge(h, cur, a, b)
    ensures a in StrongReach(h, cur, roots) ==> b in StrongReach(h, cur, roots)
    ensures Behind(h, cur, Reach(h, cur, roots), a) ==> Behind(h, cur, Reach(h, cur, roots), b)
    ensures a in Reach(h, cur, roots) ==> b in Reach(h, cur, roots)
  {
    hide Edge, Ephemeron, StrongReach, Reach, NoStrays;
    var live := Reach(h, cur, roots);
    ReachIsLeast(h, cur, roots);
    StrongReachIsLeast(h, cur, roots);
    if Behind(h, cur, live, a) {
      var t, k, v :| t in live && t in h && k in live && Ephemeron(h, t, k, v) && a in StrongReach(h, cur, {v});
      EphemeronKnown(h, cur, t, k, v);
      StrongReachIsLeast(h, cur, {v});
    }
  }

  /** An unflagged object with a `__gc` field is behind an ephemeron, and not strongly reachable. */
  ghost predicate FinalizableBehind(h: Heap, st: State, finalized: set<Ref>, o: Ref)
  {
    && o in h && o !in finalized && HasGc(h, st.gcName, o)
    && o !in StrongReach(h, st.current, Roots(h, st))
    && Behind(h, st.current, Reach(h, st.current, Roots(h, st)), o)
  }

  /** A collection finalizes an object that the program can reach if and only if one is behind an ephemeron and not
      strongly reachable. */
  lemma ReachableDoomedIff(h: Heap, st: State, finalized: set<Ref>)
    requires Collectable(h, st)
    ensures Doomed(h, st, finalized) * Reach(h, st.current, Roots(h, st)) != {} <==>
      exists o :: FinalizableBehind(h, st, finalized, o)
  {
    hide StrongReach, Reach, Roots, HasGc, Behind, NoStrays, OpenSlotsLive;
    var both := Doomed(h, st, finalized) * Reach(h, st.current, Roots(h, st));
    forall o ensures o in both <==> FinalizableBehind(h, st, finalized, o) {
      ReachIsStrongOrBehind(h, st.current, Roots(h, st), o);
    }
    if both != {} {
      var o :| o in both;
      assert FinalizableBehind(h, st, finalized, o);
    }
  }

  /** Nothing with a `__gc` field is a value under a weak key, or reachable from one. */
  ghost predicate EphemeronsHoldPlainObjects(h: Heap, st: State)
  {
    forall t, k, v, o :: t in h && Ephemeron(h, t, k, v) && o in h && HasGc(h, st.gcName, o)
      ==> o !in StrongReach(h, st.current, {v})
  }

  /** Then only what the program cannot reach is finalized. */
  lemma PlainEphemeronsFinalizeGarbage(h: Heap, st: State, finalized: set<Ref>)
    requires Collectable(h, st) && EphemeronsHoldPlainObjects(h, st)
    ensures Doomed(h, st, finalized) * Reach(h, st.current, Roots(h, st)) == {}
  {
    hide StrongReach, Reach, Roots, HasGc, Doomed, Collectable, Ephemeron;
    ReachableDoomedIff(h, st, finalized);
  }

  // ----- A heap for both findings about ephemerons -----

  const EXAMPLE_STATE := State(None, None, [], 0, 0, [], [Some(8), Some(9)], 9)

  const PLAIN_TABLE: Object := Table(None, false, false, [], [])

  /** A metatable with one string key. */
  function Meta(key: Ref, value: Ref): Object { Table(None, false, false, [], [Node(true, Obj(key), Obj(value))]) }

  /** The stack holds tables 1, 2 and 5. Table 1 has weak keys and maps table 2 to table 3 and `true` to table 13.
      Table 3 has a finalizer. Table 5 has weak values and holds table 3. The strings 8 and 9 are "__mode" and
      "__gc". */
  const EXAMPLE_HEAP: Heap := map[
    0 := Thread([Obj(1), Obj(2), Obj(5)], 3, 0, None, [], []),
    1 := Table(Some(6), true, false, [], [Node(true, Bool(true), Obj(13)), Node(true, Obj(2), Obj(3))]),
    2 := PLAIN_TABLE,
    3 := Table(Some(4), false, false, [], []),
    4 := Meta(9, 10),
    5 := Table(Some(7), false, true, [Obj(3)], []),
    6 := Meta(8, 11),
    7 := Meta(8, 12),
    8 := String, 9 := String,
    10 := Closure(None, []),
    11 := String, 12 := String,
    13 := PLAIN_TABLE]

  function ExampleTargets(o: Ref): set<Ref>
  {
    match o
    case 0 => {1, 2, 5}
    case 1 => {6}
    case 3 => {4}
    case 4 => {9, 10}
    case 5 => {7}
    case 6 => {8, 11}
    case 7 => {8, 12}
    case _ => {}
  }

  lemma MetaEdges(h: Heap, cur: Ref, o: Ref, key: Ref, value: Ref, r: Ref)
    requires o in h && h[o] == Meta(key, value)
    ensures Edge(h, cur, o, r) <==> r == key || r == value
  {
    var n := Node(true, Obj(key), Obj(value));
    assert n in h[o].hash;
  }

  lemma ExampleEdges(o: Ref, r: Ref)
    requires o in EXAMPLE_HEAP
    ensures Edge(EXAMPLE_HEAP, 0, o, r) <==> r in ExampleTargets(o)
  {
    var h := EXAMPLE_HEAP;
    if o == 0 {
      assert LiveSlots(h[0], true) == [Obj(1), Obj(2), Obj(5)];
      LiveSlotsMember(h[0], true, Obj(r));
    } else if o == 4 {
      MetaEdges(h, 0, 4, 9, 10, r);
    } else if o == 6 {
      MetaEdges(h, 0, 6, 8, 11, r);
    } else if o == 7 {
      MetaEdges(h, 0, 7, 8, 12, r);
    }
  }

  lemma ExampleEphemerons(t: Ref, k: Ref, v: Ref)
    requires t in EXAMPLE_HEAP
    ensures Ephemeron(EXAMPLE_HEAP, t, k, v) <==> t == 1 && k == 2 && v == 3
  {
    assert Node(true, Obj(2), Obj(3)) in EXAMPLE_HEAP[1].hash;
  }

  lemma ExampleRoots()
    ensures Roots(EXAMPLE_HEAP, EXAMPLE_STATE) == {0, 1, 2, 5, 8, 9}
  {
    var h, st := EXAMPLE_HEAP, EXAMPLE_STATE;
    forall r ensures r in Children(h, 0, 0) <==> r in ExampleTargets(0) {
      ChildrenAreEdges(h, 0, 0, r);
      ExampleEdges(0, r);
    }
    assert OptionsRefs([Some(9)]) == [9] + OptionsRefs([]);
    assert OptionsRefs(st.tmNames) == [8] + [9];
    assert RootRefs(h, st) == [0] + Children(h, 0, 0) + [0] + Children(h, 0, 0) + ([8] + [9]);
  }

  lemma ExampleCollectable()
    ensures Collectable(EXAMPLE_HEAP, EXAMPLE_STATE)
  {
    hide Edge, Roots;
    ExampleRoots();
    forall o, r | o in EXAMPLE_HEAP && Edge(EXAMPLE_HEAP, 0, o, r) ensures r in EXAMPLE_HEAP { ExampleEdges(o, r); }
  }

  /** What is closed in the example, for the sets that matter. */
  lemma ExampleClosed()
    ensures var strong: set<Ref> := {0, 1, 2, 5, 6, 7, 8, 9, 11, 12};
      EdgeClosed(EXAMPLE_HEAP, 0, strong) && Closed(EXAMPLE_HEAP, 0, strong + {3, 4, 10})
  {
    hide Edge, Ephemeron;
    forall o, r | o in EXAMPLE_HEAP && Edge(EXAMPLE_HEAP, 0, o, r) ensures r in ExampleTargets(o) {
      ExampleEdges(o, r);
    }
    forall t, k, v | t in EXAMPLE_HEAP && Ephemeron(EXAMPLE_HEAP, t, k, v) ensures v == 3 {
      ExampleEphemerons(t, k, v);
    }
  }

  /** Table 3 is reached through table 1 only. */
  lemma ExampleReach()
    ensures Collectable(EXAMPLE_HEAP, EXAMPLE_STATE)
    ensures 3 !in StrongReach(EXAMPLE_HEAP, 0, Roots(EXAMPLE_HEAP, EXAMPLE_STATE))
    ensures 3 in Reach(EXAMPLE_HEAP, 0, Roots(EXAMPLE_HEAP, EXAMPLE_STATE))
  {
    hide Edge, Ephemeron, Roots, StrongReach, Reach, NoStrays, OpenSlotsLive;
    var h, roots := EXAMPLE_HEAP, Roots(EXAMPLE_HEAP, EXAMPLE_STATE);
    ExampleCollectable();
    ExampleRoots();
    ExampleClosed();
    ExampleEphemerons(1, 2, 3);
    StrongReachIsLeast(h, 0, roots);
    ReachIsLeast(h, 0, roots);
  }

  lemma ExampleDoomed()
    ensures Doomed(EXAMPLE_HEAP, EXAMPLE_STATE, {}) == {3}
  {
    hide StrongReach, Reach, Roots;
    ExampleReach();
    var h := EXAMPLE_HEAP;
    assert forall o :: o in h && HasGc(h, 9, o) <==> o == 3;
  }

  lemma ExampleSurvivors()
    ensures Collectable(EXAMPLE_HEAP, EXAMPLE_STATE)
    ensures var live := Survivors(EXAMPLE_HEAP, EXAMPLE_STATE, {}); {1, 2, 3, 5} <= live && 13 !in live
  {
    hide Edge, Roots, StrongReach, Reach, NoStrays, OpenSlotsLive, Doomed;
    var h, st := EXAMPLE_HEAP, EXAMPLE_STATE;
    ExampleCollectable();
    ExampleRoots();
    ExampleDoomed();
    ExampleClosed();
    ReachIsLeast(h, 0, Roots(h, st) + {3});
  }

  /** Convergence skips the key `true`, so table 13 is freed while table 1 still refers to it. */
  lemma DanglingExample()
    ensures Collectable(EXAMPLE_HEAP, EXAMPLE_STATE)
    ensures !NoStrays(HeapAfter(EXAMPLE_HEAP, EXAMPLE_STATE, {}), EXAMPLE_STATE.current)
  {
    hide Edge, Roots, Survivors, HeapAfter, Collectable;
    var h, st := EXAMPLE_HEAP, EXAMPLE_STATE;
    ExampleSurvivors();
    NoDanglingIff(h, st, {});
    assert Node(true, Bool(true), Obj(13)) in h[1].hash;
  }

  /** Table 3 is finalized, and dropped from the weak values of table 5, while table 1 still maps table 2 to it. */
  lemma FinalizedWhileReachable()
    ensures Doomed(EXAMPLE_HEAP, EXAMPLE_STATE, {}) == {3}
    ensures 3 in Reach(EXAMPLE_HEAP, 0, Roots(EXAMPLE_HEAP, EXAMPLE_STATE))
    ensures var h' := HeapAfter(EXAMPLE_HEAP, EXAMPLE_STATE, {});
      && 1 in h' && 3 in h' && 5 in h' && h'[1].Table? && h'[5].Table?
      && h'[5].items == [Nil] && Node(true, Obj(2), Obj(3)) in h'[1].hash
  {
    hide Edge, Roots, Survivors, HeapAfter, StrongReach, Reach, Collectable, Doomed;
    var h, st := EXAMPLE_HEAP, EXAMPLE_STATE;
    ExampleReach();
    ExampleDoomed();
    ExampleSurvivors();
    EntriesAfter(h, st, {}, 1);
    EntriesAfter(h, st, {}, 5);
    EdgesAfter(h, st, {});
    var h' := HeapAfter(h, st, {});
    assert h'[1].hash[1] == Node(true, Obj(2), Obj(3));
    assert h'[1].hash[1] in h'[1].hash;
  }
}
