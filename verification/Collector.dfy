/**
 The stop-the-world collector: tri-colour marking, ephemeron convergence, weak
 clearing, resurrection of finalizable objects, sweep and white flip.
 */
module Collector {
  import opened GcHeap

  datatype Color = White0 | White1 | Gray | Black

  datatype Phase = Pause | Propagate | Sweep

  /** Which weak references `clear_weak_tables` drops. */
  datatype Mask = Values | Keys

  function Other(c: Color): Color { if c == White0 then White1 else White0 }

  predicate IsWhite(c: Color) { c == White0 || c == White1 }

  /** The two whites take turns. */
  lemma WhitesAlternate(c: Color)
    requires IsWhite(c)
    ensures IsWhite(Other(c)) && Other(c) != c && Other(Other(c)) == c
  {
  }

  // ----- What clearing does to one object -----

  ghost function KeepLive(v: Value, live: set<Ref>): Value
  {
    if v.Obj? && v.ref !in live then Nil else v
  }

  ghost function ClearNodeValue(n: Node, live: set<Ref>): Node
  {
    if n.used then n.(value := KeepLive(n.value, live)) else n
  }

  ghost function ClearNodeKey(n: Node, live: set<Ref>): Node
  {
    if n.used && n.key.Obj? && n.key.ref !in live then Node(true, Nil, Nil) else n
  }

  /** A table after the weak references selected by `mask` to objects outside `live` are dropped. */
  ghost function ClearWeak(o: Object, mask: Mask, live: set<Ref>): Object
  {
    if !o.Table? then o
    else if mask == Values && o.weakValues then
      o.(items := seq(|o.items|, i requires 0 <= i < |o.items| => KeepLive(o.items[i], live)),
         hash := seq(|o.hash|, i requires 0 <= i < |o.hash| => ClearNodeValue(o.hash[i], live)))
    else if mask == Keys && o.weakKeys then
      o.(hash := seq(|o.hash|, i requires 0 <= i < |o.hash| => ClearNodeKey(o.hash[i], live)))
    else o
  }

  ghost function ClearWeakHeap(h: Heap, mask: Mask, live: set<Ref>): Heap
  {
    map o | o in h :: ClearWeak(h[o], mask, live)
  }

  /** A thread whose dead stack slots are nil. */
  ghost function WipeThread(t: Object, strict: bool): Object
    requires t.Thread?
  {
    t.(stack := seq(|t.stack|, i requires 0 <= i < |t.stack| => if i < DeadFrom(t, strict) then t.stack[i] else Nil))
  }

  ghost function WipeObject(h: Heap, st: State, o: Ref): Object
    requires o in h
  {
    if (o == st.main || o == st.current) && h[o].Thread? then WipeThread(h[o], o == st.current) else h[o]
  }

  ghost function WipeHeap(h: Heap, st: State): Heap
  {
    map o | o in h :: WipeObject(h, st, o)
  }

  lemma {:induction false} NodesRefsSame(a: seq<Node>, b: seq<Node>, wk: bool, wv: bool)
    requires |a| == |b| && forall i :: 0 <= i < |a| ==> NodeRefs(a[i], wk, wv) == NodeRefs(b[i], wk, wv)
    ensures NodesRefs(a, wk, wv) == NodesRefs(b, wk, wv)
  {
    if a != [] {
      NodesRefsSame(a[1..], b[1..], wk, wv);
    }
  }

  /** Weak values are not traced, so dropping them changes no strong edge and no ephemeron. */
  lemma ClearingValuesIsUntraced(h: Heap, cur: Ref, live: set<Ref>)
    ensures GraphOf(ClearWeakHeap(h, Values, live), cur) == GraphOf(h, cur)
    ensures SameEphemeronTables(h, ClearWeakHeap(h, Values, live))
  {
    hide HighWater, FramesRefs, NodesRefs, OptionsRefs, ValueRefs;
    var h' := ClearWeakHeap(h, Values, live);
    forall o | o in h
      ensures Children(h', cur, o) == Children(h, cur, o)
    {
      if h[o].Table? && h[o].weakValues {
        NodesRefsSame(h'[o].hash, h[o].hash, h[o].weakKeys, true);
      }
    }
  }

  /** Dead slots are not traced, so wiping them changes no strong edge and no ephemeron. */
  lemma WipingIsUntraced(h: Heap, st: State)
    requires OpenSlotsLive(h, st.current)
    ensures GraphOf(WipeHeap(h, st), st.current) == GraphOf(h, st.current)
    ensures SameEphemeronTables(h, WipeHeap(h, st))
  {
    hide Children, OpenSlotsLive;
    forall o | o in h
      ensures Children(WipeHeap(h, st), st.current, o) == Children(h, st.current, o)
    {
      WipedChildren(h, st, o);
    }
  }

  lemma WipedChildren(h: Heap, st: State, o: Ref)
    requires OpenSlotsLive(h, st.current) && o in h
    ensures Children(WipeHeap(h, st), st.current, o) == Children(h, st.current, o)
  {
    hide HighWater, FramesRefs, NodesRefs, OptionsRefs, ValueRefs;
    var h', cur := WipeHeap(h, st), st.current;
    if h[o].Thread? {
      assert LiveSlots(h'[o], o == cur) == LiveSlots(h[o], o == cur);
    } else if h[o].OpenUpVal? {
      assert SlotValue(h', h[o].thread, h[o].slot) == SlotValue(h, h[o].thread, h[o].slot);
    }
  }

  ghost predicate SameEphemeronTables(h: Heap, h': Heap)
  {
    && h.Keys == h'.Keys
    && (forall t :: t in h ==> IsEphemeronTable(h[t]) == IsEphemeronTable(h'[t]))
    && (forall t :: t in h && IsEphemeronTable(h[t]) ==> h[t] == h'[t])
  }

  lemma SameReach(h: Heap, h': Heap, cur: Ref, s: set<Ref>)
    requires SameEphemeronTables(h, h') && GraphOf(h, cur) == GraphOf(h', cur)
    ensures Closed(h, cur, s) <==> Closed(h', cur, s)
  {
    hide EdgeClosed, ClosedIn, GraphOf;
    ClosedInGraph(h, cur, s);
    ClosedInGraph(h', cur, s);
    SameEphemerons(h, h', s);
  }

  lemma SameEphemerons(h: Heap, h': Heap, s: set<Ref>)
    requires SameEphemeronTables(h, h')
    ensures EphemeronClosed(h, s) <==> EphemeronClosed(h', s)
  {
    forall t, k, v | t in h && t in h' ensures Ephemeron(h, t, k, v) <==> Ephemeron(h', t, k, v) {
      assert IsEphemeronTable(h[t]) == IsEphemeronTable(h'[t]);
    }
  }

  lemma SameReachSets(h: Heap, h': Heap, cur: Ref, roots: set<Ref>)
    requires SameEphemeronTables(h, h') && GraphOf(h, cur) == GraphOf(h', cur)
    ensures Reach(h, cur, roots) == Reach(h', cur, roots)
  {
    forall s: set<Ref> ensures Closed(h, cur, s) <==> Closed(h', cur, s) { SameReach(h, h', cur, s); }
  }

  lemma NoStraysEntries(h: Heap, cur: Ref)
    requires NoStrays(h, cur)
    ensures EntriesWithin(h)
  {
    forall t, n | t in h && h[t].Table? && n in h[t].hash && n.used
      ensures (n.key.Obj? ==> n.key.ref in h) && (n.value.Obj? ==> n.value.ref in h)
    {
      if n.key.Obj? { assert EntryRef(h, t, n.key.ref); }
      if n.value.Obj? { assert EntryRef(h, t, n.value.ref); }
    }
    forall t, v | t in h && h[t].Table? && v in h[t].items && v.Obj?
      ensures v.ref in h
    {
      assert EntryRef(h, t, v.ref);
    }
  }

  /** Same graph, and no table entry that was not there before: no strays. */
  lemma NoStraysKept(h: Heap, h': Heap, cur: Ref)
    requires NoStrays(h, cur) && h.Keys == h'.Keys && GraphOf(h, cur) == GraphOf(h', cur)
    requires forall t, r :: t in h' && EntryRef(h', t, r) ==> EntryRef(h, t, r)
    ensures NoStrays(h', cur)
  {
    forall o, r | o in h' && Edge(h', cur, o, r)
      ensures r in h'
    {
      ChildrenAreEdges(h', cur, o, r);
      ChildrenAreEdges(h, cur, o, r);
      assert r in GraphOf(h', cur)[o] && r in GraphOf(h, cur)[o];
    }
  }

  lemma ClearingKeepsNoStrays(h: Heap, cur: Ref, live: set<Ref>)
    requires NoStrays(h, cur)
    ensures NoStrays(ClearWeakHeap(h, Values, live), cur)
  {
    var h' := ClearWeakHeap(h, Values, live);
    ClearingValuesIsUntraced(h, cur, live);
    forall t, r | t in h' && EntryRef(h', t, r)
      ensures EntryRef(h, t, r)
    {
      ClearedEntry(h, Values, live, t, r);
    }
    NoStraysKept(h, h', cur);
  }

  /** An entry that survives clearing was there before. */
  lemma ClearedEntry(h: Heap, mask: Mask, live: set<Ref>, t: Ref, r: Ref)
    requires t in h && EntryRef(ClearWeakHeap(h, mask, live), t, r)
    ensures EntryRef(h, t, r)
  {
    var o, o' := h[t], ClearWeak(h[t], mask, live);
    if Obj(r) in o'.items {
      var i :| 0 <= i < |o'.items| && o'.items[i] == Obj(r);
      assert o.items[i] == Obj(r);
    } else {
      var n :| n in o'.hash && n.used && (n.key == Obj(r) || n.value == Obj(r));
      var i :| 0 <= i < |o'.hash| && o'.hash[i] == n;
      assert o.hash[i] in o.hash;
    }
  }

  lemma WipingKeepsNoStrays(h: Heap, st: State)
    requires NoStrays(h, st.current) && OpenSlotsLive(h, st.current)
    ensures NoStrays(WipeHeap(h, st), st.current)
  {
    WipingIsUntraced(h, st);
    var h' := WipeHeap(h, st);
    forall t, r | t in h' && EntryRef(h', t, r)
      ensures EntryRef(h, t, r)
    {
      assert h'[t] == h[t];
    }
    NoStraysKept(h, h', st.current);
  }

  lemma WipingKeepsFinalizable(h: Heap, st: State, finalized: set<Ref>, live: set<Ref>)
    ensures Finalizable(WipeHeap(h, st), st, finalized, live) == Finalizable(h, st, finalized, live)
  {
  }

  /** The heap while finalizable objects are resurrected: dead slots and first weak values gone. */
  ghost function MidHeap(h: Heap, st: State): Heap
  {
    ClearWeakHeap(WipeHeap(h, st), Values, StrongReach(h, st.current, Roots(h, st)))
  }

  lemma MidHeapUntraced(h: Heap, st: State)
    requires NoStrays(h, st.current) && OpenSlotsLive(h, st.current)
    ensures GraphOf(MidHeap(h, st), st.current) == GraphOf(h, st.current)
    ensures SameEphemeronTables(h, MidHeap(h, st))
    ensures NoStrays(MidHeap(h, st), st.current)
  {
    var s := StrongReach(h, st.current, Roots(h, st));
    WipingIsUntraced(h, st);
    WipingKeepsNoStrays(h, st);
    ClearingValuesIsUntraced(WipeHeap(h, st), st.current, s);
    ClearingKeepsNoStrays(WipeHeap(h, st), st.current, s);
  }

  lemma MidHeapFacts(h: Heap, st: State)
    requires NoStrays(h, st.current) && OpenSlotsLive(h, st.current)
    ensures var mid := MidHeap(h, st);
      && GraphOf(mid, st.current) == GraphOf(h, st.current) && SameEphemeronTables(h, mid)
      && NoStrays(mid, st.current) && EntriesWithin(mid) && mid.Keys == h.Keys
    ensures EntriesWithin(WipeHeap(h, st)) && WipeHeap(h, st).Keys == h.Keys
  {
    MidHeapUntraced(h, st);
    WipingKeepsNoStrays(h, st);
    NoStraysEntries(WipeHeap(h, st), st.current);
    NoStraysEntries(MidHeap(h, st), st.current);
  }

  /** What a collection resurrects: unfinalized `__gc` objects not strongly reached. */
  ghost function Doomed(h: Heap, st: State, finalized: set<Ref>): set<Ref>
  {
    Finalizable(h, st, finalized, StrongReach(h, st.current, Roots(h, st)))
  }

  /** What a collection keeps. */
  ghost function Survivors(h: Heap, st: State, finalized: set<Ref>): set<Ref>
  {
    Reach(h, st.current, Roots(h, st) + Doomed(h, st, finalized))
  }

  /** Starting anywhere between the roots and their closure gives the same closure. */
  lemma ReachAbsorbs(h: Heap, cur: Ref, roots: set<Ref>, mid: set<Ref>)
    requires NoStrays(h, cur) && roots <= h.Keys && roots <= mid <= Reach(h, cur, roots)
    ensures Reach(h, cur, mid) == Reach(h, cur, roots)
  {
    ReachIsLeast(h, cur, roots);
    ReachIsLeast(h, cur, mid);
  }

  lemma SurvivorBounds(h: Heap, st: State, finalized: set<Ref>)
    requires NoStrays(h, st.current) && Roots(h, st) <= h.Keys
    ensures var strong := StrongReach(h, st.current, Roots(h, st));
      var live := Survivors(h, st, finalized);
      && Roots(h, st) <= strong <= h.Keys && Doomed(h, st, finalized) <= h.Keys
      && Roots(h, st) + Doomed(h, st, finalized) <= live <= h.Keys
      && Reach(h, st.current, strong) <= live
      && strong <= Reach(h, st.current, strong)
      && ClosedIn(GraphOf(h, st.current), live)
  {
    var cur, roots, doomed := st.current, Roots(h, st), Doomed(h, st, finalized);
    StrongReachIsLeast(h, cur, roots);
    ReachIsLeast(h, cur, roots + doomed);
    ReachIsLeast(h, cur, StrongReach(h, cur, roots));
    ClosedInGraph(h, cur, Survivors(h, st, finalized));
  }

  /** The sets a resurrection works between, starting from the strongly reached objects. */
  ghost predicate ResurrectionBounds(h: Heap, cur: Ref, g: Graph, strong: set<Ref>, roots: set<Ref>, doomed: set<Ref>)
  {
    && roots + doomed <= h.Keys
    && roots <= Reach(h, cur, strong) <= Reach(h, cur, roots + doomed) <= h.Keys
    && doomed <= Reach(h, cur, roots + doomed)
    && ClosedIn(g, Reach(h, cur, roots + doomed))
  }

  lemma MidHeapBounds(h: Heap, st: State, finalized: set<Ref>)
    requires NoStrays(h, st.current) && OpenSlotsLive(h, st.current) && Roots(h, st) <= h.Keys
    ensures var mid := MidHeap(h, st);
      && ResurrectionBounds(mid, st.current, GraphOf(h, st.current), StrongReach(h, st.current, Roots(h, st)),
                            Roots(h, st), Doomed(h, st, finalized))
      && Reach(mid, st.current, Roots(h, st) + Doomed(h, st, finalized)) == Survivors(h, st, finalized)
  {
    MidHeapFacts(h, st);
    SurvivorBounds(h, st, finalized);
    SameReachSets(h, MidHeap(h, st), st.current, StrongReach(h, st.current, Roots(h, st)));
    SameReachSets(h, MidHeap(h, st), st.current, Roots(h, st) + Doomed(h, st, finalized));
  }

  /** The heap after the last weak clearing and the freeing of everything outside `live`. */
  ghost function FinalHeap(h: Heap, live: set<Ref>): Heap
  {
    ClearWeakHeap(ClearWeakHeap(h, Values, live), Keys, live) - (h.Keys - live)
  }

  lemma ClearingKeepsEntries(h: Heap, mask: Mask, live: set<Ref>)
    requires EntriesWithin(h)
    ensures EntriesWithin(ClearWeakHeap(h, mask, live))
  {
    var h' := ClearWeakHeap(h, mask, live);
    forall t, r | t in h' && h'[t].Table? && EntryRef(h', t, r)
      ensures r in h
    {
      ClearedEntry(h, mask, live, t, r);
    }
    forall t, n | t in h' && h'[t].Table? && n in h'[t].hash && n.used
      ensures (n.key.Obj? ==> n.key.ref in h) && (n.value.Obj? ==> n.value.ref in h)
    {
      if n.key.Obj? { assert EntryRef(h', t, n.key.ref); }
      if n.value.Obj? { assert EntryRef(h', t, n.value.ref); }
    }
    forall t, v | t in h' && h'[t].Table? && v in h'[t].items && v.Obj?
      ensures v.ref in h
    {
      assert EntryRef(h', t, v.ref);
    }
  }

  /** Everything a collection of a sound heap relies on. */
  lemma CollectionFacts(h: Heap, st: State, finalized: set<Ref>)
    requires NoStrays(h, st.current) && OpenSlotsLive(h, st.current) && Roots(h, st) <= h.Keys
    ensures var g, roots, mid := GraphOf(h, st.current), Roots(h, st), MidHeap(h, st);
      var strong, doomed := StrongReach(h, st.current, roots), Doomed(h, st, finalized);
      && roots <= strong <= g.Keys && g.Keys == mid.Keys == h.Keys && ClosedIn(g, strong)
      && (forall s: set<Ref> :: EdgeClosed(h, st.current, s) && roots <= s ==> strong <= s)
      && EntriesWithin(WipeHeap(h, st)) && doomed == Finalizable(WipeHeap(h, st), st, finalized, strong)
      && NoStrays(mid, st.current) && EntriesWithin(mid) && g == GraphOf(mid, st.current)
      && ResurrectionBounds(mid, st.current, g, strong, roots, doomed)
      && Reach(mid, st.current, roots + doomed) == Survivors(h, st, finalized)
      && mid == ClearWeakHeap(WipeHeap(h, st), Values, strong)
  {
    StrongReachIsLeast(h, st.current, Roots(h, st));
    ClosedInGraph(h, st.current, StrongReach(h, st.current, Roots(h, st)));
    MidHeapFacts(h, st);
    MidHeapBounds(h, st, finalized);
    WipingKeepsFinalizable(h, st, finalized, StrongReach(h, st.current, Roots(h, st)));
  }

  // ----- Well-formed heaps -----

  /** Open upvalues point at live slots, so wiping dead slots is invisible to them. */
  ghost predicate OpenSlotsLive(h: Heap, cur: Ref)
  {
    forall u :: u in h && h[u].OpenUpVal? ==>
      var t := h[u].thread;
      t in h && h[t].Thread? && h[u].slot < DeadFrom(h[t], t == cur) && h[u].slot < |h[t].stack|
  }

  ghost predicate Sound(h: Heap, st: State, cache: map<Ref, Ref>, all: seq<Ref>)
  {
    && NoDups(all)
    && (forall o :: o in all <==> o in h)
    && NoStrays(h, st.current)
    && OpenSlotsLive(h, st.current)
    && Roots(h, st) <= h.Keys
    && (forall p :: p in cache ==> p in h && h[p].Proto? && cache[p] in h)
    && st.main in h && h[st.main].Thread? && st.current in h && h[st.current].Thread?
  }

  /** What a sound heap gives a collection to start from. */
  lemma RestFacts(h: Heap, st: State, cache: map<Ref, Ref>, all: seq<Ref>)
    requires Sound(h, st, cache, all)
    ensures NoStrays(h, st.current) && OpenSlotsLive(h, st.current) && Roots(h, st) <= h.Keys
    ensures NoDups(all) && (forall o :: o in all <==> o in h) && forall p :: p in cache ==> p in h && cache[p] in h
    ensures st.main in h && h[st.main].Thread? && st.current in h && h[st.current].Thread?
  {
  }

  // ----- Marking invariant -----

  /** The strong edges out of every object. */
  type Graph = map<Ref, set<Ref>>

  ghost function ChildSet(h: Heap, cur: Ref, o: Ref): set<Ref>
    requires o in h
  {
    set r | r in Children(h, cur, o)
  }

  ghost function GraphOf(h: Heap, cur: Ref): Graph
  {
    map o | o in h :: ChildSet(h, cur, o)
  }

  ghost predicate ClosedIn(g: Graph, s: set<Ref>)
  {
    forall o :: o in s && o in g ==> g[o] <= s
  }

  lemma ClosedInGraph(h: Heap, cur: Ref, s: set<Ref>)
    ensures ClosedIn(GraphOf(h, cur), s) <==> EdgeClosed(h, cur, s)
  {
    var g := GraphOf(h, cur);
    forall o, r | o in h
      ensures r in g[o] <==> Edge(h, cur, o, r)
    {
      ChildrenAreEdges(h, cur, o, r);
    }
  }

  lemma ChildrenWithin(h: Heap, cur: Ref, o: Ref, bound: set<Ref>)
    requires o in h && o in bound && ClosedIn(GraphOf(h, cur), bound)
    ensures forall r :: r in Children(h, cur, o) ==> r in bound
    ensures GraphOf(h, cur)[o] == set r | r in Children(h, cur, o)
  {
    assert GraphOf(h, cur)[o] <= bound;
    forall r | r in Children(h, cur, o)
      ensures r in bound
    {
      assert r in GraphOf(h, cur)[o];
    }
  }

  ghost function Marked(mark: map<Ref, Color>, white: Color): set<Ref>
  {
    set o | o in mark && mark[o] != white
  }

  ghost function NonBlack(mark: map<Ref, Color>): set<Ref>
  {
    set o | o in mark && mark[o] != Black
  }

  /**
   The tri-colour invariant: the gray list holds exactly the gray objects, no
   black object outside `busy` has a white child, and nothing outside `bound` is
   marked. `busy` holds the object whose children are being marked, if any.
   */
  ghost predicate Tricolor(g: Graph, mark: map<Ref, Color>, gray: seq<Ref>, white: Color,
                           bound: set<Ref>, busy: set<Ref>)
  {
    && IsWhite(white)
    && mark.Keys == g.Keys
    && NoDups(gray)
    && (forall o :: o in gray <==> o in mark && mark[o] == Gray)
    && (forall o :: o in mark ==> mark[o] == white || mark[o] == Gray || mark[o] == Black)
    && (forall o :: o in mark && mark[o] == Black && o !in busy ==> g[o] <= Marked(mark, white))
    && Marked(mark, white) <= bound
  }

  /** A scanned prototype caches nothing, or a closure that is already marked. */
  ghost predicate CachesMarked(mark: map<Ref, Color>, cache: map<Ref, Ref>, white: Color)
  {
    forall p :: p in cache ==>
      p in mark && cache[p] in mark && (mark[p] == Black ==> mark[cache[p]] != white)
  }

  ghost predicate Grew(before: map<Ref, Color>, after: map<Ref, Color>, white: Color)
  {
    before.Keys == after.Keys && Marked(before, white) <= Marked(after, white)
  }

  ghost predicate SubCache(after: map<Ref, Ref>, before: map<Ref, Ref>)
  {
    forall p :: p in after ==> p in before && after[p] == before[p]
  }

  lemma TricolorFacts(g: Graph, mark: map<Ref, Color>, gray: seq<Ref>, white: Color, bound: set<Ref>)
    requires Tricolor(g, mark, gray, white, bound, {})
    ensures mark.Keys == g.Keys && Marked(mark, white) <= bound
  {
  }

  lemma TricolorWiden(g: Graph, mark: map<Ref, Color>, gray: seq<Ref>, white: Color, bound: set<Ref>, more: set<Ref>)
    requires Tricolor(g, mark, gray, white, bound, {}) && bound <= more
    ensures Tricolor(g, mark, gray, white, more, {})
  {
  }

  /** When marking inside the strongly reachable objects is over, it has reached them all. */
  lemma StrongMarked(h: Heap, st: State, mark: map<Ref, Color>, gray: seq<Ref>, white: Color)
    requires NoStrays(h, st.current) && Roots(h, st) <= h.Keys
    requires var g, strong := GraphOf(h, st.current), StrongReach(h, st.current, Roots(h, st));
      && Tricolor(g, mark, gray, white, strong, {})
      && Roots(h, st) <= Marked(mark, white) && ClosedIn(g, Marked(mark, white))
    ensures Marked(mark, white) == StrongReach(h, st.current, Roots(h, st))
    ensures Tricolor(GraphOf(h, st.current), mark, gray, white, h.Keys, {})
  {
    hide StrongReach, Roots, NoStrays, Tricolor, ClosedIn, GraphOf, EdgeClosed;
    var g, strong := GraphOf(h, st.current), StrongReach(h, st.current, Roots(h, st));
    StrongReachIsLeast(h, st.current, Roots(h, st));
    ClosedInGraph(h, st.current, Marked(mark, white));
    TricolorFacts(g, mark, gray, white, strong);
    TricolorWiden(g, mark, gray, white, strong, h.Keys);
  }

  lemma EntriesOf(h: Heap, t: Ref)
    requires EntriesWithin(h) && t in h
    ensures IsEphemeronTable(h[t]) ==> HashRefsWithin(h[t].hash, h.Keys)
  {
  }

  lemma GrayingKeepsTricolor(g: Graph, mark: map<Ref, Color>, gray: seq<Ref>, white: Color,
                             bound: set<Ref>, busy: set<Ref>, o: Ref)
    requires Tricolor(g, mark, gray, white, bound, busy)
    requires o in bound && o in mark && mark[o] == white
    ensures Tricolor(g, mark[o := Gray], [o] + gray, white, bound, busy)
    ensures Marked(mark[o := Gray], white) == Marked(mark, white) + {o}
    ensures NonBlack(mark[o := Gray]) == NonBlack(mark)
  {
  }

  lemma BlackeningKeepsTricolor(g: Graph, mark: map<Ref, Color>, gray: seq<Ref>, white: Color, bound: set<Ref>)
    requires Tricolor(g, mark, gray, white, bound, {}) && gray != []
    ensures gray[0] in mark && gray[0] in bound
    ensures Tricolor(g, mark[gray[0] := Black], gray[1..], white, bound, {gray[0]})
    ensures Marked(mark[gray[0] := Black], white) == Marked(mark, white)
    ensures NonBlack(mark[gray[0] := Black]) == NonBlack(mark) - {gray[0]}
    ensures gray[0] in NonBlack(mark)
  {
    var o := gray[0];
    assert o in gray && o in Marked(mark, white);
    var mark' := mark[o := Black];
    forall p
      ensures p in gray[1..] <==> p in mark' && mark'[p] == Gray
    {
      assert gray == [o] + gray[1..];
    }
    assert Marked(mark', white) == Marked(mark, white);
  }

  /** Objects outside `live` whose finalizer is present and has not run. */
  ghost function Finalizable(h: Heap, st: State, finalized: set<Ref>, live: set<Ref>): set<Ref>
  {
    set o | o in h && o !in live && o !in finalized && HasGc(h, st.gcName, o)
  }

  /** What the sweep has left so far: heap, colours and closure caches. */
  datatype Swept = Swept(heap: Heap, mark: map<Ref, Color>, cache: map<Ref, Ref>)

  ghost function SweepOne(o: Ref, s: Swept, white: Color): Swept
  {
    if o in s.mark && s.mark[o] == white then
      Swept(s.heap - {o}, s.mark - {o}, s.cache - {o})
    else
      Swept(s.heap, s.mark[o := Other(white)], s.cache)
  }

  ghost function SweepFrom(rest: seq<Ref>, s: Swept, white: Color): Swept
  {
    if rest == [] then s else SweepFrom(rest[1..], SweepOne(rest[0], s, white), white)
  }

  ghost predicate SweepReady(rest: seq<Ref>, s: Swept, white: Color, live: set<Ref>)
  {
    && Distinct(rest) && IsWhite(white) && Elems(rest) <= s.mark.Keys
    && forall o :: o in Elems(rest) ==> (o in live <==> s.mark[o] != white)
  }

  lemma {:induction false} SweepFromMarks(rest: seq<Ref>, s: Swept, white: Color, live: set<Ref>)
    requires SweepReady(rest, s, white, live)
    ensures SweepFrom(rest, s, white).mark.Keys == s.mark.Keys - (Elems(rest) - live)
    ensures forall o :: o in SweepFrom(rest, s, white).mark ==>
      SweepFrom(rest, s, white).mark[o] == if o in Elems(rest) then Other(white) else s.mark[o]
  {
    if rest != [] {
      var s' := SweepOne(rest[0], s, white);
      SweepReadyStep(rest, s, white, live);
      SweepFromMarks(rest[1..], s', white, live);
    }
  }

  lemma {:induction false} SweepFromFrees(rest: seq<Ref>, s: Swept, white: Color, live: set<Ref>)
    requires SweepReady(rest, s, white, live)
    ensures SweepFrom(rest, s, white).heap == s.heap - (Elems(rest) - live)
    ensures SweepFrom(rest, s, white).cache == s.cache - (Elems(rest) - live)
  {
    if rest != [] {
      var s' := SweepOne(rest[0], s, white);
      SweepReadyStep(rest, s, white, live);
      SweepFromFrees(rest[1..], s', white, live);
    }
  }

  lemma SweepReadyStart(all: seq<Ref>, h: Heap, mark: map<Ref, Color>, cache: map<Ref, Ref>, white: Color)
    requires NoDups(all) && IsWhite(white) && mark.Keys == h.Keys && forall o :: o in all <==> o in h
    ensures SweepReady(all, Swept(h, mark, cache), white, Marked(mark, white)) && Elems(all) == h.Keys
  {
    NoDupsDistinct(all);
    assert Elems(all) == h.Keys;
  }

  lemma SweepReadyStep(rest: seq<Ref>, s: Swept, white: Color, live: set<Ref>)
    requires SweepReady(rest, s, white, live) && rest != []
    ensures SweepReady(rest[1..], SweepOne(rest[0], s, white), white, live)
    ensures rest[0] in s.mark && (rest[0] in live <==> s.mark[rest[0]] != white)
    ensures SweepFrom(rest, s, white) == SweepFrom(rest[1..], SweepOne(rest[0], s, white), white)
    ensures Filter(rest, live) ==
      if rest[0] in live then [rest[0]] + Filter(rest[1..], live)
      else Filter(rest[1..], live)
  {
  }

  lemma SweepDone(s: Swept, white: Color, live: set<Ref>)
    ensures SweepFrom([], s, white) == s && Filter([], live) == []
  {
  }

  /** A whole sweep keeps exactly the marked objects, all in the next white. */
  lemma SweepAll(all: seq<Ref>, h: Heap, mark: map<Ref, Color>, cache: map<Ref, Ref>, white: Color)
    requires SweepReady(all, Swept(h, mark, cache), white, Marked(mark, white))
    requires Elems(all) == h.Keys == mark.Keys
    ensures var live := Marked(mark, white);
      SweepFrom(all, Swept(h, mark, cache), white)
      == Swept(h - (h.Keys - live), map o | o in live :: Other(white), cache - (h.Keys - live))
  {
    var live, s := Marked(mark, white), Swept(h, mark, cache);
    SweepFromMarks(all, s, white, live);
    SweepFromFrees(all, s, white, live);
    assert SweepFrom(all, s, white).mark == map o | o in live :: Other(white);
  }

  /** With the gray list empty, the marked objects are closed under edges. */
  lemma DrainedIsClosed(g: Graph, mark: map<Ref, Color>, white: Color, bound: set<Ref>)
    requires Tricolor(g, mark, [], white, bound, {})
    ensures ClosedIn(g, Marked(mark, white))
  {
    forall o | o in Marked(mark, white) && o in g
      ensures g[o] <= Marked(mark, white)
    {
      assert o !in [];
      assert mark[o] == Black;
    }
  }

  lemma AllBlack(g: Graph, mark: map<Ref, Color>, cache: map<Ref, Ref>, white: Color)
    requires Tricolor(g, mark, [], white, g.Keys, {}) && CachesMarked(mark, cache, white)
    ensures forall p :: p in cache && p in Marked(mark, white) ==> cache[p] in Marked(mark, white)
    ensures cache.Keys <= mark.Keys
  {
    forall p | p in cache && p in Marked(mark, white)
      ensures cache[p] in Marked(mark, white)
    {
      assert p !in [];
    }
  }

  lemma SubCacheTrans(a: map<Ref, Ref>, b: map<Ref, Ref>, c: map<Ref, Ref>)
    requires SubCache(a, b) && SubCache(b, c)
    ensures SubCache(a, c)
  {
  }

  lemma CacheAfterSweep(before: map<Ref, Ref>, cache: map<Ref, Ref>, dom: set<Ref>, live: set<Ref>)
    requires SubCache(cache, before) && cache.Keys <= dom && live <= dom
    requires forall p :: p in cache && p in live ==> cache[p] in live
    ensures SubCache(cache - (dom - live), before)
    ensures (cache - (dom - live)).Keys <= live
    ensures forall p :: p in cache - (dom - live) ==> cache[p] in live
  {
  }

  // ----- Ephemerons -----

  predicate IsEphemeronTable(o: Object) { o.Table? && o.weakKeys && !o.weakValues }

  ghost predicate HashRefsWithin(hash: seq<Node>, s: set<Ref>)
  {
    forall n :: n in hash && n.used ==> (n.key.Obj? ==> n.key.ref in s) && (n.value.Obj? ==> n.value.ref in s)
  }

  ghost predicate ItemsWithin(items: seq<Value>, s: set<Ref>)
  {
    forall v :: v in items && v.Obj? ==> v.ref in s
  }

  ghost predicate EntriesWithin(h: Heap)
  {
    forall o :: o in h && h[o].Table? ==> HashRefsWithin(h[o].hash, h.Keys) && ItemsWithin(h[o].items, h.Keys)
  }

  ghost predicate HashConverged(hash: seq<Node>, s: set<Ref>)
  {
    forall n :: n in hash && n.used && n.key.Obj? && n.key.ref in s && n.value.Obj? ==> n.value.ref in s
  }

  ghost predicate TableConverged(o: Object, r: Ref, s: set<Ref>)
  {
    IsEphemeronTable(o) && r in s ==> HashConverged(o.hash, s)
  }

  ghost predicate AllConverged(h: Heap, objects: seq<Ref>, s: set<Ref>)
  {
    forall o :: o in objects && o in h ==> TableConverged(h[o], o, s)
  }

  lemma ConvergedIsClosed(h: Heap, all: seq<Ref>, s: set<Ref>)
    requires (forall o :: o in h ==> o in all) && AllConverged(h, all, s)
    ensures EphemeronClosed(h, s)
  {
  }

  class GC {
    var heap: Heap
    var cache: map<Ref, Ref>
    var mark: map<Ref, Color>
    var all: seq<Ref>
    var gray: seq<Ref>
    var white: Color
    var phase: Phase
    var finalize: seq<Ref>
    /** Every object taken off the queue to be finalized, in order. */
    ghost var taken: seq<Ref>
    var finalized: set<Ref>
    var collecting: bool
    var state: State

    ghost predicate Marking(g: Graph, bound: set<Ref>, busy: set<Ref>)
      reads this
    {
      && Tricolor(g, mark, gray, white, bound, busy)
      && CachesMarked(mark, cache, white)
      && bound <= g.Keys
    }

    method MarkObject(o: Ref, ghost g: Graph, ghost bound: set<Ref>, ghost busy: set<Ref>)
      requires Marking(g, bound, busy) && o in bound
      modifies this`mark, this`gray
      ensures Marking(g, bound, busy)
      ensures Marked(mark, white) == old(Marked(mark, white)) + {o}
      ensures NonBlack(mark) == old(NonBlack(mark))
      ensures gray != old(gray) <==> o !in old(Marked(mark, white))
      ensures gray == old(gray) ==> mark == old(mark)
    {
      if mark[o] == Black || mark[o] == Gray {
        return;
      }
      GrayingKeepsTricolor(g, mark, gray, white, bound, busy, o);
      mark := mark[o := Gray];
      gray := [o] + gray;
    }

    method MarkAll(rs: seq<Ref>, ghost g: Graph, ghost bound: set<Ref>, ghost busy: set<Ref>)
      requires Marking(g, bound, busy)
      requires forall r :: r in rs ==> r in bound
      modifies this`mark, this`gray
      ensures Marking(g, bound, busy)
      ensures Marked(mark, white) == old(Marked(mark, white)) + set r | r in rs
      ensures NonBlack(mark) == old(NonBlack(mark))
    {
      for i := 0 to |rs|
        invariant Marking(g, bound, busy)
        invariant Marked(mark, white) == old(Marked(mark, white)) + set r | r in rs[..i]
        invariant NonBlack(mark) == old(NonBlack(mark))
      {
        assert rs[..i + 1] == rs[..i] + [rs[i]];
        assert rs[i] in rs;
        MarkObject(rs[i], g, bound, busy);
      }
      assert rs[..|rs|] == rs;
    }

    method MarkRoots(ghost g: Graph, ghost bound: set<Ref>)
      requires Marking(g, bound, {})
      requires Roots(heap, state) <= bound
      modifies this`mark, this`gray
      ensures Marking(g, bound, {})
      ensures Marked(mark, white) == old(Marked(mark, white)) + Roots(heap, state)
    {
      var rs := RootRefs(heap, state);
      forall r | r in rs ensures r in bound { assert r in Roots(heap, state); }
      MarkAll(rs, g, bound, {});
    }

    /** Takes the first gray object off the list, blackens it and drops its white cache. */
    method PopGray(ghost g: Graph, ghost bound: set<Ref>) returns (o: Ref)
      requires Marking(g, bound, {}) && gray != []
      modifies this`mark, this`gray, this`cache
      ensures Marking(g, bound, {o}) && o in bound
      ensures Marked(mark, white) == old(Marked(mark, white)) && SubCache(cache, old(cache))
      ensures NonBlack(mark) == old(NonBlack(mark)) - {o} && o in old(NonBlack(mark))
    {
      o := gray[0];
      BlackeningKeepsTricolor(g, mark, gray, white, bound);
      gray := gray[1..];
      mark := mark[o := Black];
      if o in cache && mark[cache[o]] == white {
        cache := cache - {o};
      }
    }

    method PropagateOne(ghost g: Graph, ghost bound: set<Ref>)
      requires Marking(g, bound, {}) && g == GraphOf(heap, state.current) && ClosedIn(g, bound)
      modifies this`mark, this`gray, this`cache
      ensures Marking(g, bound, {})
      ensures Grew(old(mark), mark, white) && SubCache(cache, old(cache))
      ensures old(gray) != [] ==> NonBlack(mark) < old(NonBlack(mark))
      ensures old(gray) == [] ==> mark == old(mark) && gray == [] && cache == old(cache)
    {
      if gray == [] {
        return;
      }
      var o := PopGray(g, bound);
      ChildrenWithin(heap, state.current, o, bound);
      MarkAll(Children(heap, state.current, o), g, bound, {o});
    }

    method Drain(ghost g: Graph, ghost bound: set<Ref>)
      requires Marking(g, bound, {}) && g == GraphOf(heap, state.current) && ClosedIn(g, bound)
      modifies this`mark, this`gray, this`cache
      ensures Marking(g, bound, {}) && gray == []
      ensures Grew(old(mark), mark, white) && SubCache(cache, old(cache))
      ensures old(gray) == [] ==> mark == old(mark)
    {
      while gray != []
        invariant Marking(g, bound, {})
        invariant old(gray) == [] ==> mark == old(mark) && gray == []
        invariant Grew(old(mark), mark, white) && SubCache(cache, old(cache))
        decreases NonBlack(mark)
      {
        PropagateOne(g, bound);
      }
    }

    /** One table's share of a convergence pass. */
    method MarkEphemeronValues(t: Ref, ghost g: Graph, ghost bound: set<Ref>) returns (changed: bool)
      requires Marking(g, bound, {}) && g.Keys == heap.Keys
      requires t in heap && IsEphemeronTable(heap[t]) && HashRefsWithin(heap[t].hash, heap.Keys)
      requires t in bound && EphemeronClosed(heap, bound)
      modifies this`mark, this`gray
      ensures Marking(g, bound, {}) && Grew(old(mark), mark, white)
      ensures changed ==> old(Marked(mark, white)) < Marked(mark, white)
      ensures !changed ==> mark == old(mark) && gray == old(gray) && HashConverged(heap[t].hash, Marked(mark, white))
    {
      changed := false;
      var hash := heap[t].hash;
      for i := 0 to |hash|
        invariant Marking(g, bound, {}) && Grew(old(mark), mark, white)
        invariant changed ==> old(Marked(mark, white)) < Marked(mark, white)
        invariant !changed ==> mark == old(mark) && gray == old(gray) && HashConverged(hash[..i], Marked(mark, white))
      {
        assert hash[..i + 1] == hash[..i] + [hash[i]];
        var n := hash[i];
        assert n in hash;
        if n.used && n.key.Obj? && mark[n.key.ref] != white && n.value.Obj? {
          var before := gray;
          assert Ephemeron(heap, t, n.key.ref, n.value.ref);
          assert n.key.ref in Marked(mark, white);
          MarkObject(n.value.ref, g, bound, {});
          if gray != before {
            changed := true;
          }
        }
      }
      assert hash[..|hash|] == hash;
    }

    /** One pass over the object list. */
    method EphemeronPass(ghost g: Graph, ghost bound: set<Ref>) returns (changed: bool)
      requires Marking(g, bound, {}) && g.Keys == heap.Keys
      requires EntriesWithin(heap) && forall o :: o in all ==> o in heap
      requires EphemeronClosed(heap, bound)
      modifies this`mark, this`gray
      ensures Marking(g, bound, {}) && Grew(old(mark), mark, white)
      ensures changed ==> old(Marked(mark, white)) < Marked(mark, white)
      ensures !changed ==> mark == old(mark) && gray == old(gray)
      ensures !changed ==> AllConverged(heap, all, Marked(mark, white))
    {
      hide Tricolor, CachesMarked, EphemeronClosed, EntriesWithin;
      changed := false;
      for i := 0 to |all|
        invariant Marking(g, bound, {}) && Grew(old(mark), mark, white)
        invariant changed ==> old(Marked(mark, white)) < Marked(mark, white)
        invariant !changed ==> mark == old(mark) && gray == old(gray)
        invariant !changed ==> AllConverged(heap, all[..i], Marked(mark, white))
      {
        var o := all[i];
        assert o in all && all[..i + 1] == all[..i] + [o];
        TricolorFacts(g, mark, gray, white, bound);
        EntriesOf(heap, o);
        if IsEphemeronTable(heap[o]) && mark[o] != white {
          assert o in Marked(mark, white);
          var c := MarkEphemeronValues(o, g, bound);
          changed := changed || c;
        }
      }
      assert all[..|all|] == all;
    }

    /** A pass followed by full propagation of what it marked. */
    method EphemeronRound(ghost g: Graph, ghost bound: set<Ref>) returns (changed: bool)
      requires Marking(g, bound, {}) && gray == [] && g == GraphOf(heap, state.current) && ClosedIn(g, bound)
      requires EntriesWithin(heap) && forall o :: o in all <==> o in heap
      requires EphemeronClosed(heap, bound)
      modifies this`mark, this`gray, this`cache
      ensures Marking(g, bound, {}) && gray == []
      ensures Grew(old(mark), mark, white) && SubCache(cache, old(cache))
      ensures changed ==> old(Marked(mark, white)) < Marked(mark, white)
      ensures !changed ==> mark == old(mark) && AllConverged(heap, all, Marked(mark, white))
    {
      changed := EphemeronPass(g, bound);
      Drain(g, bound);
    }

    method EphemeronLoop(ghost g: Graph, ghost bound: set<Ref>)
      requires Marking(g, bound, {}) && gray == [] && g == GraphOf(heap, state.current) && ClosedIn(g, bound)
      requires EntriesWithin(heap) && forall o :: o in all <==> o in heap
      requires EphemeronClosed(heap, bound)
      modifies this`mark, this`gray, this`cache
      ensures Marking(g, bound, {}) && gray == []
      ensures Grew(old(mark), mark, white) && SubCache(cache, old(cache))
      ensures EphemeronClosed(heap, Marked(mark, white))
    {
      var changed := true;
      while changed
        invariant Marking(g, bound, {}) && gray == []
        invariant Grew(old(mark), mark, white) && SubCache(cache, old(cache))
        invariant !changed ==> AllConverged(heap, all, Marked(mark, white))
        decreases heap.Keys - Marked(mark, white), changed
      {
        changed := EphemeronRound(g, bound);
      }
      ConvergedIsClosed(heap, all, Marked(mark, white));
    }

    /** Convergence marks exactly what the edges and the ephemeron rule reach from what is marked. */
    method ConvergeEphemerons(ghost g: Graph)
      requires Marking(g, heap.Keys, {}) && gray == [] && g == GraphOf(heap, state.current)
      requires NoStrays(heap, state.current) && EntriesWithin(heap) && g.Keys == heap.Keys
      requires forall o :: o in all <==> o in heap
      modifies this`mark, this`gray, this`cache
      ensures Marking(g, heap.Keys, {}) && gray == []
      ensures Marked(mark, white) == Reach(heap, state.current, old(Marked(mark, white)))
      ensures SubCache(cache, old(cache))
    {
      hide Reach, GraphOf, NoStrays, EntriesWithin, ClosedIn, EdgeClosed, EphemeronClosed, SubCache;
      ghost var start := Marked(mark, white);
      ghost var bound := Reach(heap, state.current, start);
      ReachIsLeast(heap, state.current, start);
      ClosedInGraph(heap, state.current, bound);
      EphemeronLoop(g, bound);
      DrainedIsClosed(g, mark, white, bound);
      ClosedInGraph(heap, state.current, Marked(mark, white));
      assert Closed(heap, state.current, Marked(mark, white));
    }

    // ----- Clearing -----

    method ClearDeadStack(t: Ref)
      requires t in heap && heap[t].Thread?
      modifies this`heap
      ensures heap == old(heap)[t := WipeThread(old(heap)[t], t == state.current)]
    {
      var th := heap[t];
      var stack := th.stack;
      var i := DeadFrom(th, t == state.current);
      while i < |stack|
        invariant |stack| == |th.stack| && DeadFrom(th, t == state.current) <= i
        invariant forall k :: 0 <= k < |stack| ==>
          stack[k] == if DeadFrom(th, t == state.current) <= k < i then Nil else th.stack[k]
      {
        stack := stack[i := Nil];
        i := i + 1;
      }
      heap := heap[t := th.(stack := stack)];
      assert stack == WipeThread(th, t == state.current).stack;
    }

    method ClearDeadStacks()
      requires state.main in heap && heap[state.main].Thread? && state.current in heap && heap[state.current].Thread?
      modifies this`heap
      ensures heap == WipeHeap(old(heap), state)
    {
      ClearDeadStack(state.main);
      ClearDeadStack(state.current);
      if state.main == state.current {
        ghost var t := old(heap)[state.main];
        ghost var w := WipeThread(t, true);
        assert DeadFrom(w, true) == DeadFrom(t, true) && |w.stack| == |t.stack|;
        assert WipeThread(w, true).stack == w.stack;
      }
    }

    method ClearWeakEntries(t: Ref, mask: Mask)
      requires t in heap && heap[t].Table?
      requires HashRefsWithin(heap[t].hash, mark.Keys) && ItemsWithin(heap[t].items, mark.Keys)
      modifies this`heap
      ensures heap == old(heap)[t := ClearWeak(old(heap)[t], mask, Marked(mark, white))]
    {
      var tb := heap[t];
      if !(if mask == Values then tb.weakValues else tb.weakKeys) {
        return;
      }
      ghost var live := Marked(mark, white);
      var items := tb.items;
      if mask == Values {
        for i := 0 to |items|
          invariant |items| == |tb.items|
          invariant forall k :: 0 <= k < |items| ==>
            items[k] == if k < i then KeepLive(tb.items[k], live) else tb.items[k]
        {
          assert tb.items[i] in tb.items;
          if items[i].Obj? && mark[items[i].ref] == white {
            items := items[i := Nil];
          }
        }
      }
      var hash := tb.hash;
      for i := 0 to |hash|
        invariant |hash| == |tb.hash|
        invariant forall k :: 0 <= k < |hash| ==>
          hash[k] ==
            if k >= i then tb.hash[k]
            else if mask == Values then ClearNodeValue(tb.hash[k], live)
            else ClearNodeKey(tb.hash[k], live)
      {
        var n := hash[i];
        assert n in tb.hash;
        if n.used && mask == Keys && n.key.Obj? && mark[n.key.ref] == white {
          hash := hash[i := n.(key := Nil, value := Nil)];
        } else if n.used && mask == Values && n.value.Obj? && mark[n.value.ref] == white {
          hash := hash[i := n.(value := Nil)];
        }
      }
      heap := heap[t := tb.(items := items, hash := hash)];
      var want := ClearWeak(tb, mask, live);
      assert items == want.items && hash == want.hash;
    }

    method ClearWeakTables(mask: Mask)
      requires mark.Keys == heap.Keys && EntriesWithin(heap)
      requires NoDups(all) && forall o :: o in all <==> o in heap
      modifies this`heap
      ensures heap == ClearWeakHeap(old(heap), mask, Marked(mark, white))
    {
      ghost var live := Marked(mark, white);
      for i := 0 to |all|
        invariant heap.Keys == old(heap).Keys
        invariant forall k :: 0 <= k < |all| ==>
          heap[all[k]] == if k < i then ClearWeak(old(heap)[all[k]], mask, live) else old(heap)[all[k]]
      {
        if heap[all[i]].Table? {
          ClearWeakEntries(all[i], mask);
        }
      }
      forall o | o in heap ensures heap[o] == ClearWeak(old(heap)[o], mask, live)
      {
        assert o in all;
        var k :| 0 <= k < |all| && all[k] == o;
      }
    }

    // ----- Sweeping -----

    /** White objects with an unrun finalizer, in list order. */
    method SelectFinalizable() returns (list: seq<Ref>)
      requires mark.Keys == heap.Keys && forall o :: o in all ==> o in heap
      ensures list == Filter(all, Finalizable(heap, state, finalized, Marked(mark, white)))
    {
      ghost var keep := Finalizable(heap, state, finalized, Marked(mark, white));
      list := [];
      for i := 0 to |all|
        invariant list == Filter(all[..i], keep)
      {
        var o := all[i];
        assert o in all && all[..i + 1] == all[..i] + [o];
        FilterAppend(all[..i], o, keep);
        if mark[o] == white && o !in finalized && HasGc(heap, state.gcName, o) {
          list := list + [o];
        }
      }
      assert all[..|all|] == all;
    }

    /** Frees one white object, or gives a marked one the next white. */
    method SweepObject(o: Ref) returns (alive: bool)
      requires o in mark
      modifies this`heap, this`mark, this`cache
      ensures Swept(heap, mark, cache) == SweepOne(o, old(Swept(heap, mark, cache)), white)
      ensures alive <==> old(mark[o]) != white
    {
      alive := mark[o] != white;
      if alive {
        mark := mark[o := Other(white)];
      } else {
        heap := heap - {o};
        mark := mark - {o};
        cache := cache - {o};
      }
    }

    /** Frees every object that is still white and gives the others the next white. */
    method SweepList()
      requires IsWhite(white) && mark.Keys == heap.Keys
      requires NoDups(all) && forall o :: o in all <==> o in heap
      modifies this`all, this`heap, this`mark, this`cache
      ensures all == Filter(old(all), old(Marked(mark, white)))
      ensures heap == old(heap) - (old(heap).Keys - old(Marked(mark, white)))
      ensures cache == old(cache) - (old(heap).Keys - old(Marked(mark, white)))
      ensures mark == map o | o in old(Marked(mark, white)) :: Other(white)
    {
      hide SweepFrom, SweepOne, SweepReady, Filter, Elems;
      ghost var live, total := Marked(mark, white), SweepFrom(all, Swept(heap, mark, cache), white);
      SweepReadyStart(all, heap, mark, cache, white);
      SweepAll(all, heap, mark, cache, white);
      var rest, kept := all, [];
      while rest != []
        invariant SweepReady(rest, Swept(heap, mark, cache), white, live)
        invariant all == old(all) && kept + Filter(rest, live) == Filter(all, live)
        invariant SweepFrom(rest, Swept(heap, mark, cache), white) == total
        decreases |rest|
      {
        SweepReadyStep(rest, Swept(heap, mark, cache), white, live);
        var alive := SweepObject(rest[0]);
        if alive {
          assert kept + [rest[0]] + Filter(rest[1..], live) == kept + Filter(rest, live);
          kept := kept + [rest[0]];
        }
        rest := rest[1..];
      }
      SweepDone(Swept(heap, mark, cache), white, live);
      assert kept + [] == kept;
      all := kept;
    }

    // ----- The sweep phase -----

    /** Wipes dead slots, lists the finalizable objects and drops weak values. */
    method SelectDoomed() returns (list: seq<Ref>)
      requires state.main in heap && heap[state.main].Thread? && state.current in heap && heap[state.current].Thread?
      requires mark.Keys == heap.Keys && EntriesWithin(WipeHeap(heap, state))
      requires NoDups(all) && forall o :: o in all <==> o in heap
      modifies this`heap
      ensures heap == ClearWeakHeap(WipeHeap(old(heap), state), Values, Marked(mark, white))
      ensures list == Filter(all, Finalizable(WipeHeap(old(heap), state), state, finalized, Marked(mark, white)))
    {
      ClearDeadStacks();
      list := SelectFinalizable();
      ClearWeakTables(Values);
    }

    /** Converges, resurrects the listed objects and converges again. */
    method Resurrect(list: seq<Ref>, ghost g: Graph, ghost roots: set<Ref>, ghost doomed: set<Ref>)
      requires Marking(g, heap.Keys, {}) && gray == [] && forall o :: o in all <==> o in heap
      requires NoStrays(heap, state.current) && EntriesWithin(heap) && g == GraphOf(heap, state.current)
      requires g.Keys == heap.Keys && ResurrectionBounds(heap, state.current, g, Marked(mark, white), roots, doomed)
      requires forall r :: r in list <==> r in doomed
      modifies this`mark, this`gray, this`cache
      ensures Marking(g, heap.Keys, {}) && gray == [] && SubCache(cache, old(cache))
      ensures Marked(mark, white) == Reach(heap, state.current, roots + doomed)
    {
      hide Reach, GraphOf, NoStrays, EntriesWithin, ClosedIn, SubCache;
      MarkDoomed(list, g, roots, doomed);
      ghost var marked := cache;
      ReachAbsorbs(heap, state.current, roots + doomed, Marked(mark, white));
      ConvergeEphemerons(g);
      SubCacheTrans(cache, marked, old(cache));
    }

    method MarkDoomed(list: seq<Ref>, ghost g: Graph, ghost roots: set<Ref>, ghost doomed: set<Ref>)
      requires Marking(g, heap.Keys, {}) && gray == [] && forall o :: o in all <==> o in heap
      requires NoStrays(heap, state.current) && EntriesWithin(heap) && g == GraphOf(heap, state.current)
      requires g.Keys == heap.Keys && ResurrectionBounds(heap, state.current, g, Marked(mark, white), roots, doomed)
      requires forall r :: r in list <==> r in doomed
      modifies this`mark, this`gray, this`cache
      ensures Marking(g, heap.Keys, {}) && gray == [] && SubCache(cache, old(cache))
      ensures roots + doomed <= Marked(mark, white) <= Reach(heap, state.current, roots + doomed)
    {
      hide Reach, GraphOf, NoStrays, EntriesWithin, ClosedIn, SubCache;
      ConvergeEphemerons(g);
      ghost var converged := cache;
      ResurrectList(list, g, Reach(heap, state.current, roots + doomed));
      SubCacheTrans(cache, converged, old(cache));
    }

    method ResurrectList(list: seq<Ref>, ghost g: Graph, ghost bound: set<Ref>)
      requires Marking(g, bound, {}) && gray == [] && g == GraphOf(heap, state.current) && ClosedIn(g, bound)
      requires forall r :: r in list ==> r in bound
      modifies this`mark, this`gray, this`cache
      ensures Marking(g, bound, {}) && gray == [] && SubCache(cache, old(cache))
      ensures old(Marked(mark, white)) <= Marked(mark, white)
      ensures forall r :: r in list ==> r in Marked(mark, white)
    {
      MarkAll(list, g, bound, {});
      ghost var m := Marked(mark, white);
      assert forall r :: r in list ==> r in m;
      Drain(g, bound);
    }

    /** Moves the resurrected objects to the finalization queue, in the next white. */
    method QueueFinalizers(list: seq<Ref>)
      requires IsWhite(white) && forall r :: r in list ==> r in Marked(mark, white)
      modifies this`mark, this`finalize
      ensures Marked(mark, white) == old(Marked(mark, white)) && mark.Keys == old(mark.Keys)
      ensures finalize == old(finalize) + list
    {
      for i := 0 to |list|
        invariant Marked(mark, white) == old(Marked(mark, white)) && mark.Keys == old(mark.Keys)
        invariant finalize == old(finalize) + list[..i]
      {
        assert list[i] in list && list[..i + 1] == list[..i] + [list[i]];
        mark := mark[list[i] := Other(white)];
        finalize := finalize + [list[i]];
      }
      assert list[..|list|] == list;
    }

    /** Final weak clearing, then everything unmarked is freed and the white flips. */
    method SweepMarked(list: seq<Ref>)
      requires IsWhite(white) && mark.Keys == heap.Keys && EntriesWithin(heap)
      requires NoDups(all) && forall o :: o in all <==> o in heap
      requires forall r :: r in list ==> r in Marked(mark, white)
      modifies this`heap, this`mark, this`cache, this`all, this`finalize, this`white
      ensures white == Other(old(white)) && finalize == old(finalize) + list
      ensures all == Filter(old(all), old(Marked(mark, white)))
      ensures heap == FinalHeap(old(heap), old(Marked(mark, white)))
      ensures cache == old(cache) - (old(heap).Keys - old(Marked(mark, white)))
      ensures mark == map o | o in old(Marked(mark, white)) :: white
    {
      ghost var live := Marked(mark, white);
      ClearWeakTables(Values);
      ClearingKeepsEntries(old(heap), Values, live);
      ClearWeakTables(Keys);
      QueueFinalizers(list);
      SweepList();
      white := Other(white);
    }

    // ----- Whole collections -----

    /** Between collections: a sound heap, every object in the current white. */
    ghost predicate AtRest()
      reads this`heap, this`state, this`cache, this`all, this`phase, this`white, this`mark
    {
      && Sound(heap, state, cache, all)
      && phase == Pause && IsWhite(white) && mark.Keys == heap.Keys
      && forall o :: o in mark ==> mark[o] == white
    }

    /** Exactly `live` is left of the given heap and list, all in the next white. */
    ghost predicate Finished(h: Heap, list: seq<Ref>, caches: map<Ref, Ref>, oldWhite: Color, live: set<Ref>)
      reads this`heap, this`cache, this`all, this`white, this`mark
    {
      && all == Filter(list, live) && heap == FinalHeap(h, live)
      && white == Other(oldWhite) && mark == (map o | o in live :: white)
      && SubCache(cache, caches) && cache.Keys <= live && forall p :: p in cache ==> cache[p] in live
    }

    /** The queue has been worked off: all its objects are flagged and taken, after those taken before. */
    ghost predicate WorkedOff(queue: seq<Ref>, flags: set<Ref>, before: seq<Ref>)
      reads this`finalize, this`finalized, this`taken
    {
      finalize == [] && finalized == flags + Elems(queue) && taken == before + queue
    }

    /** The outcome of a collection that started from the given heap, list, caches, white, queue and flags. */
    ghost predicate Collected(h: Heap, list: seq<Ref>, caches: map<Ref, Ref>, oldWhite: Color,
                              queue: seq<Ref>, flags: set<Ref>, before: seq<Ref>)
      reads this`heap, this`cache, this`all, this`white, this`mark, this`state,
            this`finalize, this`finalized, this`taken
    {
      && Finished(MidHeap(h, state), list, caches, oldWhite, Survivors(h, state, flags))
      && WorkedOff(queue + Filter(list, Doomed(h, state, flags)), flags, before)
    }

    /** `step` in the pause phase. */
    method StartMarking(ghost g: Graph, ghost bound: set<Ref>)
      requires phase == Pause && IsWhite(white) && mark.Keys == g.Keys && forall o :: o in mark ==> mark[o] == white
      requires Roots(heap, state) <= bound <= g.Keys
      requires forall p :: p in cache ==> p in mark && cache[p] in mark
      modifies this`mark, this`gray, this`phase
      ensures phase == Propagate && Marking(g, bound, {}) && Roots(heap, state) <= Marked(mark, white)
    {
      gray := [];
      MarkRoots(g, bound);
      phase := Propagate;
    }

    /** `step` in the propagate phase. */
    method PropagateStep(ghost g: Graph, ghost bound: set<Ref>)
      requires phase == Propagate && Marking(g, bound, {}) && g == GraphOf(heap, state.current) && ClosedIn(g, bound)
      modifies this`mark, this`gray, this`cache, this`phase
      ensures Marking(g, bound, {}) && old(Marked(mark, white)) <= Marked(mark, white)
      ensures phase == Propagate || (phase == Sweep && gray == [])
      ensures phase == Propagate ==> NonBlack(mark) < old(NonBlack(mark))
      ensures SubCache(cache, old(cache))
    {
      if gray != [] {
        PropagateOne(g, bound);
      } else {
        phase := Sweep;
      }
    }

    /** `step` until the propagate phase is over. */
    method MarkPhase(ghost g: Graph, ghost bound: set<Ref>)
      requires phase == Pause && IsWhite(white) && mark.Keys == g.Keys && forall o :: o in mark ==> mark[o] == white
      requires Roots(heap, state) <= bound <= g.Keys && g == GraphOf(heap, state.current) && ClosedIn(g, bound)
      requires forall p :: p in cache ==> p in mark && cache[p] in mark
      modifies this`mark, this`gray, this`cache, this`phase
      ensures phase == Sweep && gray == [] && Marking(g, bound, {}) && SubCache(cache, old(cache))
      ensures Roots(heap, state) <= Marked(mark, white) && ClosedIn(g, Marked(mark, white))
    {
      ghost var roots := Roots(heap, state);
      StartMarking(g, bound);
      while phase == Propagate
        invariant Marking(g, bound, {}) && roots <= Marked(mark, white)
        invariant phase == Propagate || (phase == Sweep && gray == [])
        invariant SubCache(cache, old(cache))
        decreases phase == Propagate, NonBlack(mark)
      {
        PropagateStep(g, bound);
      }
      DrainedIsClosed(g, mark, white, bound);
    }

    /** The part of the sweep phase after weak values are first dropped. */
    method FinishSweep(list: seq<Ref>, ghost g: Graph, ghost roots: set<Ref>, ghost doomed: set<Ref>)
      requires Marking(g, heap.Keys, {}) && gray == []
      requires NoDups(all) && forall o :: o in all <==> o in heap
      requires NoStrays(heap, state.current) && EntriesWithin(heap) && g == GraphOf(heap, state.current)
      requires g.Keys == heap.Keys && ResurrectionBounds(heap, state.current, g, Marked(mark, white), roots, doomed)
      requires forall r :: r in list <==> r in doomed
      modifies this`heap, this`mark, this`gray, this`cache, this`all, this`finalize, this`white
      ensures Finished(old(heap), old(all), old(cache), old(white), Reach(old(heap), state.current, roots + doomed))
      ensures finalize == old(finalize) + list
    {
      hide Reach, GraphOf, NoStrays, EntriesWithin, ClosedIn, FinalHeap, Filter, SubCache;
      ghost var live, cache0 := Reach(heap, state.current, roots + doomed), cache;
      Resurrect(list, g, roots, doomed);
      AllBlack(g, mark, cache, white);
      CacheAfterSweep(cache0, cache, heap.Keys, live);
      SweepMarked(list);
    }

    /** The sweep up to the finalizers. */
    method SweepHeap(ghost g: Graph, ghost roots: set<Ref>, ghost doomed: set<Ref>, ghost mid: Heap)
      requires phase == Sweep && Marking(g, heap.Keys, {}) && gray == []
      requires state.main in heap && heap[state.main].Thread? && state.current in heap && heap[state.current].Thread?
      requires NoDups(all) && forall o :: o in all <==> o in heap
      requires EntriesWithin(WipeHeap(heap, state))
      requires mid == ClearWeakHeap(WipeHeap(heap, state), Values, Marked(mark, white))
      requires doomed == Finalizable(WipeHeap(heap, state), state, finalized, Marked(mark, white))
      requires NoStrays(mid, state.current) && EntriesWithin(mid) && g == GraphOf(mid, state.current)
      requires g.Keys == heap.Keys && mid.Keys == heap.Keys
      requires ResurrectionBounds(mid, state.current, g, Marked(mark, white), roots, doomed)
      modifies this`heap, this`mark, this`gray, this`cache, this`all, this`finalize, this`white
      ensures Finished(mid, old(all), old(cache), old(white), Reach(mid, state.current, roots + doomed))
      ensures finalize == old(finalize) + Filter(old(all), doomed)
    {
      hide Reach, GraphOf, NoStrays, EntriesWithin, ClosedIn, FinalHeap, Filter, Finalizable, ClearWeakHeap, WipeHeap;
      var list := SelectDoomed();
      forall r ensures r in list <==> r in doomed { FilterMember(all, doomed, r); }
      FinishSweep(list, g, roots, doomed);
    }

    /** `step` in the sweep phase. */
    method SweepStep(ghost g: Graph, ghost roots: set<Ref>, ghost doomed: set<Ref>, ghost mid: Heap)
      requires phase == Sweep && Marking(g, heap.Keys, {}) && gray == []
      requires state.main in heap && heap[state.main].Thread? && state.current in heap && heap[state.current].Thread?
      requires NoDups(all) && forall o :: o in all <==> o in heap
      requires EntriesWithin(WipeHeap(heap, state))
      requires mid == ClearWeakHeap(WipeHeap(heap, state), Values, Marked(mark, white))
      requires doomed == Finalizable(WipeHeap(heap, state), state, finalized, Marked(mark, white))
      requires NoStrays(mid, state.current) && EntriesWithin(mid) && g == GraphOf(mid, state.current)
      requires g.Keys == heap.Keys && mid.Keys == heap.Keys
      requires ResurrectionBounds(mid, state.current, g, Marked(mark, white), roots, doomed)
      modifies this`heap, this`mark, this`gray, this`cache, this`all, this`finalize, this`white, this`phase,
               this`finalized, this`taken
      ensures phase == Pause
      ensures Finished(mid, old(all), old(cache), old(white), Reach(mid, state.current, roots + doomed))
      ensures WorkedOff(old(finalize) + Filter(old(all), doomed), old(finalized), old(taken))
    {
      hide *;
      SweepHeap(g, roots, doomed, mid);
      RunFinalizers();
      phase := Pause;
    }

    /** Empties the queue; each object is flagged before its `__gc` field is looked up again. Whether that is still a
        function, and what it does, depends on the finalizers before it. */
    method RunFinalizers()
      modifies this`finalize, this`finalized, this`taken
      ensures WorkedOff(old(finalize), old(finalized), old(taken))
    {
      var pending := finalize;
      finalize := [];
      for i := 0 to |pending|
        invariant finalize == [] && finalized == old(finalized) + Elems(pending[..i])
        invariant taken == old(taken) + pending[..i]
      {
        ElemsSnoc(pending[..i], pending[i]);
        assert pending[..i + 1] == pending[..i] + [pending[i]];
        finalized := finalized + {pending[i]};
        taken := taken + [pending[i]];
      }
      assert pending[..|pending|] == pending;
    }

    /** `step` from pause to pause. */
    method Collect()
      requires AtRest()
      modifies this`heap, this`mark, this`gray, this`cache, this`all, this`finalize, this`white, this`phase,
               this`finalized, this`taken
      ensures phase == Pause
      ensures Collected(old(heap), old(all), old(cache), old(white), old(finalize), old(finalized), old(taken))
    {
      hide Reach, StrongReach, Roots, NoStrays, EntriesWithin, ResurrectionBounds, OpenSlotsLive, Filter, FinalHeap,
           Finalizable, Doomed, Survivors, ClearWeakHeap, WipeHeap, GraphOf, ClosedIn, EdgeClosed, SubCache, WorkedOff,
           Tricolor, CachesMarked, Sound, MidHeap, Finished;
      RestFacts(heap, state, cache, all);
      ghost var h, roots := heap, Roots(heap, state);
      ghost var g, strong := GraphOf(h, state.current), StrongReach(h, state.current, roots);
      CollectionFacts(h, state, finalized);
      MarkPhase(g, strong);
      ghost var marked := cache;
      StrongMarked(h, state, mark, gray, white);
      SweepStep(g, roots, Doomed(h, state, finalized), MidHeap(h, state));
      FinishedSince(MidHeap(h, state), old(all), marked, old(cache), old(white), Survivors(h, state, old(finalized)));
    }

    lemma FinishedSince(h: Heap, list: seq<Ref>, marked: map<Ref, Ref>, caches: map<Ref, Ref>, oldWhite: Color,
                        live: set<Ref>)
      requires Finished(h, list, marked, oldWhite, live) && SubCache(marked, caches)
      ensures Finished(h, list, caches, oldWhite, live)
    {
      SubCacheTrans(cache, marked, caches);
    }

    method FullGc()
      requires !collecting ==> AtRest()
      modifies this
      ensures old(collecting) ==> unchanged(this)
      ensures !old(collecting) ==>
        && Collected(old(heap), old(all), old(cache), old(white), old(finalize), old(finalized), old(taken))
        && phase == Pause && !collecting && state == old(state)
    {
      hide *;
      if collecting {
        return;
      }
      collecting := true;
      Collect();
      collecting := false;
    }
  }
}
