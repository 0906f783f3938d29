/**
 The heap graph a collection works on: which references the collector traces
 out of an object, the ephemeron rule of weak-key tables, and the least closed
 sets that say which objects a collection has to keep.
 */
module GcHeap {
  import opened Common

  /** The address of a collectable object. */
  type Ref = nat

  /** A tagged value. Strings, tables, functions, userdata and threads are `Obj`. */
  datatype Value = Nil | Bool(b: bool) | Number(n: int) | Obj(ref: Ref)

  datatype Node = Node(used: bool, key: Value, value: Value)

  /** A call frame; `high` is its base plus its prototype's `maxstack`, or 0 without a prototype. */
  datatype Frame = Frame(closure: Option<Ref>, proto: Option<Ref>, high: nat, varargs: seq<Value>)

  datatype Object =
    | String
    | Table(metatable: Option<Ref>, weakKeys: bool, weakValues: bool, items: seq<Value>, hash: seq<Node>)
    | Proto(constants: seq<Value>, protos: seq<Ref>)
    | Closure(proto: Option<Ref>, upvals: seq<Option<Ref>>)
    | OpenUpVal(thread: Ref, slot: nat)
    | ClosedUpVal(value: Value)
    | Userdata(metatable: Option<Ref>, uservalue: Value)
    | Thread(stack: seq<Value>, top: nat, stackBase: nat, hook: Option<Ref>, frames: seq<Frame>,
             openUpvals: seq<Ref>)

  type Heap = map<Ref, Object>

  /** The collector's view of the interpreter state: everything `mark_roots` starts from. */
  datatype State = State(globals: Option<Ref>, registry: Option<Ref>, typeMetatables: seq<Option<Ref>>,
                         main: Ref, current: Ref, strings: seq<Ref>, tmNames: seq<Option<Ref>>, gcName: Ref)

  function Min(a: int, b: int): int { if a < b then a else b }

  // ----- Live part of a thread stack -----

  function HighWater(frames: seq<Frame>): nat
  {
    if frames == [] then 0 else Max(frames[0].high, HighWater(frames[1..]))
  }

  /** First stack index that is dead: above `top` and, outside a C window, above every register window. */
  function DeadFrom(t: Object, strict: bool): nat
    requires t.Thread?
  {
    if strict && t.stackBase != 0 then t.top else Max(t.top, HighWater(t.frames))
  }

  function LiveSlots(t: Object, strict: bool): seq<Value>
    requires t.Thread?
  {
    t.stack[..Min(DeadFrom(t, strict), |t.stack|)]
  }

  /** A slot is live below `top` and, except in the C window of the running thread, below the end of any frame. */
  ghost predicate SlotLive(t: Object, strict: bool, i: nat)
    requires t.Thread?
  {
    i < t.top || (!(strict && t.stackBase != 0) && exists f :: f in t.frames && i < f.high)
  }

  lemma {:induction false} HighWaterIff(frames: seq<Frame>, i: nat)
    ensures i < HighWater(frames) <==> exists f :: f in frames && i < f.high
  {
    if frames != [] {
      HighWaterIff(frames[1..], i);
      assert frames == [frames[0]] + frames[1..];
    }
  }

  /** The limit that marking and wiping stop at divides the live slots from the dead. */
  lemma DeadFromIff(t: Object, strict: bool, i: nat)
    requires t.Thread?
    ensures i < DeadFrom(t, strict) <==> SlotLive(t, strict, i)
  {
    HighWaterIff(t.frames, i);
  }

  lemma LiveSlotsMember(t: Object, strict: bool, v: Value)
    requires t.Thread?
    ensures v in LiveSlots(t, strict) <==> exists i: nat :: i < |t.stack| && SlotLive(t, strict, i) && t.stack[i] == v
  {
    hide SlotLive, DeadFrom;
    forall i: nat ensures i < DeadFrom(t, strict) <==> SlotLive(t, strict, i) { DeadFromIff(t, strict, i); }
    if v in LiveSlots(t, strict) {
      var i :| 0 <= i < |LiveSlots(t, strict)| && LiveSlots(t, strict)[i] == v;
      assert t.stack[i] == v;
    }
    if i: nat :| i < |t.stack| && SlotLive(t, strict, i) && t.stack[i] == v {
      assert LiveSlots(t, strict)[i] == v;
    }
  }

  // ----- Traced edges -----

  /** What an open upvalue reads through its thread. */
  function SlotValue(h: Heap, thread: Ref, slot: nat): Value
  {
    if thread in h && h[thread].Thread? && slot < |h[thread].stack| then h[thread].stack[slot] else Nil
  }

  /** `o` strongly refers to `r`. */
  ghost predicate Edge(h: Heap, cur: Ref, o: Ref, r: Ref)
    requires o in h
  {
    match h[o]
    case String => false
    case Table(mt, wk, wv, items, hash) =>
      || mt == Some(r)
      || (!wv && Obj(r) in items)
      || (exists n :: n in hash && n.used && !wk && (n.key == Obj(r) || (!wv && n.value == Obj(r))))
    case Proto(constants, protos) => Obj(r) in constants || r in protos
    case Closure(proto, upvals) => proto == Some(r) || Some(r) in upvals
    case OpenUpVal(t, slot) =>
      r == t || (t in h && h[t].Thread? && slot < |h[t].stack| && h[t].stack[slot] == Obj(r))
    case ClosedUpVal(v) => v == Obj(r)
    case Userdata(mt, v) => mt == Some(r) || v == Obj(r)
    case Thread(_, _, _, hook, frames, _) =>
      || (exists i: nat :: i < |h[o].stack| && SlotLive(h[o], o == cur, i) && h[o].stack[i] == Obj(r))
      || hook == Some(r)
      || (exists f :: f in frames && (f.closure == Some(r) || f.proto == Some(r) || Obj(r) in f.varargs))
  }

  /** A weak-key, strong-value table `t` maps the collectable key `k` to the object `v`. */
  ghost predicate Ephemeron(h: Heap, t: Ref, k: Ref, v: Ref)
    requires t in h
  {
    && h[t].Table? && h[t].weakKeys && !h[t].weakValues
    && exists n :: n in h[t].hash && n.used && n.key == Obj(k) && n.value == Obj(v)
  }

  // ----- Least closed sets -----

  ghost predicate EdgeClosed(h: Heap, cur: Ref, s: set<Ref>)
  {
    forall o, r :: o in s && o in h && Edge(h, cur, o, r) ==> r in s
  }

  ghost predicate EphemeronClosed(h: Heap, s: set<Ref>)
  {
    forall t, k, v :: t in s && t in h && k in s && Ephemeron(h, t, k, v) ==> v in s
  }

  ghost predicate Closed(h: Heap, cur: Ref, s: set<Ref>)
  {
    EdgeClosed(h, cur, s) && EphemeronClosed(h, s)
  }

  /** Objects in every edge-closed set that holds the roots. */
  ghost function StrongReach(h: Heap, cur: Ref, roots: set<Ref>): set<Ref>
  {
    set o | o in h && forall s: set<Ref> :: EdgeClosed(h, cur, s) && roots <= s ==> o in s
  }

  /** Objects in every set that holds the roots and is closed under edges and ephemerons. */
  ghost function Reach(h: Heap, cur: Ref, roots: set<Ref>): set<Ref>
  {
    set o | o in h && forall s: set<Ref> :: Closed(h, cur, s) && roots <= s ==> o in s
  }

  /** Every reference stored in the heap names an allocated object. */
  ghost predicate NoStrays(h: Heap, cur: Ref)
  {
    && (forall o, r :: o in h && Edge(h, cur, o, r) ==> r in h)
    && (forall t, r :: t in h && EntryRef(h, t, r) ==> r in h)
  }

  /** `r` occurs in an entry of table `t`, whatever the table's mode. */
  ghost predicate EntryRef(h: Heap, t: Ref, r: Ref)
    requires t in h
  {
    && h[t].Table?
    && (Obj(r) in h[t].items
        || exists n :: n in h[t].hash && n.used && (n.key == Obj(r) || n.value == Obj(r)))
  }

  lemma StrongReachIsLeast(h: Heap, cur: Ref, roots: set<Ref>)
    requires NoStrays(h, cur) && roots <= h.Keys
    ensures roots <= StrongReach(h, cur, roots) <= h.Keys
    ensures EdgeClosed(h, cur, StrongReach(h, cur, roots))
    ensures forall s: set<Ref> :: EdgeClosed(h, cur, s) && roots <= s ==> StrongReach(h, cur, roots) <= s
  {
    var l := StrongReach(h, cur, roots);
    forall o, r | o in l && o in h && Edge(h, cur, o, r)
      ensures r in l
    {
      forall s: set<Ref> | EdgeClosed(h, cur, s) && roots <= s
        ensures r in s
      {
        assert o in s;
      }
    }
  }

  lemma ReachIsLeast(h: Heap, cur: Ref, roots: set<Ref>)
    requires NoStrays(h, cur) && roots <= h.Keys
    ensures roots <= Reach(h, cur, roots) <= h.Keys
    ensures Closed(h, cur, Reach(h, cur, roots))
    ensures forall s: set<Ref> :: Closed(h, cur, s) && roots <= s ==> Reach(h, cur, roots) <= s
  {
    var l := Reach(h, cur, roots);
    forall o, r | o in l && o in h && Edge(h, cur, o, r)
      ensures r in l
    {
      forall s: set<Ref> | Closed(h, cur, s) && roots <= s
        ensures r in s
      {
        assert o in s;
      }
    }
    forall t, k, v | t in l && t in h && k in l && Ephemeron(h, t, k, v)
      ensures v in l
    {
      assert EntryRef(h, t, v);
      forall s: set<Ref> | Closed(h, cur, s) && roots <= s
        ensures v in s
      {
        assert t in s && k in s;
      }
    }
  }

  // ----- The children of an object, in the order they are marked -----

  function OptionRefs(o: Option<Ref>): seq<Ref> { if o.Some? then [o.value] else [] }

  function ValueRef(v: Value): seq<Ref> { if v.Obj? then [v.ref] else [] }

  function ValueRefs(vs: seq<Value>): seq<Ref>
  {
    if vs == [] then [] else ValueRef(vs[0]) + ValueRefs(vs[1..])
  }

  function OptionsRefs(os: seq<Option<Ref>>): seq<Ref>
  {
    if os == [] then [] else OptionRefs(os[0]) + OptionsRefs(os[1..])
  }

  function NodeRefs(n: Node, wk: bool, wv: bool): seq<Ref>
  {
    if !n.used || wk then [] else ValueRef(n.key) + (if wv then [] else ValueRef(n.value))
  }

  function NodesRefs(hash: seq<Node>, wk: bool, wv: bool): seq<Ref>
  {
    if hash == [] then [] else NodeRefs(hash[0], wk, wv) + NodesRefs(hash[1..], wk, wv)
  }

  function FrameRefs(f: Frame): seq<Ref>
  {
    OptionRefs(f.closure) + OptionRefs(f.proto) + ValueRefs(f.varargs)
  }

  function FramesRefs(fs: seq<Frame>): seq<Ref>
  {
    if fs == [] then [] else FrameRefs(fs[0]) + FramesRefs(fs[1..])
  }

  function Children(h: Heap, cur: Ref, o: Ref): seq<Ref>
    requires o in h
  {
    match h[o]
    case String => []
    case Table(mt, wk, wv, items, hash) =>
      OptionRefs(mt) + (if wv then [] else ValueRefs(items)) + NodesRefs(hash, wk, wv)
    case Proto(constants, protos) => ValueRefs(constants) + protos
    case Closure(proto, upvals) => OptionRefs(proto) + OptionsRefs(upvals)
    case OpenUpVal(t, slot) => ValueRef(SlotValue(h, t, slot)) + [t]
    case ClosedUpVal(v) => ValueRef(v)
    case Userdata(mt, v) => OptionRefs(mt) + ValueRef(v)
    case Thread(_, _, _, hook, frames, _) =>
      ValueRefs(LiveSlots(h[o], o == cur)) + OptionRefs(hook) + FramesRefs(frames)
  }

  lemma {:induction false} ValueRefsMember(vs: seq<Value>, r: Ref)
    ensures r in ValueRefs(vs) <==> Obj(r) in vs
  {
    if vs != [] {
      ValueRefsMember(vs[1..], r);
      assert vs == [vs[0]] + vs[1..];
    }
  }

  lemma {:induction false} OptionsRefsMember(os: seq<Option<Ref>>, r: Ref)
    ensures r in OptionsRefs(os) <==> Some(r) in os
  {
    if os != [] {
      OptionsRefsMember(os[1..], r);
      assert os == [os[0]] + os[1..];
    }
  }

  lemma {:induction false} NodesRefsMember(hash: seq<Node>, wk: bool, wv: bool, r: Ref)
    ensures r in NodesRefs(hash, wk, wv) <==>
            exists n :: n in hash && n.used && !wk && (n.key == Obj(r) || (!wv && n.value == Obj(r)))
  {
    if hash != [] {
      NodesRefsMember(hash[1..], wk, wv, r);
      assert hash == [hash[0]] + hash[1..];
    }
  }

  lemma {:induction false} FramesRefsMember(fs: seq<Frame>, r: Ref)
    ensures r in FramesRefs(fs) <==>
            exists f :: f in fs && (f.closure == Some(r) || f.proto == Some(r) || Obj(r) in f.varargs)
  {
    if fs != [] {
      FramesRefsMember(fs[1..], r);
      ValueRefsMember(fs[0].varargs, r);
      assert fs == [fs[0]] + fs[1..];
    }
  }

  /** The children an object is traced through are exactly its strong edges. */
  lemma ChildrenAreEdges(h: Heap, cur: Ref, o: Ref, r: Ref)
    requires o in h
    ensures r in Children(h, cur, o) <==> Edge(h, cur, o, r)
  {
    match h[o]
    case String =>
    case Table(mt, wk, wv, items, hash) =>
      ValueRefsMember(items, r);
      NodesRefsMember(hash, wk, wv, r);
    case Proto(constants, protos) =>
      ValueRefsMember(constants, r);
    case Closure(proto, upvals) =>
      OptionsRefsMember(upvals, r);
    case OpenUpVal(t, slot) =>
    case ClosedUpVal(v) =>
    case Userdata(mt, v) =>
    case Thread(_, _, _, hook, frames, _) =>
      ValueRefsMember(LiveSlots(h[o], o == cur), r);
      LiveSlotsMember(h[o], o == cur, Obj(r));
      FramesRefsMember(frames, r);
  }

  // ----- Roots -----

  /** What `mark_roots` marks for one of the two distinguished threads, in order. */
  function ThreadRoots(h: Heap, cur: Ref, t: Ref): seq<Ref>
  {
    if t in h && h[t].Thread? then [t] + Children(h, cur, t) + h[t].openUpvals else [t]
  }

  function RootRefs(h: Heap, st: State): seq<Ref>
  {
    OptionRefs(st.globals) + OptionRefs(st.registry) + OptionsRefs(st.typeMetatables)
    + ThreadRoots(h, st.current, st.main) + ThreadRoots(h, st.current, st.current)
    + st.strings + OptionsRefs(st.tmNames)
  }

  ghost function Roots(h: Heap, st: State): set<Ref>
  {
    set r | r in RootRefs(h, st)
  }

  /** What keeps an object alive without being referred to from the heap. */
  ghost predicate IsRoot(h: Heap, st: State, r: Ref)
  {
    || st.globals == Some(r) || st.registry == Some(r) || Some(r) in st.typeMetatables
    || r in st.strings || Some(r) in st.tmNames
    || r == st.main || r == st.current
    || (exists t :: (t == st.main || t == st.current) && t in h && h[t].Thread?
                    && (r in h[t].openUpvals || Edge(h, st.current, t, r)))
  }

  lemma RootsIff(h: Heap, st: State, r: Ref)
    ensures r in Roots(h, st) <==> IsRoot(h, st, r)
  {
    hide Edge, Children;
    OptionsRefsMember(st.typeMetatables, r);
    OptionsRefsMember(st.tmNames, r);
    if st.main in h { ChildrenAreEdges(h, st.current, st.main, r); }
    if st.current in h { ChildrenAreEdges(h, st.current, st.current, r); }
  }

  // ----- Finalizers -----

  /** Plain lookup of a key in a hash part; no key is stored twice. */
  function Lookup(hash: seq<Node>, key: Value): Value
  {
    if hash == [] then Nil
    else if hash[0].used && hash[0].key == key then hash[0].value
    else Lookup(hash[1..], key)
  }

  function MetatableOf(o: Object): Option<Ref>
  {
    match o
    case Table(mt, _, _, _, _) => mt
    case Userdata(mt, _) => mt
    case _ => None
  }

  /** The object is a table or userdata whose metatable has a truthy `__gc` field. */
  predicate HasGc(h: Heap, gcName: Ref, o: Ref)
    requires o in h
  {
    var mt := MetatableOf(h[o]);
    && mt.Some? && mt.value in h && h[mt.value].Table?
    && var v := Lookup(h[mt.value].hash, Obj(gcName));
       v != Nil && v != Bool(false)
  }

  ghost predicate UniqueKeys(hash: seq<Node>)
  {
    forall i, j :: 0 <= i < j < |hash| && hash[i].used && hash[j].used ==> hash[i].key != hash[j].key
  }

  lemma {:induction false} LookupIff(hash: seq<Node>, key: Value, v: Value)
    requires UniqueKeys(hash) && v != Nil
    ensures Lookup(hash, key) == v <==> Node(true, key, v) in hash
  {
    if hash != [] {
      LookupIff(hash[1..], key, v);
      assert hash == [hash[0]] + hash[1..];
      if Node(true, key, v) in hash[1..] {
        var i :| 0 <= i < |hash[1..]| && hash[1..][i] == Node(true, key, v);
        assert hash[i + 1] == Node(true, key, v);
      }
    }
  }

  /** Exactly the tables and userdata have finalizers whose metatable is a table that holds, under the name of `__gc`,
      anything but nil and false. */
  lemma HasGcIff(h: Heap, gcName: Ref, o: Ref)
    requires o in h
    requires forall t :: t in h && h[t].Table? ==> UniqueKeys(h[t].hash)
    ensures HasGc(h, gcName, o) <==>
      exists mt, v ::
        && (h[o].Table? || h[o].Userdata?) && h[o].metatable == Some(mt) && mt in h && h[mt].Table?
        && Node(true, Obj(gcName), v) in h[mt].hash && v != Nil && v != Bool(false)
  {
    hide Lookup, UniqueKeys;
    var mt := MetatableOf(h[o]);
    if mt.Some? && mt.value in h && h[mt.value].Table? {
      var v := Lookup(h[mt.value].hash, Obj(gcName));
      if v != Nil { LookupIff(h[mt.value].hash, Obj(gcName), v); }
      forall v | v != Nil ensures Lookup(h[mt.value].hash, Obj(gcName)) == v <==>
          Node(true, Obj(gcName), v) in h[mt.value].hash
      {
        LookupIff(h[mt.value].hash, Obj(gcName), v);
      }
    }
  }

  // ----- Sequences as ordered sets -----

  ghost predicate NoDups(s: seq<Ref>)
  {
    forall i, j :: 0 <= i < j < |s| ==> s[i] != s[j]
  }

  ghost function Elems(s: seq<Ref>): set<Ref>
  {
    if s == [] then {} else {s[0]} + Elems(s[1..])
  }

  ghost predicate Distinct(s: seq<Ref>)
  {
    s != [] ==> s[0] !in Elems(s[1..]) && Distinct(s[1..])
  }

  lemma {:induction false} ElemsMember(s: seq<Ref>, r: Ref)
    ensures r in Elems(s) <==> r in s
  {
    if s != [] {
      ElemsMember(s[1..], r);
      assert s == [s[0]] + s[1..];
    }
  }

  lemma {:induction false} ElemsSnoc(s: seq<Ref>, x: Ref)
    ensures Elems(s + [x]) == Elems(s) + {x}
  {
    if s == [] {
      assert [] + [x] == [x] && [x][1..] == [];
    } else {
      ElemsSnoc(s[1..], x);
      assert (s + [x])[1..] == s[1..] + [x];
    }
  }

  lemma {:induction false} NoDupsDistinct(s: seq<Ref>)
    requires NoDups(s)
    ensures Distinct(s) && forall r :: r in Elems(s) <==> r in s
  {
    forall r ensures r in Elems(s) <==> r in s { ElemsMember(s, r); }
    if s != [] {
      NoDupsDistinct(s[1..]);
    }
  }

  /** The members of `s` that are in `keep`, in the order of `s`. */
  ghost function Filter(s: seq<Ref>, keep: set<Ref>): seq<Ref>
  {
    if s == [] then []
    else if s[0] in keep then [s[0]] + Filter(s[1..], keep)
    else Filter(s[1..], keep)
  }

  lemma {:induction false} FilterMember(s: seq<Ref>, keep: set<Ref>, r: Ref)
    ensures r in Filter(s, keep) <==> r in s && r in keep
  {
    if s != [] {
      FilterMember(s[1..], keep, r);
      assert s == [s[0]] + s[1..];
    }
  }

  lemma {:induction false} FilterAppend(s: seq<Ref>, x: Ref, keep: set<Ref>)
    ensures Filter(s + [x], keep) == Filter(s, keep) + (if x in keep then [x] else [])
  {
    if s == [] {
      assert s + [x] == [x];
    } else {
      FilterAppend(s[1..], x, keep);
      assert (s + [x])[1..] == s[1..] + [x];
    }
  }

  lemma {:induction false} FilterNoDups(s: seq<Ref>, keep: set<Ref>)
    requires NoDups(s)
    ensures NoDups(Filter(s, keep))
  {
    if s != [] {
      FilterNoDups(s[1..], keep);
      FilterMember(s[1..], keep, s[0]);
    }
  }
}
