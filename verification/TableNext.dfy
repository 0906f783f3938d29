/** Traversal with next: every present key is visited exactly once, also when
    the loop body assigns to or clears existing fields. */
module TableNext {
  import opened TableLayout
  import opened TableObject

  datatype Step = Entry(key: Value, value: Value) | End | InvalidKey

  /** The integer a key names for the purpose of traversal, if any. */
  function KeyAsNextIndex(k: Value): (bool, int) {
    match k
    case Int(i) => (true, i)
    case Float(Integral(i)) => if i >= 0 then (true, i) else (false, 0)
    case _ => (false, 0)
  }

  // ------------------------------------------------------- traversal order

  /** Positions: first the array part, then the hash slots. */
  ghost function KeyOf(a: seq<Value>, h: seq<Node>, p: nat): Value
    requires p < |a| + |h|
  {
    if p < |a| then Int(p + 1) else h[p - |a|].key
  }

  ghost function ValueOf(a: seq<Value>, h: seq<Node>, p: nat): Value
    requires p < |a| + |h|
  {
    if p < |a| then a[p] else if h[p - |a|].used then h[p - |a|].value else Nil
  }

  /** Position p belongs to key k, whether or not it has a value now. */
  ghost predicate HoldsAt(a: seq<Value>, h: seq<Node>, p: nat, k: Value) {
    p < |a| + |h| && k != Nil && KeyOf(a, h, p) == k && (p < |a| || h[p - |a|].used)
  }

  /** The first position from p on that has a value. */
  ghost function FirstLive(a: seq<Value>, h: seq<Node>, p: nat): (q: nat)
    requires p <= |a| + |h|
    ensures p <= q <= |a| + |h|
    ensures q < |a| + |h| ==> ValueOf(a, h, q) != Nil
    ensures forall i :: p <= i < q ==> ValueOf(a, h, i) == Nil
    decreases |a| + |h| - p
  {
    if p == |a| + |h| || ValueOf(a, h, p) != Nil then p else FirstLive(a, h, p + 1)
  }

  ghost function StepAt(a: seq<Value>, h: seq<Node>, p: nat): Step
    requires p <= |a| + |h|
  {
    if p == |a| + |h| then End else Entry(KeyOf(a, h, p), ValueOf(a, h, p))
  }

  lemma {:induction false} FirstLiveIs(a: seq<Value>, h: seq<Node>, p: nat, q: nat)
    requires p <= q <= |a| + |h|
    requires q < |a| + |h| ==> ValueOf(a, h, q) != Nil
    requires forall i :: p <= i < q ==> ValueOf(a, h, i) == Nil
    ensures FirstLive(a, h, p) == q
    decreases q - p
  {
    if p < q { FirstLiveIs(a, h, p + 1, q); }
  }

  lemma HoldsOnce(hasher: Value -> nat, a: seq<Value>, h: seq<Node>, p: nat, q: nat, k: Value)
    requires Sound(hasher, a, h)
    requires HoldsAt(a, h, p, k) && HoldsAt(a, h, q, k)
    ensures p == q
  {
    assert p >= |a| ==> HashKey(h[p - |a|].key, |a|);
    assert q >= |a| ==> HashKey(h[q - |a|].key, |a|);
  }

  /** Where the search for the successor of key k begins: position 0 for nil,
      just after k otherwise. */
  ghost predicate StartsAt(a: seq<Value>, h: seq<Node>, k: Value, start: nat) {
    if k == Nil then start == 0 else start > 0 && HoldsAt(a, h, start - 1, k)
  }

  /** The answer next must give: the first entry from the starting position,
      and an error exactly for keys that have no position. */
  ghost predicate Answers(a: seq<Value>, h: seq<Node>, k: Value, r: Step) {
    if exists start: nat :: StartsAt(a, h, k, start) then
      exists start: nat :: StartsAt(a, h, k, start) && start <= |a| + |h| && r == StepAt(a, h, FirstLive(a, h, start))
    else r == InvalidKey
  }

  lemma AnswerFrom(a: seq<Value>, h: seq<Node>, k: Value, start: nat, q: nat)
    requires StartsAt(a, h, k, start) && start <= q <= |a| + |h|
    requires q < |a| + |h| ==> ValueOf(a, h, q) != Nil
    requires forall i :: start <= i < q ==> ValueOf(a, h, i) == Nil
    ensures Answers(a, h, k, StepAt(a, h, q))
  {
    FirstLiveIs(a, h, start, q);
  }

  /** The answer is unique: with the starting position known, it is a function. */
  lemma AnswerIs(hasher: Value -> nat, a: seq<Value>, h: seq<Node>, k: Value, start: nat, r: Step)
    requires Sound(hasher, a, h)
    requires StartsAt(a, h, k, start) && Answers(a, h, k, r)
    ensures start <= |a| + |h| && r == StepAt(a, h, FirstLive(a, h, start))
  {
    hide Sound, FirstLive;
    var s: nat :| StartsAt(a, h, k, s) && s <= |a| + |h| && r == StepAt(a, h, FirstLive(a, h, s));
    if k != Nil { HoldsOnce(hasher, a, h, s - 1, start - 1, k); }
  }

  method Next(t: Table, key: Value) returns (r: Step)
    requires t.Valid()
    ensures Answers(t.items, t.hash, Norm(key), r)
    ensures forall i :: key == Float(Integral(i)) ==> Answers(t.items, t.hash, Int(i), r)
    ensures !(key.Float? && key.d.Integral?) ==> Answers(t.items, t.hash, key, r)
  {
    ghost var a, h, k := t.items, t.hash, Norm(key);
    var (isIndex, ikey) := KeyAsNextIndex(key);
    var fromArray := isIndex && 1 <= ikey <= |t.items|;
    if key == Nil || fromArray {
      var i: nat := if key == Nil then 0 else ikey;
      ghost var start := i;
      assert StartsAt(a, h, k, start);
      while i < |t.items|
        invariant start <= i <= |a|
        invariant forall j :: start <= j < i ==> ValueOf(a, h, j) == Nil
      {
        if t.items[i] != Nil {
          AnswerFrom(a, h, k, start, i);
          return Entry(Int(i + 1), t.items[i]);
        }
        i := i + 1;
      }
      r := NextInHash(t, key, true, start);
    } else {
      r := NextInHash(t, key, false, 0);
    }
  }

  /** Scans the hash part; `seen` says that the key lies before it. */
  method NextInHash(t: Table, key: Value, seen: bool, ghost begin: nat) returns (r: Step)
    requires t.Valid()
    requires seen ==> StartsAt(t.items, t.hash, Norm(key), begin) && begin <= |t.items|
    requires seen ==> forall j :: begin <= j < |t.items| ==> ValueOf(t.items, t.hash, j) == Nil
    requires !seen ==> key != Nil && !InArray(Norm(key), |t.items|)
    ensures Answers(t.items, t.hash, Norm(key), r)
  {
    ghost var a, h, k := t.items, t.hash, Norm(key);
    var n := |t.items|;
    var found := seen;
    ghost var start: nat := begin;
    for s := 0 to |t.hash|
      invariant !found ==> key != Nil && forall p: nat :: p < n + s ==> !HoldsAt(a, h, p, k)
      invariant found ==> StartsAt(a, h, k, start) && start <= n + s
      invariant found ==> forall j :: start <= j < n + s ==> ValueOf(a, h, j) == Nil
    {
      if t.hash[s].used {
        assert h[s].key == Nil || HashKey(h[s].key, n);
        var (isIndex, hk) := KeyAsNextIndex(t.hash[s].key);
        if !(isIndex && 1 <= hk <= n) {
          if !found {
            if ValuesEqual(t.hash[s].key, key) {
              found := true;
              start := n + s + 1;
            }
          } else if t.hash[s].value != Nil {
            AnswerFrom(a, h, k, start, n + s);
            return Entry(t.hash[s].key, t.hash[s].value);
          }
        }
      }
    }
    if !found {
      assert forall p: nat :: !HoldsAt(a, h, p, k);
      return InvalidKey;
    }
    AnswerFrom(a, h, k, start, |a| + |h|);
    return End;
  }

  // ------------------------------------------------------------- traversal

  datatype Edit = Edit(key: Value, value: Value)

  /** The body of a traversal: assignments to fields that exist at that moment. */
  method EditExisting(t: Table, edits: seq<Edit>)
    requires t.Valid()
    modifies t
    ensures t.Valid() && SameLayout(old(t.items), old(t.hash), t.items, t.hash)
    ensures t.Map().Keys <= old(t.Map()).Keys
    ensures edits == [] ==> t.Map() == old(t.Map())
  {
    hide Sound, CacheSound, Contents;
    for i := 0 to |edits|
      invariant t.Valid() && SameLayout(old(t.items), old(t.hash), t.items, t.hash)
      invariant t.Map().Keys <= old(t.Map()).Keys
      invariant edits == [] ==> t.Map() == old(t.Map())
    {
      var now := t.Get(edits[i].key);
      if now != Nil {
        ghost var m := t.Map();
        var _, _ := t.Set(edits[i].key, edits[i].value);
        assert t.Map().Keys <= m.Keys;
      }
    }
  }

  /** A position reads what the map says about its key. */
  lemma PositionReads(hasher: Value -> nat, a: seq<Value>, h: seq<Node>, p: nat)
    requires Sound(hasher, a, h) && p < |a| + |h|
    ensures ValueOf(a, h, p) != Nil <==> HoldsAt(a, h, p, KeyOf(a, h, p)) && KeyOf(a, h, p) in Contents(a, h)
    ensures ValueOf(a, h, p) != Nil ==> Contents(a, h)[KeyOf(a, h, p)] == ValueOf(a, h, p)
  {
    var k := KeyOf(a, h, p);
    LookupIsAt(a, h, k);
    if p >= |a| && h[p - |a|].used && k != Nil {
      assert HashKey(k, |a|);
      HashAtSlot(h, p - |a|);
    }
  }

  /** Every key in the map has a position. */
  lemma KeyHasPosition(a: seq<Value>, h: seq<Node>, k: Value) returns (p: nat)
    requires Unique(h) && k in Contents(a, h)
    ensures HoldsAt(a, h, p, k)
  {
    LookupIsAt(a, h, k);
    if InArray(k, |a|) {
      p := k.i - 1;
    } else {
      HashAtFound(h, k);
      var s :| 0 <= s < |h| && Live(h[s]) && h[s].key == k;
      p := |a| + s;
    }
  }

  /** `visited` lists keys of ascending positions below `upto`, among them
      every key below it that still has a value. */
  ghost predicate Covers(a: seq<Value>, h: seq<Node>, visited: seq<Value>, places: seq<nat>, upto: nat) {
    && |places| == |visited| && upto <= |a| + |h|
    && (forall i :: 0 <= i < |places| ==> places[i] < upto && HoldsAt(a, h, places[i], visited[i]))
    && (forall i, j :: 0 <= i < j < |places| ==> places[i] < places[j])
    && (forall p: nat :: p < upto && ValueOf(a, h, p) != Nil ==> p in places)
  }

  lemma CoversAfterEdits(hasher: Value -> nat, a: seq<Value>, h: seq<Node>, b: seq<Value>, g: seq<Node>,
                         visited: seq<Value>, places: seq<nat>, upto: nat)
    requires Covers(a, h, visited, places, upto)
    requires Sound(hasher, a, h) && Sound(hasher, b, g) && SameLayout(a, h, b, g)
    requires Contents(b, g).Keys <= Contents(a, h).Keys
    ensures Covers(b, g, visited, places, upto)
  {
    hide Sound, Contents;
    forall p: nat | p < upto && ValueOf(b, g, p) != Nil ensures p in places {
      PositionReads(hasher, a, h, p);
      PositionReads(hasher, b, g, p);
      assert KeyOf(a, h, p) in Contents(a, h);
    }
  }

  lemma CoversStep(a: seq<Value>, h: seq<Node>, visited: seq<Value>, places: seq<nat>, upto: nat, q: nat)
    requires Covers(a, h, visited, places, upto)
    requires upto <= q < |a| + |h| && q == FirstLive(a, h, upto) && HoldsAt(a, h, q, KeyOf(a, h, q))
    ensures Covers(a, h, visited + [KeyOf(a, h, q)], places + [q], q + 1)
  {
  }

  /** At the end, the visited keys are distinct and include every key that
      still has a value. */
  lemma CoversAll(hasher: Value -> nat, a: seq<Value>, h: seq<Node>, visited: seq<Value>, places: seq<nat>)
    requires Sound(hasher, a, h) && Covers(a, h, visited, places, |a| + |h|)
    ensures forall i, j :: 0 <= i < j < |visited| ==> visited[i] != visited[j]
    ensures forall k :: k in Contents(a, h) ==> k in visited
  {
    hide Sound, Contents;
    forall i, j | 0 <= i < j < |visited| ensures visited[i] != visited[j] {
      if visited[i] == visited[j] { HoldsOnce(hasher, a, h, places[i], places[j], visited[i]); }
    }
    forall k | k in Contents(a, h) ensures k in visited {
      SoundUnique(hasher, a, h);
      var p := KeyHasPosition(a, h, k);
      PositionReads(hasher, a, h, p);
      var i :| 0 <= i < |places| && places[i] == p;
      assert visited[i] == k;
    }
  }

  lemma SoundUnique(hasher: Value -> nat, a: seq<Value>, h: seq<Node>)
    requires Sound(hasher, a, h)
    ensures Unique(h)
  {
  }

  /** A loop over next from nil, with arbitrary assignments to existing fields
      after each step: it ends, never meets an invalid key, visits no key
      twice, visits only keys the table had, and misses only keys that were
      cleared. Without edits it visits exactly the table's keys. */
  method Traverse(t: Table, edits: seq<seq<Edit>>) returns (visited: seq<Value>)
    requires t.Valid()
    modifies t
    ensures t.Valid()
    ensures forall i, j :: 0 <= i < j < |visited| ==> visited[i] != visited[j]
    ensures forall k :: k in visited ==> k in old(t.Map())
    ensures forall k :: k in t.Map() ==> k in visited
    ensures t.Map().Keys <= old(t.Map()).Keys
    ensures edits == [] ==> t.Map() == old(t.Map())
  {
    hide Sound, Contents, CacheSound, FirstLive, ValueOf, Covers, Answers, HoldsAt, SameLayout;
    visited := [];
    var key := Nil;
    ghost var places: seq<nat>, upto: nat := [], 0;
    CoversNothing(t.items, t.hash);
    while true
      invariant t.Valid() && Norm(key) == key
      invariant StartsAt(t.items, t.hash, key, upto) && upto <= |t.items| + |t.hash|
      invariant Covers(t.items, t.hash, visited, places, upto)
      invariant forall k :: k in visited ==> k in old(t.Map())
      invariant t.Map().Keys <= old(t.Map()).Keys
      invariant edits == [] ==> t.Map() == old(t.Map())
      decreases |t.items| + |t.hash| - upto
    {
      ghost var a, h := t.items, t.hash;
      var r := Next(t, key);
      ghost var q := Successor(t.hasher, a, h, key, upto, r);
      assert r != InvalidKey;
      if r == End {
        CoversEnd(a, h, visited, places, upto);
        CoversAll(t.hasher, a, h, visited, places);
        return;
      }
      CoversStep(a, h, visited, places, upto, q);
      key := r.key;
      visited, places, upto := visited + [key], places + [q], q + 1;
      if |visited| <= |edits| {
        EditExisting(t, edits[|visited| - 1]);
        CoversAfterEdits(t.hasher, a, h, t.items, t.hash, visited, places, upto);
        LayoutKeepsStart(a, h, t.items, t.hash, key, upto);
      }
    }
  }

  lemma CoversNothing(a: seq<Value>, h: seq<Node>)
    ensures Covers(a, h, [], [], 0)
  {
  }

  lemma CoversEnd(a: seq<Value>, h: seq<Node>, visited: seq<Value>, places: seq<nat>, upto: nat)
    requires Covers(a, h, visited, places, upto) && FirstLive(a, h, upto) == |a| + |h|
    ensures Covers(a, h, visited, places, |a| + |h|)
  {
  }

  lemma LayoutKeepsStart(a: seq<Value>, h: seq<Node>, b: seq<Value>, g: seq<Node>, k: Value, start: nat)
    requires SameLayout(a, h, b, g)
    ensures |b| == |a| && |g| == |h|
    ensures StartsAt(a, h, k, start) <==> StartsAt(b, g, k, start)
  {
  }

  /** What an answer of next says in the middle of a traversal. */
  lemma Successor(hasher: Value -> nat, a: seq<Value>, h: seq<Node>, key: Value, upto: nat, r: Step) returns (q: nat)
    requires Sound(hasher, a, h) && StartsAt(a, h, key, upto) && upto <= |a| + |h|
    requires Answers(a, h, key, r)
    ensures upto <= q <= |a| + |h| && q == FirstLive(a, h, upto) && r != InvalidKey
    ensures r == End <==> q == |a| + |h|
    ensures r.Entry? ==> r.key == KeyOf(a, h, q) && HoldsAt(a, h, q, r.key)
    ensures r.Entry? ==> StartsAt(a, h, r.key, q + 1) && r.key in Contents(a, h) && Norm(r.key) == r.key
  {
    hide Contents, Unique, Chains, FirstLive, Answers;
    AnswerIs(hasher, a, h, key, upto, r);
    q := FirstLive(a, h, upto);
    if r.Entry? {
      PositionReads(hasher, a, h, q);
      if q >= |a| { assert HashKey(h[q - |a|].key, |a|); }
    }
  }
}
