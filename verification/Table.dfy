/** The table object: probe loops, tombstone reuse, rehashing, weak clearing
    and the cache of absent metamethods, refining a finite map. */
module TableObject {
  import opened Common
  import opened TableLayout

  datatype Outcome = Done | NilIndex | NanIndex

  /** Metamethod names by event number. */
  const TM_NAMES: seq<string> := [
    "__index", "__newindex", "__gc", "__mode", "__len", "__eq", "__add",
    "__sub", "__mul", "__mod", "__pow", "__div", "__idiv", "__band",
    "__bor", "__bxor", "__shl", "__shr", "__unm", "__bnot", "__lt",
    "__le", "__concat", "__call"]

  /** The events by number. */
  lemma EventNumbers()
    ensures |TM_NAMES| == 24 && TM_NAMES[..4] == ["__index", "__newindex", "__gc", "__mode"]
    ensures TM_NAMES[4..8] == ["__len", "__eq", "__add", "__sub"] && TM_NAMES[8..11] == ["__mul", "__mod", "__pow"]
    ensures TM_NAMES[11..15] == ["__div", "__idiv", "__band", "__bor"]
    ensures TM_NAMES[15..18] == ["__bxor", "__shl", "__shr"]
    ensures TM_NAMES[18..] == ["__unm", "__bnot", "__lt", "__le", "__concat", "__call"]
  {
  }

  predicate MetaLike(k: Value) {
    k.Str? && |k.s| >= 2 && k.s[0] == '_' && k.s[1] == '_'
  }

  lemma TmNamesAreMetaLike(e: nat)
    requires e < |TM_NAMES|
    ensures MetaLike(Str(TM_NAMES[e]))
  {
  }

  function Check(key: Value): Outcome {
    if key == Nil then NilIndex else if IsNaN(key) then NanIndex else Done
  }

  /** Same keys in the same places; only values may differ. */
  ghost predicate SameLayout(a: seq<Value>, h: seq<Node>, b: seq<Value>, g: seq<Node>) {
    && |a| == |b| && |h| == |g|
    && forall s :: 0 <= s < |h| ==> h[s].used == g[s].used && h[s].key == g[s].key
  }

  /** A slot that a new key could take. */
  ghost predicate Room(h: seq<Node>) {
    exists s :: 0 <= s < |h| && !Live(h[s])
  }

  /** Every cached absence is a real one. */
  ghost predicate CacheSound(flags: set<nat>, a: seq<Value>, h: seq<Node>) {
    forall e :: e in flags ==> e < |TM_NAMES| && At(a, h, Str(TM_NAMES[e])) == Nil
  }

  /** Assigning a key that no metamethod name equals keeps cached absences. */
  lemma CacheAfterPut(flags: set<nat>, a: seq<Value>, h: seq<Node>, b: seq<Value>, g: seq<Node>, k: Value, v: Value)
    requires CacheSound(flags, a, h)
    requires PutAt(a, h, b, g, k, v)
    requires MetaLike(k) ==> flags == {}
    ensures CacheSound(flags, b, g)
  {
    forall e | e in flags ensures At(b, g, Str(TM_NAMES[e])) == Nil {
      TmNamesAreMetaLike(e);
    }
  }

  function LiveCount(h: seq<Node>): nat {
    if h == [] then 0 else LiveCount(h[..|h| - 1]) + (if Live(h[|h| - 1]) then 1 else 0)
  }

  function FilledCount(a: seq<Value>): nat {
    if a == [] then 0 else FilledCount(a[..|a| - 1]) + (if a[|a| - 1] != Nil then 1 else 0)
  }

  lemma {:induction false} FilledPrefix(a: seq<Value>, i: nat)
    requires i <= |a|
    ensures FilledCount(a[..i]) <= FilledCount(a)
    decreases |a| - i
  {
    if i == |a| {
      assert a[..i] == a;
    } else {
      assert a[..i + 1][..i] == a[..i];
      FilledPrefix(a, i + 1);
    }
  }

  lemma {:induction false} LivePrefix(h: seq<Node>, i: nat)
    requires i <= |h|
    ensures LiveCount(h[..i]) <= LiveCount(h)
    decreases |h| - i
  {
    if i == |h| {
      assert h[..i] == h;
    } else {
      assert h[..i + 1][..i] == h[..i];
      LivePrefix(h, i + 1);
    }
  }

  /** What one more slot adds to the reading of a prefix of the slots. */
  lemma SlotReads(a: seq<Value>, h: seq<Node>, i: nat)
    requires i < |h| && Unique(h) && KeysPlaced(h, |a|)
    ensures Live(h[i]) ==> PutAt(a, h[..i], a, h[..i + 1], h[i].key, h[i].value)
    ensures !Live(h[i]) ==> forall x :: At(a, h[..i + 1], x) == At(a, h[..i], x)
  {
    assert h[..i + 1][..i] == h[..i];
    if Live(h[i]) {
      assert HashKey(h[i].key, |a|);
    } else {
      if h[i].key == Nil || h[i].used { HashAtNil(h[..i], h[i].key); }
    }
  }

  /** The placement invariant at work: indices 1..64 beyond the array part are absent. */
  lemma NotInHash(hasher: Value -> nat, a: seq<Value>, h: seq<Node>, i: int)
    requires Sound(hasher, a, h) && 1 <= i <= 64 && i > |a|
    ensures At(a, h, Int(i)) == Nil
  {
    forall s | 0 <= s < |h| && Live(h[s]) ensures h[s].key != Int(i) {
      assert h[s].key != Nil && HashKey(h[s].key, |a|);
    }
    HashAtNil(h, Int(i));
  }

  ghost predicate NoDeadSlots(h: seq<Node>) {
    forall s :: 0 <= s < |h| && h[s].used ==> Live(h[s])
  }

  lemma RebuiltSound(hasher: Value -> nat, a: seq<Value>, h: seq<Node>, b: seq<Value>, g: seq<Node>)
    requires Loose(hasher, b, g) && NoDeadSlots(g) && forall x :: At(b, g, x) == At(a, h, x)
    ensures Sound(hasher, b, g) <==> forall i: nat :: |b| < i <= 64 ==> Int(i) !in Contents(a, h)
  {
    hide Contents, Sound, Loose;
    SoundIff(hasher, b, g);
    forall i: nat ensures At(b, g, Int(i)) == Nil <==> Int(i) !in Contents(a, h) {
      LookupIsAt(a, h, Int(i));
      assert At(b, g, Int(i)) == At(a, h, Int(i));
    }
  }

  /** No index up to 64 beyond the array part has a value. */
  lemma NothingReserved(hasher: Value -> nat, a: seq<Value>, h: seq<Node>)
    requires Sound(hasher, a, h)
    ensures forall i: nat :: |a| < i <= 64 ==> Int(i) !in Contents(a, h)
  {
    hide Contents, Sound;
    forall i: nat | |a| < i <= 64 ensures Int(i) !in Contents(a, h) {
      NotInHash(hasher, a, h, i);
      LookupIsAt(a, h, Int(i));
    }
  }

  lemma CacheDropped(a: seq<Value>, h: seq<Node>)
    ensures CacheSound({}, a, h)
  {
  }

  lemma GrowEmpty(hasher: Value -> nat, flags: set<nat>, a: seq<Value>, h: seq<Node>)
    requires Sound(hasher, a, []) && CacheSound(flags, a, [])
    requires forall s :: 0 <= s < |h| ==> h[s] == EMPTY_NODE
    ensures Sound(hasher, a, h) && CacheSound(flags, a, h)
    ensures forall x :: At(a, h, x) == At(a, [], x)
  {
    FreshHash(hasher, a, h);
  }

  lemma SoundChains(hasher: Value -> nat, a: seq<Value>, h: seq<Node>)
    requires Sound(hasher, a, h)
    ensures Chains(hasher, h)
  {
  }

  // ---------------------------------------------------------- weak clearing

  predicate Dead(white: Value -> bool, v: Value) {
    (v.Str? || v.Obj?) && white(v)
  }

  function ClearedValue(white: Value -> bool, vs: bool, v: Value): Value {
    if vs && Dead(white, v) then Nil else v
  }

  function ClearedNode(white: Value -> bool, ks: bool, vs: bool, n: Node): Node {
    if !n.used then n
    else if ks && Dead(white, n.key) then n.(key := Nil, value := Nil)
    else n.(value := ClearedValue(white, vs, n.value))
  }

  /** The entries that survive a clearing of dead keys and/or values. */
  ghost function Strong(white: Value -> bool, ks: bool, vs: bool, m: map<Value, Value>): map<Value, Value> {
    map k | k in m && !(ks && (k.Str? || k.Obj?) && white(k))
               && !(vs && (m[k].Str? || m[k].Obj?) && white(m[k])) :: m[k]
  }

  ghost predicate Cleared(white: Value -> bool, ks: bool, vs: bool, a: seq<Value>, h: seq<Node>, b: seq<Value>,
                          g: seq<Node>) {
    && |b| == |a| && (forall j :: 0 <= j < |a| ==> b[j] == ClearedValue(white, vs, a[j]))
    && |g| == |h| && (forall j :: 0 <= j < |h| ==> g[j] == ClearedNode(white, ks, vs, h[j]))
  }

  lemma ClearedSound(white: Value -> bool, ks: bool, vs: bool, hasher: Value -> nat,
                     a: seq<Value>, h: seq<Node>, b: seq<Value>, g: seq<Node>)
    requires Sound(hasher, a, h) && Cleared(white, ks, vs, a, h, b, g)
    ensures Sound(hasher, b, g)
  {
    forall s | 0 <= s < |g| && g[s].used && g[s].key != Nil
      ensures HashKey(g[s].key, |b|) && Chain(hasher, g, s)
    {
      assert h[s].key == g[s].key && HashKey(h[s].key, |a|) && Chain(hasher, h, s);
    }
    assert Unique(g);
  }

  lemma ClearedContents(white: Value -> bool, ks: bool, vs: bool, hasher: Value -> nat,
                        a: seq<Value>, h: seq<Node>, b: seq<Value>, g: seq<Node>)
    requires Sound(hasher, a, h) && Sound(hasher, b, g) && Cleared(white, ks, vs, a, h, b, g)
    ensures Contents(b, g) == Strong(white, ks, vs, Contents(a, h))
  {
    hide Contents;
    forall x ensures At(b, g, x) == if ks && Dead(white, x) then Nil else ClearedValue(white, vs, At(a, h, x)) {
      if !InArray(x, |a|) {
        ClearedAt(white, ks, vs, h, g, x);
      }
    }
    var m, n := Contents(b, g), Strong(white, ks, vs, Contents(a, h));
    forall x ensures x in m <==> x in n ensures x in m ==> m[x] == n[x] {
      LookupIsAt(a, h, x);
      LookupIsAt(b, g, x);
    }
    assert m == n;
  }

  lemma StrongAll(white: Value -> bool, m: map<Value, Value>)
    ensures Strong(white, false, false, m) == m
  {
  }

  /** Clearing removes entries only, so cached absences stay real. */
  lemma CacheCleared(white: Value -> bool, ks: bool, vs: bool, flags: set<nat>,
                     a: seq<Value>, h: seq<Node>, b: seq<Value>, g: seq<Node>)
    requires CacheSound(flags, a, h)
    requires Contents(b, g) == Strong(white, ks, vs, Contents(a, h))
    ensures CacheSound(flags, b, g)
  {
    forall e | e in flags ensures At(b, g, Str(TM_NAMES[e])) == Nil {
      LookupIsAt(a, h, Str(TM_NAMES[e]));
      LookupIsAt(b, g, Str(TM_NAMES[e]));
    }
  }

  lemma ClearedAt(white: Value -> bool, ks: bool, vs: bool, h: seq<Node>, g: seq<Node>, x: Value)
    requires Unique(h) && Unique(g)
    requires |g| == |h| && forall j :: 0 <= j < |h| ==> g[j] == ClearedNode(white, ks, vs, h[j])
    ensures HashAt(g, x) == if ks && Dead(white, x) then Nil else ClearedValue(white, vs, HashAt(h, x))
  {
    if t :| 0 <= t < |h| && Live(h[t]) && h[t].key == x {
      HashAtSlot(h, t);
      if ks && Dead(white, x) {
        HashAtNil(g, x);
      } else {
        HashAtSlot(g, t);
      }
    } else {
      HashAtNil(h, x);
      HashAtNil(g, x);
    }
  }

  class Table {
    const hasher: Value -> nat
    var items: seq<Value>
    var hash: seq<Node>
    var noTm: set<nat>
    var weakKeys: bool
    var weakValues: bool

    ghost predicate Valid()
      reads this
    {
      Sound(hasher, items, hash) && CacheSound(noTm, items, hash)
    }

    ghost function Map(): map<Value, Value>
      reads this
    {
      Contents(items, hash)
    }

    constructor (hasher: Value -> nat, arrayHint: nat, hashHint: nat)
      ensures Valid() && Map() == map[] && this.hasher == hasher
      ensures |items| == arrayHint && !weakKeys && !weakValues && noTm == {} && PowerOf2(|hash|)
    {
      var n: nat := 8;
      assert PowerOf2(4) == PowerOf2(2) == PowerOf2(1);
      if hashHint > 0 {
        n := 1;
        while n < hashHint
          invariant n >= 1 && PowerOf2(n)
        {
          n := n * 2;
        }
      }
      this.hasher := hasher;
      items := seq(arrayHint, _ => Nil);
      hash := seq(n, _ => EMPTY_NODE);
      noTm := {};
      weakKeys, weakValues := false, false;
      new;
      FreshHash(hasher, items, hash);
      assert Contents(items, hash) == map[];
    }

    /** The slots probed before `probe` all hold other keys; the probe stops
        at the key, at an unused slot, or when every slot was seen. */
    method Probe(k: Value) returns (probe: nat, tomb: int)
      requires Sound(hasher, items, hash) && |hash| > 0
      requires Norm(k) == k && k != Nil && !IsNaN(k)
      ensures probe <= |hash| && Missed(hasher, hash, k, probe)
      ensures probe < |hash| ==> var n := hash[Slot(Home(hasher, k, |hash|), probe, |hash|)]; !n.used || n.key == k
      ensures tomb == -1 || (0 <= tomb < |hash| && !Live(hash[tomb]) && Reaches(hasher, hash, tomb, k))
      ensures tomb == -1 && probe == |hash| ==> !Room(hash)
    {
      var home := hasher(k) % |hash|;
      assert home == Home(hasher, k, |hash|);
      tomb := -1;
      probe := 0;
      while probe < |hash|
        invariant probe <= |hash| && Missed(hasher, hash, k, probe)
        invariant tomb == -1 || (0 <= tomb < |hash| && !Live(hash[tomb]) && Reaches(hasher, hash, tomb, k))
        invariant tomb == -1 ==>
          forall q {:trigger Slot(home, q, |hash|)} :: 0 <= q < probe ==> Live(hash[Slot(home, q, |hash|)])
      {
        var slot := (home + probe) % |hash|;
        assert slot == Slot(home, probe, |hash|);
        if !hash[slot].used { return; }
        assert hash[slot].key == Nil || HashKey(hash[slot].key, |items|);
        if ValuesEqual(hash[slot].key, k) { return; }
        if tomb == -1 && hash[slot].value == Nil {
          tomb := slot;
          assert Distance(home, slot, |hash|) == probe;
        }
        probe := probe + 1;
      }
      if tomb == -1 {
        forall s | 0 <= s < |hash| ensures Live(hash[s]) {
          assert Slot(home, Distance(home, s, |hash|), |hash|) == s;
        }
      }
    }

    /** Reads the last value assigned under the normalized key. */
    method Get(key: Value) returns (r: Value)
      requires Valid()
      ensures r == Lookup(Map(), Norm(key))
      ensures forall i :: key == Float(Integral(i)) ==> r == Lookup(Map(), Int(i))
      ensures !(key.Float? && key.d.Integral?) ==> r == Lookup(Map(), key)
    {
      hide Contents, CacheSound, Chains, At;
      var k := Norm(key);
      LookupIsAt(items, hash, k);
      assert At(items, hash, k) == if InArray(k, |items|) then items[k.i - 1]
        else HashAt(hash, k) by { AtIs(items, hash, k); }
      if k.Int? && 1 <= k.i <= |items| {
        return items[k.i - 1];
      }
      if |hash| == 0 {
        return Nil;
      }
      var home := hasher(k) % |hash|;
      assert home == Home(hasher, k, |hash|);
      var probe := 0;
      while probe < |hash|
        invariant probe <= |hash| && Missed(hasher, hash, k, probe)
      {
        var slot := (home + probe) % |hash|;
        assert slot == Slot(home, probe, |hash|);
        if !hash[slot].used {
          break;
        }
        assert hash[slot].key == Nil || HashKey(hash[slot].key, |items|);
        if ValuesEqual(hash[slot].key, k) {
          if k == Nil { HashAtNil(hash, Nil); } else { HashAtSlot(hash, slot); }
          return hash[slot].value;
        }
        probe := probe + 1;
      }
      if k != Nil { MissedAll(hasher, hash, k, probe); }
      HashAtNil(hash, k);
      return Nil;
    }

    method GetInt(i: int) returns (r: Value)
      requires Valid()
      ensures r == Lookup(Map(), Int(i))
    {
      if 1 <= i <= |items| {
        LookupIsAt(items, hash, Int(i));
        return items[i - 1];
      }
      r := Get(Int(i));
    }

    /** Re-inserts one entry while rebuilding; `full` would be the panic. */
    method RawInsert(key: Value, value: Value) returns (full: bool)
      requires Loose(hasher, items, hash) && |hash| > 0 && NoDeadSlots(hash)
      requires Storable(key) && value != Nil
      modifies this`items, this`hash
      ensures Loose(hasher, items, hash) && NoDeadSlots(hash)
      ensures |items| == old(|items|) && |hash| == old(|hash|)
      ensures UsedCount(hash) <= old(UsedCount(hash)) + 1
      ensures full ==> old(UsedCount(hash)) == |hash|
      ensures !full ==> PutAt(old(items), old(hash), items, hash, key, value)
    {
      if key.Int? && 1 <= key.i <= |items| {
        PutItem(hasher, items, hash, key.i, value);
        items := items[key.i - 1 := value];
        return false;
      }
      var home := hasher(key) % |hash|;
      assert home == Home(hasher, key, |hash|);
      var probe := 0;
      while probe < |hash|
        invariant items == old(items) && hash == old(hash)
        invariant probe <= |hash| && Missed(hasher, hash, key, probe)
      {
        var slot := (home + probe) % |hash|;
        assert slot == Slot(home, probe, |hash|);
        assert hash[slot].used && hash[slot].key != Nil ==> OutsideKey(hash[slot].key, |items|);
        if !hash[slot].used || ValuesEqual(hash[slot].key, key) {
          if !hash[slot].used { MissedAll(hasher, hash, key, probe); }
          UsedCountUpdate(hash, slot, Node(key, value, true));
          PutSlotLoose(hasher, items, hash, slot, key, value);
          PutSlotContents(hasher, items, hash, slot, key, value);
          hash := hash[slot := Node(key, value, true)];
          return false;
        }
        probe := probe + 1;
      }
      forall s | 0 <= s < |hash| ensures hash[s].used {
        assert Slot(home, Distance(home, s, |hash|), |hash|) == s;
      }
      AllUsed(hash);
      return true;
    }

    method ReinsertArray(from: seq<Value>) returns (full: bool)
      requires Loose(hasher, items, hash) && NoDeadSlots(hash)
      requires UsedCount(hash) == 0 && FilledCount(from) < |hash|
      requires forall x :: At(items, hash, x) == Nil
      modifies this`items, this`hash
      ensures Loose(hasher, items, hash) && NoDeadSlots(hash) && !full
      ensures |items| == old(|items|) && |hash| == old(|hash|)
      ensures UsedCount(hash) <= FilledCount(from)
      ensures forall x :: At(items, hash, x) == At(from, [], x)
    {
      full := false;
      for i := 0 to |from|
        invariant Loose(hasher, items, hash) && NoDeadSlots(hash) && !full
        invariant |items| == old(|items|) && |hash| == old(|hash|)
        invariant UsedCount(hash) <= FilledCount(from[..i]) <= FilledCount(from)
        invariant forall x :: At(items, hash, x) == At(from[..i], [], x)
      {
        assert from[..i + 1][..i] == from[..i];
        FilledPrefix(from, i + 1);
        if from[i] != Nil {
          full := RawInsert(Int(i + 1), from[i]);
          if full { return; }
        }
      }
      assert from[..|from|] == from;
    }

    method ReinsertHash(a: seq<Value>, from: seq<Node>, ghost done: nat) returns (full: bool)
      requires Loose(hasher, items, hash) && NoDeadSlots(hash)
      requires Unique(from) && KeysPlaced(from, |a|)
      requires UsedCount(hash) <= done && done + LiveCount(from) < |hash|
      requires forall x :: At(items, hash, x) == At(a, [], x)
      modifies this`items, this`hash
      ensures Loose(hasher, items, hash) && NoDeadSlots(hash) && !full
      ensures |items| == old(|items|) && |hash| == old(|hash|)
      ensures UsedCount(hash) < |hash|
      ensures forall x :: At(items, hash, x) == At(a, from, x)
    {
      full := false;
      for i := 0 to |from|
        invariant Loose(hasher, items, hash) && NoDeadSlots(hash) && !full
        invariant |items| == old(|items|) && |hash| == old(|hash|)
        invariant UsedCount(hash) <= done + LiveCount(from[..i]) < |hash|
        invariant forall x :: At(items, hash, x) == At(a, from[..i], x)
      {
        assert from[..i + 1][..i] == from[..i];
        LivePrefix(from, i + 1);
        SlotReads(a, from, i);
        if Live(from[i]) {
          assert HashKey(from[i].key, |a|);
          full := RawInsert(from[i].key, from[i].value);
          if full { return; }
        }
      }
      assert from[..|from|] == from;
    }

    /** Rebuilding for any sizes keeps the map, drops every tombstone and always
        leaves room; the "hash full" panic is unreachable. The placement of
        integer keys is kept if and only if no index up to 64 that has a value
        falls outside the new array part. */
    method Rehash(arrayHint: nat, hashHint: nat) returns (full: bool)
      requires Valid()
      modifies this`items, this`hash
      ensures !full && Loose(hasher, items, hash) && CacheSound(noTm, items, hash)
      ensures forall x :: At(items, hash, x) == old(At(items, hash, x))
      ensures |items| == arrayHint && |hash| >= hashHint && UsedCount(hash) < |hash| && PowerOf2(|hash|)
      ensures Valid() <==> forall i: nat :: arrayHint < i <= 64 ==> Int(i) !in old(Map())
    {
      var oldItems, oldHash := items, hash;
      items := seq(arrayHint, _ => Nil);
      var size := Roomy(oldItems, oldHash, hashHint);
      hash := seq(size, _ => EMPTY_NODE);
      FreshHash(hasher, items, hash);
      full := ReinsertArray(oldItems);
      if full { return; }
      full := ReinsertHash(oldItems, oldHash, FilledCount(oldItems));
      RebuiltSound(hasher, oldItems, oldHash, items, hash);
    }

    /** The least power of two from 8 on with room for every entry and the hint. */
    method Roomy(a: seq<Value>, h: seq<Node>, hint: nat) returns (size: nat)
      ensures size >= 8 && size >= hint && size > FilledCount(a) + LiveCount(h) && PowerOf2(size)
      ensures size == 8 || size / 2 < hint || size / 2 <= FilledCount(a) + LiveCount(h)
    {
      var count: nat := 0;
      for i := 0 to |a|
        invariant count == FilledCount(a[..i])
      {
        assert a[..i + 1][..i] == a[..i];
        if a[i] != Nil { count := count + 1; }
      }
      assert a[..|a|] == a;
      for s := 0 to |h|
        invariant count == FilledCount(a) + LiveCount(h[..s])
      {
        assert h[..s + 1][..s] == h[..s];
        if Live(h[s]) { count := count + 1; }
      }
      assert h[..|h|] == h;
      size := 8;
      assert PowerOf2(4) == PowerOf2(2) == PowerOf2(1);
      while size < hint || size < count + 1
        invariant size >= 8 && PowerOf2(size) && (size == 8 || size / 2 < hint || size / 2 <= count)
        decreases hint + count + 1 - size
      {
        size := size * 2;
      }
    }

    /** Writes slot s, which a probe for k found fit to hold it. */
    method PutSlot(s: nat, k: Value, value: Value)
      requires Valid() && s < |hash| && HashKey(k, |items|) && MayHold(hasher, hash, s, k)
      requires MetaLike(k) ==> noTm == {}
      modifies this`hash
      ensures Valid() && PutAt(old(items), old(hash), items, hash, k, value)
      ensures old(hash)[s].used && old(hash)[s].key == k ==> SameLayout(old(items), old(hash), items, hash)
    {
      PutSlotSound(hasher, items, hash, s, k, value);
      SoundIsLoose(hasher, items, hash);
      PutSlotContents(hasher, items, hash, s, k, value);
      hash := hash[s := Node(k, value, true)];
      CacheAfterPut(noTm, items, old(hash), items, hash, k, value);
    }

    /** Stores into the hash part unless every slot holds a live entry of
        another key. */
    method SetHash(k: Value, value: Value) returns (done: bool)
      requires Valid() && HashKey(k, |items|)
      requires MetaLike(k) ==> noTm == {}
      modifies this`hash
      ensures Valid()
      ensures done ==> Map() == Put(old(Map()), k, value)
      ensures done && k in old(Map()) ==> SameLayout(items, old(hash), items, hash)
      ensures !done ==> hash == old(hash) && !Room(hash) && k !in Map()
    {
      hide Sound, CacheSound, Contents;
      LookupIsAt(items, hash, k);
      if |hash| == 0 {
        hash := seq(8, _ => EMPTY_NODE);
        GrowEmpty(hasher, noTm, items, hash);
      }
      assert Valid() && forall x :: At(items, hash, x) == At(items, old(hash), x);
      PointwiseSame(items, old(hash), items, hash);
      ghost var start := hash;
      var probe, tomb := Probe(k);
      var home := Home(hasher, k, |hash|);
      done := true;
      if probe < |hash| && hash[Slot(home, probe, |hash|)].used {
        PutSlot(Slot(home, probe, |hash|), k, value);
        PointwisePut(items, start, items, hash, k, value);
        return;
      }
      assert !HasKey(hash, k) by { SoundChains(hasher, items, hash); MissedAll(hasher, hash, k, probe); }
      HashAtNil(hash, k);
      if value == Nil {
        return;
      }
      if probe < |hash| && tomb == -1 {
        tomb := Slot(home, probe, |hash|);
      }
      if tomb == -1 {
        return false;
      }
      PutSlot(tomb, k, value);
      PointwisePut(items, start, items, hash, k, value);
    }

    method SetInt(i: int, value: Value) returns (r: Outcome, ghost entries: nat)
      requires Valid()
      modifies this`items, this`hash, this`noTm
      ensures Valid() && r == Done
      ensures Map() == Put(old(Map()), Int(i), value)
      ensures entries <= if InArray(Int(i), 64) then 0 else if old(Room(hash)) then 1 else 2
      ensures Int(i) in old(Map()) ==> SameLayout(old(items), old(hash), items, hash)
      decreases if Room(hash) then 0 else 1, if InArray(Int(i), 64) then 0 else 3
    {
      hide Sound, CacheSound;
      LookupIsAt(items, hash, Int(i));
      if 1 <= i <= |items| {
        items := items[i - 1 := value];
        PutArray(hasher, old(items), items, hash, i, value);
        CacheAfterPut(noTm, old(items), hash, items, hash, Int(i), value);
        PointwisePut(old(items), hash, items, hash, Int(i), value);
        return Done, 0;
      }
      if 1 <= i <= 64 {
        NotInHash(hasher, items, hash, i);
        items := items + seq(i - |items|, _ => Nil);
        items := items[i - 1 := value];
        PutArray(hasher, old(items), items, hash, i, value);
        CacheAfterPut(noTm, old(items), hash, items, hash, Int(i), value);
        PointwisePut(old(items), hash, items, hash, Int(i), value);
        return Done, 0;
      }
      r, entries := Set(Int(i), value);
    }

    /** Assignment, with the nil and NaN errors. A full hash is rebuilt once
        and the assignment entered once more. */
    method Set(key: Value, value: Value) returns (r: Outcome, ghost entries: nat)
      requires Valid()
      modifies this`items, this`hash, this`noTm
      ensures Valid() && r == Check(key)
      ensures Map() == if r == Done then Put(old(Map()), Norm(key), value) else old(Map())
      ensures r == if key == Nil then NilIndex else if key == Float(NaN) then NanIndex else Done
      ensures forall i :: key == Float(Integral(i)) ==> Map() == Put(old(Map()), Int(i), value)
      ensures r == Done && !(key.Float? && key.d.Integral?) ==> Map() == Put(old(Map()), key, value)
      ensures entries <= if old(Room(hash)) then 1 else 2
      ensures Norm(key) in old(Map()) ==> SameLayout(old(items), old(hash), items, hash)
      decreases if Room(hash) then 0 else 1, if InArray(Norm(key), 64) then 2 else 1
    {
      hide Sound, CacheSound;
      if key == Nil { return NilIndex, 1; }
      if key.Float? && key.d == NaN { return NanIndex, 1; }
      if key.Str? && |key.s| >= 2 && key.s[0] == '_' && key.s[1] == '_' {
        noTm := {};
      }
      assert CacheSound(noTm, items, hash) by { CacheDropped(items, hash); }
      var k := Norm(key);
      LookupIsAt(items, hash, k);
      if k.Int? {
        if 1 <= k.i <= 64 {
          r, entries := SetInt(k.i, value);
          entries := entries + 1;
          return;
        }
        if 1 <= k.i <= |items| {
          items := items[k.i - 1 := value];
          PutArray(hasher, old(items), items, hash, k.i, value);
          CacheAfterPut(noTm, old(items), hash, items, hash, k, value);
          PointwisePut(old(items), hash, items, hash, k, value);
          return Done, 1;
        }
      }
      var done := SetHash(k, value);
      if done { return Done, 1; }
      NothingReserved(hasher, items, hash);
      var full := Rehash(|items|, |hash| * 2);
      PointwiseSame(old(items), old(hash), items, hash);
      FreeSlot(hash);
      r, entries := Set(key, value);
      entries := entries + 1;
    }

    /** Removes exactly the entries whose key (in a weak-key table) or value
        (in a weak-value table) is a white object. Keys keep their slots. */
    method ClearWeakEntries(white: Value -> bool, clearKeys: bool, clearValues: bool)
      requires Valid()
      modifies this`items, this`hash
      ensures Valid()
      ensures Map() == Strong(white, weakKeys && clearKeys, weakValues && clearValues, old(Map()))
      ensures |items| == old(|items|) && |hash| == old(|hash|)
    {
      hide Sound, CacheSound, Contents, Strong, Dead;
      var ks, vs := weakKeys && clearKeys, weakValues && clearValues;
      if !ks && !vs {
        StrongAll(white, Map());
        return;
      }
      if vs {
        for i := 0 to |items|
          invariant |items| == old(|items|) && hash == old(hash)
          invariant forall j :: 0 <= j < i ==> items[j] == ClearedValue(white, vs, old(items)[j])
          invariant forall j :: i <= j < |items| ==> items[j] == old(items)[j]
        {
          if Dead(white, items[i]) { items := items[i := Nil]; }
        }
      }
      for s := 0 to |hash|
        invariant |hash| == old(|hash|) && |items| == old(|items|)
        invariant forall j :: 0 <= j < |items| ==> items[j] == ClearedValue(white, vs, old(items)[j])
        invariant forall j :: 0 <= j < s ==> hash[j] == ClearedNode(white, ks, vs, old(hash)[j])
        invariant forall j :: s <= j < |hash| ==> hash[j] == old(hash)[j]
      {
        if hash[s].used {
          if ks && Dead(white, hash[s].key) {
            hash := hash[s := hash[s].(key := Nil, value := Nil)];
          } else if vs && Dead(white, hash[s].value) {
            hash := hash[s := hash[s].(value := Nil)];
          }
        }
      }
      ClearedSound(white, ks, vs, hasher, old(items), old(hash), items, hash);
      ClearedContents(white, ks, vs, hasher, old(items), old(hash), items, hash);
      CacheCleared(white, ks, vs, noTm, old(items), old(hash), items, hash);
    }

    /** The cached metamethod lookup always equals the plain one. */
    method GetTm(e: nat) returns (r: Value)
      requires Valid() && e < |TM_NAMES|
      modifies this`noTm
      ensures Valid() && r == Lookup(Map(), Str(TM_NAMES[e]))
    {
      LookupIsAt(items, hash, Str(TM_NAMES[e]));
      if e in noTm { return Nil; }
      r := Get(Str(TM_NAMES[e]));
      if r == Nil { noTm := noTm + {e}; }
    }
  }
}
