/** The storage of a hybrid table as a value: an array part, an
    open-addressing hash part with tombstones, and the finite map from
    normalized keys that the two of them stand for. */
module TableLayout {

  /** A double, up to what table keys can observe: an integer-valued double in
      64-bit range, any other number, or NaN. Both zeros are Integral(0). */
  datatype Double = Integral(i: int) | Other(bits: nat) | NaN

  /** Str is compared by content (interning makes that pointer identity);
      Obj stands for every other collectable reference. */
  datatype Value =
    | Nil
    | Bool(b: bool)
    | Int(i: int)
    | Float(d: Double)
    | Light(bits: nat)
    | Str(s: string)
    | Obj(id: nat)

  datatype Node = Node(key: Value, value: Value, used: bool)

  const EMPTY_NODE := Node(Nil, Nil, false)

  /** Integer-valued float keys are stored as integers. */
  function Norm(k: Value): Value {
    if k.Float? && k.d.Integral? then Int(k.d.i) else k
  }

  predicate IsNaN(k: Value) { k.Float? && k.d.NaN? }

  /** Raw equality: an integer equals a float of the same value, and NaN is
      equal to nothing. */
  predicate ValuesEqual(a: Value, b: Value) {
    if (a.Int? && b.Float?) || (a.Float? && b.Int?) then
      Norm(a).Int? && Norm(b).Int? && Norm(a).i == Norm(b).i
    else if a.Float? && b.Float? then
      !a.d.NaN? && a.d == b.d
    else
      a == b
  }

  /** Raw equality is the equality of numbers across the two kinds, NaN excepted. */
  lemma RawEquality(a: Value, b: Value)
    ensures forall i, d :: a == Int(i) && b == Float(d) ==> (ValuesEqual(a, b) <==> d == Integral(i))
    ensures ValuesEqual(a, a) <==> a != Float(NaN)
    ensures ValuesEqual(a, b) <==> ValuesEqual(b, a)
    ensures !(a.Int? && b.Float?) && !(a.Float? && b.Int?) && ValuesEqual(a, b) ==> a == b
  {
  }

  /** A key that may be stored. */
  predicate Storable(k: Value) {
    k != Nil && !IsNaN(k) && Norm(k) == k
  }

  predicate InArray(k: Value, n: nat) {
    k.Int? && 1 <= k.i <= n
  }

  // ---------------------------------------------------------------- probing

  function Slot(home: nat, probe: nat, n: nat): (s: nat)
    requires home < n && probe < n
    ensures s < n
    ensures s == (home + probe) % n
  {
    if home + probe < n then home + probe else home + probe - n
  }

  /** How many probes lead from slot home to slot s. */
  function Distance(home: nat, s: nat, n: nat): (d: nat)
    requires home < n && s < n
    ensures d < n && Slot(home, d, n) == s
  {
    if home <= s then s - home else s + n - home
  }

  function Home(hasher: Value -> nat, k: Value, n: nat): (i: nat)
    requires n > 0
    ensures i < n
  {
    hasher(k) % n
  }

  // -------------------------------------------------------------- invariant

  /** No two used slots hold the same key; slots whose key was wiped hold no
      value. */
  ghost predicate Unique(h: seq<Node>) {
    && (forall s, t :: 0 <= s < t < |h| && h[s].used && h[t].used && h[s].key == h[t].key ==> h[s].key == Nil)
    && (forall s :: 0 <= s < |h| && h[s].key == Nil ==> h[s].value == Nil)
    && (forall s :: 0 <= s < |h| && !h[s].used ==> h[s].value == Nil)
  }

  /** Hash keys are normalized, and an integer key in 1..max(64, array size)
      never lives in the hash part. */
  ghost predicate KeysPlaced(h: seq<Node>, n: nat) {
    forall s :: 0 <= s < |h| && h[s].used && h[s].key != Nil ==> HashKey(h[s].key, n)
  }

  predicate HashKey(k: Value, n: nat) {
    Storable(k) && !InArray(k, 64) && !InArray(k, n)
  }

  /** Every slot between a key's home and the place where it is stored is
      in use, so a probe that meets an unused slot may give up. */
  ghost predicate Chains(hasher: Value -> nat, h: seq<Node>) {
    forall s :: 0 <= s < |h| && h[s].used && h[s].key != Nil ==> Chain(hasher, h, s)
  }

  ghost predicate Chain(hasher: Value -> nat, h: seq<Node>, s: nat)
    requires s < |h|
  {
    var home := Home(hasher, h[s].key, |h|);
    forall q {:trigger Slot(home, q, |h|)} :: 0 <= q < Distance(home, s, |h|) ==> h[Slot(home, q, |h|)].used
  }

  ghost predicate Sound(hasher: Value -> nat, a: seq<Value>, h: seq<Node>) {
    Unique(h) && KeysPlaced(h, |a|) && Chains(hasher, h)
  }

  /** The same without the reserved indices: hash keys are normalized and not
      in the array part. */
  ghost predicate Loose(hasher: Value -> nat, a: seq<Value>, h: seq<Node>) {
    Unique(h) && KeysOutside(h, |a|) && Chains(hasher, h)
  }

  ghost predicate KeysOutside(h: seq<Node>, n: nat) {
    forall s :: 0 <= s < |h| && h[s].used && h[s].key != Nil ==> OutsideKey(h[s].key, n)
  }

  predicate OutsideKey(k: Value, n: nat) { Storable(k) && !InArray(k, n) }

  lemma SoundIsLoose(hasher: Value -> nat, a: seq<Value>, h: seq<Node>)
    requires Sound(hasher, a, h)
    ensures Loose(hasher, a, h)
  {
    forall s | 0 <= s < |h| && h[s].used && h[s].key != Nil ensures OutsideKey(h[s].key, |a|) {
      assert HashKey(h[s].key, |a|);
    }
  }

  // ------------------------------------------------------------ abstraction

  predicate Live(n: Node) { n.used && n.value != Nil }

  /** The value of the used slot that holds key k, nil if there is none. */
  ghost function HashAt(h: seq<Node>, k: Value): Value {
    if h == [] then Nil
    else if h[|h| - 1].used && h[|h| - 1].key == k then h[|h| - 1].value
    else HashAt(h[..|h| - 1], k)
  }

  ghost function At(a: seq<Value>, h: seq<Node>, k: Value): Value {
    if InArray(k, |a|) then a[k.i - 1] else HashAt(h, k)
  }

  lemma AtIs(a: seq<Value>, h: seq<Node>, k: Value)
    ensures At(a, h, k) == if InArray(k, |a|) then a[k.i - 1] else HashAt(h, k)
  {
  }

  ghost function Keys(a: seq<Value>, h: seq<Node>): set<Value> {
    (set i {:trigger a[i]} | 0 <= i < |a| && a[i] != Nil :: Int(i + 1)) + (set s | 0 <= s < |h|
      && h[s].used :: h[s].key)
  }

  /** The finite map the storage stands for. */
  ghost function Contents(a: seq<Value>, h: seq<Node>): map<Value, Value> {
    map k | k in Keys(a, h) && At(a, h, k) != Nil :: At(a, h, k)
  }

  /** Assignment in the finite map: assigning nil removes the key. */
  function Put(m: map<Value, Value>, k: Value, v: Value): map<Value, Value> {
    if v == Nil then m - {k} else m[k := v]
  }

  function Lookup(m: map<Value, Value>, k: Value): Value {
    if k in m then m[k] else Nil
  }

  // ------------------------------------------------------ reading a layout

  ghost predicate HasKey(h: seq<Node>, k: Value) {
    exists s :: 0 <= s < |h| && h[s].used && h[s].key == k
  }

  lemma {:induction false} HashAtSlot(h: seq<Node>, s: nat)
    requires Unique(h) && s < |h| && h[s].used && h[s].key != Nil
    ensures HashAt(h, h[s].key) == h[s].value
  {
    if s < |h| - 1 { HashAtSlot(h[..|h| - 1], s); }
  }

  /** A key found nowhere, or only in slots without a value, reads as nil. */
  lemma {:induction false} HashAtNil(h: seq<Node>, k: Value)
    requires forall s :: 0 <= s < |h| && Live(h[s]) ==> h[s].key != k
    ensures HashAt(h, k) == Nil
  {
    if h != [] { HashAtNil(h[..|h| - 1], k); }
  }

  lemma {:induction false} HashAtFound(h: seq<Node>, k: Value)
    requires HashAt(h, k) != Nil
    ensures exists s :: 0 <= s < |h| && Live(h[s]) && h[s].key == k
  {
    if h[|h| - 1].used && h[|h| - 1].key == k {
      assert Live(h[|h| - 1]);
    } else {
      HashAtFound(h[..|h| - 1], k);
      var g := h[..|h| - 1];
      var s :| 0 <= s < |g| && Live(g[s]) && g[s].key == k;
      assert h[s] == g[s];
    }
  }

  /** A lookup in the finite map reads the storage. */
  lemma LookupIsAt(a: seq<Value>, h: seq<Node>, k: Value)
    ensures Lookup(Contents(a, h), k) == At(a, h, k)
    ensures k in Contents(a, h) <==> At(a, h, k) != Nil
  {
    if At(a, h, k) != Nil {
      if InArray(k, |a|) {
        assert a[k.i - 1] != Nil;
      } else {
        HashAtFound(h, k);
      }
      assert k in Keys(a, h);
    }
  }

  /** Layout (b, g) reads like (a, h) except at key k, which reads v. */
  ghost predicate PutAt(a: seq<Value>, h: seq<Node>, b: seq<Value>, g: seq<Node>, k: Value, v: Value) {
    forall x :: At(b, g, x) == if x == k then v else At(a, h, x)
  }

  lemma PointwisePut(a: seq<Value>, h: seq<Node>, b: seq<Value>, g: seq<Node>, k: Value, v: Value)
    requires PutAt(a, h, b, g, k, v)
    ensures Contents(b, g) == Put(Contents(a, h), k, v)
  {
    var m, n := Contents(b, g), Put(Contents(a, h), k, v);
    forall x ensures x in m <==> x in n ensures x in m ==> m[x] == n[x] {
      LookupIsAt(a, h, x);
      LookupIsAt(b, g, x);
    }
    assert m == n;
  }

  lemma PointwiseSame(a: seq<Value>, h: seq<Node>, b: seq<Value>, g: seq<Node>)
    requires forall x :: At(b, g, x) == At(a, h, x)
    ensures Contents(b, g) == Contents(a, h)
  {
    var m, n := Contents(b, g), Contents(a, h);
    forall x ensures x in m <==> x in n ensures x in m ==> m[x] == n[x] {
      LookupIsAt(a, h, x);
      LookupIsAt(b, g, x);
    }
    assert m == n;
  }

  // ----------------------------------------------------- probing outcomes

  /** The first `upto` probes for k all met used slots with other keys. */
  ghost predicate Missed(hasher: Value -> nat, h: seq<Node>, k: Value, upto: nat)
    requires upto <= |h|
  {
    |h| > 0 ==>
      var home := Home(hasher, k, |h|);
      forall q {:trigger Slot(home, q, |h|)} :: 0 <= q < upto ==>
        h[Slot(home, q, |h|)].used && h[Slot(home, q, |h|)].key != k
  }

  /** A probe that meets an unused slot, or has met them all, proves absence. */
  lemma MissedAll(hasher: Value -> nat, h: seq<Node>, k: Value, upto: nat)
    requires k != Nil && Chains(hasher, h)
    requires upto <= |h| && Missed(hasher, h, k, upto)
    requires upto == |h| || !h[Slot(Home(hasher, k, |h|), upto, |h|)].used
    ensures !HasKey(h, k)
  {
    forall s | 0 <= s < |h| && h[s].used ensures h[s].key != k {
      var d := Distance(Home(hasher, k, |h|), s, |h|);
      assert h[s].key == Nil || Chain(hasher, h, s);
    }
  }

  // ------------------------------------------------------- updating a slot

  /** Slot s may take key k: it already has it, or it is free for a new key
      whose probe sequence reaches it through used slots. */
  ghost predicate MayHold(hasher: Value -> nat, h: seq<Node>, s: nat, k: Value)
    requires s < |h|
  {
    || (h[s].used && h[s].key == k)
    || (!Live(h[s]) && !HasKey(h, k) && Reaches(hasher, h, s, k))
  }

  ghost predicate Reaches(hasher: Value -> nat, h: seq<Node>, s: nat, k: Value)
    requires s < |h|
  {
    var home := Home(hasher, k, |h|);
    forall q {:trigger Slot(home, q, |h|)} :: 0 <= q < Distance(home, s, |h|) ==> h[Slot(home, q, |h|)].used
  }

  lemma PutSlotLoose(hasher: Value -> nat, a: seq<Value>, h: seq<Node>, s: nat, k: Value, v: Value)
    requires Loose(hasher, a, h)
    requires s < |h| && OutsideKey(k, |a|) && MayHold(hasher, h, s, k)
    ensures Loose(hasher, a, h[s := Node(k, v, true)])
  {
    var g := h[s := Node(k, v, true)];
    forall t | 0 <= t < |g| && g[t].used && g[t].key != Nil ensures Chain(hasher, g, t) {
      if t != s || h[s].key == k {
        if t != s { assert h[t].used; }
        assert h[t].used && h[t].key == k ==> HasKey(h, k);
        assert Chain(hasher, h, t);
      }
      var home := Home(hasher, g[t].key, |g|);
      forall q | 0 <= q < Distance(home, t, |g|) ensures g[Slot(home, q, |g|)].used {
        if t == s && !(h[s].used && h[s].key == k) {
          assert Reaches(hasher, h, s, k);
        } else {
          assert h[Slot(home, q, |h|)].used;
        }
      }
    }
    assert forall t :: 0 <= t < |h| && t != s && h[t].used && h[t].key == k ==> HasKey(h, k);
    assert Unique(g);
  }

  lemma PutSlotSound(hasher: Value -> nat, a: seq<Value>, h: seq<Node>, s: nat, k: Value, v: Value)
    requires Sound(hasher, a, h)
    requires s < |h| && HashKey(k, |a|) && MayHold(hasher, h, s, k)
    ensures Sound(hasher, a, h[s := Node(k, v, true)])
  {
    hide Chains, Unique, MayHold;
    SoundIsLoose(hasher, a, h);
    PutSlotLoose(hasher, a, h, s, k, v);
  }

  lemma PutSlotContents(hasher: Value -> nat, a: seq<Value>, h: seq<Node>, s: nat, k: Value, v: Value)
    requires Loose(hasher, a, h)
    requires s < |h| && OutsideKey(k, |a|) && MayHold(hasher, h, s, k)
    ensures PutAt(a, h, a, h[s := Node(k, v, true)], k, v)
  {
    var g := h[s := Node(k, v, true)];
    PutSlotLoose(hasher, a, h, s, k, v);
    forall x ensures At(a, g, x) == if x == k then v else At(a, h, x) {
      if x == k {
        HashAtSlot(g, s);
      } else {
        PutSlotOther(h, s, k, v, x);
      }
    }
  }

  /** Changing slot s leaves every other key's value alone. */
  lemma PutSlotOther(h: seq<Node>, s: nat, k: Value, v: Value, x: Value)
    requires s < |h| && Unique(h) && Unique(h[s := Node(k, v, true)])
    requires (h[s].used && h[s].key == k) || !Live(h[s])
    requires x != k
    ensures HashAt(h[s := Node(k, v, true)], x) == HashAt(h, x)
  {
    var g := h[s := Node(k, v, true)];
    if t :| 0 <= t < |h| && t != s && Live(h[t]) && h[t].key == x {
      HashAtSlot(h, t);
      assert g[t] == h[t];
      HashAtSlot(g, t);
    } else {
      HashAtNil(h, x);
      HashAtNil(g, x);
    }
  }

  // ---------------------------------------------------- updating the array

  /** Writing index i of an array part that was first padded with nils; the
      array may grow only within the first 64 indices. */
  lemma PutArray(hasher: Value -> nat, a: seq<Value>, b: seq<Value>, h: seq<Node>, i: int, v: Value)
    requires Sound(hasher, a, h)
    requires |a| <= |b| && (|b| == |a| || |b| <= 64)
    requires 1 <= i <= |b| && b[i - 1] == v
    requires forall j :: 0 <= j < |a| && j != i - 1 ==> b[j] == a[j]
    requires forall j :: |a| <= j < |b| && j != i - 1 ==> b[j] == Nil
    ensures Sound(hasher, b, h)
    ensures PutAt(a, h, b, h, Int(i), v)
  {
    assert KeysPlaced(h, |b|) by {
      forall s | 0 <= s < |h| && h[s].used && h[s].key != Nil ensures HashKey(h[s].key, |b|) {
        assert HashKey(h[s].key, |a|);
      }
    }
    forall x ensures At(b, h, x) == if x == Int(i) then v else At(a, h, x) {
      if InArray(x, |b|) && !InArray(x, |a|) {
        forall s | 0 <= s < |h| && Live(h[s]) ensures h[s].key != x {
          assert h[s].key != Nil ==> HashKey(h[s].key, |b|);
        }
        HashAtNil(h, x);
      }
    }
  }

  /** Writing an index of the array part as it is. */
  lemma PutItem(hasher: Value -> nat, a: seq<Value>, h: seq<Node>, i: int, v: Value)
    requires Loose(hasher, a, h) && 1 <= i <= |a|
    ensures Loose(hasher, a[i - 1 := v], h) && PutAt(a, h, a[i - 1 := v], h, Int(i), v)
  {
  }

  /** With no dead slots, only integer keys of the reserved indices that read as
      a value can stand between a loose layout and a sound one. */
  lemma SoundIff(hasher: Value -> nat, a: seq<Value>, h: seq<Node>)
    requires Loose(hasher, a, h) && forall s :: 0 <= s < |h| && h[s].used ==> Live(h[s])
    ensures Sound(hasher, a, h) <==> forall i: nat :: |a| < i <= 64 ==> At(a, h, Int(i)) == Nil
  {
    if Sound(hasher, a, h) {
      forall i: nat | |a| < i <= 64 ensures At(a, h, Int(i)) == Nil {
        forall s | 0 <= s < |h| && Live(h[s]) ensures h[s].key != Int(i) {
          assert h[s].key != Nil && HashKey(h[s].key, |a|);
        }
        HashAtNil(h, Int(i));
      }
    } else {
      var s :| 0 <= s < |h| && h[s].used && h[s].key != Nil && !HashKey(h[s].key, |a|);
      assert OutsideKey(h[s].key, |a|);
      HashAtSlot(h, s);
      assert At(a, h, Int(h[s].key.i)) != Nil;
    }
  }

  // ------------------------------------------------------- counting slots

  function UsedCount(h: seq<Node>): (n: nat)
    ensures n <= |h|
  {
    if h == [] then 0 else UsedCount(h[..|h| - 1]) + (if h[|h| - 1].used then 1 else 0)
  }

  lemma {:induction false} UsedCountUpdate(h: seq<Node>, s: nat, n: Node)
    requires s < |h| && n.used
    ensures UsedCount(h[s := n]) == UsedCount(h) + (if h[s].used then 0 else 1)
  {
    var g := h[s := n];
    if s < |h| - 1 {
      UsedCountUpdate(h[..|h| - 1], s, n);
      assert g[..|h| - 1] == h[..|h| - 1][s := n];
    } else {
      assert g[..|h| - 1] == h[..|h| - 1];
    }
  }

  lemma {:induction false} FreeSlot(h: seq<Node>)
    requires UsedCount(h) < |h|
    ensures exists s :: 0 <= s < |h| && !h[s].used
  {
    if h[|h| - 1].used {
      var g := h[..|h| - 1];
      FreeSlot(g);
      var s :| 0 <= s < |g| && !g[s].used;
      assert !h[s].used;
    }
  }

  lemma {:induction false} AllUsed(h: seq<Node>)
    requires forall s :: 0 <= s < |h| ==> h[s].used
    ensures UsedCount(h) == |h|
  {
    if h != [] { AllUsed(h[..|h| - 1]); }
  }

  lemma {:induction false} AllFree(h: seq<Node>)
    requires forall s :: 0 <= s < |h| ==> !h[s].used
    ensures UsedCount(h) == 0
  {
    if h != [] { AllFree(h[..|h| - 1]); }
  }

  // ------------------------------------------------------------- new hashes

  /** Fresh slots hold nothing. */
  lemma FreshHash(hasher: Value -> nat, a: seq<Value>, h: seq<Node>)
    requires forall s :: 0 <= s < |h| ==> h[s] == EMPTY_NODE
    ensures Sound(hasher, a, h) && Loose(hasher, a, h)
    ensures UsedCount(h) == 0
    ensures forall x :: HashAt(h, x) == Nil
  {
    AllFree(h);
    forall x ensures HashAt(h, x) == Nil {
      HashAtNil(h, x);
    }
  }
}
