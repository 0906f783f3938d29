/** String interning: a chained hash table in which equal bytes are one object,
    through any sequence of interning, removal and resizing. */
module StringTable {
  import opened Common
  import opened ByteOrder

  // ----------------------------------------------------------------- hashing

  function HashStep(h: bv32, b: byte): bv32 { (h ^ (b as bv32)) * 16777619 }

  function HashFrom(h: bv32, s: bytes): bv32
    decreases |s|
  {
    if s == [] then h else HashFrom(HashStep(h, s[0]), s[1..])
  }

  function Hash(s: bytes): nat { HashFrom(2166136261, s) as nat }

  method HashBytes(s: bytes) returns (h: bv32)
    ensures h as nat == Hash(s)
  {
    hide HashStep;
    h := 2166136261;
    for i := 0 to |s|
      invariant HashFrom(h, s[i..]) == HashFrom(2166136261, s)
    {
      assert s[i..][1..] == s[i + 1..];
      h := HashStep(h, s[i]);
    }
  }

  /** FNV-1a: byte after byte; the hashes of the empty string and of "a" are the known ones. */
  lemma {:induction false} HashSnoc(h: bv32, s: bytes, b: byte)
    ensures HashFrom(h, s + [b]) == HashStep(HashFrom(h, s), b)
    decreases |s|
  {
    hide HashStep;
    if s == [] {
      assert [] + [b] == [b] && [b][1..] == [];
    } else {
      assert (s + [b])[0] == s[0] && (s + [b])[1..] == s[1..] + [b];
      HashSnoc(HashStep(h, s[0]), s[1..], b);
    }
  }

  lemma KnownHashes()
    ensures Hash([]) == 0x811C_9DC5 && HashFrom(0x811C_9DC5, ['a' as int]) == 0xE40C_292C
  {
    assert ['a' as int][1..] == [];
    assert HashStep(0x811C_9DC5, 97) == 0xE40C_292C;
  }

  // ----------------------------------------------------------------- buckets

  /** All strings in the table, with multiplicity. */
  function All(b: seq<seq<nat>>): multiset<nat> {
    if b == [] then multiset{} else All(b[..|b| - 1]) + multiset(b[|b| - 1])
  }

  lemma {:induction false} AllUpdate(b: seq<seq<nat>>, i: nat, c: seq<nat>)
    requires i < |b|
    ensures multiset(b[i]) <= All(b)
    ensures All(b[i := c]) == All(b) - multiset(b[i]) + multiset(c)
  {
    var n := |b| - 1;
    if i == n {
      assert b[i := c][..n] == b[..n];
    } else {
      AllUpdate(b[..n], i, c);
      assert b[i := c][..n] == b[..n][i := c];
    }
  }

  lemma {:induction false} AllIn(b: seq<seq<nat>>, x: nat) returns (i: nat)
    requires x in All(b)
    ensures i < |b| && x in b[i]
  {
    var n := |b| - 1;
    if x in multiset(b[n]) { i := n; } else { i := AllIn(b[..n], x); }
  }

  lemma {:induction false} AllEmpty(b: seq<seq<nat>>)
    requires forall i :: 0 <= i < |b| ==> b[i] == []
    ensures All(b) == multiset{}
  {
    if b != [] { AllEmpty(b[..|b| - 1]); }
  }

  /** Every string is in the bucket its hash selects. */
  ghost predicate Placed(b: seq<seq<nat>>, text: map<nat, bytes>) {
    forall i, x :: 0 <= i < |b| && x in b[i] ==> x in text && Hash(text[x]) % |b| == i
  }

  /** No string twice, and no two strings with the same bytes. */
  ghost predicate Canonical(all: multiset<nat>, text: map<nat, bytes>) {
    && (forall x :: x in all ==> all[x] == 1 && x in text)
    && (forall x, y :: x in all && y in all && x in text && y in text && text[x] == text[y] ==> x == y)
  }

  lemma DoublePower(n: nat)
    requires PowerOf2(n)
    ensures PowerOf2(2 * n)
  {
  }

  /** Putting x in front of its bucket. */
  lemma PushFront(b: seq<seq<nat>>, text: map<nat, bytes>, x: nat)
    requires b != [] && Placed(b, text) && x in text
    ensures var i := Hash(text[x]) % |b|;
      Placed(b[i := [x] + b[i]], text) && All(b[i := [x] + b[i]]) == All(b) + multiset{x}
  {
    hide Hash, All;
    var i := Hash(text[x]) % |b|;
    AllUpdate(b, i, [x] + b[i]);
    assert multiset([x] + b[i]) == multiset{x} + multiset(b[i]);
  }

  // ------------------------------------------------------------------ resizing

  /** Moves a chain, head first, to the front of the new buckets. */
  method MoveChain(chain: seq<nat>, into: seq<seq<nat>>, text: map<nat, bytes>) returns (r: seq<seq<nat>>)
    requires into != [] && Placed(into, text) && forall x :: x in chain ==> x in text
    ensures |r| == |into| && Placed(r, text) && All(r) == All(into) + multiset(chain)
  {
    hide Hash, All, Placed;
    r := into;
    var head := chain;
    while head != []
      invariant |r| == |into| && Placed(r, text) && All(r) + multiset(head) == All(into) + multiset(chain)
      invariant forall x :: x in head ==> x in text
      decreases |head|
    {
      var x := head[0];
      PushFront(r, text, x);
      assert head == [x] + head[1..];
      var j := Hash(text[x]) % |r|;
      r := r[j := [x] + r[j]];
      head := head[1..];
    }
  }

  method Spread(from: seq<seq<nat>>, text: map<nat, bytes>, n: nat) returns (r: seq<seq<nat>>)
    requires n > 0 && Placed(from, text)
    ensures |r| == n && Placed(r, text) && All(r) == All(from)
  {
    hide Hash, All;
    r := seq(n, _ => []);
    AllEmpty(r);
    AllEmpty(from[..0]);
    for i := 0 to |from|
      invariant |r| == n && Placed(r, text) && All(r) == All(from[..i])
    {
      AllPrefix(from, i);
      r := MoveChain(from[i], r, text);
    }
    assert from[..|from|] == from;
  }

  lemma AllPrefix(b: seq<seq<nat>>, i: nat)
    requires i < |b|
    ensures All(b[..i + 1]) == All(b[..i]) + multiset(b[i])
  {
    assert b[..i + 1][..i] == b[..i];
  }

  /** The position of x in a chain, or -1. */
  method Position(b: seq<nat>, x: nat) returns (k: int)
    ensures -1 <= k < |b|
    ensures if k == -1 then x !in b else b[k] == x
  {
    for i := 0 to |b|
      invariant x !in b[..i]
    {
      if b[i] == x { return i; }
    }
    return -1;
  }

  /** The first string of a chain with these bytes, or -1. */
  method Search(b: seq<nat>, text: map<nat, bytes>, s: bytes) returns (k: int)
    requires forall x :: x in b ==> x in text
    ensures -1 <= k < |b|
    ensures if k == -1 then forall x :: x in b ==> text[x] != s else text[b[k]] == s
  {
    for i := 0 to |b|
      invariant forall j :: 0 <= j < i ==> text[b[j]] != s
    {
      if text[b[i]] == s { return i; }
    }
    return -1;
  }

  // -------------------------------------------------- what keeps the invariant

  lemma Without(b: seq<seq<nat>>, text: map<nat, bytes>, i: nat, k: nat)
    requires i < |b| && k < |b[i]| && Placed(b, text) && Canonical(All(b), text)
    ensures var c := b[i := b[i][..k] + b[i][k + 1..]];
      Placed(c, text) && Canonical(All(c), text) && All(c) == All(b)[b[i][k] := 0] && |All(c)| + 1 == |All(b)|
  {
    hide Hash, All, Placed, Canonical;
    var x, rest := b[i][k], b[i][..k] + b[i][k + 1..];
    assert b[i] == b[i][..k] + [x] + b[i][k + 1..];
    AllUpdate(b, i, rest);
    assert multiset(b[i]) == multiset(rest) + multiset{x};
    InAll(b, i, k);
    assert All(b[i := rest]) == All(b) - multiset{x};
    OneLess(All(b), text, x);
    PlacedLess(b, text, i, rest);
  }

  lemma OneLess(all: multiset<nat>, text: map<nat, bytes>, x: nat)
    requires Canonical(all, text) && x in all
    ensures Canonical(all - multiset{x}, text) && all - multiset{x} == all[x := 0] && |all - multiset{x}| + 1 == |all|
  {
    assert all[x] == 1;
  }

  lemma PlacedLess(b: seq<seq<nat>>, text: map<nat, bytes>, i: nat, rest: seq<nat>)
    requires Placed(b, text) && i < |b| && forall x :: x in rest ==> x in b[i]
    ensures Placed(b[i := rest], text)
  {
  }

  lemma NotThere(b: seq<seq<nat>>, text: map<nat, bytes>, x: nat)
    requires b != [] && Placed(b, text) && x in text && x !in b[Hash(text[x]) % |b|]
    ensures x !in All(b)
  {
    hide Hash, All;
    if x in All(b) { var j := AllIn(b, x); }
  }

  lemma NoSuchBytes(b: seq<seq<nat>>, text: map<nat, bytes>, s: bytes)
    requires b != [] && Placed(b, text) && Canonical(All(b), text)
    requires forall x :: x in b[Hash(s) % |b|] ==> text[x] != s
    ensures forall y :: y in All(b) ==> text[y] != s
  {
    hide Hash, All;
    forall y | y in All(b) ensures text[y] != s {
      var j := AllIn(b, y);
    }
  }

  lemma NewString(b: seq<seq<nat>>, text: map<nat, bytes>, x: nat, s: bytes)
    requires b != [] && Placed(b, text) && Canonical(All(b), text) && x !in text
    requires forall y :: y in All(b) ==> text[y] != s
    ensures var i := Hash(s) % |b|;
      var c := b[i := [x] + b[i]];
      Placed(c, text[x := s]) && All(c) == All(b) + multiset{x} && Canonical(All(c), text[x := s])
  {
    hide Hash, All;
    PushFront(b, text[x := s], x);
  }

  lemma InAll(b: seq<seq<nat>>, i: nat, k: nat)
    requires i < |b| && k < |b[i]|
    ensures b[i][k] in All(b)
  {
    AllUpdate(b, i, []);
    assert b[i][k] in multiset(b[i]);
  }

  // -------------------------------------------------------------- the table

  class Interner {
    var buckets: seq<seq<nat>>
    var nuse: nat
    /** The bytes of every string object ever made. */
    var text: map<nat, bytes>
    var nextId: nat

    ghost predicate Valid()
      reads this
    {
      && (buckets == [] || PowerOf2(|buckets|))
      && Placed(buckets, text) && Canonical(All(buckets), text)
      && nuse == |All(buckets)|
      && forall x :: x in text ==> x < nextId
    }

    /** The strings that are interned now. */
    ghost function Strings(): multiset<nat>
      reads this
    {
      All(buckets)
    }

    constructor ()
      ensures Valid() && Strings() == multiset{}
    {
      buckets, nuse, text, nextId := [], 0, map[], 0;
    }

    /** Pointer equality of interned strings is equality of their bytes. */
    lemma SameObjectIff(x: nat, y: nat)
      requires Valid() && x in Strings() && y in Strings()
      ensures x in text && y in text && (x == y <==> text[x] == text[y])
    {
    }

    method Resize(want: nat)
      requires Valid()
      modifies this`buckets
      ensures Valid() && Strings() == old(Strings()) && |buckets| >= want && |buckets| >= 32
    {
      hide Hash, All, Placed, Canonical;
      var size := if want < 32 then 32 else want;
      var n: nat := 1;
      while n < size
        invariant PowerOf2(n) && buckets == old(buckets)
        decreases size - n
      {
        DoublePower(n);
        n := n * 2;
      }
      buckets := Spread(buckets, text, n);
    }

    /** Takes a string out of the table; strings not in it are left alone. */
    method Remove(x: nat)
      requires Valid() && x in text
      modifies this`buckets, this`nuse
      ensures Valid() && Strings() == old(Strings())[x := 0]
    {
      hide Hash, All, Placed, Canonical;
      if buckets == [] {
        AllEmpty(buckets);
        return;
      }
      var i := Hash(text[x]) % |buckets|;
      var k := Position(buckets[i], x);
      if k == -1 {
        NotThere(buckets, text, x);
        return;
      }
      Without(buckets, text, i, k);
      buckets := buckets[i := buckets[i][..k] + buckets[i][k + 1..]];
      if nuse > 0 { nuse := nuse - 1; }
    }

    /** The one string object with these bytes: the one interned before, or a
        new one. */
    method Intern(s: bytes) returns (x: nat)
      requires Valid()
      modifies this
      ensures Valid() && x in Strings() && x in text && text[x] == s
      ensures forall y :: y in old(text) ==> y in text && text[y] == old(text)[y]
      ensures Strings() == old(Strings()) + (if x in old(Strings()) then multiset{} else multiset{x})
      ensures (exists y :: y in old(Strings()) && y in old(text) && old(text)[y] == s) <==> x in old(Strings())
    {
      hide Hash, All, Placed, Canonical;
      var hb := HashBytes(s);
      var h := hb as nat;
      if buckets == [] { Resize(128); }
      var found, y := Find(s, h);
      if found { return y; }
      x := AddNew(s, h);
    }

    /** Walks the bucket of hash h for a string with these bytes. */
    method Find(s: bytes, h: nat) returns (found: bool, x: nat)
      requires Valid() && buckets != [] && h == Hash(s)
      ensures found ==> x in Strings() && x in text && text[x] == s
      ensures !found ==> forall y :: y in Strings() ==> y in text && text[y] != s
    {
      hide Hash, All, Placed, Canonical;
      var i := h % |buckets|;
      BucketKnown(buckets, text, i);
      var k := Search(buckets[i], text, s);
      if k != -1 {
        InAll(buckets, i, k);
        return true, buckets[i][k];
      }
      StringsKnown(All(buckets), text);
      NoSuchBytes(buckets, text, s);
      return false, 0;
    }

    method AddNew(s: bytes, h: nat) returns (x: nat)
      requires Valid() && buckets != [] && h == Hash(s) && forall y :: y in Strings() ==> y in text && text[y] != s
      modifies this
      ensures Valid() && x == old(nextId) && x !in old(text) && text == old(text)[x := s]
      ensures Strings() == old(Strings()) + multiset{x}
    {
      hide Hash, All, Placed, Canonical;
      if nuse >= |buckets| { Resize(|buckets| * 2); }
      x := nextId;
      NewString(buckets, text, x, s);
      var i := h % |buckets|;
      text := text[x := s];
      buckets := buckets[i := [x] + buckets[i]];
      nuse, nextId := nuse + 1, nextId + 1;
    }
  }

  lemma BucketKnown(b: seq<seq<nat>>, text: map<nat, bytes>, i: nat)
    requires Placed(b, text) && i < |b|
    ensures forall x :: x in b[i] ==> x in text
  {
  }

  lemma StringsKnown(all: multiset<nat>, text: map<nat, bytes>)
    requires Canonical(all, text)
    ensures forall x :: x in all ==> x in text
  {
  }

  // -------------------------------------------------------------- whole runs

  datatype Op = Make(s: bytes) | Drop(x: nat) | Grow(n: nat)

  /** Any operations on the table, except removing the string x. */
  method RunOps(t: Interner, ops: seq<Op>, x: nat)
    requires t.Valid() && x in t.Strings() && x in t.text
    requires forall i :: 0 <= i < |ops| ==> ops[i] != Drop(x)
    modifies t
    ensures t.Valid() && x in t.Strings() && x in t.text && t.text[x] == old(t.text)[x]
  {
    hide All, Placed, Canonical;
    for i := 0 to |ops|
      invariant t.Valid() && x in t.Strings() && x in t.text && t.text[x] == old(t.text)[x]
    {
      match ops[i] {
        case Make(s) => var _ := t.Intern(s);
        case Drop(y) => if y in t.text { t.Remove(y); }
        case Grow(n) => t.Resize(n);
      }
    }
  }

  /** Interning the same bytes again, after anything but the removal of that
      string, gives the same object. */
  method InternAgain(t: Interner, s: bytes, ops: nat -> seq<Op>) returns (x: nat, y: nat)
    requires t.Valid() && forall x, i :: 0 <= i < |ops(x)| ==> ops(x)[i] != Drop(x)
    modifies t
    ensures t.Valid() && x == y
  {
    hide All, Placed, t.Valid;
    x := t.Intern(s);
    RunOps(t, ops(x), x);
    y := t.Intern(s);
    t.SameObjectIff(x, y);
  }
}
