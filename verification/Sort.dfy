/** table.sort: the in-place quicksort, for any comparison function whatsoever
    and, beyond that, for strict weak orders. */
module Sort {
  import opened Common

  datatype Status = Fine | InvalidOrder | TooBig

  /** A comparison function: its answer may depend on how often it was called. */
  type Comparison<!T> = (nat, T, T) -> bool

  /** The comparison ignores the call number and is a strict weak order. */
  ghost predicate StrictWeak<T(!new)>(cmp: Comparison<T>) {
    && (forall n, m, x, y :: cmp(n, x, y) == cmp(m, x, y))
    && (forall n, x :: !cmp(n, x, x))
    && (forall n, x, y, z :: cmp(n, x, y) && cmp(n, y, z) ==> cmp(n, x, z))
    && (forall n, x, y, z :: cmp(n, x, z) ==> cmp(n, x, y) || cmp(n, y, z))
  }

  /** The comparison says yes to everything. */
  ghost predicate AlwaysTrue<T(!new)>(cmp: Comparison<T>) { forall n, x, y :: cmp(n, x, y) }

  /** x may stand before y. */
  ghost predicate Leq<T(!new)>(cmp: Comparison<T>, x: T, y: T) {
    !cmp(0, y, x)
  }

  // ---------------------------------------------------------- permutations

  /** t rearranges s between lo and up and agrees with it elsewhere. */
  ghost predicate Perm<T>(s: seq<T>, t: seq<T>, lo: int, up: int) {
    && |s| == |t| && 0 <= lo <= up + 1 <= |s|
    && s[..lo] == t[..lo] && s[up + 1..] == t[up + 1..]
    && multiset(s[lo..up + 1]) == multiset(t[lo..up + 1])
  }

  lemma PermRefl<T>(s: seq<T>, lo: int, up: int)
    requires 0 <= lo <= up + 1 <= |s|
    ensures Perm(s, s, lo, up)
  {
  }

  lemma PermTrans<T>(s: seq<T>, t: seq<T>, u: seq<T>, lo: int, up: int)
    requires Perm(s, t, lo, up) && Perm(t, u, lo, up)
    ensures Perm(s, u, lo, up)
  {
  }

  lemma PermWiden<T>(s: seq<T>, t: seq<T>, lo: int, up: int, l: int, u: int)
    requires Perm(s, t, lo, up) && 0 <= l <= lo && up <= u < |s|
    ensures Perm(s, t, l, u)
  {
    assert s[l..u + 1] == s[l..lo] + s[lo..up + 1] + s[up + 1..u + 1];
    assert t[l..u + 1] == t[l..lo] + t[lo..up + 1] + t[up + 1..u + 1];
    assert s[l..lo] == s[..lo][l..] && t[l..lo] == t[..lo][l..];
    assert s[up + 1..u + 1] == s[up + 1..][..u - up] && t[up + 1..u + 1] == t[up + 1..][..u - up];
    assert s[..l] == s[..lo][..l] && t[..l] == t[..lo][..l];
    assert s[u + 1..] == s[up + 1..][u - up..] && t[u + 1..] == t[up + 1..][u - up..];
  }

  lemma PermSwap<T>(s: seq<T>, i: int, j: int, lo: int, up: int)
    requires 0 <= lo <= i <= up < |s| && lo <= j <= up
    ensures Perm(s, s[i := s[j]][j := s[i]], lo, up)
  {
    var t := s[i := s[j]][j := s[i]];
    var r := s[lo..up + 1];
    assert t[lo..up + 1] == r[i - lo := r[j - lo]][j - lo := r[i - lo]];
  }

  /** Elements of the rearranged stretch come from that stretch. */
  lemma PermFrom<T>(s: seq<T>, t: seq<T>, lo: int, up: int, k: int) returns (m: int)
    requires Perm(s, t, lo, up) && lo <= k <= up
    ensures lo <= m <= up && s[m] == t[k]
  {
    var u, v := s[lo..up + 1], t[lo..up + 1];
    assert v[k - lo] in multiset(v);
    assert t[k] in multiset(u);
    assert t[k] in u;
    var i :| 0 <= i < |u| && u[i] == t[k];
    m := lo + i;
  }

  lemma PermOutside<T>(s: seq<T>, t: seq<T>, lo: int, up: int, k: int)
    requires Perm(s, t, lo, up) && 0 <= k < |s| && (k < lo || k > up)
    ensures s[k] == t[k]
  {
    if k < lo { assert s[k] == s[..lo][k] && t[k] == t[..lo][k]; }
    else { assert s[k] == s[up + 1..][k - up - 1] && t[k] == t[up + 1..][k - up - 1]; }
  }

  // ---------------------------------------------------------------- order

  ghost predicate Sorted<T(!new)>(cmp: Comparison<T>, s: seq<T>, lo: int, up: int)
    requires 0 <= lo && up < |s|
  {
    forall i, j :: lo <= i < j <= up ==> Leq(cmp, s[i], s[j])
  }

  /** Nothing between lo and up exceeds x. */
  ghost predicate AllLeq<T(!new)>(cmp: Comparison<T>, s: seq<T>, lo: int, up: int, x: T)
    requires 0 <= lo && up < |s|
  {
    forall i :: lo <= i <= up ==> Leq(cmp, s[i], x)
  }

  ghost predicate AllGeq<T(!new)>(cmp: Comparison<T>, s: seq<T>, lo: int, up: int, x: T)
    requires 0 <= lo && up < |s|
  {
    forall i :: lo <= i <= up ==> Leq(cmp, x, s[i])
  }

  lemma PermBounds<T(!new)>(cmp: Comparison<T>, s: seq<T>, t: seq<T>, lo: int, up: int, x: T)
    requires Perm(s, t, lo, up)
    ensures AllLeq(cmp, s, lo, up, x) ==> AllLeq(cmp, t, lo, up, x)
    ensures AllGeq(cmp, s, lo, up, x) ==> AllGeq(cmp, t, lo, up, x)
  {
    forall k | lo <= k <= up
      ensures AllLeq(cmp, s, lo, up, x) ==> Leq(cmp, t[k], x)
      ensures AllGeq(cmp, s, lo, up, x) ==> Leq(cmp, x, t[k])
    {
      var m := PermFrom(s, t, lo, up, k);
    }
  }

  /** Of lo..up, everything is in order except possibly inside l..u. */
  ghost predicate SortedBut<T(!new)>(cmp: Comparison<T>, s: seq<T>, lo: int, up: int, l: int, u: int)
    requires 0 <= lo && up < |s|
  {
    forall i, j :: lo <= i < j <= up && (i < l || j > u) ==> Leq(cmp, s[i], s[j])
  }

  lemma SortedButPerm<T(!new)>(cmp: Comparison<T>, s: seq<T>, t: seq<T>, lo: int, up: int, l: int, u: int)
    requires 0 <= lo <= l && l <= u + 1 && u <= up < |s| && Perm(s, t, l, u)
    requires SortedBut(cmp, s, lo, up, l, u)
    ensures SortedBut(cmp, t, lo, up, l, u)
  {
    forall i, j | lo <= i < j <= up && (i < l || j > u) ensures Leq(cmp, t[i], t[j]) {
      var m, n := i, j;
      if l <= i <= u { m := PermFrom(s, t, l, u, i); } else { PermOutside(s, t, l, u, i); }
      if l <= j <= u { n := PermFrom(s, t, l, u, j); } else { PermOutside(s, t, l, u, j); }
      assert Leq(cmp, s[m], s[n]);
    }
  }

  /** The sentinels a split starts with. */
  lemma SplitStarts<T(!new)>(cmp: Comparison<T>, s: seq<T>, lo: int, up: int)
    requires 0 <= lo && lo + 2 < up < |s|
    requires StrictWeak(cmp) && Leq(cmp, s[lo], s[up - 1]) && Leq(cmp, s[up - 1], s[up])
    ensures AllLeq(cmp, s, lo, lo, s[up - 1]) && AllGeq(cmp, s, up - 1, up, s[up - 1])
  {
  }

  /** Exchanging a large element on the left with a small one on the right. */
  lemma SplitGrows<T(!new)>(cmp: Comparison<T>, s: seq<T>, lo: int, up: int, i: int, j: int)
    requires 0 <= lo < i <= j < up - 1 && up < |s|
    requires AllLeq(cmp, s, lo, i - 1, s[up - 1]) && Leq(cmp, s[j], s[up - 1])
    requires AllGeq(cmp, s, j + 1, up, s[up - 1]) && Leq(cmp, s[up - 1], s[i])
    ensures var t := s[i := s[j]][j := s[i]]; AllLeq(cmp, t, lo, i, s[up - 1]) && AllGeq(cmp, t, j, up, s[up - 1])
  {
  }

  /** Moving the pivot between the two sides. */
  lemma SplitEnds<T(!new)>(cmp: Comparison<T>, s: seq<T>, lo: int, up: int, i: int, j: int)
    requires StrictWeak(cmp) && 0 <= lo <= j < i <= up - 1 && up < |s|
    requires AllLeq(cmp, s, lo, i - 1, s[up - 1]) && AllGeq(cmp, s, j + 1, up, s[up - 1])
    ensures var t := s[up - 1 := s[i]][i := s[up - 1]];
      t[i] == s[up - 1] && AllLeq(cmp, t, lo, i, t[i]) && AllGeq(cmp, t, i, up, t[i])
  {
  }

  lemma CallNumber<T(!new)>(cmp: Comparison<T>, n: nat, x: T, y: T)
    ensures StrictWeak(cmp) ==> cmp(n, x, y) == !Leq(cmp, y, x)
  {
  }

  lemma LeqTotal<T(!new)>(cmp: Comparison<T>, x: T, y: T)
    requires StrictWeak(cmp)
    ensures Leq(cmp, x, y) || Leq(cmp, y, x)
  {
  }

  lemma LeqTrans<T(!new)>(cmp: Comparison<T>, x: T, y: T, z: T)
    requires StrictWeak(cmp) && Leq(cmp, x, y) && Leq(cmp, y, z)
    ensures Leq(cmp, x, z)
  {
  }

  lemma SortedPair<T(!new)>(cmp: Comparison<T>, s: seq<T>, lo: int, up: int)
    requires 0 <= lo && up == lo + 1 < |s| && Leq(cmp, s[lo], s[up])
    ensures Sorted(cmp, s, lo, up)
  {
  }

  lemma SortedTriple<T(!new)>(cmp: Comparison<T>, s: seq<T>, lo: int, p: int, up: int)
    requires StrictWeak(cmp) && 0 <= lo && p == lo + 1 && up == lo + 2 < |s|
    requires Leq(cmp, s[lo], s[p]) && Leq(cmp, s[p], s[up])
    ensures Sorted(cmp, s, lo, up)
  {
    LeqTrans(cmp, s[lo], s[p], s[up]);
  }

  lemma AllBut<T(!new)>(cmp: Comparison<T>, s: seq<T>, lo: int, up: int)
    requires 0 <= lo && up < |s|
    ensures SortedBut(cmp, s, lo, up, lo, up)
  {
  }

  lemma ButNothing<T(!new)>(cmp: Comparison<T>, s: seq<T>, lo: int, up: int, l: int, u: int)
    requires 0 <= lo && up < |s| && SortedBut(cmp, s, lo, up, l, u) && l >= u
    ensures Sorted(cmp, s, lo, up)
  {
  }

  lemma SortedInside<T(!new)>(cmp: Comparison<T>, s: seq<T>, lo: int, up: int, l: int, u: int)
    requires 0 <= lo <= l <= u <= up < |s| && SortedBut(cmp, s, lo, up, l, u) && Sorted(cmp, s, l, u)
    ensures Sorted(cmp, s, lo, up)
  {
  }

  /** After the left part of a split is sorted, only the right part is open. */
  lemma LeftDone<T(!new)>(cmp: Comparison<T>, s: seq<T>, t: seq<T>, lo: int, up: int, l: int, p: int, u: int)
    requires StrictWeak(cmp) && 0 <= lo <= l < p < u <= up < |s| && Perm(s, t, l, p - 1)
    requires SortedBut(cmp, s, lo, up, l, u) && AllLeq(cmp, s, l, p, s[p]) && AllGeq(cmp, s, p, u, s[p])
    requires Sorted(cmp, t, l, p - 1)
    ensures SortedBut(cmp, t, lo, up, p + 1, u)
  {
    hide StrictWeak, Perm, Leq;
    PermWiden(s, t, l, p - 1, l, u);
    SortedButPerm(cmp, s, t, lo, up, l, u);
    PermBounds(cmp, s, t, l, p - 1, s[p]);
    forall i, j | lo <= i < j <= up && (i < p + 1 || j > u) ensures Leq(cmp, t[i], t[j]) {
      if l <= i && j <= u && p <= j {
        PermOutside(s, t, l, p - 1, j);
        PermOutside(s, t, l, p - 1, p);
        assert Leq(cmp, s[p], s[j]);
        assert Leq(cmp, t[i], s[p]);
        LeqTrans(cmp, t[i], s[p], t[j]);
      }
    }
  }

  lemma RightDone<T(!new)>(cmp: Comparison<T>, s: seq<T>, t: seq<T>, lo: int, up: int, l: int, p: int, u: int)
    requires StrictWeak(cmp) && 0 <= lo <= l < p < u <= up < |s| && Perm(s, t, p + 1, u)
    requires SortedBut(cmp, s, lo, up, l, u) && AllLeq(cmp, s, l, p, s[p]) && AllGeq(cmp, s, p, u, s[p])
    requires Sorted(cmp, t, p + 1, u)
    ensures SortedBut(cmp, t, lo, up, l, p - 1)
  {
    hide StrictWeak, Perm, Leq;
    PermWiden(s, t, p + 1, u, l, u);
    SortedButPerm(cmp, s, t, lo, up, l, u);
    PermBounds(cmp, s, t, p + 1, u, s[p]);
    forall i, j | lo <= i < j <= up && (i < l || j > p - 1) ensures Leq(cmp, t[i], t[j]) {
      if l <= i <= p && j <= u {
        PermOutside(s, t, p + 1, u, i);
        PermOutside(s, t, p + 1, u, p);
        assert Leq(cmp, s[i], s[p]);
        assert Leq(cmp, s[p], t[j]);
        LeqTrans(cmp, t[i], s[p], t[j]);
      }
    }
  }

  /** The bounds of the side of a split that is sorted first. */
  function Part(lo: int, p: int, up: int, left: bool): (int, int) {
    if left then (lo, p - 1) else (p + 1, up)
  }

  lemma PartPerm<T>(s: seq<T>, t: seq<T>, lo: int, up: int, l: int, p: int, u: int, left: bool)
    requires 0 <= lo <= l < p < u <= up < |s| && Perm(s, t, Part(l, p, u, left).0, Part(l, p, u, left).1)
    ensures Perm(s, t, lo, up)
  {
    PermWiden(s, t, Part(l, p, u, left).0, Part(l, p, u, left).1, lo, up);
  }

  lemma PartDone<T(!new)>(cmp: Comparison<T>, s: seq<T>, t: seq<T>, lo: int, up: int, l: int, p: int, u: int,
                          left: bool)
    requires StrictWeak(cmp) && 0 <= lo <= l < p < u <= up < |s|
    requires Perm(s, t, Part(l, p, u, left).0, Part(l, p, u, left).1)
    requires SortedBut(cmp, s, lo, up, l, u) && AllLeq(cmp, s, l, p, s[p]) && AllGeq(cmp, s, p, u, s[p])
    requires |t| == |s| && Sorted(cmp, t, Part(l, p, u, left).0, Part(l, p, u, left).1)
    ensures if left then SortedBut(cmp, t, lo, up, p + 1, u) else SortedBut(cmp, t, lo, up, l, p - 1)
  {
    if left { LeftDone(cmp, s, t, lo, up, l, p, u); } else { RightDone(cmp, s, t, lo, up, l, p, u); }
  }

  // ---------------------------------------------------------------- depth

  /** Halvings until nothing is left: the number of bits of n. */
  function Levels(n: nat): (d: nat) {
    if n == 0 then 0 else 1 + Levels(n / 2)
  }

  lemma {:induction false} LevelsMonotone(n: nat, m: nat)
    requires n <= m
    ensures Levels(n) <= Levels(m)
  {
    if n > 0 { LevelsMonotone(n / 2, m / 2); }
  }

  /** A part of at most half the length costs one level less. */
  lemma LevelsStep(n: nat, m: nat)
    requires n > 0 && m <= n / 2
    ensures 1 + Levels(m) <= Levels(n)
  {
    LevelsMonotone(m, n / 2);
  }

  function Pow2(n: nat): (r: nat)
    ensures r > 0
  {
    if n == 0 then 1 else 2 * Pow2(n - 1)
  }

  lemma Pow31()
    ensures Pow2(31) == 0x8000_0000
  {
    assert Pow2(8) == 0x100;
    assert Pow2(16) == 0x1_0000;
    assert Pow2(24) == 0x100_0000;
  }

  /** Levels is the logarithm: n elements fit d levels iff n is below 2^d. */
  lemma {:induction false} LevelsIsLog(n: nat, d: nat)
    ensures Levels(n) <= d <==> n < Pow2(d)
    decreases d
  {
    if d > 0 && n > 0 { LevelsIsLog(n / 2, d - 1); }
  }

  // ---------------------------------------------------------------- sorting

  class Sorter<T(==,!new)> {
    const table: array<T>
    const cmp: Comparison<T>
    var calls: nat

    constructor (table: array<T>, cmp: Comparison<T>)
      ensures this.table == table && this.cmp == cmp
    {
      this.table, this.cmp, calls := table, cmp, 0;
    }

    /** One call of the comparison function on two elements. */
    method Less(i: nat, j: nat) returns (b: bool)
      requires i < table.Length && j < table.Length
      modifies this
      ensures b == cmp(old(calls), table[i], table[j]) && calls == old(calls) + 1
      ensures StrictWeak(cmp) ==> b == !Leq(cmp, table[j], table[i])
    {
      hide StrictWeak;
      CallNumber(cmp, calls, table[i], table[j]);
      b := cmp(calls, table[i], table[j]);
      calls := calls + 1;
    }

    method Swap(i: nat, j: nat, ghost lo: nat, ghost up: nat)
      requires lo <= i <= up < table.Length && lo <= j <= up
      modifies table
      ensures table[..] == old(table[..])[i := old(table[j])][j := old(table[i])]
      ensures Perm(old(table[..]), table[..], lo, up)
    {
      PermSwap(table[..], i, j, lo, up);
      table[i], table[j] := table[j], table[i];
      assert table[..] == old(table[..])[i := old(table[j])][j := old(table[i])];
    }

    /** Splits lo..up around the pivot stored at up - 1. Whatever the
        comparison answers, only lo..up is rearranged; for a strict weak order
        (with the sentinels in place) there is no error and a proper split; one
        that always says yes is an error. */
    method Partition(lo: nat, up: nat) returns (status: Status, p: nat)
      requires lo + 2 < up < table.Length
      modifies this, table
      ensures Perm(old(table[..]), table[..], lo, up)
      ensures status != TooBig && (status == Fine ==> lo < p < up)
      ensures AlwaysTrue(cmp) ==> status == InvalidOrder
      ensures StrictWeak(cmp) && old(Leq(cmp, table[lo], table[up - 1]) && Leq(cmp, table[up - 1], table[up])) ==>
        status == Fine && AllLeq(cmp, table[..], lo, p, table[p]) && AllGeq(cmp, table[..], p, up, table[p])
    {
      hide StrictWeak, Leq, Perm, AllLeq, AllGeq;
      ghost var ok := StrictWeak(cmp) && Leq(cmp, table[lo], table[up - 1]) && Leq(cmp, table[up - 1], table[up]);
      ghost var pivot := table[up - 1];
      var i: nat, j: nat := lo, up - 1;
      PermRefl(table[..], lo, up);
      if ok { SplitStarts(cmp, table[..], lo, up); }
      while true
        invariant lo <= i <= j <= up - 1 && i < up - 1 && lo < j
        invariant AlwaysTrue(cmp) ==> i == lo
        invariant Perm(old(table[..]), table[..], lo, up) && table[up - 1] == pivot
        invariant ok ==> AllLeq(cmp, table[..], lo, i, pivot) && AllGeq(cmp, table[..], j, up, pivot)
        decreases j - i
      {
        ghost var before := table[..];
        status, i := ScanUp(lo, i, up, ok);
        assert table[..] == before;
        if status != Fine { return status, 0; }
        assert !AlwaysTrue(cmp);
        status, j := ScanDown(lo, i, j, up, ok);
        assert table[..] == before;
        if status != Fine { return status, 0; }
        if j < i {
          PlacePivot(lo, up, i, j, ok);
          PermTrans(old(table[..]), before, table[..], lo, up);
          return Fine, i;
        }
        Exchange(lo, up, i, j, ok);
        PermTrans(old(table[..]), before, table[..], lo, up);
      }
    }

    /** A large element on the left changes places with a small one on the right. */
    method Exchange(lo: nat, up: nat, i: nat, j: nat, ghost ok: bool)
      requires lo < i <= j < up - 1 && up < table.Length
      requires ok ==> AllLeq(cmp, table[..], lo, i - 1, table[up - 1]) && Leq(cmp, table[j], table[up - 1])
      requires ok ==> AllGeq(cmp, table[..], j + 1, up, table[up - 1]) && Leq(cmp, table[up - 1], table[i])
      modifies table
      ensures Perm(old(table[..]), table[..], lo, up) && table[up - 1] == old(table[up - 1])
      ensures ok ==> AllLeq(cmp, table[..], lo, i, table[up - 1]) && AllGeq(cmp, table[..], j, up, table[up - 1])
    {
      hide Leq, Perm, AllLeq, AllGeq;
      if ok { SplitGrows(cmp, table[..], lo, up, i, j); }
      Swap(i, j, lo, up);
    }

    /** The pivot goes between the two sides. */
    method PlacePivot(lo: nat, up: nat, i: nat, j: nat, ghost ok: bool)
      requires lo <= j < i <= up - 1 && up < table.Length
      requires ok ==>
        && StrictWeak(cmp) && AllLeq(cmp, table[..], lo, i - 1, table[up - 1])
        && AllGeq(cmp, table[..], j + 1, up, table[up - 1])
      modifies table
      ensures Perm(old(table[..]), table[..], lo, up)
      ensures ok ==> AllLeq(cmp, table[..], lo, i, table[i]) && AllGeq(cmp, table[..], i, up, table[i])
    {
      hide StrictWeak, Leq, Perm, AllLeq, AllGeq;
      if ok { SplitEnds(cmp, table[..], lo, up, i, j); }
      Swap(up - 1, i, lo, up);
    }

    /** Moves i up to the first element that the comparison does not put below
        the pivot; it is an error if it puts all up to the pivot itself there. */
    method ScanUp(lo: nat, from: nat, up: nat, ghost ok: bool) returns (status: Status, i: nat)
      requires lo <= from < up - 1 && up < table.Length
      requires ok ==> StrictWeak(cmp) && AllLeq(cmp, table[..], lo, from, table[up - 1])
      modifies this
      ensures status != TooBig && from < i <= up - 1 && calls == old(calls) + (i - from)
      ensures forall k :: from < k < i ==> cmp(old(calls) + (k - from - 1), table[k], table[up - 1])
      ensures status == Fine <==> !cmp(old(calls) + (i - from - 1), table[i], table[up - 1])
      ensures status == InvalidOrder ==> i == up - 1
      ensures ok ==>
        status == Fine && AllLeq(cmp, table[..], lo, i - 1, table[up - 1]) && Leq(cmp, table[up - 1], table[i])
    {
      i := from + 1;
      while true
        invariant from < i <= up - 1 && calls == old(calls) + (i - from - 1)
        invariant forall k :: from < k < i ==> cmp(old(calls) + (k - from - 1), table[k], table[up - 1])
        invariant ok ==> AllLeq(cmp, table[..], lo, i - 1, table[up - 1])
        decreases up - i
      {
        var below := Less(i, up - 1);
        if !below { return Fine, i; }
        if i == up - 1 { return InvalidOrder, i; }
        i := i + 1;
      }
    }

    /** Moves j down to the first element that the comparison does not put above
        the pivot; it is an error if it puts one there that was passed from the
        left. */
    method ScanDown(lo: nat, i: nat, from: nat, up: nat, ghost ok: bool) returns (status: Status, j: nat)
      requires lo < i <= up - 1 && lo < from <= up - 1 && up < table.Length
      requires ok ==> StrictWeak(cmp) && AllLeq(cmp, table[..], lo, i - 1, table[up - 1])
      requires ok ==> AllGeq(cmp, table[..], from, up, table[up - 1])
      modifies this
      ensures status != TooBig && lo <= j < from && calls == old(calls) + (from - j)
      ensures forall k :: j < k < from ==> cmp(old(calls) + (from - 1 - k), table[up - 1], table[k])
      ensures j + 1 == from || i <= j + 1
      ensures status == Fine <==> !cmp(old(calls) + (from - 1 - j), table[up - 1], table[j])
      ensures status == InvalidOrder ==> j < i
      ensures ok ==>
        status == Fine && Leq(cmp, table[j], table[up - 1]) && AllGeq(cmp, table[..], j + 1, up, table[up - 1])
    {
      j := from - 1;
      while true
        invariant lo <= j < from && calls == old(calls) + (from - 1 - j)
        invariant forall k :: j < k < from ==> cmp(old(calls) + (from - 1 - k), table[up - 1], table[k])
        invariant j + 1 == from || i <= j + 1
        invariant ok ==> AllGeq(cmp, table[..], j + 1, up, table[up - 1])
        decreases j
      {
        var above := Less(up - 1, j);
        if !above { return Fine, j; }
        if j < i { return InvalidOrder, j; }
        j := j - 1;
      }
    }

    /** A pivot position for large ranges, away from both ends. */
    method ChoosePivot(lo: nat, up: nat, rnd: nat) returns (p: nat)
      requires up >= lo + 100
      ensures lo < p < up
      ensures var quarter := (up - lo) / 4; lo + quarter <= p < lo + 3 * quarter
    {
      var r4 := (up - lo) / 4;
      p := rnd % (r4 * 2) + (lo + r4);
    }

    method OrderEnds(lo: nat, up: nat)
      requires lo < up < table.Length
      modifies this, table
      ensures Perm(old(table[..]), table[..], lo, up)
      ensures StrictWeak(cmp) ==> Leq(cmp, table[lo], table[up])
    {
      hide StrictWeak, Perm;
      PermRefl(table[..], lo, up);
      if StrictWeak(cmp) { LeqTotal(cmp, table[lo], table[up]); }
      var swap := Less(up, lo);
      if swap { Swap(lo, up, lo, up); }
    }

    method OrderMiddle(lo: nat, p: nat, up: nat)
      requires lo < p < up < table.Length
      modifies this, table
      ensures Perm(old(table[..]), table[..], lo, up)
      ensures StrictWeak(cmp) && old(Leq(cmp, table[lo], table[up])) ==>
        Leq(cmp, table[lo], table[p]) && Leq(cmp, table[p], table[up])
    {
      hide StrictWeak, Perm, Leq;
      PermRefl(table[..], lo, up);
      if StrictWeak(cmp) {
        LeqTotal(cmp, table[lo], table[p]);
        LeqTotal(cmp, table[p], table[up]);
      }
      var low := Less(p, lo);
      if low {
        Swap(p, lo, lo, up);
      } else {
        var high := Less(up, p);
        if high { Swap(p, up, lo, up); }
      }
    }

    /** One round on lo..up: small ranges are finished, larger ones split. */
    method Round(lo: nat, up: nat, rnd: nat) returns (status: Status, done: bool, p: nat)
      requires lo < up < table.Length
      modifies this, table
      ensures Perm(old(table[..]), table[..], lo, up)
      ensures status != TooBig && (status == Fine && !done ==> lo < p < up)
      ensures AlwaysTrue(cmp) && up - lo > 2 ==> status == InvalidOrder
      ensures StrictWeak(cmp) ==> status == Fine
      ensures StrictWeak(cmp) && done ==> Sorted(cmp, table[..], lo, up)
      ensures StrictWeak(cmp) && !done ==>
        AllLeq(cmp, table[..], lo, p, table[p]) && AllGeq(cmp, table[..], p, up, table[p])
    {
      hide Perm, StrictWeak, AllLeq, AllGeq, Leq, Sorted;
      OrderEnds(lo, up);
      if up - lo == 1 {
        if StrictWeak(cmp) { SortedPair(cmp, table[..], lo, up); }
        return Fine, true, lo;
      }
      ghost var s1 := table[..];
      if up - lo < 100 || rnd == 0 {
        p := (lo + up) / 2;
      } else {
        p := ChoosePivot(lo, up, rnd);
      }
      OrderMiddle(lo, p, up);
      ghost var s2 := table[..];
      PermTrans(old(table[..]), s1, s2, lo, up);
      if up - lo == 2 {
        if StrictWeak(cmp) { SortedTriple(cmp, table[..], lo, p, up); }
        return Fine, true, p;
      }
      done := false;
      status, p := SplitAround(lo, p, up);
      PermTrans(old(table[..]), s2, table[..], lo, up);
    }

    /** Parks the pivot at up - 1 and splits. */
    method SplitAround(lo: nat, mid: nat, up: nat) returns (status: Status, p: nat)
      requires lo + 2 < up < table.Length && lo < mid < up
      modifies this, table
      ensures Perm(old(table[..]), table[..], lo, up)
      ensures status != TooBig && (status == Fine ==> lo < p < up)
      ensures AlwaysTrue(cmp) ==> status == InvalidOrder
      ensures StrictWeak(cmp) && old(Leq(cmp, table[lo], table[mid]) && Leq(cmp, table[mid], table[up])) ==>
        status == Fine && AllLeq(cmp, table[..], lo, p, table[p]) && AllGeq(cmp, table[..], p, up, table[p])
    {
      hide Perm, StrictWeak, AllLeq, AllGeq, Leq;
      Swap(mid, up - 1, lo, up);
      ghost var s := table[..];
      assert table[up - 1] == old(table[mid]) && table[lo] == old(table[lo]) && table[up] == old(table[up]);
      status, p := Partition(lo, up);
      PermTrans(old(table[..]), s, table[..], lo, up);
    }

    /** Sorts the smaller side of a split. */
    method SortSmaller(lo: nat, p: nat, up: nat, rnd: nat, left: bool) returns (status: Status, ghost d: nat)
      requires lo < p < up < table.Length && left == (p - lo < up - p)
      modifies this, table
      ensures Perm(old(table[..]), table[..], Part(lo, p, up, left).0, Part(lo, p, up, left).1)
      ensures d + 1 <= Levels(up + 1 - lo) && status != TooBig
      ensures StrictWeak(cmp) ==>
        status == Fine && Sorted(cmp, table[..], Part(lo, p, up, left).0, Part(lo, p, up, left).1)
      decreases up - lo, 0
    {
      hide Perm, StrictWeak, Sorted, Levels;
      if left {
        status, d := AuxSort(lo, p - 1, rnd);
        LevelsStep(up + 1 - lo, p - lo);
      } else {
        status, d := AuxSort(p + 1, up, rnd);
        LevelsStep(up + 1 - lo, up - p);
      }
    }

    /** Sorts lo..up. Only that stretch is rearranged, and nested calls stay
        within the number of bits of its length, whatever the comparison
        answers; for a strict weak order there is no error and the result is
        sorted; one that always says yes is an error from four elements on. */
    method AuxSort(from: nat, to: nat, seed: nat) returns (status: Status, ghost depth: nat)
      requires from <= to < table.Length
      modifies this, table
      ensures Perm(old(table[..]), table[..], from, to)
      ensures 1 <= depth <= Levels(to + 1 - from)
      ensures status != TooBig
      ensures AlwaysTrue(cmp) && to - from >= 3 ==> status == InvalidOrder
      ensures StrictWeak(cmp) ==> status == Fine && Sorted(cmp, table[..], from, to)
      decreases if from <= to then to - from else 0, 1
    {
      hide Perm, StrictWeak, AllLeq, AllGeq, Sorted, SortedBut, Levels;
      var lo, up, rnd := from, to, seed;
      depth := 1;
      LevelsStep(to + 1 - from, 0);
      PermRefl(table[..], from, to);
      if StrictWeak(cmp) { AllBut(cmp, table[..], from, to); }
      while lo < up
        invariant from <= lo <= up + 1 && up <= to
        invariant 1 <= depth <= Levels(to + 1 - from)
        invariant AlwaysTrue(cmp) && to - from >= 3 ==> lo == from && up == to
        invariant Perm(old(table[..]), table[..], from, to)
        invariant StrictWeak(cmp) ==> SortedBut(cmp, table[..], from, to, lo, up)
        decreases up - lo
      {
        ghost var s0 := table[..];
        var done, p;
        status, done, p := Round(lo, up, rnd);
        ghost var s1 := table[..];
        PermWiden(s0, s1, lo, up, from, to);
        PermTrans(old(table[..]), s0, s1, from, to);
        if status != Fine { return; }
        if StrictWeak(cmp) { SortedButPerm(cmp, s0, s1, from, to, lo, up); }
        if done {
          if StrictWeak(cmp) { SortedInside(cmp, s1, from, to, lo, up); }
          return;
        }
        var left := p - lo < up - p;
        ghost var d: nat;
        status, d := SortSmaller(lo, p, up, rnd, left);
        LevelsMonotone(up + 1 - lo, to + 1 - from);
        depth := if depth > d + 1 then depth else d + 1;
        ghost var s2 := table[..];
        PartPerm(s1, s2, from, to, lo, p, up, left);
        PermTrans(old(table[..]), s1, s2, from, to);
        if status != Fine { return; }
        if StrictWeak(cmp) { PartDone(cmp, s1, s2, from, to, lo, p, up, left); }
        var n := if left then p - lo else up - p;
        if left { lo := p + 1; } else { up := p - 1; }
        if (up - lo) / 128 > n {
          rnd := *;
        }
      }
      status := Fine;
      if StrictWeak(cmp) { ButNothing(cmp, table[..], from, to, lo, up); }
    }

    /** table.sort on elements 1..n (cell 0 is not part of the list): at most 31
        nested calls for every list that is not rejected as too big. */
    method TabSort() returns (status: Status, ghost depth: nat)
      requires table.Length > 0
      modifies this, table
      ensures Perm(old(table[..]), table[..], 1, table.Length - 1)
      ensures depth <= 31
      ensures status == TooBig <==> table.Length - 1 >= INT_MAX
      ensures StrictWeak(cmp) && status != TooBig ==> status == Fine && Sorted(cmp, table[..], 1, table.Length - 1)
      ensures AlwaysTrue(cmp) && 4 <= table.Length - 1 < INT_MAX ==> status == InvalidOrder
    {
      hide StrictWeak;
      PermRefl(table[..], 1, table.Length - 1);
      status, depth := Fine, 0;
      var n := table.Length - 1;
      if n > 1 {
        if n >= INT_MAX { return TooBig, 0; }
        status, depth := AuxSort(1, n, 0);
        Pow31();
        LevelsIsLog(n, 31);
      }
    }
  }
}
