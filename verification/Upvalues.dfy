/** Open and closed upvalues, the per-thread list of open ones, and closures
    reused from a prototype's cache. Objects are named by numbers. */
module Upvalues {
  import opened Common

  datatype Value = Nil | Other(id: int)

  datatype UpVal = UpVal(open: bool, thread: nat, index: int, closed: Value, next: Option<nat>)
  datatype Thread = Thread(stack: seq<Value>, head: Option<nat>)

  // ------------------------------------------------------------- open lists

  /** `head` starts a list that runs through exactly s. */
  ghost predicate Chain(m: map<nat, UpVal>, head: Option<nat>, s: seq<nat>)
    decreases |s|
  {
    if s == [] then head == None
    else head == Some(s[0]) && s[0] in m && Chain(m, m[s[0]].next, s[1..])
  }

  /** The members are open upvalues of thread t, inside its stack, no two of
      them for the same slot. */
  ghost predicate Members(m: map<nat, UpVal>, t: nat, size: nat, s: seq<nat>) {
    && (forall i :: 0 <= i < |s| ==> s[i] in m && m[s[i]].open && m[s[i]].thread == t && 0 <= m[s[i]].index < size)
    && (forall i, j :: 0 <= i < j < |s| ==> m[s[i]].index != m[s[j]].index)
  }

  lemma {:induction false} ChainFrame(m: map<nat, UpVal>, n: map<nat, UpVal>, head: Option<nat>, s: seq<nat>)
    requires Chain(m, head, s)
    requires forall i :: 0 <= i < |s| && s[i] in m ==> s[i] in n && n[s[i]].next == m[s[i]].next
    ensures Chain(n, head, s)
    decreases |s|
  {
    if s != [] { ChainFrame(m, n, m[s[0]].next, s[1..]); }
  }

  // -------------------------------------------------------------- whole runs

  /** Every thread's list is well formed and holds all its open upvalues. */
  ghost predicate Sound(m: map<nat, UpVal>, threads: map<nat, Thread>, opens: map<nat, seq<nat>>) {
    && opens.Keys == threads.Keys
    && (forall t :: t in threads ==> Chain(m, threads[t].head, opens[t]) && Members(m, t, |threads[t].stack|, opens[t]))
    && (forall u :: u in m && m[u].open ==> Listed(m[u].thread, u, opens))
  }

  ghost predicate Listed(t: nat, u: nat, opens: map<nat, seq<nat>>) {
    t in opens && exists i :: 0 <= i < |opens[t]| && opens[t][i] == u
  }

  /** What reading through an upvalue gives. */
  function Seen(m: map<nat, UpVal>, threads: map<nat, Thread>, u: nat): Value
    requires u in m
  {
    if !m[u].open then m[u].closed
    else if m[u].thread in threads
      && 0 <= m[u].index < |threads[m[u].thread].stack| then threads[m[u].thread].stack[m[u].index]
    else Nil
  }

  /** In every sound state a slot has at most one open upvalue. */
  lemma OnePerSlot(m: map<nat, UpVal>, threads: map<nat, Thread>, opens: map<nat, seq<nat>>, u: nat, v: nat)
    requires Sound(m, threads, opens) && u in m && v in m && m[u].open && m[v].open
    requires m[u].thread == m[v].thread && m[u].index == m[v].index
    ensures u == v
  {
    var t := m[u].thread;
    assert Listed(t, u, opens) && Listed(t, v, opens);
    var i :| 0 <= i < |opens[t]| && opens[t][i] == u;
    var j :| 0 <= j < |opens[t]| && opens[t][j] == v;
    assert Members(m, t, |threads[t].stack|, opens[t]);
  }

  lemma InsideStack(m: map<nat, UpVal>, threads: map<nat, Thread>, opens: map<nat, seq<nat>>, u: nat)
    requires Sound(m, threads, opens) && u in m && m[u].open
    ensures m[u].thread in threads && 0 <= m[u].index < |threads[m[u].thread].stack|
  {
    assert Listed(m[u].thread, u, opens);
  }

  /** Stack writes that keep the sizes, or grow them, keep the lists. */
  lemma StackFrame(m: map<nat, UpVal>, threads: map<nat, Thread>, opens: map<nat, seq<nat>>, t: nat, stack: seq<Value>)
    requires Sound(m, threads, opens) && t in threads && |stack| >= |threads[t].stack|
    ensures Sound(m, threads[t := threads[t].(stack := stack)], opens)
  {
    hide Chain, Listed, Members;
    MembersRoom(m, t, |threads[t].stack|, |stack|, opens[t]);
  }

  lemma MembersRoom(m: map<nat, UpVal>, t: nat, size: nat, more: nat, s: seq<nat>)
    requires Members(m, t, size, s) && size <= more
    ensures Members(m, t, more, s)
  {
  }

  // ------------------------------------------------- adding an open upvalue

  lemma Added(m: map<nat, UpVal>, threads: map<nat, Thread>, opens: map<nat, seq<nat>>, t: nat, level: nat, u: nat)
    requires Sound(m, threads, opens) && t in threads && level < |threads[t].stack| && u !in m
    requires forall i :: 0 <= i < |opens[t]| ==> m[opens[t][i]].index != level
    ensures Sound(m[u := UpVal(true, t, level, Nil, threads[t].head)], threads[t := threads[t].(head := Some(u))],
                  opens[t := [u] + opens[t]])
  {
    hide Chain, Members;
    var n := m[u := UpVal(true, t, level, Nil, threads[t].head)];
    var list := [u] + opens[t];
    forall x | x in threads
      ensures Chain(n, threads[x].head, opens[x]) && Members(n, x, |threads[x].stack|, opens[x])
    {
      AddedElsewhere(m, x, |threads[x].stack|, threads[x].head, opens[x], u, n[u]);
    }
    MembersKnown(m, t, |threads[t].stack|, opens[t]);
    AddedHere(n, t, |threads[t].stack|, opens[t], u, threads[t].head);
    var after := opens[t := list];
    forall v | v in n && n[v].open ensures Listed(n[v].thread, v, after) {
      if v == u { assert after[t][0] == u; } else {
        assert forall i :: 0 <= i < |opens[t]| ==> list[i + 1] == opens[t][i];
        ListedStill(opens, t, list, m[v].thread, v);
      }
    }
  }

  lemma MembersKnown(m: map<nat, UpVal>, t: nat, size: nat, s: seq<nat>)
    requires Members(m, t, size, s)
    ensures forall i :: 0 <= i < |s| ==> s[i] in m
  {
  }

  lemma AddedElsewhere(m: map<nat, UpVal>, x: nat, size: nat, head: Option<nat>, s: seq<nat>, u: nat, added: UpVal)
    requires Chain(m, head, s) && Members(m, x, size, s) && u !in m
    ensures Chain(m[u := added], head, s) && Members(m[u := added], x, size, s)
  {
    ChainFrame(m, m[u := added], head, s);
  }

  lemma AddedHere(n: map<nat, UpVal>, t: nat, size: nat, s: seq<nat>, u: nat, head: Option<nat>)
    requires Chain(n, head, s) && Members(n, t, size, s)
    requires u in n && n[u].open && n[u].thread == t && 0 <= n[u].index < size && n[u].next == head
    requires forall i :: 0 <= i < |s| ==> n[s[i]].index != n[u].index
    ensures Chain(n, Some(u), [u] + s) && Members(n, t, size, [u] + s)
  {
    assert ([u] + s)[1..] == s;
  }

  /** A longer list for t still lists what it did. */
  lemma ListedStill(opens: map<nat, seq<nat>>, t: nat, list: seq<nat>, x: nat, v: nat)
    requires Listed(x, v, opens) && t in opens && forall i :: 0 <= i < |opens[t]| && opens[t][i] == v ==>
      exists j :: 0 <= j < |list| && list[j] == v
    ensures Listed(x, v, opens[t := list])
  {
  }

  // ------------------------------------------------------ removing one of them

  /** The list behind its first |a| members. */
  lemma {:induction false} ChainSplit(m: map<nat, UpVal>, head: Option<nat>, a: seq<nat>, b: seq<nat>)
    requires Chain(m, head, a + b)
    ensures forall i :: 0 <= i < |a| ==> a[i] in m
    ensures Chain(m, if a == [] then head else m[a[|a| - 1]].next, b)
    decreases |a|
  {
    if a == [] {
      assert a + b == b;
    } else {
      assert (a + b)[1..] == a[1..] + b;
      ChainSplit(m, m[a[0]].next, a[1..], b);
      assert |a| > 1 ==> a[1..][|a| - 2] == a[|a| - 1];
      forall i | 0 <= i < |a| ensures a[i] in m { if i > 0 { assert a[i] == a[1..][i - 1]; } }
    }
  }

  /** Putting b behind a by redirecting the end of a. */
  lemma {:induction false} ChainJoin(m: map<nat, UpVal>, n: map<nat, UpVal>, head: Option<nat>, a: seq<nat>,
                                     b: seq<nat>, next: Option<nat>)
    requires Chain(n, next, b)
    requires a != [] ==> exists c :: Chain(m, head, a + c)
    requires forall i :: 0 <= i < |a| && a[i] in m ==>
      a[i] in n && n[a[i]].next == if i == |a| - 1 then next else m[a[i]].next
    requires a == [] ==> head == next
    ensures Chain(n, head, a + b)
    decreases |a|
  {
    if a == [] {
      assert a + b == b;
    } else {
      var c :| Chain(m, head, a + c);
      assert (a + c)[1..] == a[1..] + c && (a + b)[1..] == a[1..] + b;
      if |a| > 1 {
        ChainJoin(m, n, m[a[0]].next, a[1..], b, next);
      } else {
        assert a[1..] + b == b;
      }
    }
  }

  /** An upvalue closed on value v. */
  function Shut(u: UpVal, v: Value): UpVal { UpVal(false, 0, -1, v, u.next) }

  /** The store after unlinking u from behind the members a and closing it. */
  function Unlinked(m: map<nat, UpVal>, a: seq<nat>, u: nat, v: Value): map<nat, UpVal>
    requires u in m && (a != [] ==> a[|a| - 1] in m)
  {
    var n := m[u := Shut(m[u], v)];
    if a == [] then n else n[a[|a| - 1] := n[a[|a| - 1]].(next := m[u].next)]
  }

  lemma MembersDistinct(m: map<nat, UpVal>, t: nat, size: nat, s: seq<nat>)
    requires Members(m, t, size, s)
    ensures forall i, j :: 0 <= i < j < |s| ==> s[i] != s[j]
  {
  }

  lemma UnlinkedChain(m: map<nat, UpVal>, head: Option<nat>, a: seq<nat>, u: nat, b: seq<nat>, v: Value)
    requires Chain(m, head, a + [u] + b) && forall i, j :: 0 <= i < j < |a + [u] + b| ==>
      (a + [u] + b)[i] != (a + [u] + b)[j]
    ensures u in m && (a != [] ==> a[|a| - 1] in m)
    ensures Chain(Unlinked(m, a, u, v), if a == [] then m[u].next else head, a + b)
  {
    assert a + [u] + b == a + ([u] + b);
    ChainSplit(m, head, a, [u] + b);
    assert ([u] + b)[1..] == b;
    var n := Unlinked(m, a, u, v);
    var s := a + [u] + b;
    forall i | 0 <= i < |b| ensures b[i] != u && (a != [] ==> b[i] != a[|a| - 1]) {
      assert s[|a| + 1 + i] == b[i] && s[|a|] == u;
      if a != [] { assert s[|a| - 1] == a[|a| - 1]; }
    }
    ChainFrame(m, n, m[u].next, b);
    forall i | 0 <= i < |a| ensures a[i] != u && (i < |a| - 1 ==> a[i] != a[|a| - 1]) {
      assert s[i] == a[i] && s[|a|] == u && s[|a| - 1] == a[|a| - 1];
    }
    ChainJoin(m, n, if a == [] then m[u].next else head, a, b, m[u].next);
  }

  lemma UnlinkedSound(m: map<nat, UpVal>, threads: map<nat, Thread>, opens: map<nat, seq<nat>>, t: nat, a: seq<nat>,
                      u: nat, b: seq<nat>, v: Value)
    requires Sound(m, threads, opens) && t in threads && opens[t] == a + [u] + b
    ensures u in m && (a != [] ==> a[|a| - 1] in m)
    ensures Sound(Unlinked(m, a, u, v), if a == [] then threads[t := threads[t].(head := m[u].next)] else threads,
                  opens[t := a + b])
  {
    hide Chain, Members;
    MembersDistinct(m, t, |threads[t].stack|, opens[t]);
    UnlinkedChain(m, threads[t].head, a, u, b, v);
    var n, after := Unlinked(m, a, u, v), opens[t := a + b];
    forall x | x in threads && x != t
      ensures Chain(n, threads[x].head, opens[x]) && Members(n, x, |threads[x].stack|, opens[x])
    {
      OtherList(m, threads, opens, t, x, a, u, b, v);
    }
    UnlinkedMembers(m, t, |threads[t].stack|, a, u, b, v);
    forall w | w in n && n[w].open ensures Listed(n[w].thread, w, after) {
      assert w != u && Listed(m[w].thread, w, opens);
      forall i | 0 <= i < |opens[t]| && opens[t][i] == w ensures exists j :: 0 <= j < |a + b| && (a + b)[j] == w {
        assert (a + b)[if i < |a| then i else i - 1] == w;
      }
      ListedStill(opens, t, a + b, m[w].thread, w);
    }
  }

  lemma UnlinkedMembers(m: map<nat, UpVal>, t: nat, size: nat, a: seq<nat>, u: nat, b: seq<nat>, v: Value)
    requires Members(m, t, size, a + [u] + b) && u in m && (a != [] ==> a[|a| - 1] in m)
    ensures Members(Unlinked(m, a, u, v), t, size, a + b)
  {
    var s, r, n := a + [u] + b, a + b, Unlinked(m, a, u, v);
    forall i | 0 <= i < |r|
      ensures r[i] == s[if i < |a| then i else i + 1] && r[i] != u && r[i] in n
        && n[r[i]].open && n[r[i]].thread == t && n[r[i]].index == m[r[i]].index
    {
      assert s[|a|] == u;
    }
  }

  /** Lists of other threads do not contain the upvalues touched. */
  lemma OtherList(m: map<nat, UpVal>, threads: map<nat, Thread>, opens: map<nat, seq<nat>>, t: nat, x: nat,
                  a: seq<nat>, u: nat, b: seq<nat>, v: Value)
    requires Sound(m, threads, opens) && t in threads && x in threads && x != t && opens[t] == a + [u] + b
    requires u in m && (a != [] ==> a[|a| - 1] in m)
    ensures Chain(Unlinked(m, a, u, v), threads[x].head, opens[x])
    ensures Members(Unlinked(m, a, u, v), x, |threads[x].stack|, opens[x])
  {
    hide Chain;
    var n := Unlinked(m, a, u, v);
    assert opens[t][|a|] == u;
    if a != [] { assert opens[t][|a| - 1] == a[|a| - 1]; }
    forall i | 0 <= i < |opens[x]| ensures opens[x][i] in n && n[opens[x][i]] == m[opens[x][i]] {
    }
    ChainFrame(m, n, threads[x].head, opens[x]);
  }

  // ------------------------------------------------------------------ closures

  datatype UpvalDesc = UpvalDesc(instack: bool, idx: nat)
  /** A closure may lack upvalues: one made by loading a dumped function has only its first. */
  datatype Closure = Closure(proto: nat, upvals: seq<Option<nat>>)

  /** The upvalues a closure over `descs` must have when made in the frame at
      `base` of thread t by a closure with upvalues `parent`: the open one of
      the slot, or the parent's. */
  ghost predicate Captures(m: map<nat, UpVal>, descs: seq<UpvalDesc>, t: nat, base: nat, parent: seq<Option<nat>>,
                           us: seq<Option<nat>>) {
    |us| == |descs| && forall i :: 0 <= i < |descs| ==> CapturesOne(m, descs[i], t, base, parent, us[i])
  }

  ghost predicate CapturesOne(m: map<nat, UpVal>, d: UpvalDesc, t: nat, base: nat, parent: seq<Option<nat>>,
                              u: Option<nat>) {
    && u.Some?
    && if d.instack then u.value in m && m[u.value].open && m[u.value].thread == t && m[u.value].index == base + d.idx
       else d.idx < |parent| && u == parent[d.idx]
  }

  /** The enclosing closure lacks the upvalue that d asks it for. */
  predicate Lacking(d: UpvalDesc, parent: seq<Option<nat>>) {
    !d.instack && (d.idx >= |parent| || parent[d.idx].None?)
  }

  /** These are unique: a reused closure has exactly the upvalues that a fresh
      one would get. */
  lemma CapturesUnique(m: map<nat, UpVal>, threads: map<nat, Thread>, opens: map<nat, seq<nat>>,
                       descs: seq<UpvalDesc>, t: nat, base: nat, parent: seq<Option<nat>>,
                       us: seq<Option<nat>>, vs: seq<Option<nat>>)
    requires Sound(m, threads, opens)
    requires Captures(m, descs, t, base, parent, us) && Captures(m, descs, t, base, parent, vs)
    ensures us == vs
  {
    hide Sound;
    forall i | 0 <= i < |descs| ensures us[i] == vs[i] {
      assert CapturesOne(m, descs[i], t, base, parent, us[i]) && CapturesOne(m, descs[i], t, base, parent, vs[i]);
      if descs[i].instack { OnePerSlot(m, threads, opens, us[i].value, vs[i].value); }
    }
  }

  class State {
    var upvals: map<nat, UpVal>
    var threads: map<nat, Thread>
    var closures: map<nat, Closure>
    var cache: map<nat, nat>
    var nextId: nat
    ghost var opens: map<nat, seq<nat>>

    ghost predicate Valid()
      reads this
    {
      && Sound(upvals, threads, opens)
      && (forall u :: u in upvals ==> u < nextId)
      && (forall c :: c in closures ==> c < nextId)
      && (forall p :: p in cache ==> cache[p] in closures)
    }

    constructor ()
      ensures Valid() && upvals == map[] && threads == map[] && closures == map[] && cache == map[]
    {
      upvals, threads, closures, cache, nextId, opens := map[], map[], map[], map[], 0, map[];
    }

    method NewThread(t: nat, stack: seq<Value>)
      requires Valid() && t !in threads
      modifies this`threads, this`opens
      ensures Valid() && threads == old(threads)[t := Thread(stack, None)]
      ensures forall u :: u in upvals ==> Seen(upvals, threads, u) == old(Seen(upvals, threads, u))
    {
      hide Chain, Members;
      forall u | u in upvals && upvals[u].open
        ensures upvals[u].thread != t && Listed(upvals[u].thread, u, opens[t := []])
      {
        assert Listed(upvals[u].thread, u, opens) && t !in opens;
        ListedWith(opens, t, upvals[u].thread, u);
      }
      EmptyList(upvals, t, |stack|);
      threads := threads[t := Thread(stack, None)];
      opens := opens[t := []];
    }

    /** Makes room for n registers; the new ones are nil. */
    method Grow(t: nat, n: nat)
      requires Valid() && t in threads
      modifies this`threads
      ensures Valid() && threads.Keys == old(threads.Keys) && n <= |threads[t].stack|
      ensures threads == old(threads)[t := old(threads)[t].(stack := threads[t].stack)]
      ensures old(threads)[t].stack <= threads[t].stack
      ensures forall i :: |old(threads)[t].stack| <= i < |threads[t].stack| ==> threads[t].stack[i] == Nil
      ensures forall u :: u in upvals ==> Seen(upvals, threads, u) == old(Seen(upvals, threads, u))
    {
      hide Chain, Members;
      var stack := threads[t].stack;
      if n > |stack| {
        stack := stack + seq(n - |stack|, _ => Nil);
        StackFrame(upvals, threads, opens, t, stack);
        forall u | u in upvals && upvals[u].open ensures upvals[u].thread in threads
          && 0 <= upvals[u].index < |threads[upvals[u].thread].stack| {
          InsideStack(upvals, threads, opens, u);
        }
        threads := threads[t := threads[t].(stack := stack)];
      }
    }

    method Get(u: nat) returns (v: Value)
      requires Valid() && u in upvals
      ensures v == Seen(upvals, threads, u)
    {
      InsideStackIfOpen(u);
      if !upvals[u].open { return upvals[u].closed; }
      return threads[upvals[u].thread].stack[upvals[u].index];
    }

    lemma InsideStackIfOpen(u: nat)
      requires Valid() && u in upvals
      ensures upvals[u].open ==> upvals[u].thread in threads && 0 <= upvals[u].index < |threads[upvals[u].thread].stack|
    {
      if upvals[u].open { InsideStack(upvals, threads, opens, u); }
    }

    /** Writing through an upvalue is seen through it and through no other. */
    method Set(u: nat, v: Value)
      requires Valid() && u in upvals
      modifies this`upvals, this`threads
      ensures Valid() && upvals.Keys == old(upvals.Keys) && threads.Keys == old(threads.Keys)
      ensures Seen(upvals, threads, u) == v
      ensures forall w :: w in upvals ==>
        upvals[w].open == old(upvals)[w].open && upvals[w].thread == old(upvals)[w].thread
        && upvals[w].index == old(upvals)[w].index
      ensures forall w :: w in upvals && w != u ==> Seen(upvals, threads, w) == old(Seen(upvals, threads, w))
    {
      hide Chain, Members;
      InsideStackIfOpen(u);
      if upvals[u].open {
        var t, i := upvals[u].thread, upvals[u].index;
        StackFrame(upvals, threads, opens, t, threads[t].stack[i := v]);
        forall w | w in upvals && w != u && upvals[w].open ensures upvals[w].thread != t || upvals[w].index != i {
          if upvals[w].thread == t && upvals[w].index == i { OnePerSlot(upvals, threads, opens, u, w); }
        }
        threads := threads[t := threads[t].(stack := threads[t].stack[i := v])];
      } else {
        ClosedFrame(upvals, threads, opens, u, v);
        upvals := upvals[u := upvals[u].(closed := v)];
      }
    }

    /** The open upvalue of a slot, made on first use. */
    method FindUpval(t: nat, level: nat) returns (u: nat)
      requires Valid() && t in threads && level < |threads[t].stack|
      modifies this`upvals, this`threads, this`opens, this`nextId
      ensures Valid() && u in upvals && upvals[u].open && upvals[u].thread == t && upvals[u].index == level
      ensures forall w :: w in old(upvals) ==>
        w in upvals && upvals[w] == old(upvals)[w] && Seen(upvals, threads, w) == old(Seen(upvals, threads, w))
      ensures threads.Keys == old(threads.Keys) && forall x :: x in threads ==>
        threads[x].stack == old(threads)[x].stack
      ensures u in old(upvals) ==> upvals == old(upvals)
    {
      hide Sound;
      var p := SearchOpen(t, level);
      if p.Some? { return p.value; }
      u := nextId;
      AddedHides(upvals, threads, opens, t);
      Added(upvals, threads, opens, t, level, u);
      upvals := upvals[u := UpVal(true, t, level, Nil, threads[t].head)];
      threads := threads[t := threads[t].(head := Some(u))];
      opens := opens[t := [u] + opens[t]];
      nextId := nextId + 1;
    }

    /** Walks the list of thread t for the slot. */
    method SearchOpen(t: nat, level: nat) returns (p: Option<nat>)
      requires Valid() && t in threads
      ensures t in opens && forall i :: 0 <= i < |opens[t]| ==> opens[t][i] in upvals
      ensures p.Some? ==>
        p.value in upvals && upvals[p.value].open && upvals[p.value].thread == t && upvals[p.value].index == level
      ensures p.None? ==> forall i :: 0 <= i < |opens[t]| ==> upvals[opens[t][i]].index != level
    {
      hide Members;
      p := threads[t].head;
      ghost var list, i := opens[t], 0;
      ListStart(upvals, t, |threads[t].stack|, list, p);
      while p.Some?
        invariant 0 <= i <= |list| && Chain(upvals, p, list[i..])
        invariant forall j :: 0 <= j < i ==> upvals[list[j]].index != level
        decreases |list| - i
      {
        var v := p.value;
        assert list[i] == v;
        if upvals[v].open && upvals[v].thread == t && upvals[v].index == level { return Some(v); }
        MemberIs(upvals, t, |threads[t].stack|, list, i);
        assert list[i..][1..] == list[i + 1..];
        p, i := upvals[v].next, i + 1;
      }
    }

    /** Closes exactly the upvalues of thread t at or above the level, each on
        the value its slot holds; what any upvalue reads does not change. */
    method CloseUpvals(t: nat, level: int)
      requires Valid() && t in threads
      modifies this`upvals, this`threads, this`opens
      ensures Valid() && upvals.Keys == old(upvals.Keys)
      ensures threads.Keys == old(threads.Keys) && forall x :: x in threads ==>
        threads[x].stack == old(threads)[x].stack
      ensures forall u :: u in upvals ==>
        Core(upvals[u]) ==
          if Closing(old(upvals)[u], t, level) then Core(Shut(old(upvals)[u], old(Seen(upvals, threads, u))))
          else Core(old(upvals)[u])
      ensures forall u :: u in upvals ==> Seen(upvals, threads, u) == old(Seen(upvals, threads, u))
    {
      hide Sound, Chain, Progress, SameStacks, Below, Unlinked;
      ghost var m0, threads0 := upvals, threads;
      var prev: Option<nat>, cur := None, threads[t].head;
      SoundKeys(upvals, threads, opens);
      ghost var kept: seq<nat>, rest: seq<nat> := [], opens[t];
      ListAt(upvals, threads, opens, t, kept, rest);
      NothingYet(m0, threads0, t, level);
      while cur.Some?
        invariant Valid() && t in threads && t in opens && opens[t] == kept + rest
        invariant SameStacks(threads0, threads) && Progress(m0, threads0, upvals, t, level)
        invariant Below(upvals, kept, level)
        invariant Chain(upvals, cur, rest) && prev == if kept == [] then None else Some(kept[|kept| - 1])
        decreases |rest|
      {
        var u := cur.value;
        ChainStep(upvals, cur, rest);
        ghost var tail := rest[1..];
        assert opens[t] == kept + [u] + tail;
        ListedIs(upvals, threads, opens, t, |kept|);
        var next := upvals[u].next;
        if upvals[u].open && upvals[u].thread == t && upvals[u].index >= level {
          var v := threads[t].stack[upvals[u].index];
          UnlinkedSound(upvals, threads, opens, t, kept, u, tail, v);
          UnlinkedTail(upvals, kept, u, tail, v, threads, opens, t);
          UnlinkedProgress(m0, threads0, upvals, threads, opens, t, level, kept, u, tail);
          Relinked(upvals, threads, threads0, t, kept, u, v, next);
          upvals := upvals[u := Shut(upvals[u], v)];
          if prev.None? {
            threads := threads[t := threads[t].(head := next)];
          } else {
            upvals := upvals[prev.value := upvals[prev.value].(next := next)];
          }
          opens := opens[t := kept + tail];
        } else {
          BelowMore(upvals, kept, u, level);
          assert kept + [u] + tail == (kept + [u]) + tail;
          kept, prev := kept + [u], cur;
        }
        cur, rest := next, tail;
      }
      ChainEnd(upvals, rest);
      assert kept + [] == kept;
      AllDone(m0, threads0, upvals, threads, opens, t, level);
    }

    /** The CLOSURE instruction: reuses the cached closure of the prototype or
        makes a new one. Either way the result has the upvalues that belong
        there, and nothing any upvalue reads changes. None is the error of a
        missing upvalue in the enclosing function. */
    method MakeClosure(p: nat, descs: seq<UpvalDesc>, t: nat, base: nat, parent: seq<Option<nat>>)
      returns (c: Option<nat>)
      requires Valid() && t in threads
      requires forall i :: 0 <= i < |descs| && descs[i].instack ==> base + descs[i].idx < |threads[t].stack|
      modifies this
      ensures Valid()
      ensures c.Some? ==> c.value in closures && Captures(upvals, descs, t, base, parent, closures[c.value].upvals)
      ensures c.Some? && c.value in old(closures) ==> closures == old(closures) && upvals == old(upvals)
      ensures c.Some? ==> cache == old(cache)[p := c.value]
      ensures p in old(cache) && Captures(old(upvals), descs, t, base, parent, old(closures[cache[p]].upvals)) ==>
        c == Some(old(cache[p]))
      ensures p !in old(cache) || !Captures(old(upvals), descs, t, base, parent, old(closures[cache[p]].upvals)) ==>
        c.None? || c.value !in old(closures)
      ensures c.None? <==> exists i :: 0 <= i < |descs| && Lacking(descs[i], parent)
      ensures forall w :: w in old(upvals) ==>
        w in upvals && upvals[w] == old(upvals)[w] && Seen(upvals, threads, w) == old(Seen(upvals, threads, w))
      ensures threads.Keys == old(threads.Keys) && forall x :: x in threads ==>
        threads[x].stack == old(threads)[x].stack
    {
      hide Sound;
      if p in cache {
        var ok := CacheFits(closures[cache[p]].upvals, descs, t, base, parent);
        if ok { return Some(cache[p]); }
      }
      var us: seq<Option<nat>> := [];
      for i := 0 to |descs|
        invariant Valid() && |us| == i && t in threads && closures == old(closures) && cache == old(cache)
        invariant forall j :: 0 <= j < i ==> CapturesOne(upvals, descs[j], t, base, parent, us[j])
        invariant forall w :: w in old(upvals) ==>
          w in upvals && upvals[w] == old(upvals)[w] && Seen(upvals, threads, w) == old(Seen(upvals, threads, w))
        invariant threads.Keys == old(threads.Keys) && forall x :: x in threads ==>
          threads[x].stack == old(threads)[x].stack
      {
        if descs[i].instack {
          var u := FindUpval(t, base + descs[i].idx);
          us := us + [Some(u)];
        } else {
          if descs[i].idx >= |parent| || parent[descs[i].idx].None? { return None; }
          us := us + [parent[descs[i].idx]];
        }
      }
      var id := nextId;
      closures := closures[id := Closure(p, us)];
      cache := cache[p := id];
      nextId := nextId + 1;
      return Some(id);
    }

    /** The cache test compares every upvalue with the location it should be. */
    method CacheFits(us: seq<Option<nat>>, descs: seq<UpvalDesc>, t: nat, base: nat, parent: seq<Option<nat>>)
      returns (ok: bool)
      ensures ok == Captures(upvals, descs, t, base, parent, us)
    {
      if |us| != |descs| { return false; }
      for i := 0 to |descs|
        invariant forall j :: 0 <= j < i ==> CapturesOne(upvals, descs[j], t, base, parent, us[j])
      {
        if us[i].None? { return false; }
        var d, have := descs[i], us[i].value;
        if d.instack {
          if have !in upvals || !upvals[have].open || upvals[have].thread != t
            || upvals[have].index != base + d.idx { return false; }
        } else {
          if d.idx >= |parent| || us[i] != parent[d.idx] { return false; }
        }
      }
      return true;
    }

    /** A register write by the running function. */
    method WriteSlot(t: nat, i: nat, v: Value)
      requires Valid() && t in threads && i < |threads[t].stack|
      modifies this`threads
      ensures Valid() && threads == old(threads)[t := old(threads)[t].(stack := old(threads)[t].stack[i := v])]
      ensures forall u :: u in upvals ==>
        Seen(upvals, threads, u) ==
          if upvals[u].open && upvals[u].thread == t && upvals[u].index == i then v
          else old(Seen(upvals, threads, u))
    {
      hide Chain, Members;
      StackFrame(upvals, threads, opens, t, threads[t].stack[i := v]);
      forall u | u in upvals && upvals[u].open ensures upvals[u].thread in threads
        && 0 <= upvals[u].index < |threads[upvals[u].thread].stack| {
        InsideStack(upvals, threads, opens, u);
      }
      threads := threads[t := threads[t].(stack := threads[t].stack[i := v])];
    }
  }

  /** An upvalue without its list link. */
  function Core(u: UpVal): UpVal { u.(next := None) }

  predicate Closing(u: UpVal, t: nat, level: int) { u.open && u.thread == t && u.index >= level }

  /** Compared with the start, some of the upvalues to be closed are closed,
      and nothing else has changed but links. */
  ghost predicate Progress(m0: map<nat, UpVal>, threads0: map<nat, Thread>, m: map<nat, UpVal>, t: nat, level: int) {
    m.Keys == m0.Keys && forall u :: u in m ==> Core(m[u]) == Core(m0[u]) || ClosedBy(m0, threads0, m[u], u, t, level)
  }

  /** Upvalue u of the start was to be closed, and `now` is what it is then. */
  predicate ClosedBy(m0: map<nat, UpVal>, threads0: map<nat, Thread>, now: UpVal, u: nat, t: nat, level: int) {
    u in m0 && Closing(m0[u], t, level) && Core(now) == Core(Shut(m0[u], Seen(m0, threads0, u)))
  }

  ghost predicate SameStacks(threads0: map<nat, Thread>, threads: map<nat, Thread>) {
    threads.Keys == threads0.Keys && forall x :: x in threads ==> threads[x].stack == threads0[x].stack
  }

  ghost predicate Below(m: map<nat, UpVal>, s: seq<nat>, level: int) {
    forall i :: 0 <= i < |s| ==> s[i] in m && m[s[i]].index < level
  }

  lemma NothingYet(m: map<nat, UpVal>, threads: map<nat, Thread>, t: nat, level: int)
    ensures Progress(m, threads, m, t, level) && SameStacks(threads, threads) && Below(m, [], level)
  {
  }

  lemma BelowMore(m: map<nat, UpVal>, s: seq<nat>, u: nat, level: int)
    requires Below(m, s, level) && u in m && m[u].index < level
    ensures Below(m, s + [u], level)
  {
  }

  lemma UnlinkedProgress(m0: map<nat, UpVal>, threads0: map<nat, Thread>, m: map<nat, UpVal>, threads: map<nat, Thread>,
                         opens: map<nat, seq<nat>>, t: nat, level: int, a: seq<nat>, u: nat, b: seq<nat>)
    requires Progress(m0, threads0, m, t, level) && SameStacks(threads0, threads) && Below(m, a, level)
    requires u in m && Closing(m[u], t, level) && t in threads && 0 <= m[u].index < |threads[t].stack|
    requires a != [] ==> a[|a| - 1] in m
    ensures var n := Unlinked(m, a, u, threads[t].stack[m[u].index]);
      Progress(m0, threads0, n, t, level) && Below(n, a, level)
  {
    assert Core(m[u]) == Core(m0[u]);
  }

  /** The two assignments of the loop body build the unlinked store. */
  lemma Relinked(m: map<nat, UpVal>, threads: map<nat, Thread>, threads0: map<nat, Thread>, t: nat, a: seq<nat>,
                 u: nat, v: Value, next: Option<nat>)
    requires u in m && m[u].next == next && (a != [] ==> a[|a| - 1] in m) && t in threads
    requires SameStacks(threads0, threads)
    ensures Unlinked(m, a, u, v) == var n := m[u := Shut(m[u], v)]; if a == [] then n
      else n[a[|a| - 1] := n[a[|a| - 1]].(next := next)]
    ensures SameStacks(threads0, threads[t := threads[t].(head := next)])
  {
  }

  lemma AllDone(m0: map<nat, UpVal>, threads0: map<nat, Thread>, m: map<nat, UpVal>, threads: map<nat, Thread>,
                opens: map<nat, seq<nat>>, t: nat, level: int)
    requires Sound(m, threads, opens) && t in opens && Below(m, opens[t], level)
    requires Progress(m0, threads0, m, t, level) && SameStacks(threads0, threads)
    ensures m.Keys == m0.Keys && threads.Keys == threads0.Keys && forall x :: x in threads ==>
      threads[x].stack == threads0[x].stack
    ensures forall u :: u in m ==>
      Core(m[u]) == if Closing(m0[u], t, level) then Core(Shut(m0[u], Seen(m0, threads0, u))) else Core(m0[u])
    ensures forall u :: u in m ==> Seen(m, threads, u) == Seen(m0, threads0, u)
  {
    hide Sound;
    forall u | u in m && Closing(m0[u], t, level) ensures !m[u].open {
      if m[u].open && m[u].thread == t { StillListed(m, threads, opens, u); }
    }
    forall u | u in m ensures Seen(m, threads, u) == Seen(m0, threads0, u) {
      assert Core(m[u]) == if Closing(m0[u], t, level) then Core(Shut(m0[u], Seen(m0, threads0, u))) else Core(m0[u]);
      assert m[u].open == Core(m[u]).open && m[u].thread == Core(m[u]).thread && m[u].index == Core(m[u]).index
        && m[u].closed == Core(m[u]).closed;
    }
  }

  lemma SoundKeys(m: map<nat, UpVal>, threads: map<nat, Thread>, opens: map<nat, seq<nat>>)
    requires Sound(m, threads, opens)
    ensures opens.Keys == threads.Keys
  {
  }

  lemma AddedHides(m: map<nat, UpVal>, threads: map<nat, Thread>, opens: map<nat, seq<nat>>, t: nat)
    requires Sound(m, threads, opens) && t in threads
    ensures t in opens && forall i :: 0 <= i < |opens[t]| ==> opens[t][i] in m
  {
  }

  lemma ListAt(m: map<nat, UpVal>, threads: map<nat, Thread>, opens: map<nat, seq<nat>>, t: nat, kept: seq<nat>,
               rest: seq<nat>)
    requires Sound(m, threads, opens) && t in threads && kept == [] && rest == opens[t]
    ensures opens[t] == kept + rest && Chain(m, threads[t].head, rest)
  {
  }

  lemma ListedIs(m: map<nat, UpVal>, threads: map<nat, Thread>, opens: map<nat, seq<nat>>, t: nat, i: nat)
    requires Sound(m, threads, opens) && t in threads && i < |opens[t]|
    ensures var u := opens[t][i]; u in m && m[u].open && m[u].thread == t && 0 <= m[u].index < |threads[t].stack|
  {
  }

  lemma StillListed(m: map<nat, UpVal>, threads: map<nat, Thread>, opens: map<nat, seq<nat>>, u: nat)
    requires Sound(m, threads, opens) && u in m && m[u].open
    ensures m[u].thread in opens && exists i :: 0 <= i < |opens[m[u].thread]| && opens[m[u].thread][i] == u
  {
    assert Listed(m[u].thread, u, opens);
  }

  lemma ChainStep(m: map<nat, UpVal>, head: Option<nat>, s: seq<nat>)
    requires Chain(m, head, s) && head.Some?
    ensures s != [] && head == Some(s[0]) && s[0] in m && Chain(m, m[s[0]].next, s[1..]) && s == [s[0]] + s[1..]
  {
  }

  lemma ChainEnd(m: map<nat, UpVal>, s: seq<nat>)
    requires Chain(m, None, s)
    ensures s == []
  {
  }

  /** Unlinking does not disturb the part of the list still ahead. */
  lemma UnlinkedTail(m: map<nat, UpVal>, a: seq<nat>, u: nat, b: seq<nat>, v: Value, threads: map<nat, Thread>,
                     opens: map<nat, seq<nat>>, t: nat)
    requires Sound(m, threads, opens) && t in threads && opens[t] == a + [u] + b
    requires u in m && (a != [] ==> a[|a| - 1] in m) && Chain(m, m[u].next, b)
    ensures Chain(Unlinked(m, a, u, v), m[u].next, b)
  {
    hide Chain;
    MembersDistinct(m, t, |threads[t].stack|, opens[t]);
    var s := opens[t];
    forall i | 0 <= i < |b| ensures b[i] != u && (a != [] ==> b[i] != a[|a| - 1]) {
      assert s[|a| + 1 + i] == b[i] && s[|a|] == u;
      if a != [] { assert s[|a| - 1] == a[|a| - 1]; }
    }
    ChainFrame(m, Unlinked(m, a, u, v), m[u].next, b);
  }

  lemma ListedWith(opens: map<nat, seq<nat>>, t: nat, x: nat, u: nat)
    requires Listed(x, u, opens) && t !in opens
    ensures Listed(x, u, opens[t := []])
  {
  }

  lemma EmptyList(m: map<nat, UpVal>, t: nat, size: nat)
    ensures Chain(m, None, []) && Members(m, t, size, [])
  {
  }

  lemma ListStart(m: map<nat, UpVal>, t: nat, size: nat, s: seq<nat>, head: Option<nat>)
    requires Members(m, t, size, s) && Chain(m, head, s)
    ensures Chain(m, head, s[0..]) && forall i :: 0 <= i < |s| ==> s[i] in m
  {
    assert s[0..] == s;
  }

  lemma MemberIs(m: map<nat, UpVal>, t: nat, size: nat, s: seq<nat>, i: nat)
    requires Members(m, t, size, s) && i < |s|
    ensures s[i] in m && m[s[i]].open && m[s[i]].thread == t
  {
  }

  lemma ClosedFrame(m: map<nat, UpVal>, threads: map<nat, Thread>, opens: map<nat, seq<nat>>, u: nat, v: Value)
    requires Sound(m, threads, opens) && u in m && !m[u].open
    ensures Sound(m[u := m[u].(closed := v)], threads, opens)
  {
    var n := m[u := m[u].(closed := v)];
    forall t | t in threads ensures Chain(n, threads[t].head, opens[t]) && Members(n, t, |threads[t].stack|, opens[t]) {
      ChainFrame(m, n, threads[t].head, opens[t]);
    }
  }
}
