/** An independent reading of patterns: a script fixes, for every quantified
    item met on the way, how often it repeats, and is replayed without any
    search. The priority list holds exactly the outcomes of valid scripts, and
    its first element is the outcome of the preferred one. */
module PatternScripts {
  import opened Common
  import opened Pattern
  import opened PatternProps

  /** What a position leads to: an end, another position, or a choice. */
  datatype Link =
    | Stop(result: Option<Outcome>)
    | Go(si: nat, pi: nat, caps: seq<Capture>)
    | Choose(quantifier: char, ep: nat)

  function LinkAt(env: Env, si: nat, pi: nat, caps: seq<Capture>): (l: Link)
    ensures l.Go? ==> pi < l.pi <= |env.p|
    ensures l.Choose? ==> pi < l.ep < |env.p|
  {
    match ItemAt(env, si, pi, caps)
    case Finish(ok) => Stop(if ok then Some(Found(si, caps)) else None)
    case Open(position, next) => Go(si, next, caps + [Capture(si, if position then Position else Unfinished)])
    case Close(next) =>
      var i := LastOpen(caps);
      if i < 0 then Stop(Some(Fault(BadCapture))) else Go(si, next, Closed(caps, i, si))
    case Jump(to, next) => Go(to, next, caps)
    case Dead => Stop(None)
    case Raise(e) => Stop(Some(Fault(e)))
    case Balance(next) =>
      if si >= |env.s| || env.s[si] != env.p[pi + 2] then Stop(None)
      else
        var e := BalanceEnd(env.s, si + 1, 1, env.p[pi + 2], env.p[pi + 3]);
        if e < 0 then Stop(None) else Go(e, next, caps)
    case Quantified(q, ep) => Choose(q, ep)
  }

  /** The n characters from si on all match the item at pi. */
  ghost predicate Hits(env: Env, si: nat, pi: nat, n: nat) {
    forall j: nat :: si <= j < si + n ==> Single(env, j, pi) == Hit
  }

  /** The item at pi with quantifier q may repeat n times at si. */
  ghost predicate Count(env: Env, si: nat, pi: nat, q: char, n: nat) {
    && Hits(env, si, pi, n)
    && (q == '+' ==> n >= 1)
    && (q != '*' && q != '+' && q != '-' ==> n <= 1)
    && (q != '-' ==> Single(env, si, pi) != Broken)
  }

  /** Follows a script; None if it does not fit. The empty script stands for
      the error of a malformed set. */
  ghost function Replay(env: Env, si: nat, pi: nat, caps: seq<Capture>, w: seq<nat>): Option<Outcome>
    requires pi <= |env.p|
    decreases |env.p| - pi
  {
    match LinkAt(env, si, pi, caps)
    case Stop(o) => if w == [] then o else None
    case Go(s1, p1, c1) => Replay(env, s1, p1, c1, w)
    case Choose(q, ep) =>
      if w == [] then (if Single(env, si, pi) == Broken then Some(Fault(MissingBracket)) else None)
      else if Count(env, si, pi, q, w[0]) then Replay(env, si + w[0], ep + 1, caps, w[1..])
      else None
  }

  /** Script w is preferred to v, or the same: at the first choice where they
      differ, `-` wants fewer repetitions and every other quantifier more. */
  ghost predicate Prefers(env: Env, si: nat, pi: nat, caps: seq<Capture>, w: seq<nat>, v: seq<nat>)
    requires pi <= |env.p|
    decreases |env.p| - pi
  {
    match LinkAt(env, si, pi, caps)
    case Stop(_) => true
    case Go(s1, p1, c1) => Prefers(env, s1, p1, c1, w, v)
    case Choose(q, ep) =>
      if v == [] then true
      else if w == [] then false
      else if w[0] == v[0] then Prefers(env, si + w[0], ep + 1, caps, w[1..], v[1..])
      else if q == '-' then w[0] < v[0] else w[0] > v[0]
  }

  /** The priority list without a recursion budget. */
  function Free(env: Env, si: nat, pi: nat, caps: seq<Capture>): seq<Outcome> {
    Outcomes(env, |env.p|, si, pi, caps)
  }

  lemma NestedIsFree(env: Env, d: nat, si: nat, pi: nat, caps: seq<Capture>)
    requires 0 < pi <= |env.p| && d > |env.p| - pi
    ensures Nested(env, d, si, pi, caps) == Free(env, si, pi, caps)
  {
    hide Outcomes;
    BudgetSuffices(env, d - 1, |env.p|, si, pi, caps);
  }

  // -------------------------------------------------- the list, by counts

  /** Outcomes for n, n - 1, ..., lo repetitions. */
  function Down(env: Env, si: nat, lo: nat, n: int, next: nat, caps: seq<Capture>): seq<Outcome>
    decreases n
  {
    if n < lo then [] else Free(env, si + n, next, caps) + Down(env, si, lo, n - 1, next, caps)
  }

  /** Outcomes for k, k + 1, ... repetitions, as long as characters match. */
  function Up(env: Env, si: nat, k: nat, pi: nat, next: nat, caps: seq<Capture>): seq<Outcome>
    decreases |env.s| - (si + k)
  {
    Free(env, si + k, next, caps) +
    match Single(env, si + k, pi) {
      case Broken => [Fault(MissingBracket)]
      case Miss => []
      case Hit => Up(env, si, k + 1, pi, next, caps)
    }
  }

  /** The largest count a greedy quantifier may take. */
  function Most(env: Env, si: nat, pi: nat, q: char): int {
    var n := Run(env, si, pi);
    if q != '*' && q != '+' && n > 1 then 1 else n
  }

  function Least(q: char): nat { if q == '+' then 1 else 0 }

  function ByCount(env: Env, si: nat, pi: nat, q: char, ep: nat, caps: seq<Capture>): seq<Outcome> {
    if q == '-' then Up(env, si, 0, pi, ep + 1, caps)
    else if Single(env, si, pi) == Broken then [Fault(MissingBracket)]
    else Down(env, si, Least(q), Most(env, si, pi, q), ep + 1, caps)
  }

  lemma {:induction false} BrokenElements(env: Env, c: char, e: char, k: nat)
    requires k < |env.p|
    ensures Elements(env, c, k).Bad? == Elements(env, e, k).Bad?
    decreases |env.p| - k
  {
    var n := ElementEnd(env.p, k);
    if n < |env.p| && env.p[n] != ']' { BrokenElements(env, c, e, n); }
  }

  /** Whether a test is broken depends on the pattern alone. */
  lemma BrokenAnywhere(env: Env, si: nat, sj: nat, pi: nat)
    ensures (Single(env, si, pi) == Broken) == (Single(env, sj, pi) == Broken)
  {
    if pi < |env.p| && env.p[pi] == '[' {
      var c := if si < |env.s| then env.s[si] else NUL;
      var e := if sj < |env.s| then env.s[sj] else NUL;
      var j := if pi + 1 < |env.p| && env.p[pi + 1] == '^' then pi + 2 else pi + 1;
      if j < |env.p| { BrokenElements(env, c, e, j); }
    }
  }

  /** Run counts exactly the repetitions that hit. */
  lemma {:induction false} RunCounts(env: Env, si: nat, pi: nat, n: nat)
    ensures (Run(env, si, pi) < 0) == (Single(env, si, pi) == Broken)
    ensures Single(env, si, pi) != Broken ==> (Hits(env, si, pi, n) <==> n <= Run(env, si, pi))
    decreases |env.s| - si
  {
    hide Single;
    if Single(env, si, pi) == Hit {
      BrokenAnywhere(env, si, si + 1, pi);
      RunCounts(env, si + 1, pi, if n == 0 then 0 else n - 1);
    }
  }

  lemma {:induction false} GreedyIsDown(env: Env, si: nat, base: nat, n: int, next: nat, caps: seq<Capture>)
    requires n >= 0 && 1 < next <= |env.p|
    ensures Greedy(env, |env.p|, si + base, n, next, caps) == Down(env, si, base, n + base, next, caps)
    decreases n
  {
    hide Outcomes, Free;
    NestedIsFree(env, |env.p|, si + base + n, next, caps);
    assert si + (n + base) == si + base + n;
    if n > 0 {
      GreedyIsDown(env, si, base, n - 1, next, caps);
    } else {
      assert Down(env, si, base, base - 1, next, caps) == [];
    }
  }

  lemma {:induction false} LazyIsUp(env: Env, si: nat, k: nat, pi: nat, next: nat, caps: seq<Capture>)
    requires 1 < next <= |env.p|
    ensures Lazy(env, |env.p|, si + k, pi, next, caps) == Up(env, si, k, pi, next, caps)
    decreases |env.s| - (si + k)
  {
    hide Outcomes, Free, Single;
    NestedIsFree(env, |env.p|, si + k, next, caps);
    if Single(env, si + k, pi) == Hit {
      LazyIsUp(env, si, k + 1, pi, next, caps);
      assert si + (k + 1) == si + k + 1;
    }
  }

  lemma ChoicesByCount(env: Env, si: nat, pi: nat, q: char, ep: nat, caps: seq<Capture>)
    requires pi < ep < |env.p|
    ensures Choices(env, |env.p|, si, pi, q, ep, caps) == ByCount(env, si, pi, q, ep, caps)
  {
    hide Outcomes, Free, Single, Up, Greedy, Lazy, Nested, Run;
    var n := Run(env, si, pi);
    RunCounts(env, si, pi, 0);
    RunStep(env, si, pi);
    if q == '-' {
      LazyIsUp(env, si, 0, pi, ep + 1, caps);
    } else if Single(env, si, pi) == Broken {
      GreedyBroken(env, si, ep + 1, caps);
    } else if q == '*' {
      GreedyIsDown(env, si, 0, n, ep + 1, caps);
    } else if q == '+' {
      if n > 0 { GreedyIsDown(env, si, 1, n - 1, ep + 1, caps); }
    } else {
      NestedIsFree(env, |env.p|, si, ep + 1, caps);
      NestedIsFree(env, |env.p|, si + 1, ep + 1, caps);
      assert Down(env, si, 0, -1, ep + 1, caps) == [];
      assert Down(env, si, 0, 0, ep + 1, caps) == Free(env, si, ep + 1, caps);
    }
  }

  lemma GreedyBroken(env: Env, si: nat, next: nat, caps: seq<Capture>)
    ensures Greedy(env, |env.p|, si, -1, next, caps) == [Fault(MissingBracket)]
  {
  }

  lemma RunStep(env: Env, si: nat, pi: nat)
    ensures Single(env, si, pi) == Miss ==> Run(env, si, pi) == 0
    ensures Single(env, si, pi) == Hit ==>
      Run(env, si, pi) == if Run(env, si + 1, pi) < 0 then -1 else Run(env, si + 1, pi) + 1
    ensures Single(env, si, pi) == Broken ==> Run(env, si, pi) == -1
  {
  }

  /** The list at a position, in terms of where the position leads. */
  lemma FreeByLink(env: Env, si: nat, pi: nat, caps: seq<Capture>)
    requires pi <= |env.p|
    ensures var l := LinkAt(env, si, pi, caps);
      l.Stop? ==> Free(env, si, pi, caps) == if l.result.Some? then [l.result.value] else []
    ensures var l := LinkAt(env, si, pi, caps); l.Go? ==> Free(env, si, pi, caps) == Free(env, l.si, l.pi, l.caps)
    ensures var l := LinkAt(env, si, pi, caps);
      l.Choose? ==> Free(env, si, pi, caps) == ByCount(env, si, pi, l.quantifier, l.ep, caps)
  {
    hide FrontierAt, BackReferenceAt, SimpleAt, Bracket, BalanceEnd, LastOpen, Nested, ByCount, Choices;
    var l, d := LinkAt(env, si, pi, caps), |env.p|;
    if l.Go? { NestedIsFree(env, d, l.si, l.pi, l.caps); }
    if l.Choose? { ChoicesByCount(env, si, pi, l.quantifier, l.ep, caps); }
    var it := ItemAt(env, si, pi, caps);
    if it.Balance? { assert Outcomes(env, d, si, pi, caps) == Balanced(env, d, si, pi + 2, caps); }
  }

  // ----------------------------------------------------- scripts and the list

  lemma {:induction false} DownHas(env: Env, si: nat, lo: nat, n: int, next: nat, caps: seq<Capture>, k: nat,
                                   o: Outcome)
    requires lo <= k <= n && o in Free(env, si + k, next, caps)
    ensures o in Down(env, si, lo, n, next, caps)
    decreases n
  {
    hide Free;
    if k < n { DownHas(env, si, lo, n - 1, next, caps, k, o); }
  }

  lemma {:induction false} DownFrom(env: Env, si: nat, lo: nat, n: int, next: nat, caps: seq<Capture>, o: Outcome)
    returns (k: nat)
    requires o in Down(env, si, lo, n, next, caps)
    ensures lo <= k <= n && o in Free(env, si + k, next, caps)
    decreases n
  {
    hide Free;
    if o in Free(env, si + n, next, caps) {
      k := n;
    } else {
      k := DownFrom(env, si, lo, n - 1, next, caps, o);
    }
  }

  lemma {:induction false} DownFirst(env: Env, si: nat, lo: nat, n: int, next: nat, caps: seq<Capture>) returns (k: nat)
    requires Down(env, si, lo, n, next, caps) != []
    ensures lo <= k <= n && Free(env, si + k, next, caps) != []
    ensures Down(env, si, lo, n, next, caps)[0] == Free(env, si + k, next, caps)[0]
    ensures forall j: nat :: si + k < j <= si + n ==> Free(env, j, next, caps) == []
    decreases n
  {
    hide Free;
    if Free(env, si + n, next, caps) != [] {
      k := n;
    } else {
      k := DownFirst(env, si, lo, n - 1, next, caps);
    }
  }

  lemma {:induction false} UpHas(env: Env, si: nat, at: nat, pi: nat, next: nat, caps: seq<Capture>, k: nat, o: Outcome)
    requires at <= k && Hits(env, si + at, pi, k - at) && o in Free(env, si + k, next, caps)
    ensures o in Up(env, si, at, pi, next, caps)
    decreases k - at
  {
    hide Free, Single;
    if at < k {
      assert Single(env, si + at, pi) == Hit;
      UpHas(env, si, at + 1, pi, next, caps, k, o);
    }
  }

  /** Every element is the outcome of a count, or the error of a broken set. */
  lemma {:induction false} UpFrom(env: Env, si: nat, at: nat, pi: nat, next: nat, caps: seq<Capture>, o: Outcome)
    returns (k: nat, broken: bool)
    requires o in Up(env, si, at, pi, next, caps)
    ensures broken ==> o == Fault(MissingBracket) && Single(env, si, pi) == Broken
    ensures !broken ==> at <= k && Hits(env, si + at, pi, k - at) && o in Free(env, si + k, next, caps)
    decreases |env.s| - (si + at)
  {
    hide Free, Single;
    if o in Free(env, si + at, next, caps) {
      k, broken := at, false;
    } else if Single(env, si + at, pi) == Hit {
      k, broken := UpFrom(env, si, at + 1, pi, next, caps, o);
    } else {
      BrokenAnywhere(env, si + at, si, pi);
      k, broken := at, true;
    }
  }

  lemma {:induction false} UpFirst(env: Env, si: nat, at: nat, pi: nat, next: nat, caps: seq<Capture>)
    returns (k: nat, broken: bool)
    requires Up(env, si, at, pi, next, caps) != []
    ensures at <= k && Hits(env, si + at, pi, k - at)
    ensures forall j: nat :: si + at <= j < si + k ==> Free(env, j, next, caps) == []
    ensures if broken then Up(env, si, at, pi, next, caps)[0] == Fault(MissingBracket)
      && Single(env, si, pi) == Broken && Free(env, si + k, next, caps) == [] && Single(env, si + k, pi) != Hit
      else Free(env, si + k, next, caps) != [] && Up(env, si, at, pi, next, caps)[0] == Free(env, si + k, next, caps)[0]
    decreases |env.s| - (si + at)
  {
    hide Free, Single;
    if Free(env, si + at, next, caps) != [] {
      k, broken := at, false;
    } else if Single(env, si + at, pi) == Hit {
      k, broken := UpFirst(env, si, at + 1, pi, next, caps);
    } else {
      BrokenAnywhere(env, si + at, si, pi);
      k, broken := at, true;
    }
  }

  lemma CountBounds(env: Env, si: nat, pi: nat, q: char, n: nat)
    requires q != '-' && Single(env, si, pi) != Broken
    ensures Count(env, si, pi, q, n) <==> Least(q) <= n <= Most(env, si, pi, q)
  {
    hide Single;
    RunCounts(env, si, pi, n);
  }

  /** Every valid script's outcome is in the list. */
  lemma {:induction false} ScriptListed(env: Env, si: nat, pi: nat, caps: seq<Capture>, w: seq<nat>)
    requires pi <= |env.p| && Replay(env, si, pi, caps, w).Some?
    ensures Replay(env, si, pi, caps, w).value in Free(env, si, pi, caps)
    decreases |env.p| - pi
  {
    hide Free, Single, LinkAt, Down, Up, Most, Least;
    FreeByLink(env, si, pi, caps);
    match LinkAt(env, si, pi, caps) {
      case Stop(_) =>
      case Go(s1, p1, c1) =>
        ScriptListed(env, s1, p1, c1, w);
      case Choose(q, ep) =>
        if w == [] {
          if q == '-' { UpBroken(env, si, pi, ep + 1, caps); }
        } else {
          ScriptListed(env, si + w[0], ep + 1, caps, w[1..]);
          var o := Replay(env, si, pi, caps, w).value;
          if q == '-' {
            UpHas(env, si, 0, pi, ep + 1, caps, w[0], o);
          } else {
            CountBounds(env, si, pi, q, w[0]);
            DownHas(env, si, Least(q), Most(env, si, pi, q), ep + 1, caps, w[0], o);
          }
        }
    }
  }

  lemma UpBroken(env: Env, si: nat, pi: nat, next: nat, caps: seq<Capture>)
    requires Single(env, si, pi) == Broken
    ensures Fault(MissingBracket) in Up(env, si, 0, pi, next, caps)
  {
    hide Free, Single;
    assert Up(env, si, 0, pi, next, caps) == Free(env, si + 0, next, caps) + [Fault(MissingBracket)];
  }

  /** Every element of the list is the outcome of some script. */
  lemma {:induction false} ListedHasScript(env: Env, si: nat, pi: nat, caps: seq<Capture>, o: Outcome)
    returns (w: seq<nat>)
    requires pi <= |env.p| && o in Free(env, si, pi, caps)
    ensures Replay(env, si, pi, caps, w) == Some(o)
    decreases |env.p| - pi
  {
    hide Free, Single, LinkAt, Down, Up, Most, Least;
    FreeByLink(env, si, pi, caps);
    match LinkAt(env, si, pi, caps) {
      case Stop(_) =>
        w := [];
      case Go(s1, p1, c1) =>
        w := ListedHasScript(env, s1, p1, c1, o);
      case Choose(q, ep) =>
        var k: nat, broken := 0, false;
        if q == '-' {
          k, broken := UpFrom(env, si, 0, pi, ep + 1, caps, o);
        } else if Single(env, si, pi) == Broken {
          broken := true;
        } else {
          k := DownFrom(env, si, Least(q), Most(env, si, pi, q), ep + 1, caps, o);
          CountBounds(env, si, pi, q, k);
        }
        if broken {
          w := [];
        } else {
          var rest := ListedHasScript(env, si + k, ep + 1, caps, o);
          w := [k] + rest;
          assert w[1..] == rest;
        }
    }
  }

  /** The first element belongs to a script preferred to every valid one. */
  lemma {:induction false} FirstIsPreferred(env: Env, si: nat, pi: nat, caps: seq<Capture>) returns (w: seq<nat>)
    requires pi <= |env.p| && Free(env, si, pi, caps) != []
    ensures Replay(env, si, pi, caps, w) == Some(Free(env, si, pi, caps)[0])
    ensures forall v :: Replay(env, si, pi, caps, v).Some? ==> Prefers(env, si, pi, caps, w, v)
    decreases |env.p| - pi
  {
    hide Free, Single, LinkAt, Down, Up, Most, Least;
    FreeByLink(env, si, pi, caps);
    match LinkAt(env, si, pi, caps) {
      case Stop(_) =>
        w := [];
      case Go(s1, p1, c1) =>
        w := FirstIsPreferred(env, s1, p1, c1);
      case Choose(q, ep) =>
        var k: nat, broken := 0, false;
        if q == '-' {
          k, broken := UpFirst(env, si, 0, pi, ep + 1, caps);
        } else if Single(env, si, pi) == Broken {
          broken := true;
        } else {
          k := DownFirst(env, si, Least(q), Most(env, si, pi, q), ep + 1, caps);
          CountBounds(env, si, pi, q, k);
        }
        if broken {
          w := [];
          forall v | Replay(env, si, pi, caps, v).Some? ensures v == [] {
            BrokenHasNoCount(env, si, pi, q, ep, caps, v);
          }
        } else {
          var rest := FirstIsPreferred(env, si + k, ep + 1, caps);
          w := [k] + rest;
          assert w[1..] == rest;
          forall v | Replay(env, si, pi, caps, v).Some? ensures Prefers(env, si, pi, caps, w, v) {
            if v != [] && v[0] != k {
              ScriptListed(env, si + v[0], ep + 1, caps, v[1..]);
              if q != '-' { CountBounds(env, si, pi, q, v[0]); }
            }
          }
        }
    }
  }

  /** If the first outcome is the error of a broken set, no count is valid. */
  lemma BrokenHasNoCount(env: Env, si: nat, pi: nat, q: char, ep: nat, caps: seq<Capture>, v: seq<nat>)
    requires pi < ep < |env.p| && LinkAt(env, si, pi, caps) == Choose(q, ep)
    requires Single(env, si, pi) == Broken
    requires q == '-' ==> Free(env, si, ep + 1, caps) == []
    ensures Replay(env, si, pi, caps, v).Some? ==> v == []
  {
    hide Free, Single, LinkAt;
    if v != [] && Count(env, si, pi, q, v[0]) && Replay(env, si + v[0], ep + 1, caps, v[1..]).Some? {
      ScriptListed(env, si + v[0], ep + 1, caps, v[1..]);
    }
  }
}
