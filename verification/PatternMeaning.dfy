/** What the text of a pattern asks of the text of the subject: a relation,
    item by item, between a position and every end or error it can lead to.
    The priority list holds exactly these. */
module PatternMeaning {
  import opened Common
  import opened Pattern
  import opened PatternProps
  import opened PatternScripts

  // ------------------------------------------------------------------- sets

  /** What stands in a set: `%x`, `lo-hi` or a character. */
  datatype Piece = Class(x: char) | Range(lo: char, hi: char) | One(c: char)

  predicate Covers(cls: (char, char) -> bool, x: Piece, c: char) {
    match x
    case Class(k) => cls(c, k)
    case Range(lo, hi) => lo <= c && c <= hi
    case One(k) => c == k
  }

  /** Piece x is spelled from k to e. A `%` takes the next character with it, and `c-d` is a range unless d closes
      the set. */
  predicate PieceAt(p: string, k: nat, x: Piece, e: nat) {
    match x
    case Class(c) => k + 1 < |p| && p[k] == '%' && p[k + 1] == c && e == k + 2
    case Range(lo, hi) =>
      k + 2 < |p| && [p[k], p[k + 1], p[k + 2]] == [lo, '-', hi] && lo != '%' && hi != ']' && e == k + 3
    case One(c) =>
      && k < |p| && p[k] == c && e == k + 1
      && !(c == '%' && k + 1 < |p|) && !(k + 2 < |p| && p[k + 1] == '-' && p[k + 2] != ']')
  }

  /** The pieces are spelled from k on, and the bracket that closes the set ends at ep. The first piece may begin with
      a closing bracket. */
  ghost predicate Spells(p: string, k: nat, xs: seq<Piece>, ep: nat)
    decreases |xs|
  {
    && xs != []
    && exists e: nat ::
         && PieceAt(p, k, xs[0], e) && e < |p|
         && if |xs| == 1 then p[e] == ']' && ep == e + 1 else p[e] != ']' && Spells(p, e, xs[1..], ep)
  }

  /** A set from pi to ep, negated if it begins with `^`. */
  ghost predicate SetText(p: string, pi: nat, negate: bool, xs: seq<Piece>, ep: nat) {
    && pi < |p| && p[pi] == '[' && negate == (pi + 1 < |p| && p[pi + 1] == '^')
    && Spells(p, if negate then pi + 2 else pi + 1, xs, ep)
  }

  predicate Covered(cls: (char, char) -> bool, xs: seq<Piece>, c: char) { exists x :: x in xs && Covers(cls, x, c) }

  /** The set from pi to ep contains c. */
  ghost predicate InSet(env: Env, c: char, pi: nat, ep: nat) {
    exists negate, xs :: SetText(env.p, pi, negate, xs, ep) && Covered(env.cls, xs, c) != negate
  }

  /** The pattern ends right after the opening of a set. */
  predicate StopsShort(p: string, pi: nat)
    requires pi <= |p|
  {
    p[pi..] == "[" || p[pi..] == "[^"
  }

  /** The set at pi is never closed. */
  ghost predicate BrokenSet(p: string, pi: nat) {
    pi < |p| && p[pi] == '[' && !StopsShort(p, pi) && forall negate, xs, ep: nat :: !SetText(p, pi, negate, xs, ep)
  }

  lemma PieceIs(env: Env, c: char, k: nat, x: Piece, e: nat)
    requires PieceAt(env.p, k, x, e)
    ensures e == ElementEnd(env.p, k) && Covers(env.cls, x, c) == ElementHas(env, c, k)
  {
    if x.Range? {
      assert [env.p[k], env.p[k + 1], env.p[k + 2]][0] == x.lo;
      assert [env.p[k], env.p[k + 1], env.p[k + 2]][1] == '-';
      assert [env.p[k], env.p[k + 1], env.p[k + 2]][2] == x.hi;
    }
  }

  lemma SomePiece(p: string, k: nat) returns (x: Piece)
    requires k < |p|
    ensures PieceAt(p, k, x, ElementEnd(p, k))
  {
    if p[k] == '%' && k + 1 < |p| {
      x := Class(p[k + 1]);
    } else if k + 2 < |p| && p[k + 1] == '-' && p[k + 2] != ']' {
      x := Range(p[k], p[k + 2]);
    } else {
      x := One(p[k]);
    }
  }

  lemma {:induction false} SpellsIs(env: Env, c: char, k: nat, xs: seq<Piece>, ep: nat)
    requires Spells(env.p, k, xs, ep)
    ensures k < |env.p| && Elements(env, c, k) == In(Covered(env.cls, xs, c), ep)
    decreases |xs|
  {
    hide PieceAt, Covers, ElementHas, ElementEnd;
    var e: nat :| PieceAt(env.p, k, xs[0], e) && e < |env.p|
      && if |xs| == 1 then env.p[e] == ']' && ep == e + 1 else env.p[e] != ']' && Spells(env.p, e, xs[1..], ep);
    PieceInside(env.p, k, xs[0], e);
    PieceIs(env, c, k, xs[0], e);
    assert xs == [xs[0]] + xs[1..];
    if |xs| > 1 { SpellsIs(env, c, e, xs[1..], ep); }
  }

  lemma PieceInside(p: string, k: nat, x: Piece, e: nat)
    requires PieceAt(p, k, x, e)
    ensures k < |p|
  {
  }

  lemma {:induction false} ElementsSpelled(env: Env, c: char, k: nat) returns (xs: seq<Piece>)
    requires k < |env.p| && Elements(env, c, k).In?
    ensures Spells(env.p, k, xs, Elements(env, c, k).ep)
    decreases |env.p| - k
  {
    hide PieceAt, ElementHas;
    var x := SomePiece(env.p, k);
    var e := ElementEnd(env.p, k);
    xs := [x];
    if env.p[e] != ']' {
      var rest := ElementsSpelled(env, c, e);
      xs := [x] + rest;
      assert xs[1..] == rest && rest != [];
    }
  }

  /** Scanning a set says whether it is closed, where, and whether it contains c. */
  lemma BracketIff(env: Env, c: char, pi: nat)
    requires pi < |env.p| && env.p[pi] == '['
    ensures Bracket(env, c, pi).Short? <==> StopsShort(env.p, pi)
    ensures Bracket(env, c, pi).Bad? <==> BrokenSet(env.p, pi)
    ensures forall ep: nat :: InSet(env, c, pi, ep) <==> Bracket(env, c, pi) == In(true, ep)
  {
    hide Elements, Spells, Covered;
    var p, m := env.p, Bracket(env, c, pi);
    forall negate, xs, ep: nat | SetText(p, pi, negate, xs, ep) ensures m == In(Covered(env.cls, xs, c) != negate, ep) {
      SpellsIs(env, c, if negate then pi + 2 else pi + 1, xs, ep);
    }
    if m.In? {
      var negate := pi + 1 < |p| && p[pi + 1] == '^';
      var xs := ElementsSpelled(env, c, if negate then pi + 2 else pi + 1);
      assert SetText(p, pi, negate, xs, m.ep);
    }
    ShortIs(p, pi);
  }

  lemma ShortIs(p: string, pi: nat)
    requires pi < |p| && p[pi] == '['
    ensures StopsShort(p, pi) <==> pi + 1 == |p| || (pi + 2 == |p| && p[pi + 1] == '^')
  {
    if pi + 1 == |p| { assert p[pi..] == "["; }
    if pi + 2 == |p| && p[pi + 1] == '^' { assert p[pi..] == "[^"; }
    if p[pi..] == "[^" { assert p[pi..][1] == '^'; }
  }

  // ------------------------------------------------------------ single items

  /** From k on, units of one character or of `%` and another, up to a closing bracket. The first may be one itself. */
  ghost predicate Units(p: string, k: nat, b: seq<nat>) {
    && |b| >= 2 && b[0] == k && (forall i :: 0 <= i < |b| ==> b[i] < |p|)
    && (forall i :: 0 <= i < |b| - 1 ==> b[i + 1] == b[i] + if p[b[i]] == '%' && b[i] + 1 < |p| then 2 else 1)
    && (forall i :: 0 < i < |b| - 1 ==> p[b[i]] != ']') && p[b[|b| - 1]] == ']'
  }

  /** The single item at pi is spelled up to ep, its quantifier not included. */
  ghost predicate ItemText(p: string, pi: nat, ep: nat)
    requires pi < |p|
  {
    if p[pi] == '%' then pi + 1 < |p| && ep == pi + 2
    else if p[pi] == '[' then
      exists b :: Units(p, if pi + 1 < |p| && p[pi + 1] == '^' then pi + 2 else pi + 1, b) && ep == b[|b| - 1] + 1
    else ep == pi + 1
  }

  lemma {:induction false} UnitsAre(p: string, k: nat, b: seq<nat>)
    requires Units(p, k, b)
    ensures k <= |p| && SkipElements(p, k) == Ends(b[|b| - 1] + 1)
    decreases |b|
  {
    if |b| > 2 {
      assert b[1] == b[0] + if p[b[0]] == '%' && b[0] + 1 < |p| then 2 else 1;
      assert p[b[1]] != ']';
      assert Units(p, b[1], b[1..]);
      UnitsAre(p, b[1], b[1..]);
    }
  }

  lemma {:induction false} SkippedUnits(p: string, k: nat) returns (b: seq<nat>)
    requires k <= |p| && SkipElements(p, k).Ends?
    ensures Units(p, k, b) && SkipElements(p, k).ep == b[|b| - 1] + 1
    decreases |p| - k
  {
    var e := if p[k] == '%' && k + 1 < |p| then k + 2 else k + 1;
    b := [k, e];
    if p[e] != ']' {
      var rest := SkippedUnits(p, e);
      b := [k] + rest;
      forall i | 0 <= i < |b| - 1 ensures b[i + 1] == b[i] + if p[b[i]] == '%' && b[i] + 1 < |p| then 2 else 1 {
        if i > 0 { assert b[i] == rest[i - 1] && b[i + 1] == rest[i]; }
      }
    }
  }

  lemma ClassEndIff(p: string, pi: nat)
    requires pi < |p|
    ensures forall ep: nat :: ItemText(p, pi, ep) <==> ClassEnd(p, pi) == Ends(ep)
    ensures ClassEnd(p, pi).Malformed? ==>
      ClassEnd(p, pi).error == if p[pi] == '%' then EndsWithPercent else MissingBracket
  {
    hide SkipElements;
    if p[pi] == '[' {
      var k := if pi + 1 < |p| && p[pi + 1] == '^' then pi + 2 else pi + 1;
      forall b | Units(p, k, b) ensures SkipElements(p, k) == Ends(b[|b| - 1] + 1) { UnitsAre(p, k, b); }
      SkipError(p, k);
      if SkipElements(p, k).Ends? {
        var b := SkippedUnits(p, k);
      }
    }
  }

  lemma {:induction false} SkipError(p: string, k: nat)
    requires k <= |p|
    ensures SkipElements(p, k).Malformed? ==> SkipElements(p, k).error == MissingBracket
    decreases |p| - k
  {
    if k < |p| {
      var e := if p[k] == '%' && k + 1 < |p| then k + 2 else k + 1;
      if e < |p| { SkipError(p, e); }
    }
  }

  /** The character at si is one that the single item at pi takes. */
  ghost predicate TakesOne(env: Env, si: nat, pi: nat) {
    && pi < |env.p| && si < |env.s|
    && if env.p[pi] == '.' then true
       else if env.p[pi] == '%' then pi + 1 < |env.p| && env.cls(env.s[si], env.p[pi + 1])
       else if env.p[pi] == '[' then exists ep: nat :: InSet(env, env.s[si], pi, ep)
       else env.s[si] == env.p[pi]
  }

  lemma SingleIff(env: Env, si: nat, pi: nat)
    ensures Single(env, si, pi) == Hit <==> TakesOne(env, si, pi)
    ensures Single(env, si, pi) == Broken <==> BrokenSet(env.p, pi)
  {
    hide InSet, Bracket, BrokenSet, StopsShort;
    if pi < |env.p| && env.p[pi] == '[' {
      var c := if si < |env.s| then env.s[si] else NUL;
      BracketIff(env, c, pi);
      var m := Bracket(env, c, pi);
      if m.In? && m.hit { assert InSet(env, c, pi, m.ep); }
    }
    NotBroken(env.p, pi);
  }

  lemma NotBroken(p: string, pi: nat)
    ensures BrokenSet(p, pi) ==> pi < |p| && p[pi] == '['
  {
  }

  // ------------------------------------------------- one step of a derivation

  /** Openings less closings from the opening at `from` up to `to`; where both are the same, the others are closings. */
  function Level(s: string, from: nat, to: nat, open: char, close: char): int
    requires to <= |s|
  {
    if to <= from + 1 then 1
    else Level(s, from, to - 1, open, close)
         + if s[to - 1] == close then -1 else if s[to - 1] == open then 1 else 0
  }

  /** The shortest balanced stretch from si on ends at e. */
  ghost predicate BalancedSpan(s: string, si: nat, e: nat, open: char, close: char) {
    && si < |s| && s[si] == open && si < e <= |s| && Level(s, si, e, open, close) == 0
    && forall j: nat :: si < j < e ==> Level(s, si, j, open, close) > 0
  }

  /** The set at k does not contain the character before si and contains the one at si; before the start and at the
      end of the subject that is NUL. */
  ghost predicate FrontierHere(env: Env, si: nat, k: nat, ep: nat) {
    && k < |env.p| && env.p[k] == '['
    && !InSet(env, if si == 0 then NUL else if si <= |env.s| then env.s[si - 1] else env.beyond(si - 1), k, ep)
    && InSet(env, if si < |env.s| then env.s[si] else NUL, k, ep)
  }

  /** From si to s1 stands the text of capture number `cap` again. */
  ghost predicate Repeated(s: string, caps: seq<Capture>, cap: int, si: nat, s1: nat) {
    && 0 <= cap < |caps| && caps[cap].end.At?
    && var a, b := caps[cap].start, caps[cap].end.at;
       && s1 == si + (if a <= b then b - a else 0) && s1 <= |s|
       && (s1 == si || (a + (s1 - si) <= |s| && s[si..s1] == s[a..a + (s1 - si)]))
  }

  /** The innermost capture still open is closed at si. */
  ghost predicate ClosesInnermost(caps: seq<Capture>, si: nat, c1: seq<Capture>) {
    exists i ::
      && 0 <= i < |caps| && caps[i].end == Unfinished && (forall j :: i < j < |caps| ==> caps[j].end != Unfinished)
      && c1 == caps[i := Capture(caps[i].start, At(si))]
  }

  /** A single item and its quantifier take the characters from si up to s1. */
  ghost predicate TakesChars(env: Env, si: nat, pi: nat, s1: nat, p1: nat)
    requires pi < |env.p|
  {
    exists ep: nat ::
      && ItemText(env.p, pi, ep) && si <= s1 && (forall j: nat :: si <= j < s1 ==> TakesOne(env, j, pi))
      && if ep < |env.p| && env.p[ep] in "*+-?" then
           && p1 == ep + 1 && (env.p[ep] == '+' ==> s1 > si) && (env.p[ep] == '?' ==> s1 <= si + 1)
           && (env.p[ep] != '-' ==> !BrokenSet(env.p, pi))
         else
           p1 == ep && s1 == si + 1
  }

  /** The item at pi leads on from si to s1, with captures c1 and the rest of the pattern from p1. */
  ghost predicate Leads(env: Env, si: nat, pi: nat, caps: seq<Capture>, s1: nat, p1: nat, c1: seq<Capture>) {
    var p := env.p;
    if pi >= |p| || (p[pi] == '$' && pi + 1 == |p|) || (p[pi] == '%' && pi + 1 == |p|) then false
    else if p[pi] == '(' then
      && s1 == si
      && if pi + 1 < |p| && p[pi + 1] == ')' then p1 == pi + 2 && c1 == caps + [Capture(si, Position)]
         else p1 == pi + 1 && c1 == caps + [Capture(si, Unfinished)]
    else if p[pi] == ')' then s1 == si && p1 == pi + 1 && ClosesInnermost(caps, si, c1)
    else if p[pi] == '%' && p[pi + 1] == 'b' then
      pi + 3 < |p| && p1 == pi + 4 && c1 == caps && BalancedSpan(env.s, si, s1, p[pi + 2], p[pi + 3])
    else if p[pi] == '%' && p[pi + 1] == 'f' then s1 == si && c1 == caps && FrontierHere(env, si, pi + 2, p1)
    else if p[pi] == '%' && '0' <= p[pi + 1] <= '9' then
      p1 == pi + 2 && c1 == caps && Repeated(env.s, caps, p[pi + 1] as int - '1' as int, si, s1)
    else c1 == caps && TakesChars(env, si, pi, s1, p1)
  }

  /** The match ends at the item, or its error is found. */
  ghost predicate Stops(env: Env, si: nat, pi: nat, caps: seq<Capture>, o: Outcome) {
    var p := env.p;
    if pi >= |p| then o == Found(si, caps)
    else if p[pi] == '$' && pi + 1 == |p| then si >= |env.s| && o == Found(si, caps)
    else if p[pi] == '%' && pi + 1 == |p| then o == Fault(EndsWithPercent)
    else if p[pi] == '(' then false
    else if p[pi] == ')' then o == Fault(BadCapture) && forall c :: c in caps ==> c.end != Unfinished
    else if p[pi] == '%' && p[pi + 1] == 'b' then pi + 3 >= |p| && o == Fault(MissingBalance)
    else if p[pi] == '%' && p[pi + 1] == 'f' then
      if pi + 2 < |p| && p[pi + 2] == '[' then BrokenSet(p, pi + 2) && o == Fault(MissingBracket)
      else o == Fault(MissingFrontier)
    else if p[pi] == '%' && '0' <= p[pi + 1] <= '9' then
      var cap := p[pi + 1] as int - '1' as int;
      !(0 <= cap < |caps| && caps[cap].end.At?) && o == Fault(BadIndex(cap))
    else o == Fault(MissingBracket) && (BrokenSet(p, pi) || forall ep: nat :: !ItemText(p, pi, ep))
  }

  /** Some derivation from (si, pi) ends in o. */
  ghost predicate Derives(env: Env, si: nat, pi: nat, caps: seq<Capture>, o: Outcome)
    decreases |env.p| - pi
  {
    || Stops(env, si, pi, caps, o)
    || exists s1: nat, p1: nat, c1 ::
         Leads(env, si, pi, caps, s1, p1, c1) && pi < p1 <= |env.p| && Derives(env, s1, p1, c1, o)
  }

  // -------------------------------------------- the steps of the priority list

  lemma {:induction false} LevelIs(s: string, from: nat, j: nat, depth: nat, open: char, close: char)
    requires from < j <= |s| && depth > 0 && Level(s, from, j, open, close) == depth
    ensures var e := BalanceEnd(s, j, depth, open, close);
      if e < 0 then forall k: nat :: j <= k <= |s| ==> Level(s, from, k, open, close) > 0
      else Level(s, from, e, open, close) == 0 && forall k: nat :: j <= k < e ==> Level(s, from, k, open, close) > 0
    decreases |s| - j
  {
    if j < |s| {
      var d := depth + if s[j] == close then -1 else if s[j] == open then 1 else 0;
      assert Level(s, from, j + 1, open, close) == d;
      if d > 0 { LevelIs(s, from, j + 1, d, open, close); }
    }
  }

  lemma BalanceIff(s: string, si: nat, open: char, close: char)
    requires si < |s| && s[si] == open
    ensures forall e: nat :: BalancedSpan(s, si, e, open, close) <==> BalanceEnd(s, si + 1, 1, open, close) == e
  {
    LevelIs(s, si, si + 1, 1, open, close);
  }

  lemma RepeatedIff(s: string, caps: seq<Capture>, cap: int, si: nat)
    ensures forall s1: nat :: Repeated(s, caps, cap, si, s1) <==>
      CaptureLength(caps, cap) >= 0 && s1 == si + CaptureLength(caps, cap)
      && Repeats(s, si, caps[cap].start, CaptureLength(caps, cap))
    ensures CaptureLength(caps, cap) < 0 <==> !(0 <= cap < |caps| && caps[cap].end.At?)
  {
    var len := CaptureLength(caps, cap);
    if len >= 0 {
      var a := caps[cap].start;
      if si + len <= |s| {
        assert |Sub(s, si, len)| == len && (a + len > |s| ==> len == 0 || |Sub(s, a, len)| < len);
      }
    }
  }

  /** The link at a position says what the relation says. */
  ghost predicate LinkMeans(env: Env, si: nat, pi: nat, caps: seq<Capture>) {
    match LinkAt(env, si, pi, caps)
    case Stop(result) =>
      && (forall s1: nat, p1: nat, c1 :: !Leads(env, si, pi, caps, s1, p1, c1))
      && (forall o :: Stops(env, si, pi, caps, o) <==> result == Some(o))
    case Go(s2, p2, c2) =>
      && (forall s1: nat, p1: nat, c1 :: Leads(env, si, pi, caps, s1, p1, c1) <==> s1 == s2 && p1 == p2 && c1 == c2)
      && (forall o :: !Stops(env, si, pi, caps, o))
    case Choose(q, ep) =>
      && (forall s1: nat, p1: nat, c1 :: Leads(env, si, pi, caps, s1, p1, c1) <==>
            c1 == caps && p1 == ep + 1 && si <= s1 && Count(env, si, pi, q, s1 - si))
      && (forall o :: Stops(env, si, pi, caps, o) <==> Single(env, si, pi) == Broken && o == Fault(MissingBracket))
  }

  lemma LinkClose(env: Env, si: nat, pi: nat, caps: seq<Capture>)
    requires pi < |env.p| && env.p[pi] == ')'
    ensures LinkMeans(env, si, pi, caps)
  {
    var i := LastOpen(caps);
    if i >= 0 {
      assert caps[i] in caps;
      assert ClosesInnermost(caps, si, Closed(caps, i, si));
      forall c1 | ClosesInnermost(caps, si, c1) ensures c1 == Closed(caps, i, si) {
      }
    } else {
      forall c | c in caps ensures c.end != Unfinished {
        var j :| 0 <= j < |caps| && caps[j] == c;
      }
    }
  }

  lemma LinkBalance(env: Env, si: nat, pi: nat, caps: seq<Capture>)
    requires pi + 1 < |env.p| && env.p[pi] == '%' && env.p[pi + 1] == 'b'
    ensures LinkMeans(env, si, pi, caps)
  {
    hide BalanceEnd;
    if pi + 3 < |env.p| && si < |env.s| && env.s[si] == env.p[pi + 2] {
      BalanceIff(env.s, si, env.p[pi + 2], env.p[pi + 3]);
    }
  }

  lemma LinkFrontier(env: Env, si: nat, pi: nat, caps: seq<Capture>)
    requires pi + 1 < |env.p| && env.p[pi] == '%' && env.p[pi + 1] == 'f'
    ensures LinkMeans(env, si, pi, caps)
  {
    hide Bracket, InSet, BrokenSet, StopsShort;
    if pi + 2 < |env.p| && env.p[pi + 2] == '[' {
      BracketIff(env, Previous(env, si), pi + 2);
      BracketIff(env, Current(env, si), pi + 2);
      SameEnd(env, Previous(env, si), Current(env, si), pi + 2);
      var here := Bracket(env, Current(env, si), pi + 2);
      if here.In? && here.hit { assert InSet(env, Current(env, si), pi + 2, here.ep); }
    }
  }

  lemma {:induction false} SameElementsEnd(env: Env, c: char, e: char, k: nat)
    requires k < |env.p|
    ensures var m, n := Elements(env, c, k), Elements(env, e, k); m.In? == n.In? && (m.In? ==> m.ep == n.ep)
    decreases |env.p| - k
  {
    hide ElementHas;
    var n := ElementEnd(env.p, k);
    if n < |env.p| && env.p[n] != ']' { SameElementsEnd(env, c, e, n); }
  }

  /** Where a set ends does not depend on the character. */
  lemma SameEnd(env: Env, c: char, e: char, pi: nat)
    ensures var m, n := Bracket(env, c, pi), Bracket(env, e, pi); m.In? == n.In? && (m.In? ==> m.ep == n.ep)
  {
    hide Elements;
    if pi < |env.p| && env.p[pi] == '[' {
      var j := if pi + 1 < |env.p| && env.p[pi + 1] == '^' then pi + 2 else pi + 1;
      if j < |env.p| { SameElementsEnd(env, c, e, j); }
    }
  }

  lemma LinkBack(env: Env, si: nat, pi: nat, caps: seq<Capture>)
    requires pi + 1 < |env.p| && env.p[pi] == '%' && '0' <= env.p[pi + 1] <= '9'
    ensures LinkMeans(env, si, pi, caps)
  {
    hide Repeated, Repeats, CaptureLength;
    RepeatedIff(env.s, caps, env.p[pi + 1] as int - '1' as int, si);
    NothingRepeated(env.s, caps, env.p[pi + 1] as int - '1' as int, si);
  }

  lemma NothingRepeated(s: string, caps: seq<Capture>, cap: int, si: nat)
    ensures cap < 0 ==> CaptureLength(caps, cap) < 0
    ensures forall s1: nat :: Repeated(s, caps, cap, si, s1) ==> CaptureLength(caps, cap) >= 0
  {
  }

  /** An item that stands for single characters. */
  predicate IsSingle(p: string, pi: nat) {
    && pi < |p| && p[pi] != '(' && p[pi] != ')' && !(p[pi] == '$' && pi + 1 == |p|)
    && (p[pi] == '%' ==> pi + 1 < |p| && p[pi + 1] != 'b' && p[pi + 1] != 'f' && !('0' <= p[pi + 1] <= '9'))
  }

  lemma SomeItem(p: string, pi: nat)
    requires pi < |p| && p[pi] != '[' && !(p[pi] == '%' && pi + 1 == |p|)
    ensures exists ep: nat :: ItemText(p, pi, ep)
  {
    assert ItemText(p, pi, if p[pi] == '%' then pi + 2 else pi + 1);
  }

  /** With the end of the item known, the characters it takes are counted. */
  lemma TakesUpTo(env: Env, si: nat, pi: nat, ep: nat, s1: nat, p1: nat)
    requires pi < |env.p| && forall e: nat :: ItemText(env.p, pi, e) <==> e == ep
    ensures TakesChars(env, si, pi, s1, p1) <==>
      && si <= s1 && (forall j: nat :: si <= j < s1 ==> TakesOne(env, j, pi))
      && if ep < |env.p| && env.p[ep] in "*+-?" then
           && p1 == ep + 1 && (env.p[ep] == '+' ==> s1 > si) && (env.p[ep] == '?' ==> s1 <= si + 1)
           && (env.p[ep] != '-' ==> !BrokenSet(env.p, pi))
         else p1 == ep && s1 == si + 1
  {
    hide ItemText, TakesOne, BrokenSet;
    assert ItemText(env.p, pi, ep);
  }

  /** The counts of a quantified item are the stretches of characters it takes. */
  lemma CountIff(env: Env, si: nat, pi: nat, q: char, s1: nat)
    requires q in "*+-?" && si <= s1
    ensures Count(env, si, pi, q, s1 - si) <==>
      && (forall j: nat :: si <= j < s1 ==> TakesOne(env, j, pi))
      && (q == '+' ==> s1 > si) && (q == '?' ==> s1 <= si + 1) && (q != '-' ==> !BrokenSet(env.p, pi))
  {
    hide Single, TakesOne, BrokenSet;
    forall j: nat ensures Single(env, j, pi) == Hit <==> TakesOne(env, j, pi) { SingleIff(env, j, pi); }
    SingleIff(env, si, pi);
  }

  lemma LinkSingle(env: Env, si: nat, pi: nat, caps: seq<Capture>)
    requires IsSingle(env.p, pi)
    ensures LinkMeans(env, si, pi, caps)
  {
    hide Single, ClassEnd, TakesOne, TakesChars, BrokenSet, ItemText, FrontierAt, BackReferenceAt, Count;
    ClassEndIff(env.p, pi);
    SingleIff(env, si, pi);
    var r := ClassEnd(env.p, pi);
    assert ItemAt(env, si, pi, caps) == SimpleAt(env, si, pi);
    if r.Ends? {
      forall s1: nat, p1: nat
        ensures TakesChars(env, si, pi, s1, p1) <==>
          if r.ep < |env.p| && env.p[r.ep] in "*+-?" then
            p1 == r.ep + 1 && si <= s1 && Count(env, si, pi, env.p[r.ep], s1 - si)
          else p1 == r.ep && s1 == si + 1 && Single(env, si, pi) == Hit
      {
        TakesUpTo(env, si, pi, r.ep, s1, p1);
        if si <= s1 && r.ep < |env.p| && env.p[r.ep] in "*+-?" { CountIff(env, si, pi, env.p[r.ep], s1); }
      }
    } else {
      if env.p[pi] != '[' { SomeItem(env.p, pi); }
      forall s1: nat, p1: nat ensures !TakesChars(env, si, pi, s1, p1) { NoItemNoChars(env, si, pi, s1, p1); }
    }
  }

  lemma NoItemNoChars(env: Env, si: nat, pi: nat, s1: nat, p1: nat)
    requires pi < |env.p| && forall ep: nat :: !ItemText(env.p, pi, ep)
    ensures !TakesChars(env, si, pi, s1, p1)
  {
  }

  lemma LinkPlain(env: Env, si: nat, pi: nat, caps: seq<Capture>)
    requires pi >= |env.p| || env.p[pi] == '(' || (pi + 1 == |env.p| && (env.p[pi] == '$' || env.p[pi] == '%'))
    ensures LinkMeans(env, si, pi, caps)
  {
  }

  lemma LinkIff(env: Env, si: nat, pi: nat, caps: seq<Capture>)
    requires pi <= |env.p|
    ensures LinkMeans(env, si, pi, caps)
  {
    hide LinkMeans;
    var p := env.p;
    if pi == |p| || p[pi] == '(' || (pi + 1 == |p| && (p[pi] == '$' || p[pi] == '%')) {
      LinkPlain(env, si, pi, caps);
    } else if p[pi] == ')' {
      LinkClose(env, si, pi, caps);
    } else if p[pi] == '%' && p[pi + 1] == 'b' {
      LinkBalance(env, si, pi, caps);
    } else if p[pi] == '%' && p[pi + 1] == 'f' {
      LinkFrontier(env, si, pi, caps);
    } else if p[pi] == '%' && '0' <= p[pi + 1] <= '9' {
      LinkBack(env, si, pi, caps);
    } else {
      LinkSingle(env, si, pi, caps);
    }
  }

  // ------------------------------------------------------------ the whole list

  /** Whatever a script replays to is derived. */
  lemma {:induction false} ReplayDerives(env: Env, si: nat, pi: nat, caps: seq<Capture>, w: seq<nat>)
    requires pi <= |env.p| && Replay(env, si, pi, caps, w).Some?
    ensures Derives(env, si, pi, caps, Replay(env, si, pi, caps, w).value)
    decreases |env.p| - pi
  {
    hide LinkAt, Single, Count, Leads, Stops;
    LinkIff(env, si, pi, caps);
    match LinkAt(env, si, pi, caps) {
      case Stop(_) =>
      case Go(s1, p1, c1) =>
        ReplayDerives(env, s1, p1, c1, w);
      case Choose(q, ep) =>
        if w != [] {
          assert Leads(env, si, pi, caps, si + w[0], ep + 1, caps);
          ReplayDerives(env, si + w[0], ep + 1, caps, w[1..]);
        }
    }
  }

  /** Whatever is derived, some script replays to. */
  lemma {:induction false} DerivedReplays(env: Env, si: nat, pi: nat, caps: seq<Capture>, o: Outcome)
    returns (w: seq<nat>)
    requires pi <= |env.p| && Derives(env, si, pi, caps, o)
    ensures Replay(env, si, pi, caps, w) == Some(o)
    decreases |env.p| - pi
  {
    hide LinkAt, Single, Count, Leads, Stops;
    LinkIff(env, si, pi, caps);
    w := [];
    if !Stops(env, si, pi, caps, o) {
      var s1: nat, p1: nat, c1 :|
        Leads(env, si, pi, caps, s1, p1, c1) && pi < p1 <= |env.p| && Derives(env, s1, p1, c1, o);
      w := DerivedReplays(env, s1, p1, c1, o);
      var l := LinkAt(env, si, pi, caps);
      if l.Choose? {
        var rest := w;
        w := [s1 - si] + rest;
        assert w[1..] == rest && si + w[0] == s1;
      }
    }
  }

  /** The priority list holds exactly what is derived, matches and errors alike. */
  lemma ListedIffDerived(env: Env, si: nat, pi: nat, caps: seq<Capture>, o: Outcome)
    requires pi <= |env.p|
    ensures o in Free(env, si, pi, caps) <==> Derives(env, si, pi, caps, o)
  {
    hide Free, Replay, Derives;
    if o in Free(env, si, pi, caps) {
      var w := ListedHasScript(env, si, pi, caps, o);
      ReplayDerives(env, si, pi, caps, w);
    }
    if Derives(env, si, pi, caps, o) {
      var w := DerivedReplays(env, si, pi, caps, o);
      ScriptListed(env, si, pi, caps, w);
    }
  }
}
