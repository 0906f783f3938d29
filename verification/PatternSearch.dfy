/** Searching with patterns and global substitution on top of the matcher. */
module PatternSearch {
  import opened Common
  import opened Pattern
  import opened PatternProps
  import opened PatternScripts
  import opened PatternMatcher
  import opened PatternMeaning

  /** The matcher's list at a subject position, with a full budget and no captures. */
  function Matches(env: Env, si: nat, pi: nat): seq<Outcome> {
    Nested(env, MAX_DEPTH, si, pi, [])
  }

  /** Below 200 pattern bytes, the matcher's verdict is that of the preferred
      script: No exactly when no script is valid, otherwise the outcome of a
      script preferred to every valid one, and never "pattern too complex". */
  lemma VerdictOfPreferredScript(env: Env, si: nat, pi: nat, before: seq<Capture>, r: Verdict, end: nat,
                                 caps: seq<Capture>)
    returns (w: seq<nat>)
    requires |env.p| < 200 && pi <= |env.p|
    requires Meets(Nested(env, MAX_DEPTH, si, pi, before), r, end, caps, before)
    ensures r != Panic(TooComplex)
    ensures r == No <==> forall v :: Replay(env, si, pi, before, v) == None
    ensures r == No ==> caps == before
    ensures r == Yes ==> Replay(env, si, pi, before, w) == Some(Found(end, caps))
    ensures r.Panic? ==> Replay(env, si, pi, before, w) == Some(Fault(r.error))
    ensures r != No ==> forall v :: Replay(env, si, pi, before, v).Some? ==> Prefers(env, si, pi, before, w, v)
  {
    hide Outcomes, Replay, Prefers;
    BudgetSuffices(env, MAX_DEPTH - 1, |env.p|, si, pi, before);
    assert Nested(env, MAX_DEPTH, si, pi, before) == Free(env, si, pi, before);
    if r == No {
      w := [];
      forall v ensures Replay(env, si, pi, before, v) == None {
        if Replay(env, si, pi, before, v).Some? { ScriptListed(env, si, pi, before, v); }
      }
    } else {
      w := FirstIsPreferred(env, si, pi, before);
    }
  }

  /** Below 200 pattern bytes, the matcher says yes only where a match is derived from the texts, and raises only an
      error that is; it says no exactly where nothing is derived. */
  lemma VerdictIsDerived(env: Env, si: nat, pi: nat, before: seq<Capture>, r: Verdict, end: nat, caps: seq<Capture>)
    requires |env.p| < 200 && pi <= |env.p|
    requires Meets(Nested(env, MAX_DEPTH, si, pi, before), r, end, caps, before)
    ensures r == No <==> forall o :: !Derives(env, si, pi, before, o)
    ensures r == Yes ==> Derives(env, si, pi, before, Found(end, caps))
    ensures r.Panic? ==> Derives(env, si, pi, before, Fault(r.error))
  {
    hide Outcomes, Derives;
    BudgetSuffices(env, MAX_DEPTH - 1, |env.p|, si, pi, before);
    var list := Nested(env, MAX_DEPTH, si, pi, before);
    assert list == Free(env, si, pi, before);
    forall o ensures o in list <==> Derives(env, si, pi, before, o) { ListedIffDerived(env, si, pi, before, o); }
    if list != [] { assert list[0] in list && Derives(env, si, pi, before, list[0]); }
  }

  /** The bound is the right one: so many opening parentheses are too complex from 200 on. */
  lemma TooComplexFrom200(env: Env, si: nat)
    requires forall i :: 0 <= i < |env.p| ==> env.p[i] == '('
    ensures Matches(env, si, 0) == [Fault(TooComplex)] <==> |env.p| >= 200
  {
    ParenthesesExhaust(env, MAX_DEPTH - 1, si, 0, []);
  }

  /** A match never ends before it starts nor leaves the subject. */
  lemma MatchesWithin(env: Env, si: nat)
    requires si <= |env.s| && Matches(env, si, 0) != [] && Matches(env, si, 0)[0].Found?
    ensures si <= Matches(env, si, 0)[0].end <= |env.s|
    ensures Tidy(Matches(env, si, 0)[0].caps, Matches(env, si, 0)[0].end)
  {
    hide Nested;
    NestedWithin(env, MAX_DEPTH, si, 0, []);
    assert Within(env, si, 0, Matches(env, si, 0)[0]);
  }

  /** Leftmost search; `^` and the anchor argument allow only the start. */
  method Search(ms: MatchState, start: nat, anchor: bool) returns (r: Verdict)
    requires ms.depth == MAX_DEPTH
    modifies ms
    ensures r == No ==>
      forall i: nat :: start <= i <= SearchLast(ms.env, start, anchor) ==> Matches(ms.env, i, SearchFrom(ms.env)) == []
    ensures r != No ==> start <= ms.matchStart <= SearchLast(ms.env, start, anchor)
    ensures r != No ==> forall i: nat :: start <= i < ms.matchStart ==> Matches(ms.env, i, SearchFrom(ms.env)) == []
    ensures r != No ==> Meets(Matches(ms.env, ms.matchStart, SearchFrom(ms.env)), r, ms.matchEnd, ms.captures, [])
    ensures r != No ==> Leftmost(ms.env, start, anchor, ms.matchStart)
    ensures r == No <==> forall i: nat :: !Leftmost(ms.env, start, anchor, i)
    ensures start <= |ms.env.s| || !Anchored(ms.env, anchor) ==> r == No || ms.matchStart <= |ms.env.s|
  {
    hide Nested;
    var pi, last := SearchFrom(ms.env), SearchLast(ms.env, start, anchor);
    var i := start;
    while i <= last
      invariant start <= i && ms.depth == MAX_DEPTH
      invariant forall j: nat :: start <= j < i ==> Matches(ms.env, j, pi) == []
      decreases if i <= last then last - i + 1 else 0
    {
      ms.captures := [];
      ms.matchStart := i;
      r := ms.Match(i, pi);
      if r != No { return; }
      i := i + 1;
    }
    return No;
  }

  function SearchFrom(env: Env): nat { if env.p != [] && env.p[0] == '^' then 1 else 0 }

  function SearchLast(env: Env, start: nat, anchor: bool): nat {
    if anchor || SearchFrom(env) == 1 then start else |env.s|
  }

  predicate Anchored(env: Env, anchor: bool) { anchor || SearchFrom(env) == 1 }

  /** The start that a search reports: the first one allowed with an outcome. */
  ghost predicate Leftmost(env: Env, start: nat, anchor: bool, i: nat) {
    && start <= i <= SearchLast(env, start, anchor) && Matches(env, i, SearchFrom(env)) != []
    && forall j: nat :: start <= j < i ==> Matches(env, j, SearchFrom(env)) == []
  }

  /** Something is derived at position i, a leading `^` left out. */
  ghost predicate DerivedAt(env: Env, i: nat) {
    var from := if env.p != [] && env.p[0] == '^' then 1 else 0;
    exists o :: Derives(env, i, from, [], o)
  }

  /** In terms of the texts, below 200 pattern bytes: the first position from the start on where something is derived;
      with `^` or the anchor only the start itself, otherwise none past the subject. */
  lemma LeftmostIff(env: Env, start: nat, anchor: bool, i: nat)
    requires |env.p| < 200
    ensures Leftmost(env, start, anchor, i) <==>
      && start <= i && (if anchor || (env.p != [] && env.p[0] == '^') then i == start else i <= |env.s|)
      && DerivedAt(env, i) && forall j: nat :: start <= j < i ==> !DerivedAt(env, j)
  {
    hide Nested, Derives;
    forall j: nat ensures DerivedAt(env, j) <==> Matches(env, j, SearchFrom(env)) != [] {
      var list := Matches(env, j, SearchFrom(env));
      BudgetSuffices(env, MAX_DEPTH - 1, |env.p|, j, SearchFrom(env), []);
      assert list == Free(env, j, SearchFrom(env), []) by { NestedOutcomes(env, j, SearchFrom(env)); }
      forall o ensures o in list <==> Derives(env, j, SearchFrom(env), [], o) {
        ListedIffDerived(env, j, SearchFrom(env), [], o);
      }
      if list != [] { assert list[0] in list; }
    }
  }

  lemma NestedOutcomes(env: Env, si: nat, pi: nat)
    ensures Nested(env, MAX_DEPTH, si, pi, []) == Outcomes(env, MAX_DEPTH - 1, si, pi, [])
  {
  }

  /** A search reports a start past the end of the subject if and only if it
      begins there, is anchored, and the pattern has an outcome there. */
  lemma PastEndIff(env: Env, start: nat, anchor: bool)
    ensures (exists i: nat :: i > |env.s| && Leftmost(env, start, anchor, i)) <==>
      start > |env.s| && Anchored(env, anchor) && Matches(env, start, SearchFrom(env)) != []
  {
    hide Matches;
    if start > |env.s| && Anchored(env, anchor) && Matches(env, start, SearchFrom(env)) != [] {
      assert Leftmost(env, start, anchor, start);
    }
  }

  /** Such a search: "^" on any subject, from any start past its end. */
  lemma AnchorPastEnd(env: Env, start: nat)
    requires env.p == "^" && start > |env.s|
    ensures Leftmost(env, start, false, start)
    ensures Matches(env, start, SearchFrom(env)) == [Found(start, [])]
  {
    assert Outcomes(env, MAX_DEPTH - 1, start, 1, []) == [Found(start, [])];
  }

  // ------------------------------------------------------------- replacement

  datatype Result<T> = Ok(value: T) | MatchError(error: Error) | BadPercent | BadReplIndex(i: nat) | OpenCapture

  function Decimal(n: nat): string {
    if n < 10 then [Digit(n)] else Decimal(n / 10) + [Digit(n % 10)]
  }

  function Digit(n: nat): char
    requires n < 10
  {
    ('0' as int + n) as char
  }

  function CaptureText(s: string, c: Capture): Result<string> {
    match c.end
    case Position => Ok(Decimal(c.start + 1))
    case Unfinished => OpenCapture
    case At(e) => Ok(if c.start > e then "" else Sub(s, c.start, e - c.start))
  }

  /** What `%c` in a replacement string stands for. */
  function EscapeText(s: string, from: nat, to: nat, caps: seq<Capture>, c: char): Result<string> {
    if c == '%' then Ok("%")
    else if c == '0' then Ok(Sub(s, from, if to >= from then to - from else 0))
    else if '1' <= c <= '9' then
      var i: nat := c as int - '1' as int;
      if i < |caps| then CaptureText(s, caps[i])
      else if i == 0 then Ok(Sub(s, from, if to >= from then to - from else 0))
      else BadReplIndex(i + 1)
    else BadPercent
  }

  function Expand(s: string, from: nat, to: nat, caps: seq<Capture>, repl: string): Result<string> {
    if repl == [] then Ok("")
    else if repl[0] != '%' then Prepend(repl[..1], Expand(s, from, to, caps, repl[1..]))
    else if |repl| == 1 then BadPercent
    else
      var t := EscapeText(s, from, to, caps, repl[1]);
      if t.Ok? then Prepend(t.value, Expand(s, from, to, caps, repl[2..])) else t
  }

  function Prepend(t: string, r: Result<string>): Result<string> {
    if r.Ok? then Ok(t + r.value) else r
  }

  method ExpandRepl(s: string, from: nat, to: nat, caps: seq<Capture>, repl: string) returns (r: Result<string>)
    ensures r == Expand(s, from, to, caps, repl)
  {
    var out, i := "", 0;
    PrependNothing(Expand(s, from, to, caps, repl));
    assert repl[0..] == repl;
    while i < |repl|
      invariant i <= |repl|
      invariant Expand(s, from, to, caps, repl) == Prepend(out, Expand(s, from, to, caps, repl[i..]))
    {
      if repl[i] == '%' {
        if i + 1 >= |repl| { return BadPercent; }
        var t := EscapeText(s, from, to, caps, repl[i + 1]);
        assert repl[i..][2..] == repl[i + 2..];
        if !t.Ok? { return t; }
        PrependTwice(out, t.value, Expand(s, from, to, caps, repl[i + 2..]));
        out, i := out + t.value, i + 2;
      } else {
        assert repl[i..][..1] == [repl[i]] && repl[i..][1..] == repl[i + 1..];
        PrependTwice(out, [repl[i]], Expand(s, from, to, caps, repl[i + 1..]));
        out, i := out + [repl[i]], i + 1;
      }
    }
    assert repl[i..] == [];
    assert out + "" == out;
    return Ok(out);
  }

  lemma PrependNothing(r: Result<string>)
    ensures Prepend("", r) == r
  {
    if r.Ok? { assert "" + r.value == r.value; }
  }

  lemma PrependTwice(a: string, b: string, r: Result<string>)
    ensures Prepend(a, Prepend(b, r)) == Prepend(a + b, r)
  {
    if r.Ok? { assert a + (b + r.value) == (a + b) + r.value; }
  }

  /** A replacement: a template, or a function of the match (a Lua function or
      table whose result was turned into text). */
  datatype Repl = Template(text: string) | Hook(f: (nat, nat, seq<Capture>) -> Result<string>)

  function Replacement(s: string, repl: Repl, from: nat, to: nat, caps: seq<Capture>): Result<string> {
    match repl
    case Template(text) => Expand(s, from, to, caps, text)
    case Hook(f) => f(from, to, caps)
  }

  // -------------------------------------------------------------------- gsub

  /** A substitution as a tiling of the subject: single characters copied and
      matched stretches replaced. */
  datatype Piece = Copy(at: nat) | Swap(from: nat, to: nat, text: string)

  function End(ps: seq<Piece>): nat {
    if ps == [] then 0 else match ps[|ps| - 1] case Copy(at) => at + 1 case Swap(_, to, _) => to
  }

  function LastMatch(ps: seq<Piece>): int {
    if ps == [] then -1
    else match ps[|ps| - 1] case Copy(_) => LastMatch(ps[..|ps| - 1]) case Swap(_, to, _) => to
  }

  function Swaps(ps: seq<Piece>): nat {
    if ps == [] then 0 else Swaps(ps[..|ps| - 1]) + (if ps[|ps| - 1].Swap? then 1 else 0)
  }

  function OutputOf(s: string, q: Piece): string {
    match q case Copy(at) => Sub(s, at, 1) case Swap(_, _, text) => text
  }

  function Output(s: string, ps: seq<Piece>): string {
    if ps == [] then ""
    else Output(s, ps[..|ps| - 1]) + OutputOf(s, ps[|ps| - 1])
  }

  /** The piece that must follow a tiling ending at pos whose last match ended
      at last: the best match there unless it is empty and touches the last
      one, otherwise one copied character. */
  ghost predicate Follows(env: Env, repl: Repl, pos: nat, last: int, q: Piece) {
    var m := Matches(env, pos, 0);
    if m != [] && (m[0].Fault? || m[0].end != last) then
      && m[0].Found?
      && q.Swap? && q.from == pos && q.to == m[0].end
      && Replacement(env.s, repl, pos, q.to, m[0].caps) == Ok(q.text)
    else
      q == Copy(pos) && pos < |env.s|
  }

  ghost predicate Tiling(env: Env, repl: Repl, ps: seq<Piece>) {
    || ps == []
    || (&& Tiling(env, repl, ps[..|ps| - 1])
        && Follows(env, repl, End(ps[..|ps| - 1]), LastMatch(ps[..|ps| - 1]), ps[|ps| - 1]))
  }

  /** No piece can follow. */
  ghost predicate Exhausted(env: Env, pos: nat, last: int) {
    var m := Matches(env, pos, 0);
    pos >= |env.s| && (m == [] || (m[0].Found? && m[0].end == last))
  }

  /** Substitution on the subject env.s with the pattern body env.p. It always
      ends; the result tiles the subject with the pieces the matcher dictates,
      until the limit, the anchor or the end of the subject stops it. */
  method GSub(env: Env, anchor: bool, repl: Repl, limit: int)
    returns (r: Result<string>, count: nat, ghost ps: seq<Piece>)
    ensures Tiling(env, repl, ps) && End(ps) <= |env.s| && count == Swaps(ps)
    ensures r.Ok? ==> r.value == Output(env.s, ps) + env.s[End(ps)..]
    ensures r.Ok? ==> count >= limit || (anchor && |ps| == 1) || Exhausted(env, End(ps), LastMatch(ps))
    ensures anchor ==> |ps| <= 1
    ensures count <= if limit < 0 then 0 else limit
    ensures !r.Ok? ==>
      count < limit && var m := Matches(env, End(ps),
                                        0); m != [] && (if m[0].Fault? then r == MatchError(m[0].error)
                                          else r == Replacement(env.s, repl, End(ps), m[0].end, m[0].caps))
  {
    hide Nested, Expand, Matches, Follows, Tiling, Output, Swaps, LastMatch, End, Exhausted, Replacement;
    var out, src, lastMatch: int := "", 0, -1;
    count, ps := 0, [];
    NoPieces(env, repl);
    while count < limit
      invariant Tiling(env, repl, ps) && src == End(ps) <= |env.s| && lastMatch == LastMatch(ps)
      invariant count == Swaps(ps) && out == Output(env.s, ps)
      invariant anchor ==> ps == []
      invariant count <= if limit < 0 then 0 else limit
      decreases |env.s| - src, if lastMatch == src then 0 else 1
    {
      var ms := new MatchState(env);
      var v := ms.Match(src, 0);
      MatchesAre(env, src);
      if v.Panic? { return MatchError(v.error), count, ps; }
      if v == Yes && ms.matchEnd != lastMatch {
        MatchesWithin(env, src);
        var t := Replace(env.s, repl, src, ms.matchEnd, ms.captures);
        if !t.Ok? { return t, count, ps; }
        MayReplace(env, repl, src, lastMatch, t.value);
        TilingGrows(env, repl, ps, Swap(src, ms.matchEnd, t.value));
        ps := ps + [Swap(src, ms.matchEnd, t.value)];
        count := count + 1;
        out := out + t.value;
        src, lastMatch := ms.matchEnd, ms.matchEnd;
      } else if src < |env.s| {
        MayCopy(env, repl, src, lastMatch);
        TilingGrows(env, repl, ps, Copy(src));
        ps := ps + [Copy(src)];
        out := out + [env.s[src]];
        src := src + 1;
      } else {
        NothingLeft(env, src, lastMatch);
        break;
      }
      if anchor { break; }
    }
    return Ok(out + env.s[src..]), count, ps;
  }

  method Replace(s: string, repl: Repl, from: nat, to: nat, caps: seq<Capture>) returns (t: Result<string>)
    ensures t == Replacement(s, repl, from, to, caps)
  {
    match repl {
      case Template(text) => t := ExpandRepl(s, from, to, caps, text);
      case Hook(f) => t := f(from, to, caps);
    }
  }

  lemma NoPieces(env: Env, repl: Repl)
    ensures Tiling(env, repl, []) && End([]) == 0 && LastMatch([]) == -1 && Swaps([]) == 0 && Output(env.s, []) == ""
  {
  }

  lemma MatchesAre(env: Env, si: nat)
    ensures Matches(env, si, 0) == Nested(env, MAX_DEPTH, si, 0, [])
  {
  }

  lemma MayReplace(env: Env, repl: Repl, pos: nat, last: int, text: string)
    requires var m := Matches(env, pos, 0);
      m != [] && m[0].Found? && m[0].end != last && Replacement(env.s, repl, pos, m[0].end, m[0].caps) == Ok(text)
    ensures Follows(env, repl, pos, last, Swap(pos, Matches(env, pos, 0)[0].end, text))
  {
  }

  lemma MayCopy(env: Env, repl: Repl, pos: nat, last: int)
    requires pos < |env.s|
    requires var m := Matches(env, pos, 0); m == [] || (m[0].Found? && m[0].end == last)
    ensures Follows(env, repl, pos, last, Copy(pos))
  {
  }

  lemma NothingLeft(env: Env, pos: nat, last: int)
    requires pos >= |env.s|
    requires var m := Matches(env, pos, 0); m == [] || (m[0].Found? && m[0].end == last)
    ensures Exhausted(env, pos, last)
  {
  }

  lemma TilingGrows(env: Env, repl: Repl, ps: seq<Piece>, q: Piece)
    requires Tiling(env, repl, ps) && Follows(env, repl, End(ps), LastMatch(ps), q)
    ensures Tiling(env, repl, ps + [q])
    ensures Swaps(ps + [q]) == Swaps(ps) + (if q.Swap? then 1 else 0)
    ensures LastMatch(ps + [q]) == if q.Swap? then q.to else LastMatch(ps)
    ensures Output(env.s, ps + [q]) == Output(env.s, ps) + OutputOf(env.s, q)
    ensures End(ps + [q]) == if q.Swap? then q.to else q.at + 1
  {
    assert (ps + [q])[..|ps|] == ps;
  }

  /** A tiling is determined by its length: there is one way to substitute. */
  lemma {:induction false} TilingUnique(env: Env, repl: Repl, ps: seq<Piece>, qs: seq<Piece>)
    requires Tiling(env, repl, ps) && Tiling(env, repl, qs) && |ps| == |qs|
    ensures ps == qs
  {
    hide Nested, Expand, Matches;
    if ps != [] {
      var n := |ps| - 1;
      TilingUnique(env, repl, ps[..n], qs[..n]);
      assert ps == ps[..n] + [ps[n]] && qs == qs[..n] + [qs[n]];
    }
  }

  /** At most one more match than characters passed, and a match may touch its
      predecessor only if it is not empty. */
  lemma {:induction false} SwapsBounded(env: Env, repl: Repl, ps: seq<Piece>)
    requires Tiling(env, repl, ps)
    ensures End(ps) <= |env.s| && LastMatch(ps) <= End(ps)
    ensures Swaps(ps) <= End(ps) + (if LastMatch(ps) == End(ps) then 1 else 0)
  {
    hide Nested, Expand, Matches, Replacement;
    if ps != [] {
      var n := |ps| - 1;
      SwapsBounded(env, repl, ps[..n]);
      if ps[n].Swap? { MatchesWithin(env, End(ps[..n])); }
    }
  }

  /** The default limit, one more than the subject's length, never cuts a
      substitution short. */
  lemma DefaultLimitIsNoLimit(env: Env, repl: Repl, ps: seq<Piece>, q: Piece)
    requires Tiling(env, repl, ps) && Swaps(ps) >= |env.s| + 1
    ensures !Follows(env, repl, End(ps), LastMatch(ps), q)
  {
    hide Nested, Expand, Matches;
    SwapsBounded(env, repl, ps);
    var m := Matches(env, |env.s|, 0);
    if m != [] && m[0].Found? { MatchesWithin(env, |env.s|); }
  }

  /** Replacing every match by itself rebuilds the subject. */
  lemma {:induction false} SelfReplacement(env: Env, repl: Repl, ps: seq<Piece>)
    requires Tiling(env, repl, ps)
    requires forall from: nat, to: nat, caps :: from <= to <= |env.s| ==>
      Replacement(env.s, repl, from, to, caps) == Ok(env.s[from..to])
    ensures End(ps) <= |env.s| && Output(env.s, ps) == env.s[..End(ps)]
  {
    hide Nested, Expand, Matches, Replacement, Swaps, Follows, OutputOf;
    SwapsBounded(env, repl, ps);
    if ps != [] {
      var n := |ps| - 1;
      var at := End(ps[..n]);
      SelfReplacement(env, repl, ps[..n]);
      SelfPiece(env, repl, at, LastMatch(ps[..n]), ps[n]);
      assert env.s[..at] + env.s[at..End(ps)] == env.s[..End(ps)];
    }
  }

  /** One piece that replaces a match by itself writes the text it covers. */
  lemma SelfPiece(env: Env, repl: Repl, pos: nat, last: int, q: Piece)
    requires pos <= |env.s| && Follows(env, repl, pos, last, q)
    requires forall from: nat, to: nat, caps :: from <= to <= |env.s| ==>
      Replacement(env.s, repl, from, to, caps) == Ok(env.s[from..to])
    ensures var end := if q.Swap? then q.to else q.at + 1;
      pos <= end <= |env.s| && OutputOf(env.s, q) == env.s[pos..end]
  {
    hide Nested, Expand, Matches, Replacement;
    if q.Swap? { MatchesWithin(env, pos); }
  }

  /** gsub with replacement "%0" returns the subject unchanged, for every
      pattern and limit, unless the pattern itself is in error. */
  method GSubWhole(env: Env, anchor: bool, limit: int) returns (r: Result<string>, count: nat)
    ensures r.Ok? ==> r.value == env.s
    ensures r.Ok? || r.MatchError?
    ensures count <= |env.s| + 1
  {
    hide Nested, Matches, Tiling, Exhausted;
    ghost var ps;
    r, count, ps := GSub(env, anchor, Template("%0"), limit);
    forall from: nat, to: nat, caps | from <= to <= |env.s|
      ensures Replacement(env.s, Template("%0"), from, to, caps) == Ok(env.s[from..to])
    {
      WholeExpands(env.s, from, to, caps);
    }
    SwapsBounded(env, Template("%0"), ps);
    SelfReplacement(env, Template("%0"), ps);
    if !r.Ok? && Matches(env, End(ps), 0)[0].Found? {
      MatchesWithin(env, End(ps));
    }
  }

  lemma WholeExpands(s: string, from: nat, to: nat, caps: seq<Capture>)
    requires from <= to <= |s|
    ensures Expand(s, from, to, caps, "%0") == Ok(s[from..to])
  {
    assert "%0"[2..] == "";
    assert s[from..to] + "" == s[from..to];
  }
}
