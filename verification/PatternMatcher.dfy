/** The backtracking matcher: one mutable capture list, undone on failure, and
    a recursion budget. It returns the first outcome of the priority list. */
module PatternMatcher {
  import opened Common
  import opened Pattern

  datatype Verdict = Yes | No | Panic(error: Error)

  const MAX_DEPTH: nat := 200

  /** The verdict, match end and captures are those of the best outcome; with
      no outcome at all the captures are as before the call. */
  ghost predicate Meets(o: seq<Outcome>, r: Verdict, end: nat, caps: seq<Capture>, before: seq<Capture>) {
    match r
    case Yes => |o| > 0 && o[0] == Found(end, caps)
    case No => o == [] && caps == before
    case Panic(e) => |o| > 0 && o[0] == Fault(e)
  }

  class MatchState {
    const env: Env
    var matchStart: nat
    var matchEnd: nat
    var depth: nat
    var captures: seq<Capture>

    constructor (env: Env)
      ensures this.env == env && depth == MAX_DEPTH && captures == [] && matchStart == 0 && matchEnd == 0
    {
      this.env := env;
      matchStart, matchEnd, depth, captures := 0, 0, MAX_DEPTH, [];
    }

    /** Scans a bracket class for character c. */
    method MatchBracketClass(c: char, pi: nat) returns (m: Member)
      ensures m == Bracket(env, c, pi)
    {
      if pi >= |env.p| || env.p[pi] != '[' {
        return Short;
      }
      var k: nat := pi + 1;
      var negate := k < |env.p| && env.p[k] == '^';
      if negate { k := k + 1; }
      if k >= |env.p| {
        return Short;
      }
      ghost var all := Elements(env, c, k);
      var found := false;
      while true
        invariant k < |env.p| && all == AddHit(found, Elements(env, c, k))
        decreases |env.p| - k
      {
        var hit, next := Element(c, k);
        found, k := found || hit, next;
        if k >= |env.p| { return Bad; }
        if env.p[k] == ']' { break; }
      }
      return In(if negate then !found else found, k + 1);
    }

    /** One element of a bracket class: does it contain c, and where does it end? */
    method Element(c: char, k: nat) returns (hit: bool, next: nat)
      requires k < |env.p|
      ensures hit == ElementHas(env, c, k) && next == ElementEnd(env.p, k)
    {
      if env.p[k] == '%' && k + 1 < |env.p| {
        return env.cls(c, env.p[k + 1]), k + 2;
      }
      var lo := env.p[k];
      next := k + 1;
      var hi := lo;
      if next < |env.p| && env.p[next] == '-' && next + 1 < |env.p| && env.p[next + 1] != ']' {
        hi := env.p[next + 1];
        next := next + 2;
      }
      hit := lo <= c <= hi;
    }

    method SingleMatch(si: nat, pi: nat) returns (t: Test)
      ensures t == Single(env, si, pi)
    {
      if pi >= |env.p| { return Miss; }
      if env.p[pi] == '.' { return if si < |env.s| then Hit else Miss; }
      if env.p[pi] == '%' {
        if pi + 1 >= |env.p| { return Miss; }
        if si >= |env.s| { return Miss; }
        return if env.cls(env.s[si], env.p[pi + 1]) then Hit else Miss;
      }
      if env.p[pi] == '[' {
        if si >= |env.s| {
          var m := MatchBracketClass(NUL, pi);
          return if m.Bad? then Broken else Miss;
        }
        var m := MatchBracketClass(env.s[si], pi);
        return match m case Bad => Broken case Short => Miss case In(hit, _) => if hit then Hit else Miss;
      }
      return if si < |env.s| && env.s[si] == env.p[pi] then Hit else Miss;
    }

    method FindClassEnd(pi: nat) returns (r: Ending)
      requires pi < |env.p|
      ensures r == ClassEnd(env.p, pi)
    {
      if env.p[pi] == '%' {
        return if pi + 1 >= |env.p| then Malformed(EndsWithPercent) else Ends(pi + 2);
      }
      if env.p[pi] != '[' {
        return Ends(pi + 1);
      }
      var k: nat := pi + 1;
      if k < |env.p| && env.p[k] == '^' { k := k + 1; }
      while true
        invariant k <= |env.p| && ClassEnd(env.p, pi) == SkipElements(env.p, k)
        decreases |env.p| - k
      {
        if k >= |env.p| { return Malformed(MissingBracket); }
        if env.p[k] == '%' && k + 1 < |env.p| { k := k + 2; } else { k := k + 1; }
        if k >= |env.p| { return Malformed(MissingBracket); }
        if env.p[k] == ']' { return Ends(k + 1); }
      }
    }

    method MaxExpand(si: nat, pi: nat, ep: nat) returns (r: Verdict)
      requires pi < ep < |env.p|
      modifies this`matchEnd, this`depth, this`captures
      ensures Meets(Greedy(env, old(depth), si, Run(env, si, pi), ep + 1, old(captures)), r, matchEnd, captures,
                    old(captures))
      ensures !r.Panic? ==> depth == old(depth)
      decreases |env.p| - ep, 0
    {
      var i: nat := 0;
      while true
        invariant depth == old(depth) && captures == old(captures)
        invariant Run(env, si, pi) == if Run(env, si + i, pi) < 0 then -1 else i + Run(env, si + i, pi)
        decreases if si + i <= |env.s| then |env.s| - (si + i) + 1 else 0
      {
        var t := SingleMatch(si + i, pi);
        if t == Broken { return Panic(MissingBracket); }
        if t == Miss { break; }
        i := i + 1;
      }
      ghost var all := Greedy(env, depth, si, i, ep + 1, captures);
      while true
        invariant depth == old(depth) && captures == old(captures)
        invariant all == Greedy(env, depth, si, i, ep + 1, captures)
        decreases i
      {
        r := Match(si + i, ep + 1);
        if r != No { return; }
        if i == 0 { return; }
        i := i - 1;
      }
    }

    method MinExpand(start: nat, pi: nat, ep: nat) returns (r: Verdict)
      requires pi < ep < |env.p|
      modifies this`matchEnd, this`depth, this`captures
      ensures Meets(Lazy(env, old(depth), start, pi, ep + 1, old(captures)), r, matchEnd, captures, old(captures))
      ensures !r.Panic? ==> depth == old(depth)
      decreases |env.p| - ep, 0
    {
      var si := start;
      while true
        invariant depth == old(depth) && captures == old(captures)
        invariant Lazy(env, depth, start, pi, ep + 1, captures) == Lazy(env, depth, si, pi, ep + 1, captures)
        decreases if si <= |env.s| then |env.s| - si + 1 else 0
      {
        r := Match(si, ep + 1);
        if r != No { return; }
        var t := SingleMatch(si, pi);
        if t == Broken { return Panic(MissingBracket); }
        if t == Miss { return; }
        si := si + 1;
      }
    }

    method StartCapture(si: nat, pi: nat, position: bool) returns (r: Verdict)
      requires 0 < pi <= |env.p|
      modifies this`matchEnd, this`depth, this`captures
      ensures var begun := Capture(si, if position then Position else Unfinished);
        Meets(Nested(env, old(depth), si, pi, old(captures) + [begun]), r, matchEnd, captures, old(captures))
      ensures !r.Panic? ==> depth == old(depth)
      decreases |env.p| - pi, 5
    {
      captures := captures + [Capture(si, if position then Position else Unfinished)];
      r := Match(si, pi);
      if r == No {
        captures := captures[..|captures| - 1];
      }
    }

    method EndCapture(si: nat, pi: nat) returns (r: Verdict)
      requires 0 < pi <= |env.p|
      modifies this`matchEnd, this`depth, this`captures
      ensures LastOpen(old(captures)) < 0 ==> r == Panic(BadCapture)
      ensures var l := LastOpen(old(captures));
        l >= 0 ==> Meets(Nested(env, old(depth), si, pi, Closed(old(captures), l, si)), r, matchEnd, captures,
                         old(captures))
      ensures !r.Panic? ==> depth == old(depth)
      decreases |env.p| - pi, 5
    {
      var i := |captures| - 1;
      while i >= 0
        invariant -1 <= i < |captures|
        invariant depth == old(depth) && captures == old(captures)
        invariant forall j :: i < j < |captures| ==> captures[j].end != Unfinished
      {
        if captures[i].end == Unfinished {
          assert i == LastOpen(captures);
          captures := captures[i := captures[i].(end := At(si))];
          r := Match(si, pi);
          if r == No {
            captures := captures[i := captures[i].(end := Unfinished)];
            assert captures == old(captures);
          }
          return;
        }
        i := i - 1;
      }
      return Panic(BadCapture);
    }

    method MatchBalance(si: nat, pi: nat) returns (r: Verdict)
      requires 1 < pi <= |env.p|
      modifies this`matchEnd, this`depth, this`captures
      ensures pi + 1 >= |env.p| ==> r == Panic(MissingBalance)
      ensures pi + 1 < |env.p| ==>
        Meets(Balanced(env, old(depth), si, pi, old(captures)), r, matchEnd, captures, old(captures))
      ensures !r.Panic? ==> depth == old(depth)
      decreases |env.p| - pi, 5
    {
      if pi + 1 >= |env.p| { return Panic(MissingBalance); }
      var open, close := env.p[pi], env.p[pi + 1];
      if si >= |env.s| || env.s[si] != open { return No; }
      var level: nat, j := 1, si + 1;
      while j < |env.s|
        invariant level > 0 && j <= |env.s|
        invariant depth == old(depth) && captures == old(captures)
        invariant BalanceEnd(env.s, si + 1, 1, open, close) == BalanceEnd(env.s, j, level, open, close)
      {
        if env.s[j] == close {
          level := level - 1;
          if level == 0 {
            r := Match(j + 1, pi + 2);
            return;
          }
        } else if env.s[j] == open {
          level := level + 1;
        }
        j := j + 1;
      }
      return No;
    }

    /** %f: the set must not contain the previous character and must contain
        the current one, with NUL at both ends of the subject. */
    method Frontier(si: nat, pi: nat) returns (it: Item)
      requires pi + 1 < |env.p|
      ensures it == FrontierAt(env, si, pi)
    {
      if pi + 2 >= |env.p| || env.p[pi + 2] != '[' { return Raise(MissingFrontier); }
      var before := MatchBracketClass(Previous(env, si), pi + 2);
      if before.Bad? { return Raise(MissingBracket); }
      var here := MatchBracketClass(Current(env, si), pi + 2);
      if here.Bad? { return Raise(MissingBracket); }
      if (before.In? && before.hit) || !(here.In? && here.hit) { return Dead; }
      return Jump(si, here.ep);
    }

    /** %1 to %9: the text of a closed capture again. */
    method BackReference(si: nat, pi: nat) returns (it: Item)
      requires pi + 1 < |env.p| && '1' <= env.p[pi + 1] <= '9'
      ensures it == BackReferenceAt(env, si, pi, captures)
    {
      var cap := env.p[pi + 1] as int - '1' as int;
      if cap >= |captures| || !captures[cap].end.At? { return Raise(BadIndex(cap)); }
      var len := CaptureLength(captures, cap);
      if si + len > |env.s| { return Dead; }
      if Sub(env.s, si, len) != Sub(env.s, captures[cap].start, len) { return Dead; }
      return Jump(si + len, pi + 2);
    }

    /** A single character class with or without a quantifier. */
    method Simple(si: nat, pi: nat) returns (it: Item)
      requires pi < |env.p|
      ensures it == SimpleAt(env, si, pi)
    {
      var ending := FindClassEnd(pi);
      if ending.Malformed? { return Raise(ending.error); }
      var ep := ending.ep;
      if ep < |env.p| && env.p[ep] in "*+-?" { return Quantified(env.p[ep], ep); }
      var t := SingleMatch(si, pi);
      return match t case Broken => Raise(MissingBracket) case Miss => Dead case Hit => Jump(si + 1, ep);
    }

    /** The loop of the matcher, inside its depth guard. */
    method MatchHere(start: nat, from: nat) returns (r: Verdict)
      requires from <= |env.p|
      modifies this`matchEnd, this`depth, this`captures
      ensures Meets(Outcomes(env, old(depth), start, from, old(captures)), r, matchEnd, captures, old(captures))
      ensures !r.Panic? ==> depth == old(depth)
      decreases |env.p| - from, 3
    {
      hide FrontierAt, BackReferenceAt, SimpleAt, Choices, Balanced, Nested, Bracket;
      var si: nat, pi: nat := start, from;
      while true
        invariant from <= pi <= |env.p|
        invariant depth == old(depth) && captures == old(captures)
        invariant Outcomes(env, depth, start, from, captures) == Outcomes(env, depth, si, pi, captures)
        decreases |env.p| - pi
      {
        if pi >= |env.p| {
          matchEnd := si;
          return Yes;
        }
        var c := env.p[pi];
        if c == '(' {
          if pi + 1 < |env.p| && env.p[pi + 1] == ')' {
            r := StartCapture(si, pi + 2, true);
          } else {
            r := StartCapture(si, pi + 1, false);
          }
          return;
        }
        if c == ')' {
          r := EndCapture(si, pi + 1);
          return;
        }
        if c == '$' && pi + 1 == |env.p| {
          if si >= |env.s| {
            matchEnd := si;
            return Yes;
          }
          return No;
        }
        if c == '%' {
          if pi + 1 >= |env.p| { return Panic(EndsWithPercent); }
          var spec := env.p[pi + 1];
          if spec == 'b' {
            r := MatchBalance(si, pi + 2);
            return;
          }
          if spec == 'f' {
            var it := Frontier(si, pi);
            if it.Raise? { return Panic(it.error); }
            if it.Dead? { return No; }
            pi := it.next;
            continue;
          }
          if '1' <= spec <= '9' {
            var it := BackReference(si, pi);
            if it.Raise? { return Panic(it.error); }
            if it.Dead? { return No; }
            si, pi := it.si, pi + 2;
            continue;
          }
          if spec == '0' { return Panic(BadIndex(-1)); }
        }
        var it := Simple(si, pi);
        if it.Raise? { return Panic(it.error); }
        if it.Dead? { return No; }
        if it.Quantified? {
          r := Quantifier(si, pi, it.ep);
          return;
        }
        si, pi := it.si, it.next;
      }
    }

    /** The four suffixes of a single item. */
    method Quantifier(si: nat, pi: nat, ep: nat) returns (r: Verdict)
      requires pi < ep < |env.p| && env.p[ep] in "*+-?"
      modifies this`matchEnd, this`depth, this`captures
      ensures Meets(Choices(env, old(depth), si, pi, env.p[ep], ep, old(captures)), r, matchEnd, captures,
                    old(captures))
      ensures !r.Panic? ==> depth == old(depth)
      decreases |env.p| - pi, 2
    {
      var q := env.p[ep];
      if q == '*' {
        r := MaxExpand(si, pi, ep);
        return;
      }
      if q == '-' {
        r := MinExpand(si, pi, ep);
        return;
      }
      var t := SingleMatch(si, pi);
      if t == Broken { return Panic(MissingBracket); }
      if q == '+' {
        if t == Miss { return No; }
        r := MaxExpand(si + 1, pi, ep);
        return;
      }
      if t == Hit {
        r := Match(si + 1, ep + 1);
        if r != No { return; }
      }
      r := Match(si, ep + 1);
    }

    /** The matcher proper: the best outcome of the priority list, captures
        restored when there is none. */
    method Match(start: nat, from: nat) returns (r: Verdict)
      requires from <= |env.p|
      modifies this`matchEnd, this`depth, this`captures
      ensures Meets(Nested(env, old(depth), start, from, old(captures)), r, matchEnd, captures, old(captures))
      ensures !r.Panic? ==> depth == old(depth)
      decreases |env.p| - from, 4
    {
      if depth == 0 { return Panic(TooComplex); }
      depth := depth - 1;
      r := MatchHere(start, from);
      if !r.Panic? { depth := depth + 1; }
    }
  }

  function AddHit(found: bool, m: Member): Member {
    if m.In? then In(found || m.hit, m.ep) else m
  }
}
