/** What the priority list means: the recursion budget never shows for patterns
    below its size, captures stay inside the subject, and the list holds
    exactly the derivations, preferred ones first. */
module PatternProps {
  import opened Pattern

  // ------------------------------------------------------ recursion budget

  /** With at least as many nested calls left as pattern bytes, the budget has
      no effect and "pattern too complex" cannot occur. */
  lemma {:induction false} BudgetSuffices(env: Env, d: nat, e: nat, si: nat, pi: nat, caps: seq<Capture>)
    requires pi <= |env.p| && d >= |env.p| - pi && e >= |env.p| - pi
    ensures Outcomes(env, d, si, pi, caps) == Outcomes(env, e, si, pi, caps)
    ensures Fault(TooComplex) !in Outcomes(env, d, si, pi, caps)
    decreases |env.p| - pi, 1, 0
  {
    hide FrontierAt, BackReferenceAt, SimpleAt, Bracket, BalanceEnd, Run, LastOpen, Choices, Greedy, Lazy;
    var it := ItemAt(env, si, pi, caps);
    match it {
      case Open(position, next) =>
        BudgetSuffices(env, d - 1, e - 1, si, next, caps + [Capture(si, if position then Position else Unfinished)]);
      case Close(next) =>
        var i := LastOpen(caps);
        if i >= 0 { BudgetSuffices(env, d - 1, e - 1, si, next, Closed(caps, i, si)); }
      case Jump(to, next) =>
        BudgetSuffices(env, d, e, to, next, caps);
      case Balance(next) =>
        BalancedBudget(env, d, e, si, pi + 2, caps);
      case Quantified(q, ep) =>
        ChoicesBudget(env, d, e, si, pi, q, ep, caps);
      case Raise(x) =>
        RaisesNoBudget(env, si, pi, caps);
      case _ =>
    }
  }

  lemma {:induction false} BalancedBudget(env: Env, d: nat, e: nat, si: nat, pi: nat, caps: seq<Capture>)
    requires pi + 1 < |env.p| && d >= |env.p| - pi && e >= |env.p| - pi
    ensures Balanced(env, d, si, pi, caps) == Balanced(env, e, si, pi, caps)
    ensures Fault(TooComplex) !in Balanced(env, d, si, pi, caps)
    decreases |env.p| - pi, 0, 0
  {
    hide Outcomes, BalanceEnd;
    var end := BalanceEnd(env.s, si + 1, 1, env.p[pi], env.p[pi + 1]);
    if end >= 0 { BudgetSuffices(env, d - 1, e - 1, end, pi + 2, caps); }
  }

  lemma RaisesNoBudget(env: Env, si: nat, pi: nat, caps: seq<Capture>)
    ensures ItemAt(env, si, pi, caps) != Raise(TooComplex)
  {
    if pi < |env.p| && env.p[pi] == '[' { SkipNoBudget(env.p, if pi + 1 < |env.p|
      && env.p[pi + 1] == '^' then pi + 2 else pi + 1); }
  }

  lemma {:induction false} SkipNoBudget(p: string, k: nat)
    requires k <= |p|
    ensures SkipElements(p, k) != Malformed(TooComplex)
    decreases |p| - k
  {
    if k < |p| {
      var e := if p[k] == '%' && k + 1 < |p| then k + 2 else k + 1;
      if e < |p| { SkipNoBudget(p, e); }
    }
  }

  lemma {:induction false} ChoicesBudget(env: Env, d: nat, e: nat, si: nat, pi: nat, q: char, ep: nat,
                                         caps: seq<Capture>)
    requires pi < ep < |env.p| && d >= |env.p| - pi && e >= |env.p| - pi
    ensures Choices(env, d, si, pi, q, ep, caps) == Choices(env, e, si, pi, q, ep, caps)
    ensures Fault(TooComplex) !in Choices(env, d, si, pi, q, ep, caps)
    decreases |env.p| - pi, 0, 0
  {
    hide Outcomes, Single, Run, Greedy, Lazy, Nested;
    if q == '*' {
      GreedyBudget(env, d, e, si, Run(env, si, pi), ep + 1, caps);
    } else if q == '-' {
      LazyBudget(env, d, e, si, pi, ep + 1, caps);
    } else if q == '+' {
      GreedyBudget(env, d, e, si + 1, Run(env, si + 1, pi), ep + 1, caps);
    } else {
      OptionalBudget(env, d, e, si, ep + 1, caps);
    }
  }

  lemma {:induction false} OptionalBudget(env: Env, d: nat, e: nat, si: nat, next: nat, caps: seq<Capture>)
    requires next <= |env.p| && d > |env.p| - next && e > |env.p| - next
    ensures Nested(env, d, si, next, caps) == Nested(env, e, si, next, caps)
    ensures Nested(env, d, si + 1, next, caps) == Nested(env, e, si + 1, next, caps)
    ensures Fault(TooComplex) !in Nested(env, d, si, next, caps)
    ensures Fault(TooComplex) !in Nested(env, d, si + 1, next, caps)
    decreases |env.p| - next, 3, 0
  {
    hide Outcomes;
    BudgetSuffices(env, d - 1, e - 1, si, next, caps);
    BudgetSuffices(env, d - 1, e - 1, si + 1, next, caps);
  }

  lemma {:induction false} GreedyBudget(env: Env, d: nat, e: nat, si: nat, n: int, next: nat, caps: seq<Capture>)
    requires n >= -1 && next <= |env.p| && d > |env.p| - next && e > |env.p| - next
    ensures Greedy(env, d, si, n, next, caps) == Greedy(env, e, si, n, next, caps)
    ensures Fault(TooComplex) !in Greedy(env, d, si, n, next, caps)
    decreases |env.p| - next, 3, n + 1
  {
    hide Outcomes;
    if n >= 0 { BudgetSuffices(env, d - 1, e - 1, si + n, next, caps); }
    if n > 0 { GreedyBudget(env, d, e, si, n - 1, next, caps); }
  }

  lemma {:induction false} LazyBudget(env: Env, d: nat, e: nat, si: nat, pi: nat, next: nat, caps: seq<Capture>)
    requires next <= |env.p| && d > |env.p| - next && e > |env.p| - next
    ensures Lazy(env, d, si, pi, next, caps) == Lazy(env, e, si, pi, next, caps)
    ensures Fault(TooComplex) !in Lazy(env, d, si, pi, next, caps)
    decreases |env.p| - next, 3, if si <= |env.s| then |env.s| - si + 1 else 0
  {
    hide Outcomes, Single;
    BudgetSuffices(env, d - 1, e - 1, si, next, caps);
    if Single(env, si, pi) == Hit { LazyBudget(env, d, e, si + 1, pi, next, caps); }
  }

  /** The bound is tight: a pattern of opening parentheses uses one nested call
      for each, whatever the subject. */
  lemma {:induction false} ParenthesesExhaust(env: Env, d: nat, si: nat, pi: nat, caps: seq<Capture>)
    requires pi <= |env.p| && forall i :: pi <= i < |env.p| ==> env.p[i] == '('
    ensures (Outcomes(env, d, si, pi, caps) == [Fault(TooComplex)]) == (d < |env.p| - pi)
    decreases |env.p| - pi
  {
    if pi < |env.p| && d > 0 {
      ParenthesesExhaust(env, d - 1, si, pi + 1, caps + [Capture(si, Unfinished)]);
    }
  }

  // ------------------------------------------------- captures and positions

  /** Captures start and end in order, no later than position si. */
  ghost predicate Tidy(caps: seq<Capture>, si: nat) {
    forall i :: 0 <= i < |caps| ==> caps[i].start <= si && (caps[i].end.At? ==> caps[i].start <= caps[i].end.at <= si)
  }

  /** A match ends at or after its start, inside the subject if it started
      there, with tidy captures that extend the ones it began with. */
  ghost predicate Within(env: Env, si: nat, n: nat, o: Outcome) {
    o.Found? ==> si <= o.end && (si <= |env.s| ==> o.end <= |env.s|) && Tidy(o.caps, o.end) && n <= |o.caps|
  }

  ghost predicate AllWithin(env: Env, si: nat, n: nat, o: seq<Outcome>) {
    forall i :: 0 <= i < |o| ==> Within(env, si, n, o[i])
  }

  lemma WithinFrom(env: Env, si: nat, to: nat, n: nat, o: seq<Outcome>)
    requires AllWithin(env, to, n, o) && si <= to && (si <= |env.s| ==> to <= |env.s|)
    ensures AllWithin(env, si, n, o)
  {
  }

  lemma WithinConcat(env: Env, si: nat, n: nat, o: seq<Outcome>, r: seq<Outcome>)
    requires AllWithin(env, si, n, o) && AllWithin(env, si, n, r)
    ensures AllWithin(env, si, n, o + r)
  {
  }

  lemma {:induction false} OutcomesWithin(env: Env, d: nat, si: nat, pi: nat, caps: seq<Capture>)
    requires pi <= |env.p| && Tidy(caps, si)
    ensures AllWithin(env, si, |caps|, Outcomes(env, d, si, pi, caps))
    decreases |env.p| - pi, 1, 0
  {
    hide Within, FrontierAt, Bracket, BalanceEnd, Run, LastOpen, Choices;
    var it := ItemAt(env, si, pi, caps);
    match it {
      case Finish(ok) =>
        FoundWithin(env, si, caps);
      case Open(position, next) =>
        var more := caps + [Capture(si, if position then Position else Unfinished)];
        NestedWithin(env, d, si, next, more);
        WithinFewer(env, si, |more|, |caps|, Nested(env, d, si, next, more));
      case Close(next) =>
        var i := LastOpen(caps);
        if i >= 0 {
          NestedWithin(env, d, si, next, Closed(caps, i, si));
        } else {
          FaultWithin(env, si, |caps|, BadCapture);
        }
      case Jump(to, next) =>
        JumpInside(env, si, pi, caps);
        OutcomesWithin(env, d, to, next, caps);
        WithinFrom(env, si, to, |caps|, Outcomes(env, d, to, next, caps));
      case Balance(next) =>
        assert Outcomes(env, d, si, pi, caps) == Balanced(env, d, si, pi + 2, caps);
        if si < |env.s| && env.s[si] == env.p[pi + 2] {
          var e := BalanceEnd(env.s, si + 1, 1, env.p[pi + 2], env.p[pi + 3]);
          if e >= 0 {
            NestedWithin(env, d, e, next, caps);
            WithinFrom(env, si, e, |caps|, Nested(env, d, e, next, caps));
          }
        }
      case Quantified(q, ep) =>
        ChoicesWithin(env, d, si, pi, q, ep, caps);
      case Raise(e) =>
        FaultWithin(env, si, |caps|, e);
      case Dead =>
    }
  }

  lemma FaultWithin(env: Env, si: nat, n: nat, e: Error)
    ensures AllWithin(env, si, n, [Fault(e)])
  {
  }

  lemma FoundWithin(env: Env, si: nat, caps: seq<Capture>)
    requires Tidy(caps, si)
    ensures AllWithin(env, si, |caps|, [Found(si, caps)])
  {
  }

  lemma WithinFewer(env: Env, si: nat, n: nat, m: nat, o: seq<Outcome>)
    requires AllWithin(env, si, n, o) && m <= n
    ensures AllWithin(env, si, m, o)
  {
  }

  lemma JumpInside(env: Env, si: nat, pi: nat, caps: seq<Capture>)
    requires ItemAt(env, si, pi, caps).Jump?
    ensures var to := ItemAt(env, si, pi, caps).si; si <= |env.s| ==> to <= |env.s|
  {
  }

  lemma {:induction false} NestedWithin(env: Env, d: nat, si: nat, pi: nat, caps: seq<Capture>)
    requires pi <= |env.p| && Tidy(caps, si)
    ensures AllWithin(env, si, |caps|, Nested(env, d, si, pi, caps))
    decreases |env.p| - pi, 2, 0
  {
    if d > 0 { OutcomesWithin(env, d - 1, si, pi, caps); }
  }

  lemma {:induction false} ChoicesWithin(env: Env, d: nat, si: nat, pi: nat, q: char, ep: nat, caps: seq<Capture>)
    requires pi < ep < |env.p| && Tidy(caps, si)
    ensures AllWithin(env, si, |caps|, Choices(env, d, si, pi, q, ep, caps))
    decreases |env.p| - pi, 0, 0
  {
    hide Outcomes, Run, Greedy, Lazy, Nested, Within;
    FaultWithin(env, si, |caps|, MissingBracket);
    if q == '*' {
      GreedyWithin(env, d, si, Run(env, si, pi), pi, ep + 1, caps);
    } else if q == '-' {
      LazyWithin(env, d, si, pi, ep + 1, caps);
    } else if q == '+' {
      if Single(env, si, pi) == Hit {
        GreedyWithin(env, d, si + 1, Run(env, si + 1, pi), pi, ep + 1, caps);
        WithinFrom(env, si, si + 1, |caps|, Greedy(env, d, si + 1, Run(env, si + 1, pi), ep + 1, caps));
      }
    } else {
      NestedWithin(env, d, si, ep + 1, caps);
      if Single(env, si, pi) == Hit {
        NestedWithin(env, d, si + 1, ep + 1, caps);
        WithinFrom(env, si, si + 1, |caps|, Nested(env, d, si + 1, ep + 1, caps));
        WithinConcat(env, si, |caps|, Nested(env, d, si + 1, ep + 1, caps), Nested(env, d, si, ep + 1, caps));
      }
    }
  }

  lemma {:induction false} RunInside(env: Env, si: nat, pi: nat)
    ensures si <= |env.s| ==> si + Run(env, si, pi) <= |env.s|
    decreases |env.s| - si
  {
    if Single(env, si, pi) == Hit { RunInside(env, si + 1, pi); }
  }

  lemma {:induction false} GreedyWithin(env: Env, d: nat, si: nat, n: int, pi: nat, next: nat, caps: seq<Capture>)
    requires -1 <= n <= Run(env, si, pi) && next <= |env.p| && Tidy(caps, si)
    ensures AllWithin(env, si, |caps|, Greedy(env, d, si, n, next, caps))
    decreases |env.p| - next, 3, n + 1
  {
    hide Outcomes, Run, Within, Nested;
    FaultWithin(env, si, |caps|, MissingBracket);
    if n >= 0 {
      RunInside(env, si, pi);
      NestedWithin(env, d, si + n, next, caps);
      WithinFrom(env, si, si + n, |caps|, Nested(env, d, si + n, next, caps));
    }
    if n > 0 {
      GreedyWithin(env, d, si, n - 1, pi, next, caps);
      WithinConcat(env, si, |caps|, Nested(env, d, si + n, next, caps), Greedy(env, d, si, n - 1, next, caps));
    }
  }

  lemma {:induction false} LazyWithin(env: Env, d: nat, si: nat, pi: nat, next: nat, caps: seq<Capture>)
    requires next <= |env.p| && Tidy(caps, si)
    ensures AllWithin(env, si, |caps|, Lazy(env, d, si, pi, next, caps))
    decreases |env.p| - next, 3, if si <= |env.s| then |env.s| - si + 1 else 0
  {
    hide Outcomes, Single, Within, Nested;
    NestedWithin(env, d, si, next, caps);
    FaultWithin(env, si, |caps|, MissingBracket);
    var first := Nested(env, d, si, next, caps);
    match Single(env, si, pi) {
      case Hit =>
        LazyWithin(env, d, si + 1, pi, next, caps);
        WithinFrom(env, si, si + 1, |caps|, Lazy(env, d, si + 1, pi, next, caps));
        WithinConcat(env, si, |caps|, first, Lazy(env, d, si + 1, pi, next, caps));
      case Miss =>
      case Broken =>
        WithinConcat(env, si, |caps|, first, [Fault(MissingBracket)]);
    }
  }
}
