/** The meaning of Lua patterns: for a subject position and a pattern position,
    the list of all outcomes in priority order, with no state and no
    backtracking. */
module Pattern {
  import opened Common

  datatype CaptureEnd = Unfinished | Position | At(at: nat)
  datatype Capture = Capture(start: nat, end: CaptureEnd)

  datatype Error =
    | TooComplex
    | EndsWithPercent
    | MissingBracket
    | MissingBalance
    | MissingFrontier
    | BadCapture
    | BadIndex(cap: int)

  datatype Outcome = Found(end: nat, caps: seq<Capture>) | Fault(error: Error)

  /** A subject, a pattern, the character-class test of the C library, and
      the bytes that follow the subject in memory (read only by a frontier
      test that starts past the end). */
  datatype Env = Env(s: string, p: string, cls: (char, char) -> bool, beyond: nat -> char)

  // ------------------------------------------------------ bracket classes

  /** In: scanned to the closing bracket, which ends at `ep`. Short: the
      pattern stops right after the opening bracket. */
  datatype Member = In(hit: bool, ep: nat) | Short | Bad

  /** One element of a bracket class: a class escape, a range or a character.
      Yields the position after it. */
  function ElementEnd(p: string, k: nat): (e: nat)
    requires k < |p|
    ensures k < e <= |p|
  {
    if p[k] == '%' && k + 1 < |p| then k + 2
    else if k + 2 < |p| && p[k + 1] == '-' && p[k + 2] != ']' then k + 3
    else k + 1
  }

  predicate ElementHas(env: Env, c: char, k: nat)
    requires k < |env.p|
  {
    var p := env.p;
    if p[k] == '%' && k + 1 < |p| then env.cls(c, p[k + 1])
    else if k + 2 < |p| && p[k + 1] == '-' && p[k + 2] != ']' then p[k] <= c <= p[k + 2]
    else p[k] == c
  }

  /** Elements from k on, up to the closing bracket; the first element may
      itself be a closing bracket. */
  function Elements(env: Env, c: char, k: nat): (m: Member)
    requires k < |env.p|
    ensures !m.Short?
    ensures m.In? ==> k + 1 < m.ep <= |env.p| && env.p[m.ep - 1] == ']'
    decreases |env.p| - k
  {
    var e := ElementEnd(env.p, k);
    if e >= |env.p| then Bad
    else if env.p[e] == ']' then In(ElementHas(env, c, k), e + 1)
    else
      var rest := Elements(env, c, e);
      if rest.In? then In(ElementHas(env, c, k) || rest.hit, rest.ep) else rest
  }

  function Bracket(env: Env, c: char, pi: nat): (m: Member)
    ensures m.In? ==> pi + 2 < m.ep <= |env.p|
  {
    if pi >= |env.p| || env.p[pi] != '[' then Short
    else
      var negate := pi + 1 < |env.p| && env.p[pi + 1] == '^';
      var j := if negate then pi + 2 else pi + 1;
      if j >= |env.p| then Short
      else
        var m := Elements(env, c, j);
        if m.In? && negate then In(!m.hit, m.ep) else m
  }

  // ---------------------------------------------------------- single items

  datatype Test = Hit | Miss | Broken

  /** Does the character at si match the single item at pi? */
  function Single(env: Env, si: nat, pi: nat): (t: Test)
    ensures t == Hit ==> si < |env.s|
  {
    if pi >= |env.p| then Miss
    else if env.p[pi] == '.' then (if si < |env.s| then Hit else Miss)
    else if env.p[pi] == '%' then
      (if pi + 1 < |env.p| && si < |env.s| && env.cls(env.s[si], env.p[pi + 1]) then Hit else Miss)
    else if env.p[pi] == '[' then
      var m := Bracket(env, if si < |env.s| then env.s[si] else NUL, pi);
      if m.Bad? then Broken
      else if si < |env.s| && m.In? && m.hit then Hit else Miss
    else if si < |env.s| && env.s[si] == env.p[pi] then Hit else Miss
  }

  datatype Ending = Ends(ep: nat) | Malformed(error: Error)

  /** Where the elements of a bracket class end for the purpose of finding
      the next item: escapes count as two, ranges are not recognised. */
  function SkipElements(p: string, k: nat): (r: Ending)
    requires k <= |p|
    ensures r.Ends? ==> k < r.ep <= |p|
    decreases |p| - k
  {
    if k >= |p| then Malformed(MissingBracket)
    else
      var e := if p[k] == '%' && k + 1 < |p| then k + 2 else k + 1;
      if e >= |p| then Malformed(MissingBracket)
      else if p[e] == ']' then Ends(e + 1)
      else SkipElements(p, e)
  }

  function ClassEnd(p: string, pi: nat): (r: Ending)
    requires pi < |p|
    ensures r.Ends? ==> pi < r.ep <= |p|
  {
    if p[pi] == '%' then
      if pi + 1 >= |p| then Malformed(EndsWithPercent) else Ends(pi + 2)
    else if p[pi] == '[' then
      SkipElements(p, if pi + 1 < |p| && p[pi + 1] == '^' then pi + 2 else pi + 1)
    else Ends(pi + 1)
  }

  // --------------------------------------------------------------- captures

  /** The innermost capture still open, or -1. */
  function LastOpen(caps: seq<Capture>): (i: int)
    ensures -1 <= i < |caps|
    ensures i >= 0 ==> caps[i].end == Unfinished
    ensures forall j :: i < j < |caps| ==> caps[j].end != Unfinished
  {
    if caps == [] then -1
    else if caps[|caps| - 1].end == Unfinished then |caps| - 1
    else LastOpen(caps[..|caps| - 1])
  }

  function Closed(caps: seq<Capture>, i: nat, si: nat): seq<Capture>
    requires i < |caps|
  {
    caps[i := caps[i].(end := At(si))]
  }

  /** A substring, cut at the end of the subject. */
  function Sub(s: string, at: nat, len: nat): string {
    if at > |s| then [] else if at + len <= |s| then s[at..at + len] else s[at..]
  }

  /** Length of a closed capture; -1 if capture `cap` cannot be referred to. */
  function CaptureLength(caps: seq<Capture>, cap: int): int {
    if 0 <= cap < |caps| && caps[cap].end.At? then
      (if caps[cap].end.at >= caps[cap].start then caps[cap].end.at - caps[cap].start else 0)
    else -1
  }

  /** The text at si repeats the text at a. */
  predicate Repeats(s: string, si: nat, a: nat, len: nat) {
    si + len <= |s| && Sub(s, si, len) == Sub(s, a, len)
  }

  /** Position after the delimiter that balances the ones opened before j,
      or -1. */
  function BalanceEnd(s: string, j: nat, depth: nat, open: char, close: char): (e: int)
    requires depth > 0
    ensures e == -1 || j < e <= |s|
    decreases |s| - j
  {
    if j >= |s| then -1
    else if s[j] == close then (if depth == 1 then j + 1 else BalanceEnd(s, j + 1, depth - 1, open, close))
    else if s[j] == open then BalanceEnd(s, j + 1, depth + 1, open, close)
    else BalanceEnd(s, j + 1, depth, open, close)
  }

  // --------------------------------------------------------------- outcomes

  /** How many consecutive characters from si match the item at pi; -1 if a
      test is broken. */
  function Run(env: Env, si: nat, pi: nat): (n: int)
    ensures n >= -1
    decreases |env.s| - si
  {
    match Single(env, si, pi)
    case Broken => -1
    case Miss => 0
    case Hit => var n := Run(env, si + 1, pi); if n < 0 then -1 else n + 1
  }

  function Previous(env: Env, si: nat): char {
    if si == 0 then NUL else if si - 1 < |env.s| then env.s[si - 1] else env.beyond(si - 1)
  }

  function Current(env: Env, si: nat): char {
    if si < |env.s| then env.s[si] else NUL
  }

  /** What a pattern item asks for at a position, its quantifier included. */
  datatype Item =
    | Finish(ok: bool)
    | Open(position: bool, next: nat)
    | Close(next: nat)
    | Jump(si: nat, next: nat)
    | Dead
    | Raise(error: Error)
    | Balance(next: nat)
    | Quantified(quantifier: char, ep: nat)

  /** Reads the item at pi. Items that need no choice are resolved to where
      they lead; `Balance` stands for %b with its two delimiters at pi + 2. */
  function ItemAt(env: Env, si: nat, pi: nat, caps: seq<Capture>): (it: Item)
    ensures it.Open? || it.Close? || it.Balance? ==> pi < it.next <= |env.p|
    ensures it.Balance? ==> it.next == pi + 4 <= |env.p|
    ensures it.Jump? ==> pi < it.next <= |env.p| && si <= it.si
    ensures it.Quantified? ==> pi < it.ep < |env.p| && it.quantifier == env.p[it.ep] && it.quantifier in "*+-?"
  {
    var p := env.p;
    if pi >= |p| then Finish(true)
    else if p[pi] == '(' then
      (if pi + 1 < |p| && p[pi + 1] == ')' then Open(true, pi + 2) else Open(false, pi + 1))
    else if p[pi] == ')' then Close(pi + 1)
    else if p[pi] == '$' && pi + 1 == |p| then Finish(si >= |env.s|)
    else if p[pi] == '%' then
      if pi + 1 >= |p| then Raise(EndsWithPercent)
      else if p[pi + 1] == 'b' then (if pi + 3 >= |p| then Raise(MissingBalance) else Balance(pi + 4))
      else if p[pi + 1] == 'f' then FrontierAt(env, si, pi)
      else if '1' <= p[pi + 1] <= '9' then BackReferenceAt(env, si, pi, caps)
      else if p[pi + 1] == '0' then Raise(BadIndex(-1))
      else SimpleAt(env, si, pi)
    else SimpleAt(env, si, pi)
  }

  function FrontierAt(env: Env, si: nat, pi: nat): (it: Item)
    requires pi + 1 < |env.p|
    ensures it.Raise? || it.Dead? || (it.Jump? && pi < it.next <= |env.p| && it.si == si)
  {
    if pi + 2 >= |env.p| || env.p[pi + 2] != '[' then Raise(MissingFrontier)
    else
      var before, here := Bracket(env, Previous(env, si), pi + 2), Bracket(env, Current(env, si), pi + 2);
      if before.Bad? || here.Bad? then Raise(MissingBracket)
      else if (before.In? && before.hit) || !(here.In? && here.hit) then Dead
      else Jump(si, here.ep)
  }

  function BackReferenceAt(env: Env, si: nat, pi: nat, caps: seq<Capture>): (it: Item)
    requires pi + 1 < |env.p| && '1' <= env.p[pi + 1] <= '9'
    ensures it.Raise? || it.Dead? || (it.Jump? && it.next == pi + 2 && si <= it.si)
  {
    var cap := env.p[pi + 1] as int - '1' as int;
    var len := CaptureLength(caps, cap);
    if len < 0 then Raise(BadIndex(cap))
    else if Repeats(env.s, si, caps[cap].start, len) then Jump(si + len, pi + 2) else Dead
  }

  function SimpleAt(env: Env, si: nat, pi: nat): (it: Item)
    requires pi < |env.p|
    ensures it.Raise? || it.Dead? || it.Jump? || it.Quantified?
    ensures it.Jump? ==> pi < it.next <= |env.p| && it.si == si + 1 && si < |env.s|
    ensures it.Quantified? ==> pi < it.ep < |env.p| && it.quantifier == env.p[it.ep] && it.quantifier in "*+-?"
  {
    match ClassEnd(env.p, pi)
    case Malformed(e) => Raise(e)
    case Ends(ep) =>
      if ep < |env.p| && env.p[ep] in "*+-?" then Quantified(env.p[ep], ep)
      else match Single(env, si, pi)
        case Broken => Raise(MissingBracket)
        case Miss => Dead
        case Hit => Jump(si + 1, ep)
  }

  /** All outcomes of matching from (si, pi), best first. `d` is the number
      of further nested calls the recursion budget allows. */
  function Outcomes(env: Env, d: nat, si: nat, pi: nat, caps: seq<Capture>): (o: seq<Outcome>)
    decreases |env.p| - pi, 1, 0
  {
    match ItemAt(env, si, pi, caps)
    case Finish(ok) => if ok then [Found(si, caps)] else []
    case Open(position, next) =>
      Nested(env, d, si, next, caps + [Capture(si, if position then Position else Unfinished)])
    case Close(next) =>
      var i := LastOpen(caps);
      if i < 0 then [Fault(BadCapture)] else Nested(env, d, si, next, Closed(caps, i, si))
    case Jump(to, next) => Outcomes(env, d, to, next, caps)
    case Dead => []
    case Raise(e) => [Fault(e)]
    case Balance(next) => Balanced(env, d, si, pi + 2, caps)
    case Quantified(q, ep) => Choices(env, d, si, pi, q, ep, caps)
  }

  /** %b with its delimiters at pi. */
  function Balanced(env: Env, d: nat, si: nat, pi: nat, caps: seq<Capture>): seq<Outcome>
    requires pi + 1 < |env.p|
    decreases |env.p| - pi, 0, 0
  {
    if si >= |env.s| || env.s[si] != env.p[pi] then []
    else
      var e := BalanceEnd(env.s, si + 1, 1, env.p[pi], env.p[pi + 1]);
      if e < 0 then [] else Nested(env, d, e, pi + 2, caps)
  }

  /** A single item at pi with quantifier q at ep. */
  function Choices(env: Env, d: nat, si: nat, pi: nat, q: char, ep: nat, caps: seq<Capture>): seq<Outcome>
    requires pi < ep < |env.p|
    decreases |env.p| - pi, 0, 0
  {
    if q == '*' then Greedy(env, d, si, Run(env, si, pi), ep + 1, caps)
    else if q == '-' then Lazy(env, d, si, pi, ep + 1, caps)
    else if q == '+' then
      match Single(env, si, pi) {
        case Broken => [Fault(MissingBracket)]
        case Miss => []
        case Hit => Greedy(env, d, si + 1, Run(env, si + 1, pi), ep + 1, caps)
      }
    else
      match Single(env, si, pi) {
        case Broken => [Fault(MissingBracket)]
        case Miss => Nested(env, d, si, ep + 1, caps)
        case Hit => Nested(env, d, si + 1, ep + 1, caps) + Nested(env, d, si, ep + 1, caps)
      }
  }

  /** A nested call, which costs one unit of the budget. */
  function Nested(env: Env, d: nat, si: nat, pi: nat, caps: seq<Capture>): seq<Outcome>
    decreases |env.p| - pi, 2, 0
  {
    if d == 0 then [Fault(TooComplex)] else Outcomes(env, d - 1, si, pi, caps)
  }

  /** n repetitions first, then n - 1, down to none. */
  function Greedy(env: Env, d: nat, si: nat, n: int, next: nat, caps: seq<Capture>): seq<Outcome>
    requires n >= -1
    decreases |env.p| - next, 3, n + 1
  {
    if n < 0 then [Fault(MissingBracket)]
    else if n == 0 then Nested(env, d, si, next, caps)
    else Nested(env, d, si + n, next, caps) + Greedy(env, d, si, n - 1, next, caps)
  }

  /** No repetition first, then one, as long as characters match. */
  function Lazy(env: Env, d: nat, si: nat, pi: nat, next: nat, caps: seq<Capture>): seq<Outcome>
    decreases |env.p| - next, 3, if si <= |env.s| then |env.s| - si + 1 else 0
  {
    Nested(env, d, si, next, caps) +
    match Single(env, si, pi) {
      case Broken => [Fault(MissingBracket)]
      case Miss => []
      case Hit => Lazy(env, d, si + 1, pi, next, caps)
    }
  }
}
