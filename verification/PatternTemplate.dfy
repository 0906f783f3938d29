/** What a replacement template writes, in terms of the template's text and the
    match alone. */
module PatternTemplate {
  import opened Common
  import opened Pattern
  import opened PatternProps
  import opened PatternSearch

  predicate IsDigit(c: char) { '0' <= c <= '9' }

  function NumberOf(t: string): nat
    requires forall c :: c in t ==> IsDigit(c)
  {
    if t == "" then 0
    else
      assert IsDigit(t[|t| - 1]) && forall c :: c in t[..|t| - 1] ==> c in t;
      10 * NumberOf(t[..|t| - 1]) + (t[|t| - 1] as int - '0' as int)
  }

  /** The decimal numeral of n, without leading zeros. */
  predicate IsNumeral(t: string, n: nat) {
    t != "" && (forall c :: c in t ==> IsDigit(c)) && (t[0] == '0' ==> t == "0") && NumberOf(t) == n
  }

  lemma {:induction false} DecimalIsNumeral(n: nat)
    ensures IsNumeral(Decimal(n), n)
    decreases n
  {
    if n >= 10 {
      DecimalIsNumeral(n / 10);
      var t, u := Decimal(n), Decimal(n / 10);
      assert t[..|t| - 1] == u && t[0] == u[0];
      assert "0"[..0] == "" && NumberOf("0") == 0;
    } else {
      assert Decimal(n)[..0] == "";
    }
  }

  /** The text that capture number i, counted from 0, stands for: the stretch it spans or the number of its position. */
  predicate CaptureSays(s: string, caps: seq<Capture>, i: nat, text: string) {
    && i < |caps|
    && match caps[i].end
       case Unfinished => false
       case Position => IsNumeral(text, caps[i].start + 1)
       case At(e) => caps[i].start <= e <= |s| && text == s[caps[i].start..e]
  }

  /** The text that `%c` stands for after a match from `from` to `to`. */
  predicate EscapeSays(s: string, from: nat, to: nat, caps: seq<Capture>, c: char, text: string) {
    if c == '%' then text == "%"
    else if c == '0' || (c == '1' && caps == []) then from <= to <= |s| && text == s[from..to]
    else '1' <= c <= '9' && CaptureSays(s, caps, c as int - '1' as int, text)
  }

  /** The escapes of a template, and the only errors among them. */
  lemma EscapeIs(s: string, from: nat, to: nat, caps: seq<Capture>, c: char)
    requires from <= to <= |s| && Tidy(caps, |s|)
    ensures var r := EscapeText(s, from, to, caps, c);
      && (r.Ok? <==> !BadEscape(caps, c))
      && !r.MatchError? && (r.Ok? ==> EscapeSays(s, from, to, caps, c, r.value))
      && (r.BadPercent? ==> c != '%' && !IsDigit(c))
      && (r.BadReplIndex? ==> IsDigit(c) && r.i == c as int - '0' as int && r.i > |caps| && r.i > 1)
      && (r.OpenCapture? ==> '1' <= c <= '9' && (c as int - '1' as int) < |caps|
                             && caps[c as int - '1' as int].end == Unfinished)
  {
    if '1' <= c <= '9' && (c as int - '1' as int) < |caps| {
      DecimalIsNumeral(caps[c as int - '1' as int].start + 1);
    }
  }

  /** `%c` is no escape, asks for a capture that is not there, or for one still open. */
  predicate BadEscape(caps: seq<Capture>, c: char) {
    || (c != '%' && !IsDigit(c))
    || ('1' <= c <= '9' && !(c == '1' && caps == [])
        && var i: nat := c as int - '1' as int; i >= |caps| || caps[i].end == Unfinished)
  }

  /** The template writes out: plain characters as they are, every `%c` as what it says. */
  ghost predicate Writes(s: string, from: nat, to: nat, caps: seq<Capture>, repl: string, out: string)
    decreases |repl|
  {
    if repl == "" then out == ""
    else if repl[0] != '%' then out != "" && out[0] == repl[0] && Writes(s, from, to, caps, repl[1..], out[1..])
    else
      && |repl| > 1
      && exists text ::
           text <= out && EscapeSays(s, from, to, caps, repl[1], text)
           && Writes(s, from, to, caps, repl[2..], out[|text|..])
  }

  /** Whatever a template expands to is what it writes. */
  lemma {:induction false} ExpandWrites(s: string, from: nat, to: nat, caps: seq<Capture>, repl: string)
    requires from <= to <= |s| && Tidy(caps, |s|) && Expand(s, from, to, caps, repl).Ok?
    ensures Writes(s, from, to, caps, repl, Expand(s, from, to, caps, repl).value)
    decreases |repl|
  {
    hide EscapeText, EscapeSays;
    var out := Expand(s, from, to, caps, repl);
    if repl != "" && repl[0] != '%' {
      var rest := Expand(s, from, to, caps, repl[1..]);
      ExpandWrites(s, from, to, caps, repl[1..]);
      assert out.value == repl[..1] + rest.value && out.value[1..] == rest.value;
    } else if repl != "" {
      var text := EscapeText(s, from, to, caps, repl[1]).value;
      var rest := Expand(s, from, to, caps, repl[2..]);
      EscapeIs(s, from, to, caps, repl[1]);
      ExpandWrites(s, from, to, caps, repl[2..]);
      assert out.value == text + rest.value && out.value[|text|..] == rest.value;
    }
  }

  /** A template is in error exactly if one of its escapes is, or if it ends in `%`. */
  lemma {:induction false} ExpandFailsIff(s: string, from: nat, to: nat, caps: seq<Capture>, repl: string)
    requires from <= to <= |s| && Tidy(caps, |s|)
    ensures !Expand(s, from, to, caps, repl).Ok? <==> Faulty(caps, repl)
    decreases |repl|
  {
    hide EscapeText;
    if repl != "" {
      if |repl| > 1 { EscapeIs(s, from, to, caps, repl[1]); }
      ExpandFailsIff(s, from, to, caps, if repl[0] != '%' || |repl| == 1 then repl[1..] else repl[2..]);
    }
  }

  predicate Faulty(caps: seq<Capture>, repl: string)
    decreases |repl|
  {
    && repl != ""
    && if repl[0] != '%' then Faulty(caps, repl[1..])
       else |repl| == 1 || BadEscape(caps, repl[1]) || Faulty(caps, repl[2..])
  }

  /** `%2 %1` writes two captured texts the other way round. */
  lemma SwappedExample(s: string, from: nat, to: nat, caps: seq<Capture>)
    requires |caps| == 2 && caps[0].end.At? && caps[1].end.At?
    requires caps[0].start <= caps[0].end.at <= |s| && caps[1].start <= caps[1].end.at <= |s|
    ensures Expand(s, from, to, caps, "%2 %1") ==
      Ok(s[caps[1].start..caps[1].end.at] + " " + s[caps[0].start..caps[0].end.at])
  {
    var a, b := s[caps[0].start..caps[0].end.at], s[caps[1].start..caps[1].end.at];
    assert "%2 %1"[2..] == " %1" && " %1"[1..] == "%1" && "%1"[2..] == "" && " %1"[..1] == " ";
    assert a + "" == a && b + (" " + a) == b + " " + a;
    assert Expand(s, from, to, caps, "%1") == Ok(a);
    assert Expand(s, from, to, caps, " %1") == Ok(" " + a);
  }
}
