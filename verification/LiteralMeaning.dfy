/** What a short string literal spells, in terms of its source text: every
    escape by its value, line breaks by their number. */
module LiteralMeaning {
  import opened ByteOrder
  import opened QuotedString

  // --------------------------------------------------------------- characters

  /** The letters after a backslash that stand for one byte, and that byte. */
  const NAMED: map<byte, byte> := map[
    'a' as int := 7, 'b' as int := 8, 't' as int := 9, 'n' as int := 10, 'v' as int := 11, 'f' as int := 12,
    'r' as int := 13, '\\' as int := 92, '\'' as int := 39, '"' as int := 34]

  const LOWER := "0123456789abcdef"
  const UPPER := "0123456789ABCDEF"

  /** c is the hexadecimal digit of value v. */
  predicate HexIs(c: byte, v: nat) { v < 16 && (LOWER[v] as int == c || UPPER[v] as int == c) }

  lemma HexValueIs(c: byte)
    ensures IsHex(c) ==> HexIs(c, HexValue(c))
    ensures forall v :: HexIs(c, v) ==> IsHex(c) && v == HexValue(c)
  {
    if IsHex(c) {
      var v := HexValue(c);
      assert LOWER[v] as int == c || UPPER[v] as int == c;
    }
  }

  /** The number that hexadecimal digits spell, the last digit least. */
  ghost predicate Spells(digits: bytes, v: nat)
    decreases |digits|
  {
    if digits == [] then v == 0
    else
      var n := |digits| - 1;
      HexIs(digits[n], v % 16) && Spells(digits[..n], v / 16)
  }

  // ------------------------------------------------------------------- UTF-8

  predicate Continues(c: byte) { 0x80 <= c < 0xC0 }

  /** What a continuation byte adds to the bits before it. */
  function Then(high: int, c: byte): int { high * 64 + (c as int - 0x80) }

  /** The code point that a UTF-8 sequence encodes; -1 if it is none, or longer than it need be. */
  function Decoded(b: bytes): int {
    if |b| == 1 && b[0] < 0x80 then b[0]
    else if |b| < 2 || |b| > 4 || !(forall k :: 1 <= k < |b| ==> Continues(b[k])) then -1
    else if |b| == 2 then (if 0xC2 <= b[0] < 0xE0 then Then(b[0] as int - 0xC0, b[1]) else -1)
    else if |b| == 3 then
      var v := Then(Then(b[0] as int - 0xE0, b[1]), b[2]);
      if 0xE0 <= b[0] < 0xF0 && v >= 0x800 then v else -1
    else
      var v := Then(Then(Then(b[0] as int - 0xF0, b[1]), b[2]), b[3]);
      if 0xF0 <= b[0] < 0xF8 && v >= 0x1_0000 then v else -1
  }

  /** Every code point is encoded by the shortest sequence that decodes to it. */
  lemma Utf8Decodes(cp: nat)
    requires cp <= 0x10FFFF
    ensures Decoded(Utf8(cp)) == cp
  {
    if cp > 0x7FF {
      var q, r := cp / 64, cp % 64;
      assert cp == q * 64 + r;
      assert cp / 0x1000 == q / 64 && q == q / 64 * 64 + q % 64;
      if cp > 0xFFFF {
        var p := cp / 0x1000;
        assert cp / 0x4_0000 == p / 64 && p == p / 64 * 64 + p % 64;
      }
    }
  }

  // ------------------------------------------------------------------ escapes

  predicate IsBlank(c: byte) { c == 32 || 9 <= c <= 13 }

  /** Line breaks from i up to j; two different break characters in a row are one. */
  function BreaksIn(src: bytes, i: nat, j: nat): nat
    decreases j - i
  {
    if i >= j || i >= |src| then 0
    else if src[i] != LF && src[i] != CR then BreaksIn(src, i + 1, j)
    else 1 + BreaksIn(src, if i + 1 < |src| && [src[i], src[i + 1]] in {[CR, LF], [LF, CR]} then i + 2 else i + 1, j)
  }

  /** The escape whose backslash is just before i spells the text t and ends at j. */
  ghost predicate EscapeSpells(src: bytes, i: nat, t: bytes, j: nat) {
    && i < j <= |src|
    && if src[i] == LF || src[i] == CR then
         t == [LF] && j == if i + 1 < |src| && [src[i], src[i + 1]] in {[CR, LF], [LF, CR]} then i + 2 else i + 1
       else if src[i] in NAMED then t == [NAMED[src[i]]] && j == i + 1
       else if src[i] == 'x' as int then j == i + 3 && |t| == 1 && Spells(src[i + 1..j], t[0])
       else if src[i] == 'u' as int then
         && i + 4 <= j && src[i + 1] == '{' as int && src[j - 1] == '}' as int
         && 0 <= Decoded(t) <= 0x10FFFF && Spells(src[i + 2..j - 1], Decoded(t))
       else if src[i] == 'z' as int then
         && t == [] && (forall k :: i < k < j ==> IsBlank(src[k])) && (j < |src| ==> !IsBlank(src[j]))
       else
         && IsDigit(src[i]) && j <= i + 3 && (forall k :: i < k < j ==> IsDigit(src[k]))
         && (j < i + 3 && j < |src| ==> !IsDigit(src[j]))
         && |t| == 1 && t[0] == Number10(src[i..j])
  }

  /** The number that decimal digits spell. */
  function Number10(digits: bytes): int {
    if digits == [] then 0 else 10 * Number10(digits[..|digits| - 1]) + (digits[|digits| - 1] - '0' as int)
  }

  lemma HexEscapeIs(src: bytes, i: nat)
    requires HexEscape(src, i).Piece?
    ensures var it := HexEscape(src, i);
      it.next == i + 2 <= |src| && |it.text| == 1 && Spells(src[i..i + 2], it.text[0]) && it.lines == 0
  {
    HexValueIs(src[i]);
    HexValueIs(src[i + 1]);
    var d, v := src[i..i + 2], HexEscape(src, i).text[0];
    assert d[..1] == [src[i]] && d[1] == src[i + 1] && d[..1][..0] == [];
    assert v % 16 == HexValue(src[i + 1]) && v / 16 == HexValue(src[i]);
  }

  lemma {:induction false} CodePointIs(src: bytes, start: nat, i: nat, cp: nat)
    requires start <= i <= |src| && Spells(src[start..i], cp) && cp <= 0x10FFFF && CodePoint(src, i, cp).0
    ensures var r := CodePoint(src, i, cp); i <= r.1 <= |src| && r.2 <= 0x10FFFF && Spells(src[start..r.1], r.2)
    ensures i < |src| && IsHex(src[i]) ==> CodePoint(src, i, cp).1 > i
    decreases |src| - i
  {
    if i < |src| && IsHex(src[i]) {
      HexValueIs(src[i]);
      var v, d := cp * 16 + HexValue(src[i]), src[start..i + 1];
      assert d[..|d| - 1] == src[start..i] && d[|d| - 1] == src[i] && v % 16 == HexValue(src[i]) && v / 16 == cp;
      CodePointIs(src, start, i + 1, v);
    }
  }

  lemma Utf8EscapeIs(src: bytes, i: nat)
    requires Utf8Escape(src, i).Piece?
    ensures var it := Utf8Escape(src, i);
      && i + 3 <= it.next <= |src| && src[i] == 123 && src[it.next - 1] == 125 && it.lines == 0
      && 0 <= Decoded(it.text) <= 0x10FFFF && Spells(src[i + 1..it.next - 1], Decoded(it.text))
  {
    assert src[i + 1..i + 1] == [];
    CodePointIs(src, i + 1, i + 1, 0);
    Utf8Decodes(CodePoint(src, i + 1, 0).2);
  }

  lemma {:induction false} SkipBlankIs(src: bytes, i: nat)
    requires i <= |src|
    ensures var r := SkipBlank(src, i);
      && i <= r.0 <= |src| && (forall k :: i <= k < r.0 ==> IsBlank(src[k])) && (r.0 < |src| ==> !IsBlank(src[r.0]))
      && r.1 == BreaksIn(src, i, r.0)
    decreases |src| - i
  {
    if i < |src| && src[i] in {32, 9, 12, 11} {
      SkipBlankIs(src, i + 1);
    } else if i < |src| && IsNewline(src[i]) {
      SkipBlankIs(src, AfterBreak(src, i));
    }
  }

  lemma DecimalIs(src: bytes, i: nat)
    requires i < |src| && IsDigit(src[i]) && DecimalEscape(src, i).Piece?
    ensures var it := DecimalEscape(src, i);
      && i < it.next <= i + 3 && (forall k :: i < k < it.next ==> IsDigit(src[k]))
      && (it.next < i + 3 && it.next < |src| ==> !IsDigit(src[it.next]))
      && |it.text| == 1 && it.text[0] == Number10(src[i..it.next]) && it.lines == 0
  {
    var j := DecimalEscape(src, i).next;
    var d := src[i..j];
    assert d[..1] == [src[i]] && d[..1][..0] == [] && Number10([src[i]]) == src[i] - 48;
    if j >= i + 2 {
      assert d[..2][..1] == d[..1] && d[..2][1] == src[i + 1];
      assert Number10(d[..2]) == (src[i] - 48) * 10 + src[i + 1] - 48;
    }
    if j == i + 3 { assert d[2] == src[i + 2]; }
    assert d == d[..j - i];
  }

  /** Escapes of one letter, and escaped line breaks. */
  lemma NamedIs(src: bytes, i: nat)
    requires i < |src| && (src[i] in NAMED || src[i] == LF || src[i] == CR)
    ensures var it := Escape(src, i); it.Piece? && EscapeSpells(src, i, it.text, it.next)
    ensures Escape(src, i).lines == if src[i] == LF || src[i] == CR then 1 else 0
  {
    hide Spells, Decoded, Number10;
    if IsNewline(src[i]) {
      assert i + 1 < |src| ==> [src[i], src[i + 1]][0] == src[i] && [src[i], src[i + 1]][1] == src[i + 1];
    }
  }

  /** The escapes that read on. */
  lemma LongIs(src: bytes, i: nat)
    requires i < |src| && src[i] !in NAMED && src[i] != LF && src[i] != CR && Escape(src, i).Piece?
    ensures var it := Escape(src, i);
      EscapeSpells(src, i, it.text, it.next)
      && it.lines == if src[i] == 'z' as int then BreaksIn(src, i + 1, it.next) else 0
  {
    hide HexEscape, Utf8Escape, DecimalEscape, SkipBlank, Spells, Decoded, Number10, BreaksIn;
    var c := src[i];
    if c == 120 {
      HexEscapeIs(src, i + 1);
    } else if c == 117 {
      Utf8EscapeIs(src, i + 1);
    } else if c == 122 {
      SkipBlankIs(src, i + 1);
    } else {
      DecimalIs(src, i);
    }
  }

  /** Every escape the lexer accepts spells what it yields, and moves the line by the breaks in it. */
  lemma EscapeIs(src: bytes, i: nat)
    requires Escape(src, i).Piece?
    ensures var it := Escape(src, i);
      && EscapeSpells(src, i, it.text, it.next)
      && it.lines == if src[i] == LF || src[i] == CR then 1
                     else if src[i] == 'z' as int then BreaksIn(src, i + 1, it.next) else 0
  {
    hide EscapeSpells, BreaksIn;
    if src[i] in NAMED || src[i] == LF || src[i] == CR {
      NamedIs(src, i);
    } else {
      LongIs(src, i);
    }
  }

  // --------------------------------------------------------- refused escapes

  lemma {:induction false} SpellsOnce(d: bytes, v: nat, w: nat)
    requires Spells(d, v) && Spells(d, w)
    ensures v == w
    decreases |d|
  {
    if d != [] {
      HexValueIs(d[|d| - 1]);
      SpellsOnce(d[..|d| - 1], v / 16, w / 16);
    }
  }

  lemma {:induction false} SpellsPrefix(d: bytes, v: nat, n: nat) returns (w: nat)
    requires Spells(d, v) && n <= |d|
    ensures Spells(d[..n], w) && w <= v
    decreases |d|
  {
    if n == |d| {
      assert d[..n] == d;
      w := v;
    } else {
      w := SpellsPrefix(d[..|d| - 1], v / 16, n);
      assert d[..|d| - 1][..n] == d[..n];
    }
  }

  /** Reading a run of hexadecimal digits to its end gives the number it spells. */
  lemma {:induction false} CodePointReads(src: bytes, start: nat, i: nat, cp: nat, e: nat, v: nat)
    requires start <= i <= e < |src| && !IsHex(src[e]) && v <= 0x10FFFF
    requires Spells(src[start..i], cp) && Spells(src[start..e], v)
    ensures CodePoint(src, i, cp) == (true, e, v)
    decreases e - i
  {
    if i == e {
      SpellsOnce(src[start..i], cp, v);
    } else {
      var d := src[start..i + 1];
      var w := SpellsPrefix(src[start..e], v, i + 1 - start);
      assert src[start..e][..i + 1 - start] == d && d[..|d| - 1] == src[start..i] && d[|d| - 1] == src[i];
      HexValueIs(src[i]);
      SpellsOnce(src[start..i], cp, w / 16);
      CodePointReads(src, start, i + 1, w, e, v);
    }
  }

  lemma BadUtf8(src: bytes, i: nat, t: bytes, j: nat)
    requires i < |src| && src[i] == 'u' as int && EscapeSpells(src, i, t, j)
    ensures Utf8Escape(src, i + 1).Piece?
  {
    hide Decoded;
    var v, e := Decoded(t), j - 1;
    assert src[i + 2..i + 2] == [];
    if e > i + 2 {
      var w := SpellsPrefix(src[i + 2..e], v, 1);
      assert src[i + 2..e][..1] == [src[i + 2]];
      HexValueIs(src[i + 2]);
      assert Spells([src[i + 2]], w);
    }
    CodePointReads(src, i + 2, i + 2, 0, e, v);
  }

  lemma BadHex(src: bytes, i: nat, t: bytes, j: nat)
    requires i < |src| && src[i] == 'x' as int && EscapeSpells(src, i, t, j)
    ensures HexEscape(src, i + 1).Piece?
  {
    var d := src[i + 1..j];
    HexValueIs(src[i + 1]);
    HexValueIs(src[i + 2]);
    assert d[1] == src[i + 2] && d[..1] == [src[i + 1]] && |d| == 2;
    assert Spells(d[..1], t[0] / 16);
    assert d[..1][0] == src[i + 1] && HexIs(src[i + 1], t[0] / 16 % 16);
  }

  lemma BadDecimal(src: bytes, i: nat, t: bytes, j: nat)
    requires i < |src| && IsDigit(src[i]) && src[i] !in NAMED && EscapeSpells(src, i, t, j)
    ensures DecimalEscape(src, i).Piece?
  {
    if j == i + 3 {
      var d := src[i..j];
      assert d[0] == src[i] && d[1] == src[i + 1] && d[2] == src[i + 2];
      assert d[..2] == [d[0], d[1]] && [d[0], d[1]][..1] == [d[0]] && [d[0]][..0] == [];
      assert Number10([d[0]]) == d[0] - 48 && Number10([d[0], d[1]]) == (d[0] - 48) * 10 + (d[1] - 48);
      assert Number10(d) == 10 * Number10(d[..2]) + (d[2] - 48);
    }
  }

  /** The lexer refuses only what spells nothing. */
  lemma RefusedSpellsNothing(src: bytes, i: nat, t: bytes, j: nat)
    requires EscapeSpells(src, i, t, j)
    ensures Escape(src, i).Piece?
  {
    hide HexEscape, Utf8Escape, DecimalEscape, SkipBlank, Spells, Decoded, Number10;
    var c := src[i];
    if c == 120 {
      BadHex(src, i, t, j);
    } else if c == 117 {
      BadUtf8(src, i, t, j);
    } else if IsDigit(c) {
      BadDecimal(src, i, t, j);
    }
  }

  // ----------------------------------------------------------------- literals

  /** From i on, the source spells the text t up to the closing quote, which ends at j. */
  ghost predicate Reads(src: bytes, i: nat, quote: byte, t: bytes, j: nat)
    decreases |src| - i
  {
    && i < |src| && src[i] != LF && src[i] != CR
    && if src[i] == quote then t == [] && j == i + 1
       else if src[i] == '\\' as int then
         exists u, k ::
           k <= |src| && i < k && u <= t && EscapeSpells(src, i + 1, u, k) && Reads(src, k, quote, t[|u|..], j)
       else t != [] && t[0] == src[i] && Reads(src, i + 1, quote, t[1..], j)
  }

  /** A literal the lexer accepts spells the text it yields. */
  lemma {:induction false} TokenReads(src: bytes, i: nat, quote: byte)
    requires LexFrom(src, i, quote).Token?
    ensures var r := LexFrom(src, i, quote); Reads(src, i, quote, r.text, r.next)
    decreases |src| - i
  {
    hide Escape, EscapeSpells;
    var r, it := LexFrom(src, i, quote), Round(src, i, quote);
    if it.Piece? {
      var rest := LexFrom(src, it.next, quote);
      TokenReads(src, it.next, quote);
      assert r.text == it.text + rest.text && r.text[|it.text|..] == rest.text;
      if src[i] == BACKSLASH { EscapeIs(src, i + 1); }
    }
  }

  /** What is wrong with a literal that is refused. */
  lemma RefusedBecause(src: bytes, i: nat, quote: byte)
    ensures i >= |src| || src[i] in {LF, CR} ==> Round(src, i, quote) == Bad(Unfinished)
    ensures i >= |src| ==> Escape(src, i) == Bad(Unfinished)
    ensures i < |src| && Escape(src, i).Bad? ==>
      Escape(src, i).error ==
        if src[i] == 'x' as int then HexExpected
        else if src[i] == 'u' as int then Utf8Escape(src, i + 1).error
        else if IsDigit(src[i]) then DecimalTooLarge
        else InvalidEscape
    ensures i < |src| && src[i] == 'u' as int && !(i + 1 < |src| && src[i + 1] == '{' as int) ==>
      Escape(src, i) == Bad(MissingOpen)
    ensures i + 1 < |src| && src[i..i + 2] == ['u' as int, '{' as int] && !(i + 2 < |src| && IsHex(src[i + 2])) ==>
      Escape(src, i) == Bad(HexExpected)
  {
    if i + 1 < |src| { assert src[i..i + 2][0] == src[i] && src[i..i + 2][1] == src[i + 1]; }
  }

  // ------------------------------------------------------------------ quoting

  /** How %q writes one byte: a backslash before quotes, backslashes and line feeds; control characters by their
      number, in three digits where a digit follows and in as few as there are otherwise; all else as it is. */
  lemma QuotedForm(c: byte, rest: bytes)
    ensures c in {10, 34, 92} ==> QuoteByte(c, rest) == [92, c]
    ensures c !in {10, 34, 92} && 32 <= c != 127 ==> QuoteByte(c, rest) == [c]
    ensures c != 10 && (c < 32 || c == 127) ==>
      var q := QuoteByte(c, rest);
      && q[0] == 92 && (forall k :: 1 <= k < |q| ==> IsDigit(q[k])) && Number10(q[1..]) == c
      && if rest != [] && IsDigit(rest[0]) then |q| == 4 else |q| == 2 || (|q| <= 4 && q[1] != 48)
  {
    if c != 10 && (c < 32 || c == 127) {
      var q := QuoteByte(c, rest);
      var d := q[1..];
      assert Number10(d[..0]) == 0;
      assert |d| >= 1 ==> d[..1][..0] == [] && Number10(d[..1]) == d[0] - 48;
      assert |d| >= 2 ==> d[..2][..1] == d[..1] && Number10(d[..2]) == (d[0] - 48) * 10 + (d[1] - 48);
      assert |d| == 3 ==> d[..3] == d && Number10(d) == 10 * Number10(d[..2]) + (d[2] - 48);
      assert |d| == 1 ==> d[..1] == d;
      assert |d| == 2 ==> d[..2] == d;
    }
  }
}
