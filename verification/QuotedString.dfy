/** Quoting with %q and lexing of short string literals, as functions, and the
    proof that lexing a quoted string gives the string back. */
module QuotedString {
  import opened ByteOrder

  const QUOTE_MARK: byte := 34
  const BACKSLASH: byte := 92
  const LF: byte := 10
  const CR: byte := 13

  predicate IsDigit(c: byte) { 48 <= c <= 57 }

  predicate IsHex(c: byte) { IsDigit(c) || 65 <= c <= 70 || 97 <= c <= 102 }

  /** Control characters of the C locale. */
  predicate IsCntrl(c: byte) { c < 32 || c == 127 }

  predicate IsNewline(c: byte) { c == LF || c == CR }

  // ----------------------------------------------------------------- quoting

  function Digit(n: nat): byte
    requires n < 10
  {
    48 + n
  }

  /** A control byte in decimal: three digits if asked, else as few as needed. */
  function Decimal(c: byte, full: bool): bytes {
    if full || c >= 100 then [Digit(c / 100), Digit(c / 10 % 10), Digit(c % 10)]
    else if c >= 10 then [Digit(c / 10), Digit(c % 10)]
    else [Digit(c)]
  }

  /** The source form of byte c in front of the bytes `rest`. */
  function QuoteByte(c: byte, rest: bytes): bytes {
    if c == QUOTE_MARK || c == BACKSLASH || c == LF then [BACKSLASH, c]
    else if IsCntrl(c) then [BACKSLASH] + Decimal(c, rest != [] && IsDigit(rest[0]))
    else [c]
  }

  function QuoteBody(s: bytes): bytes {
    if s == [] then [] else QuoteByte(s[0], s[1..]) + QuoteBody(s[1..])
  }

  function Quote(s: bytes): bytes { [QUOTE_MARK] + QuoteBody(s) + [QUOTE_MARK] }

  method FormatQuote(s: bytes) returns (q: bytes)
    ensures q == Quote(s)
  {
    hide Decimal;
    q := [QUOTE_MARK];
    for i := 0 to |s|
      invariant q + QuoteBody(s[i..]) == [QUOTE_MARK] + QuoteBody(s)
    {
      var c := s[i];
      var piece: bytes;
      if c == QUOTE_MARK || c == BACKSLASH || c == LF {
        piece := [BACKSLASH, c];
      } else if IsCntrl(c) {
        if i + 1 < |s| && IsDigit(s[i + 1]) {
          piece := [BACKSLASH] + Decimal(c, true);
        } else {
          piece := [BACKSLASH] + Decimal(c, false);
        }
      } else {
        piece := [c];
      }
      QuoteStep(q, s, i, piece);
      q := q + piece;
    }
    q := q + [QUOTE_MARK];
  }

  lemma QuoteStep(q: bytes, s: bytes, i: nat, piece: bytes)
    requires i < |s| && piece == QuoteByte(s[i], s[i + 1..])
    ensures q + QuoteBody(s[i..]) == q + piece + QuoteBody(s[i + 1..])
  {
    assert s[i..][1..] == s[i + 1..];
    assert q + (piece + QuoteBody(s[i + 1..])) == q + piece + QuoteBody(s[i + 1..]);
  }

  // ------------------------------------------------------------------ lexing

  datatype Error = Unfinished | HexExpected | MissingOpen | MissingClose | Utf8TooLarge | DecimalTooLarge
    | InvalidEscape

  /** One round of the lexer: some text, the closing quote, or an error. */
  datatype Item = Piece(text: bytes, next: nat, lines: nat) | Closing(next: nat) | Bad(error: Error)

  /** The byte at position i, 0 past the end. */
  function Peek(src: bytes, i: nat): byte { if i < |src| then src[i] else 0 }

  /** Position after a line break, where two different break characters count
      as one. */
  function AfterBreak(src: bytes, i: nat): (j: nat)
    requires i < |src|
    ensures i < j <= |src|
  {
    if IsNewline(Peek(src, i + 1)) && Peek(src, i + 1) != src[i] then i + 2 else i + 1
  }

  function HexValue(c: byte): nat
    requires IsHex(c)
  {
    if IsDigit(c) then c - 48 else if c >= 97 then c - 87 else c - 55
  }

  function HexEscape(src: bytes, i: nat): (it: Item)
    ensures it.Piece? ==> i < it.next <= |src|
    ensures !it.Closing?
  {
    if i >= |src| || !IsHex(src[i]) then Bad(HexExpected)
    else if i + 1 >= |src| || !IsHex(src[i + 1]) then Bad(HexExpected)
    else Piece([HexValue(src[i]) * 16 + HexValue(src[i + 1])], i + 2, 0)
  }

  /** Hexadecimal digits of a code point, with the value so far. */
  function CodePoint(src: bytes, i: nat, cp: nat): (r: (bool, nat, nat))
    ensures i <= r.1 && (i <= |src| ==> r.1 <= |src|)
    ensures r.0 ==> r.2 <= 0x10FFFF || r.2 == cp
    decreases |src| - i
  {
    if i < |src| && IsHex(src[i]) then
      var v := cp * 16 + HexValue(src[i]);
      if v > 0x10FFFF then (false, i + 1, v) else CodePoint(src, i + 1, v)
    else (true, i, cp)
  }

  function Utf8(cp: nat): bytes
    requires cp <= 0x10FFFF
  {
    if cp <= 0x7F then [cp]
    else if cp <= 0x7FF then [0xC0 + cp / 0x40, 0x80 + cp % 0x40]
    else if cp <= 0xFFFF then [0xE0 + cp / 0x1000, 0x80 + cp / 0x40 % 0x40, 0x80 + cp % 0x40]
    else [0xF0 + cp / 0x4_0000, 0x80 + cp / 0x1000 % 0x40, 0x80 + cp / 0x40 % 0x40, 0x80 + cp % 0x40]
  }

  function Utf8Escape(src: bytes, i: nat): (it: Item)
    ensures it.Piece? ==> i < it.next <= |src|
    ensures !it.Closing?
  {
    if Peek(src, i) != 123 then Bad(MissingOpen)
    else if i + 1 >= |src| || !IsHex(src[i + 1]) then Bad(HexExpected)
    else
      var r := CodePoint(src, i + 1, 0);
      if !r.0 then Bad(Utf8TooLarge)
      else if Peek(src, r.1) != 125 then Bad(MissingClose)
      else Piece(Utf8(r.2), r.1 + 1, 0)
  }

  /** Skips blanks and line breaks after \z. */
  function SkipBlank(src: bytes, i: nat): (r: (nat, nat))
    requires i <= |src|
    ensures i <= r.0 <= |src|
    decreases |src| - i
  {
    var c := Peek(src, i);
    if i < |src| && c in {32, 9, 12, 11} then SkipBlank(src, i + 1)
    else if i < |src| && IsNewline(c) then
      var r := SkipBlank(src, AfterBreak(src, i));
      (r.0, r.1 + 1)
    else (i, 0)
  }

  /** Up to three decimal digits, the first of which is at i. */
  function DecimalEscape(src: bytes, i: nat): (it: Item)
    requires i < |src| && IsDigit(src[i])
    ensures it.Piece? ==> i < it.next <= |src|
    ensures !it.Closing?
  {
    var v1 := src[i] - 48;
    if !IsDigit(Peek(src, i + 1)) then Piece([v1], i + 1, 0)
    else
      var v2 := v1 * 10 + (Peek(src, i + 1) - 48);
      if !IsDigit(Peek(src, i + 2)) then Piece([v2], i + 2, 0)
      else
        var v3 := v2 * 10 + (Peek(src, i + 2) - 48);
        if v3 > 255 then Bad(DecimalTooLarge) else Piece([v3], i + 3, 0)
  }

  function Escape(src: bytes, i: nat): (it: Item)
    ensures it.Piece? ==> i < it.next <= |src|
    ensures !it.Closing?
  {
    if i >= |src| then Bad(Unfinished)
    else if IsNewline(src[i]) then Piece([LF], AfterBreak(src, i), 1)
    else match src[i]
      case 97 => Piece([7], i + 1, 0)
      case 98 => Piece([8], i + 1, 0)
      case 102 => Piece([12], i + 1, 0)
      case 110 => Piece([10], i + 1, 0)
      case 114 => Piece([13], i + 1, 0)
      case 116 => Piece([9], i + 1, 0)
      case 118 => Piece([11], i + 1, 0)
      case 92 => Piece([92], i + 1, 0)
      case 39 => Piece([39], i + 1, 0)
      case 34 => Piece([34], i + 1, 0)
      case 120 => HexEscape(src, i + 1)
      case 117 => Utf8Escape(src, i + 1)
      case 122 => var r := SkipBlank(src, i + 1); Piece([], r.0, r.1)
      case c => if IsDigit(c) then DecimalEscape(src, i) else Bad(InvalidEscape)
  }

  function Round(src: bytes, i: nat, quote: byte): (it: Item)
    ensures it.Piece? || it.Closing? ==> i < it.next <= |src|
  {
    if i >= |src| then Bad(Unfinished)
    else if IsNewline(src[i]) then Bad(Unfinished)
    else if src[i] == quote then Closing(i + 1)
    else if src[i] == BACKSLASH then Escape(src, i + 1)
    else Piece([src[i]], i + 1, 0)
  }

  datatype Lexed = Token(text: bytes, next: nat, lines: nat) | Failed(error: Error)

  function Ahead(text: bytes, lines: nat, r: Lexed): Lexed {
    if r.Token? then Token(text + r.text, r.next, lines + r.lines) else r
  }

  /** The rest of a literal from position i, up to its closing quote. */
  function LexFrom(src: bytes, i: nat, quote: byte): Lexed
    decreases |src| - i
  {
    match Round(src, i, quote)
    case Bad(e) => Failed(e)
    case Closing(next) => Token([], next, 0)
    case Piece(text, next, lines) => Ahead(text, lines, LexFrom(src, next, quote))
  }

  /** The scanner's position and line, advanced by the loop of lex_string. */
  class Lexer {
    const src: bytes
    var pos: nat
    var line: nat

    constructor (src: bytes)
      ensures this.src == src && pos == 0 && line == 1
    {
      this.src, pos, line := src, 0, 1;
    }

    /** Lexes a literal whose opening quote is at pos. */
    method LexString(quote: byte) returns (r: Lexed)
      requires pos < |src|
      modifies this
      ensures r == old(LexFrom(src, pos + 1, quote))
      ensures r.Token? ==> pos == r.next && line == old(line) + r.lines
    {
      hide Round;
      pos := pos + 1;
      var out: bytes, lines := [], 0;
      ghost var all := LexFrom(src, pos, quote);
      AheadNothing(all);
      while true
        invariant all == Ahead(out, lines, LexFrom(src, pos, quote)) && line == old(line) + lines
        decreases |src| - pos
      {
        var it := Round(src, pos, quote);
        match it {
          case Bad(e) =>
            return Failed(e);
          case Closing(next) =>
            pos := next;
            assert out + [] == out;
            return Token(out, next, lines);
          case Piece(text, next, n) =>
            AheadTwice(out, lines, text, n, LexFrom(src, next, quote));
            out, lines, pos, line := out + text, lines + n, next, line + n;
        }
      }
    }
  }

  lemma AheadNothing(r: Lexed)
    ensures Ahead([], 0, r) == r
  {
    if r.Token? { assert [] + r.text == r.text; }
  }

  lemma AheadTwice(a: bytes, n: nat, b: bytes, m: nat, r: Lexed)
    ensures Ahead(a, n, Ahead(b, m, r)) == Ahead(a + b, n + m, r)
  {
    if r.Token? { assert a + (b + r.text) == a + b + r.text; }
  }

  // -------------------------------------------------------------- round trip

  function Breaks(s: bytes): nat {
    if s == [] then 0 else (if s[0] == LF then 1 else 0) + Breaks(s[1..])
  }

  /** After the source form of c, the next byte is a digit only if c was not
      written with fewer than three digits. */
  ghost predicate NextFits(c: byte, rest: bytes, tail: bytes) {
    && tail != []
    && (IsDigit(tail[0]) ==> rest != [] && IsDigit(rest[0]))
    && !IsNewline(tail[0])
  }

  /** One byte: its source form, wherever it stands, is one round that gives
      the byte. */
  lemma ByteRoundTrip(c: byte, rest: bytes, pre: bytes, tail: bytes)
    requires NextFits(c, rest, tail)
    ensures var q := QuoteByte(c, rest);
      Round(pre + q + tail, |pre|, QUOTE_MARK) == Piece([c], |pre| + |q|, if c == LF then 1 else 0)
  {
    var q := QuoteByte(c, rest);
    var src := pre + q + tail;
    forall k | 0 <= k < |q| ensures src[|pre| + k] == q[k] {
    }
    assert src[|pre| + |q|] == tail[0];
    if c == QUOTE_MARK || c == BACKSLASH || c == LF {
    } else if IsCntrl(c) {
      DecimalRoundTrip(c, rest != [] && IsDigit(rest[0]), src, |pre| + 1);
    }
  }

  lemma DecimalRoundTrip(c: byte, full: bool, src: bytes, i: nat)
    requires IsCntrl(c) && c != LF
    requires i + |Decimal(c, full)| < |src|
    requires forall k :: 0 <= k < |Decimal(c, full)| ==> src[i + k] == Decimal(c, full)[k]
    requires IsDigit(src[i + |Decimal(c, full)|]) ==> full
    ensures Escape(src, i) == Piece([c], i + |Decimal(c, full)|, 0)
  {
    var d := Decimal(c, full);
    assert src[i] == d[0] && IsDigit(src[i]);
    if |d| >= 2 { assert src[i + 1] == d[1]; }
    if |d| >= 3 { assert src[i + 2] == d[2]; }
  }

  /** The whole body, wherever it stands: its text, its exact extent and its
      line count. */
  lemma {:induction false} BodyRoundTrip(s: bytes, pre: bytes, post: bytes)
    ensures LexFrom(pre + QuoteBody(s) + [QUOTE_MARK] + post, |pre|, QUOTE_MARK) == Token(s,
      |pre| + |QuoteBody(s)| + 1, Breaks(s))
    decreases |s|
  {
    hide Round, QuoteByte;
    var src := pre + QuoteBody(s) + [QUOTE_MARK] + post;
    if s == [] {
      assert src[|pre|] == QUOTE_MARK;
      ClosesHere(src, |pre|);
    } else {
      var c, rest := s[0], s[1..];
      var q, tail := QuoteByte(c, rest), QuoteBody(rest) + [QUOTE_MARK] + post;
      assert src == pre + q + tail;
      TailFits(c, rest, post);
      ByteRoundTrip(c, rest, pre, tail);
      assert src == (pre + q) + QuoteBody(rest) + [QUOTE_MARK] + post;
      BodyRoundTrip(rest, pre + q, post);
      assert [c] + rest == s;
    }
  }

  lemma ClosesHere(src: bytes, i: nat)
    requires i < |src| && src[i] == QUOTE_MARK
    ensures Round(src, i, QUOTE_MARK) == Closing(i + 1)
  {
  }

  lemma TailFits(c: byte, rest: bytes, post: bytes)
    ensures NextFits(c, rest, QuoteBody(rest) + [QUOTE_MARK] + post)
  {
    var tail := QuoteBody(rest) + [QUOTE_MARK] + post;
    if rest == [] {
      assert tail[0] == QUOTE_MARK;
    } else {
      assert tail[0] == QuoteByte(rest[0], rest[1..])[0];
    }
  }

  /** Lexing the quoted form of any byte string consumes it exactly and yields
      the string, whatever follows; the line count moves by its line breaks. */
  method QuoteThenLex(s: bytes, post: bytes) returns (r: Lexed, next: nat)
    ensures r == Token(s, |Quote(s)|, Breaks(s)) && next == |Quote(s)|
  {
    hide LexFrom, QuoteBody;
    var q := FormatQuote(s);
    var lexer := new Lexer(q + post);
    BodyRoundTrip(s, [QUOTE_MARK], post);
    assert lexer.src == [QUOTE_MARK] + QuoteBody(s) + [QUOTE_MARK] + post;
    r := lexer.LexString(QUOTE_MARK);
    next := lexer.pos;
  }
}
