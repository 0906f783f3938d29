/** What the option letters of pack formats mean for the bytes written and
    read: width, sign, byte order and alignment, letter by letter. */
module PackMeaning {
  import opened Common
  import opened ByteOrder
  import opened PackFormat
  import opened Pack
  import opened PackProof

  // ------------------------------------------------------------ byte positions

  /** The byte that counts 256 to the power of k: from the front or from the back. */
  function Digit256(b: bytes, k: nat, little: bool): byte
    requires k < |b|
  {
    if little then b[k] else b[|b| - 1 - k]
  }

  /** The bytes are those of u; past the eighth there is only filling. */
  ghost predicate IsField(b: bytes, u: nat, little: bool, fill: byte) {
    forall k: nat :: k < |b| ==> Digit256(b, k, little) == if k < 8 then u / Pow256(k) % 256 else fill
  }

  lemma {:induction false} ShiftIs(u: nat, k: nat)
    ensures Shift(u, k) == u / Pow256(k)
  {
    if k > 0 {
      ShiftIs(u, k - 1);
      DivTwice(u, Pow256(k - 1));
    }
  }

  lemma DivTwice(u: nat, p: nat)
    requires p > 0
    ensures (u / p) / 256 == u / (256 * p)
  {
    var q, r := u / p, u % p;
    var q1, r1 := q / 256, q % 256;
    assert u == q * p + r && q == 256 * q1 + r1;
    Expanded(q1, r1, p);
    assert u == q1 * (256 * p) + (r1 * p + r);
    assert 0 <= r1 * p + r < 256 * p by { Below(r1, p, r); }
    DivUnique(u, 256 * p, q1, r1 * p + r);
  }

  lemma Expanded(q: int, r: int, p: int)
    ensures (256 * q + r) * p == q * (256 * p) + r * p
  {
  }

  lemma Below(r1: int, p: int, r: int)
    requires 0 <= r1 < 256 && 0 <= r < p
    ensures 0 <= r1 * p + r < 256 * p
  {
    assert r1 * p <= 255 * p;
  }

  lemma DivUnique(x: int, n: int, q: int, r: int)
    requires n > 0 && x == q * n + r && 0 <= r < n
    ensures x / n == q
  {
    ModUnique(x, n, q, r);
    assert x == n * (x / n) + x % n;
    assert (x / n - q) * n == 0 by { assert (x / n - q) * n == n * (x / n) - q * n; }
    SmallMultiple(x / n - q, n);
  }

  /** The bytes of an integer field, in either order. */
  lemma FieldBytes(u: nat, size: nat, neg: bool, little: bool)
    requires u < TWO_TO_64 && size >= 1
    ensures var b := Ordered(IntBytes(u, size, neg), little);
      |b| == size && IsField(b, u, little, if neg then 255 else 0)
  {
    hide IntBytes, Ordered, Shift;
    var le := IntBytes(u, size, neg);
    var b := Ordered(le, little);
    OrderedAt(le, little, 0);
    forall k: nat | k < size
      ensures Digit256(b, k, little) == if k < 8 then u / Pow256(k) % 256 else if neg then 255 else 0
    {
      OrderedAt(le, little, k);
      IntBytesAt(u, size, neg, k);
      ShiftIs(u, k);
      if k >= 8 { ShiftOut(u, k); }
    }
  }

  /** A field of at most eight bytes has one value. */
  lemma FieldValue(b: bytes, u: nat, little: bool, fill: byte)
    requires 1 <= |b| <= 8 && u < Pow256(|b|) && IsField(b, u, little, fill)
    ensures |Ordered(b, little)| == |b| && Value(Ordered(b, little)) == u
  {
    hide Shift, Little;
    var le, n := Ordered(b, little), |b|;
    OrderedAt(b, little, 0);
    forall k: nat | k < n ensures le[k] == Little(u, n)[k] {
      assert Digit256(b, k, little) == u / Pow256(k) % 256;
      var j := Place(k, n, little);
      assert Place(j, n, little) == k;
      OrderedAt(b, little, j);
      LittleAt(u, n, k);
      ShiftIs(u, k);
    }
    assert le == Little(u, n);
    ValueOfLittle(u, n);
  }

  // ------------------------------------------------------------ option letters

  function DigitsValue(s: string): nat
    requires forall c :: c in s ==> IsDigit(c)
  {
    if s == "" then 0
    else
      assert IsDigit(s[|s| - 1]) && forall c :: c in s[..|s| - 1] ==> c in s;
      10 * DigitsValue(s[..|s| - 1]) + (s[|s| - 1] as int - '0' as int)
  }

  /** A count of at most nine digits from j up to next, or none and the default. */
  predicate CountAt(fmt: string, j: nat, default: int, n: int, next: nat) {
    if !IsDigit(At(fmt, j)) then n == default && next == j
    else
      && j < next <= |fmt| && next - j <= 9 && !IsDigit(At(fmt, next))
      && (forall c :: c in fmt[j..next] ==> IsDigit(c)) && n == DigitsValue(fmt[j..next])
  }

  lemma DigitsBound(s: string)
    requires (forall c :: c in s ==> IsDigit(c)) && |s| <= 8
    ensures DigitsValue(s) < 100_000_000
  {
    if s != "" { Tenfold(s); }
    Pow10Below(|s|);
  }

  lemma {:induction false} Pow10Below(n: nat)
    requires n <= 8
    ensures Pow10(n) <= Pow10(8) == 100_000_000
    decreases 8 - n
  {
    if n < 8 { Pow10Below(n + 1); }
  }

  lemma {:induction false} Tenfold(s: string)
    requires |s| >= 1 && (forall c :: c in s ==> IsDigit(c)) && |s| <= 8
    ensures DigitsValue(s) < Pow10(|s|)
  {
    assert IsDigit(s[|s| - 1]);
    if |s| > 1 {
      assert forall c :: c in s[..|s| - 1] ==> c in s;
      Tenfold(s[..|s| - 1]);
    } else {
      assert s[..0] == "";
    }
  }

  function Pow10(n: nat): nat { if n == 0 then 1 else 10 * Pow10(n - 1) }

  lemma {:induction false} DigitsRead(fmt: string, j: nat, i: nat, next: nat)
    requires j <= i < next <= |fmt| && next - j <= 9 && !IsDigit(At(fmt, next))
    requires forall c :: c in fmt[j..next] ==> IsDigit(c)
    ensures forall c :: c in fmt[j..i] ==> IsDigit(c)
    ensures Digits(fmt, i, DigitsValue(fmt[j..i])) == (DigitsValue(fmt[j..next]), next)
    decreases next - i
  {
    assert fmt[j..next][i - j] == fmt[i];
    forall c | c in fmt[j..i] ensures IsDigit(c) {
      var k :| 0 <= k < |fmt[j..i]| && fmt[j..i][k] == c;
      assert fmt[j..next][k] == c;
    }
    var s := fmt[j..i + 1];
    assert s[..|s| - 1] == fmt[j..i] && s[|s| - 1] == fmt[i];
    forall c | c in s ensures IsDigit(c) {
      var k :| 0 <= k < |s| && s[k] == c;
      assert fmt[j..next][k] == c;
    }
    if i + 1 < next {
      assert fmt[j..next][i + 1 - j] == fmt[i + 1];
      DigitsBound(s);
      DigitsRead(fmt, j, i + 1, next);
    }
  }

  lemma CountReads(fmt: string, j: nat, default: int, n: int, next: nat)
    requires CountAt(fmt, j, default, n, next)
    ensures GetNum(fmt, j, default) == (n, next)
  {
    if IsDigit(At(fmt, j)) {
      assert fmt[j..j] == "";
      DigitsRead(fmt, j, j, next);
    }
  }

  const INT_WIDTHS: map<char, nat> :=
    map['b' := 1, 'B' := 1, 'h' := 2, 'H' := 2, 'l' := 8, 'L' := 8, 'j' := 8, 'J' := 8, 'T' := 8]

  /** An integer option of n bytes from i up to next. */
  predicate IntAt(fmt: string, i: nat, signed: bool, n: nat, next: nat) {
    && i < |fmt|
    && if fmt[i] == 'i' || fmt[i] == 'I' then
         signed == (fmt[i] == 'i') && CountAt(fmt, i + 1, 4, n, next) && 1 <= n <= 16
       else fmt[i] in INT_WIDTHS && signed == (fmt[i] in "bhlj") && n == INT_WIDTHS[fmt[i]] && next == i + 1
  }

  /** p is the least padding that brings the position to a multiple of the size, or of the largest alignment. */
  predicate PaddedBy(size: nat, maxalign: nat, total: nat, p: nat) {
    var a := if size > maxalign then maxalign else size;
    a in {1, 2, 4, 8, 16} && p < a && (total + p) % a == 0
  }

  lemma PadIs(opt: Opt, size: nat, maxalign: nat, total: nat, p: nat)
    requires opt != OChar && PaddedBy(size, maxalign, total, p)
    ensures Pad(opt, size, maxalign, total) == Ok(p)
  {
    var a := if size > maxalign then maxalign else size;
    assert PowerOf2(1) && PowerOf2(2) && PowerOf2(4) && PowerOf2(8) && PowerOf2(16) by {
      assert PowerOf2(4) == PowerOf2(2);
    }
    if size > 1 {
      ToAlignIsLeast(total, a, p);
      OneMultiple(total, a, p, ToAlign(total, a));
    }
  }

  lemma OneMultiple(total: nat, a: nat, p: nat, q: nat)
    requires a > 0 && p < a && q < a && (total + p) % a == 0 && (total + q) % a == 0
    ensures p == q
  {
    var x, y := (total + p) / a, (total + q) / a;
    assert total + p == x * a && total + q == y * a;
    assert (x - y) * a == p - q;
    SmallMultiple(x - y, a);
  }

  /** What an integer option asks for. */
  lemma IntDetail(m: Machine, h: Header, total: nat, fmt: string, i: nat, signed: bool, n: nat, next: nat, p: nat)
    requires IntAt(fmt, i, signed, n, next) && PaddedBy(n, h.maxalign, total, p)
    ensures GetDetails(m, h, total, fmt, i) == Ok(Detail(if signed then OInt else OUInt, n, p, h, next))
    ensures At(fmt, i) != NUL
  {
    if fmt[i] == 'i' || fmt[i] == 'I' { CountReads(fmt, i + 1, 4, n, next); }
    PadIs(if signed then OInt else OUInt, n, h.maxalign, total, p);
  }

  // --------------------------------------------------------- letters, one by one

  /** x fits n bytes. */
  predicate InRange(x: int, n: nat, signed: bool) {
    n >= 8 || (if signed then -(Pow256(n) / 2) <= x < Pow256(n) / 2 else 0 <= x < Pow256(n))
  }

  /** The field of x in n bytes. */
  ghost predicate IntField(b: bytes, x: int, n: nat, signed: bool, little: bool) {
    -TWO_TO_63 <= x < TWO_TO_63 && |b| == n
    && IsField(b, if x < 0 then x + TWO_TO_64 else x, little, if signed && x < 0 then 255 else 0)
  }

  /** An integer option packs its argument, in the byte order in force, or is an overflow. */
  lemma IntPacks(m: Machine, h: Header, fmt: string, i: nat, total: nat, args: seq<Arg>, k: nat,
                 signed: bool, n: nat, next: nat, p: nat)
    requires IntAt(fmt, i, signed, n, next) && PaddedBy(n, h.maxalign, total, p)
    requires k < |args| && args[k].AInt? && -TWO_TO_63 <= args[k].i < TWO_TO_63
    ensures !InRange(args[k].i, n, signed) ==>
      PackFrom(m, h, fmt, i, total, args, k) == Err(if signed then IntegerOverflow else UnsignedOverflow)
    ensures InRange(args[k].i, n, signed) ==>
      exists b: bytes :: IntField(b, args[k].i, n, signed, h.little) &&
        PackFrom(m, h, fmt, i, total, args, k) ==
        Ahead(Zeros(p) + b, PackFrom(m, h, fmt, next, total + p + n, args, k + 1))
  {
    hide GetDetails, IntBytes, Ordered, IsField, Pow256;
    var x, opt := args[k].i, if signed then OInt else OUInt;
    var d := Detail(opt, n, p, h, next);
    IntDetail(m, h, total, fmt, i, signed, n, next, p);
    WrapIs(x);
    if n < 8 { Pow256Small(n); }
    assert InRange(x, n, signed) <==> EncodeItem(m, d, args[k]).Ok?;
    if InRange(x, n, signed) {
      var b := Ordered(IntBytes(Wrap(x, TWO_TO_64), n, signed && x < 0), h.little);
      FieldBytes(Wrap(x, TWO_TO_64), n, signed && x < 0, h.little);
      assert EncodeItem(m, d, args[k]) == Ok(b);
      assert IntField(b, x, n, signed, h.little);
      var rest := PackFrom(m, h, fmt, next, total + p + n, args, k + 1);
      if rest.Ok? { assert Zeros(p) + b + rest.value.out == (Zeros(p) + b) + rest.value.out; }
    }
  }

  lemma WrapIs(x: int)
    requires -TWO_TO_63 <= x < TWO_TO_63
    ensures Wrap(x, TWO_TO_64) == if x < 0 then x + TWO_TO_64 else x
  {
  }

  lemma Pow256Small(n: nat)
    requires n < 8
    ensures Pow256(n) <= 0x100_0000_0000_0000
  {
    PowTable();
  }

  /** What the bytes of a field of n bytes mean: two's complement where the option is signed, and always at eight. */
  function FieldMeans(u: nat, n: nat, signed: bool): int {
    if n >= 8 then (if u >= TWO_TO_63 then u - TWO_TO_64 else u)
    else if signed && u >= Pow256(n) / 2 then u - Pow256(n) else u
  }

  lemma DigitOfOrdered(b: bytes, little: bool, k: nat)
    requires k < |b|
    ensures |Ordered(b, little)| == |b| && Ordered(b, little)[k] == Digit256(b, k, little)
  {
  }

  lemma OrderedLittle(b: bytes)
    ensures Ordered(b, true) == b
  {
  }

  /** The first eight bytes, or all there are, are those of u. */
  ghost predicate LowBytes(b: bytes, u: nat, little: bool) {
    u < TWO_TO_64 && (|b| < 8 ==> u < Pow256(|b|))
    && forall k: nat :: k < |b| && k < 8 ==> Digit256(b, k, little) == u / Pow256(k) % 256
  }

  /** Bytes past the eighth must repeat the sign. */
  lemma FieldReads(b: bytes, u: nat, little: bool, signed: bool)
    requires |b| >= 1 && LowBytes(b, u, little)
    ensures |Ordered(b, little)| == |b|
    ensures IntValue(Ordered(b, little), signed) ==
      if IsField(b, u, little, if signed && u >= TWO_TO_63 then 255 else 0) then Ok(FieldMeans(u, |b|, signed))
      else Err(TooWide)
  {
    hide Ordered, Value, Pow256;
    PowTable();
    var le := Ordered(b, little);
    if |b| <= 8 {
      FieldValue(b, u, little, 0);
      assert |b| == 8 ==> le[..8] == le;
    } else {
      forall k: nat | k < |b| ensures |le| == |b| && le[k] == Digit256(b, k, little) { DigitOfOrdered(b, little, k); }
      OrderedLittle(le[..8]);
      FieldValue(le[..8], u, true, 0);
    }
  }

  /** An integer option reads the field at the position, in the byte order in force. */
  lemma IntUnpacks(m: Machine, h: Header, fmt: string, i: nat, data: bytes, pos: nat, signed: bool, n: nat, next: nat,
                   p: nat, u: nat)
    requires IntAt(fmt, i, signed, n, next) && PaddedBy(n, h.maxalign, pos, p)
    requires pos + p + n <= |data| ==> LowBytes(data[pos + p..pos + p + n], u, h.little)
    ensures UnpackFrom(m, h, fmt, i, data, pos) ==
      if pos + p + n > |data| then Err(TooShort)
      else if IsField(data[pos + p..pos + p + n], u, h.little, if signed && u >= TWO_TO_63 then 255 else 0) then
        Before([AInt(FieldMeans(u, n, signed))], UnpackFrom(m, h, fmt, next, data, pos + p + n))
      else Err(TooWide)
  {
    hide GetDetails, Ordered, IsField, LowBytes, IntValue, Pow256, FieldMeans;
    IntDetail(m, h, pos, fmt, i, signed, n, next, p);
    if pos + p + n <= |data| { FieldReads(data[pos + p..pos + p + n], u, h.little, signed); }
  }

  /** Options that only change the header go on behind themselves. */
  ghost predicate GoesOn(m: Machine, h: Header, fmt: string, i: nat, h': Header, next: nat) {
    && (forall total, args, k :: PackFrom(m, h, fmt, i, total, args, k) == PackFrom(m, h', fmt, next, total, args, k))
    && (forall data: bytes, pos: nat :: pos <= |data| ==>
          UnpackFrom(m, h, fmt, i, data, pos) == UnpackFrom(m, h', fmt, next, data, pos))
    && (forall total: nat :: total <= INT_MAX ==> SizeFrom(m, h, fmt, i, total) == SizeFrom(m, h', fmt, next, total))
  }

  lemma NopDetail(m: Machine, h: Header, fmt: string, i: nat, h': Header, next: nat, total: nat)
    requires i < |fmt| && GetOption(m, h, fmt, i) == Ok(FormatOption(ONop, 0, h', next))
    ensures GetDetails(m, h, total, fmt, i) == Ok(Detail(ONop, 0, 0, h', next))
  {
    hide GetOption;
  }

  lemma NopPacks(m: Machine, h: Header, fmt: string, i: nat, h': Header, next: nat, total: nat, args: seq<Arg>, k: nat)
    requires i < |fmt| && At(fmt, i) != NUL && GetOption(m, h, fmt, i) == Ok(FormatOption(ONop, 0, h', next))
    ensures PackFrom(m, h, fmt, i, total, args, k) == PackFrom(m, h', fmt, next, total, args, k)
  {
    hide GetOption, GetDetails;
    NopDetail(m, h, fmt, i, h', next, total);
    var rest := PackFrom(m, h', fmt, next, total, args, k);
    if rest.Ok? { assert Zeros(0) + [] + rest.value.out == rest.value.out; }
  }

  lemma NopGoesOn(m: Machine, h: Header, fmt: string, i: nat, h': Header, next: nat)
    requires i < |fmt| && At(fmt, i) != NUL && GetOption(m, h, fmt, i) == Ok(FormatOption(ONop, 0, h', next))
    ensures GoesOn(m, h, fmt, i, h', next)
  {
    hide GetOption, GetDetails;
    forall total: nat ensures GetDetails(m, h, total, fmt, i) == Ok(Detail(ONop, 0, 0, h', next)) {
      NopDetail(m, h, fmt, i, h', next, total);
    }
    hide PackFrom;
    forall total, args, k ensures PackFrom(m, h, fmt, i, total, args, k) == PackFrom(m, h', fmt, next, total, args, k) {
      NopPacks(m, h, fmt, i, h', next, total, args, k);
    }
  }

  /** `<` is least significant byte first, `>` most significant first, `=` and the start the machine's own order. */
  lemma OrderGoesOn(m: Machine, h: Header, fmt: string, i: nat)
    requires i < |fmt|
    ensures fmt[i] == '<' ==> GoesOn(m, h, fmt, i, Header(true, h.maxalign), i + 1)
    ensures fmt[i] == '>' ==> GoesOn(m, h, fmt, i, Header(false, h.maxalign), i + 1)
    ensures fmt[i] == '=' ==> GoesOn(m, h, fmt, i, Header(m.little, h.maxalign), i + 1)
    ensures Start(m) == Header(m.little, 1)
  {
    hide GoesOn;
    if fmt[i] in "<>=" { NopGoesOn(m, h, fmt, i, GetOption(m, h, fmt, i).value.h, i + 1); }
  }

  const BLANKS := " \n\t\U{000B}\U{000C}\r"

  /** `!` sets the largest alignment, 8 where no count is given; blanks do nothing. */
  lemma AlignGoesOn(m: Machine, h: Header, fmt: string, i: nat, n: nat, next: nat)
    requires i < |fmt|
    ensures fmt[i] == '!' && CountAt(fmt, i + 1, 8, n, next) && 1 <= n <= 16 ==>
      GoesOn(m, h, fmt, i, Header(h.little, n), next)
    ensures fmt[i] in BLANKS ==> GoesOn(m, h, fmt, i, h, i + 1)
  {
    hide GoesOn, GetNum;
    if fmt[i] == '!' && CountAt(fmt, i + 1, 8, n, next) && 1 <= n <= 16 {
      CountReads(fmt, i + 1, 8, n, next);
      NopGoesOn(m, h, fmt, i, Header(h.little, n), next);
    }
    if fmt[i] in BLANKS { NopGoesOn(m, h, fmt, i, h, i + 1); }
  }

  // --------------------------------------------------------------- other letters

  /** One item and the rest of the format. */
  lemma ItemPacks(m: Machine, h: Header, fmt: string, i: nat, total: nat, args: seq<Arg>, k: nat, d: Detail)
    requires i < |fmt| && At(fmt, i) != NUL && GetDetails(m, h, total, fmt, i) == Ok(d) && d.next > i
    requires TakesArg(d.opt) ==> k < |args|
    ensures var e := EncodeItem(m, d, if TakesArg(d.opt) then args[k] else AInt(0));
      PackFrom(m, h, fmt, i, total, args, k) ==
      if e.Err? then Err(e.error)
      else Ahead(Zeros(d.pad) + e.value,
                 PackFrom(m, d.h, fmt, d.next, total + d.pad + |e.value|, args, if TakesArg(d.opt) then k + 1 else k))
  {
    hide GetDetails, EncodeItem;
    var e := EncodeItem(m, d, if TakesArg(d.opt) then args[k] else AInt(0));
    if e.Ok? {
      var rest := PackFrom(m, d.h, fmt, d.next, total + d.pad + |e.value|, args, if TakesArg(d.opt) then k + 1 else k);
      if rest.Ok? { assert Zeros(d.pad) + e.value + rest.value.out == (Zeros(d.pad) + e.value) + rest.value.out; }
    }
  }

  lemma FloatBytes(m: Machine, bits: nat, n: nat, little: bool)
    requires (n == 4 || n == 8) && bits < Pow256(n)
    ensures var b := CopyEndian(m, NativeBytes(m, bits, n), little); |b| == n && IsField(b, bits, little, 0)
  {
    hide IsField;
    PowTable();
    FieldBytes(bits, n, false, little);
    ReverseTwice(Little(bits, n));
    OrderedAt(Little(bits, n), m.little, 0);
  }

  /** `f` packs four bytes, `d` and `n` eight, in the byte order in force. */
  lemma FloatPacks(m: Machine, h: Header, fmt: string, i: nat, total: nat, args: seq<Arg>, k: nat, p: nat)
    requires i < |fmt| && fmt[i] in "fdn" && PaddedBy(if fmt[i] == 'f' then 4 else 8, h.maxalign, total, p)
    requires k < |args| && args[k].ANum? && Fits(m, args[k])
    ensures var n := if fmt[i] == 'f' then 4 else 8;
      exists b: bytes ::
        && |b| == n && IsField(b, if n == 4 then m.narrow(args[k].bits) else args[k].bits, h.little, 0)
        && PackFrom(m, h, fmt, i, total, args, k) ==
           Ahead(Zeros(p) + b, PackFrom(m, h, fmt, i + 1, total + p + n, args, k + 1))
  {
    hide IsField, CopyEndian, NativeBytes, PackFrom;
    var n := if fmt[i] == 'f' then 4 else 8;
    var d := Detail(OFloat, n, p, h, i + 1);
    PadIs(OFloat, n, h.maxalign, total, p);
    ItemPacks(m, h, fmt, i, total, args, k, d);
    var bits := if n == 4 then m.narrow(args[k].bits) else args[k].bits;
    PowTable();
    FloatBytes(m, bits, n, h.little);
    assert EncodeItem(m, d, args[k]) == Ok(CopyEndian(m, NativeBytes(m, bits, n), h.little));
  }

  lemma FloatReads(m: Machine, b: bytes, u: nat, little: bool)
    requires (|b| == 4 || |b| == 8) && u < Pow256(|b|) && IsField(b, u, little, 0)
    ensures NativeValue(m, CopyEndian(m, b, little)) == u
  {
    hide IsField;
    FieldValue(b, u, little, 0);
    ReverseTwice(b);
  }

  lemma FloatUnpacks(m: Machine, h: Header, fmt: string, i: nat, data: bytes, pos: nat, p: nat, u: nat)
    requires i < |fmt| && fmt[i] in "fdn" && PaddedBy(if fmt[i] == 'f' then 4 else 8, h.maxalign, pos, p)
    requires var n := if fmt[i] == 'f' then 4 else 8;
      pos + p + n <= |data| && u < Pow256(n) && IsField(data[pos + p..pos + p + n], u, h.little, 0)
    ensures var n := if fmt[i] == 'f' then 4 else 8;
      UnpackFrom(m, h, fmt, i, data, pos) ==
      Before([ANum(if n == 4 then m.widen(u) else u)], UnpackFrom(m, h, fmt, i + 1, data, pos + p + n))
  {
    hide IsField, CopyEndian, NativeValue, Pow256;
    var n := if fmt[i] == 'f' then 4 else 8;
    PadIs(OFloat, n, h.maxalign, pos, p);
    FloatReads(m, data[pos + p..pos + p + n], u, h.little);
    assert GetDetails(m, h, pos, fmt, i) == Ok(Detail(OFloat, n, p, h, i + 1));
  }

  /** `s` packs the length in a field of the size given, eight where none is, and the text behind it. */
  lemma StringPacks(m: Machine, h: Header, fmt: string, i: nat, total: nat, args: seq<Arg>, k: nat, n: nat, next: nat,
                    p: nat)
    requires i < |fmt| && fmt[i] == 's' && CountAt(fmt, i + 1, 8, n, next) && 1 <= n <= 16
    requires PaddedBy(n, h.maxalign, total, p) && k < |args| && args[k].AStr? && Fits(m, args[k])
    ensures var s := args[k].s;
      if n < 8 && |s| >= Pow256(n) then PackFrom(m, h, fmt, i, total, args, k) == Err(LengthDoesNotFit)
      else exists b: bytes ::
        && |b| == n && IsField(b, |s|, h.little, 0)
        && PackFrom(m, h, fmt, i, total, args, k) ==
           Ahead(Zeros(p) + (b + s), PackFrom(m, h, fmt, next, total + p + |b + s|, args, k + 1))
  {
    hide IsField, IntBytes, Ordered, Pow256, PackFrom, GetNum;
    var s, d := args[k].s, Detail(OString, n, p, h, next);
    CountReads(fmt, i + 1, 8, n, next);
    PadIs(OString, n, h.maxalign, total, p);
    ItemPacks(m, h, fmt, i, total, args, k, d);
    FieldBytes(|s|, n, false, h.little);
    var b := Ordered(IntBytes(|s|, n, false), h.little);
    assert !(n < 8 && |s| >= Pow256(n)) ==> EncodeItem(m, d, args[k]) == Ok(b + s);
  }

  /** `z` packs the text and a zero, `c` the text filled up with zeros to the size given, `x` a zero. */
  lemma TextPacks(m: Machine, h: Header, fmt: string, i: nat, total: nat, args: seq<Arg>, k: nat, n: nat, next: nat)
    requires i < |fmt| && k < |args| && args[k].AStr?
    ensures var s, r := args[k].s, PackFrom(m, h, fmt, i, total, args, k);
      fmt[i] == 'z' ==>
        if 0 in s then r == Err(ContainsZeros)
        else r == Ahead(s + [0], PackFrom(m, h, fmt, i + 1, total + |s| + 1, args, k + 1))
    ensures var s, r := args[k].s, PackFrom(m, h, fmt, i, total, args, k);
      fmt[i] == 'c' && CountAt(fmt, i + 1, -1, n, next) ==>
        if |s| > n then r == Err(StringLonger)
        else r == Ahead(s + seq(n - |s|, _ => 0), PackFrom(m, h, fmt, next, total + n, args, k + 1))
    ensures fmt[i] == 'x' ==>
      PackFrom(m, h, fmt, i, total, args, k) == Ahead([0], PackFrom(m, h, fmt, i + 1, total + 1, args, k))
  {
    hide PackFrom, GetNum, CountAt;
    var s := args[k].s;
    if fmt[i] == 'z' {
      ItemPacks(m, h, fmt, i, total, args, k, Detail(OZStr, 0, 0, h, i + 1));
      assert Zeros(0) + (s + [0]) == s + [0];
    } else if fmt[i] == 'x' {
      ItemPacks(m, h, fmt, i, total, args, k, Detail(OPadding, 1, 0, h, i + 1));
      assert Zeros(0) + [0] == [0];
    } else if fmt[i] == 'c' && CountAt(fmt, i + 1, -1, n, next) {
      CountReads(fmt, i + 1, -1, n, next);
      ItemPacks(m, h, fmt, i, total, args, k, Detail(OChar, n, 0, h, next));
      if |s| <= n { assert Zeros(0) + (s + Zeros(n - |s|)) == s + seq(n - |s|, _ => 0); }
    }
  }

  /** An option of fixed size n other than `c` from j up to next. */
  ghost predicate SizeAt(fmt: string, j: nat, n: nat, next: nat) {
    || (exists signed :: IntAt(fmt, j, signed, n, next))
    || (j < |fmt| && fmt[j] == 's' && CountAt(fmt, j + 1, 8, n, next) && 1 <= n <= 16)
    || (j < |fmt| && fmt[j] in "fdnx" && next == j + 1
        && n == if fmt[j] == 'f' then 4 else if fmt[j] == 'x' then 1 else 8)
  }

  lemma SizedOption(m: Machine, h: Header, fmt: string, j: nat, n: nat, next: nat) returns (opt: Opt)
    requires SizeAt(fmt, j, n, next)
    ensures j < |fmt| && At(fmt, j) != NUL && opt != OChar
    ensures GetOption(m, h, fmt, j) == Ok(FormatOption(opt, n, h, next))
  {
    hide GetNum;
    if fmt[j] == 's' && CountAt(fmt, j + 1, 8, n, next) { CountReads(fmt, j + 1, 8, n, next); }
    if (fmt[j] == 'i' || fmt[j] == 'I') && CountAt(fmt, j + 1, 4, n, next) { CountReads(fmt, j + 1, 4, n, next); }
    opt := GetOption(m, h, fmt, j).value.opt;
  }

  /** `X` pads as the option behind it would, and packs nothing. */
  lemma AlignPacks(m: Machine, h: Header, fmt: string, i: nat, total: nat, args: seq<Arg>, k: nat, n: nat, next: nat,
                   p: nat)
    requires i < |fmt| && fmt[i] == 'X' && SizeAt(fmt, i + 1, n, next) && PaddedBy(n, h.maxalign, total, p)
    ensures PackFrom(m, h, fmt, i, total, args, k) == Ahead(Zeros(p), PackFrom(m, h, fmt, next, total + p, args, k))
  {
    hide PackFrom, GetNum, SizeAt;
    var opt := SizedOption(m, h, fmt, i + 1, n, next);
    PadIs(OPadAlign, n, h.maxalign, total, p);
    ItemPacks(m, h, fmt, i, total, args, k, Detail(OPadAlign, 0, p, h, next));
    assert Zeros(p) + [] == Zeros(p);
  }

  const LETTERS := "bBhHlLjJTiIfdnscxXz<>=!" + BLANKS

  /** Any other character is no option. */
  lemma UnknownOption(m: Machine, h: Header, fmt: string, i: nat, total: nat, args: seq<Arg>, k: nat)
    requires i < |fmt| && At(fmt, i) != NUL && fmt[i] !in LETTERS
    ensures PackFrom(m, h, fmt, i, total, args, k) == Err(InvalidOption)
  {
    assert GetOption(m, h, fmt, i) == Err(InvalidOption);
  }

  /** A size must be there for `c`, and between 1 and 16 for `i`, `I`, `s` and `!`. */
  lemma BadSize(m: Machine, h: Header, fmt: string, i: nat, total: nat, args: seq<Arg>, k: nat, n: nat, next: nat)
    requires i < |fmt|
    ensures fmt[i] == 'c' && !IsDigit(At(fmt, i + 1)) ==> PackFrom(m, h, fmt, i, total, args, k) == Err(MissingSize)
    ensures fmt[i] in "iIs!" && CountAt(fmt, i + 1, 8, n, next) && !(1 <= n <= 16) ==>
      PackFrom(m, h, fmt, i, total, args, k) == Err(IntegralSize)
  {
    hide CountAt, Digits;
    if fmt[i] in "iIs!" && CountAt(fmt, i + 1, 8, n, next) && !(1 <= n <= 16) {
      NoDefault(fmt, i + 1, n, next);
      CountReads(fmt, i + 1, 8, n, next);
      assert GetOption(m, h, fmt, i) == Err(IntegralSize);
    }
  }

  lemma NoDefault(fmt: string, j: nat, n: nat, next: nat)
    requires CountAt(fmt, j, 8, n, next) && n != 8
    ensures IsDigit(At(fmt, j))
  {
  }

  /** Alignment asks for powers of two, and `X` for an option with a size behind it that is not `c`. */
  lemma BadAlign(m: Machine, h: Header, fmt: string, i: nat, total: nat, args: seq<Arg>, k: nat, signed: bool, n: nat,
                 next: nat)
    requires IntAt(fmt, i, signed, n, next) && n > 1
    requires (if n > h.maxalign then h.maxalign else n) !in {1, 2, 4, 8, 16}
    ensures PackFrom(m, h, fmt, i, total, args, k) == Err(NotPowerOf2)
  {
    hide GetNum, CountAt;
    SmallPowers(if n > h.maxalign then h.maxalign else n);
    if fmt[i] == 'i' || fmt[i] == 'I' { CountReads(fmt, i + 1, 4, n, next); }
    var opt := if signed then OInt else OUInt;
    assert GetOption(m, h, fmt, i) == Ok(FormatOption(opt, n, h, next));
    assert Pad(opt, n, h.maxalign, total) == Err(NotPowerOf2);
  }

  lemma SmallPowers(a: nat)
    requires a <= 16
    ensures PowerOf2(a) <==> a in {1, 2, 4, 8, 16}
  {
    assert PowerOf2(a) == (a == 1 || (a > 1 && a % 2 == 0 && PowerOf2(a / 2)));
    assert PowerOf2(a / 2) == (a / 2 == 1 || (a / 2 > 1 && a / 2 % 2 == 0 && PowerOf2(a / 2 / 2)));
    assert PowerOf2(a / 4) == (a / 4 == 1 || (a / 4 > 1 && a / 4 % 2 == 0 && PowerOf2(a / 4 / 2)));
  }

  lemma BadNextOption(m: Machine, h: Header, fmt: string, i: nat, total: nat, args: seq<Arg>, k: nat)
    requires i < |fmt| && fmt[i] == 'X'
    requires At(fmt, i + 1) in {NUL, 'z', 'X', '<', '>', '='} || At(fmt, i + 1) in BLANKS
    ensures PackFrom(m, h, fmt, i, total, args, k) == Err(BadNext)
  {
    assert GetOption(m, h, fmt, i) == Ok(FormatOption(OPadAlign, 0, h, i + 1));
    assert i + 1 < |fmt| && fmt[i + 1] != NUL ==>
      GetOption(m, h, fmt, i + 1).Ok? && GetOption(m, h, fmt, i + 1).value.size == 0;
  }

  /** Unpacking starts at the position given, from the end where it is negative, and never outside the data. */
  lemma StartsAt(data: bytes, ipos: int)
    ensures 1 <= ipos <= |data| + 1 ==> Initial(data, ipos) == Ok(ipos - 1)
    ensures -|data| <= ipos < 0 ==> Initial(data, ipos) == Ok(|data| + ipos)
    ensures ipos == 0 || ipos > |data| + 1 || ipos < -|data| ==> Initial(data, ipos) == Err(BadPosition)
  {
  }
}
