/** Unpacking undoes packing, and packsize foretells the packed length. */
module PackProof {
  import opened Common
  import opened ByteOrder
  import opened PackFormat

  /** What the machine's types guarantee of arguments and conversions. */
  ghost predicate Fits(m: Machine, a: Arg) {
    match a
    case AInt(i) => -TWO_TO_63 <= i < TWO_TO_63
    case ANum(bits) => bits < TWO_TO_64 && m.narrow(bits) < TWO_TO_32
    case AStr(s) => |s| < TWO_TO_64
  }

  // ----------------------------------------------------------------- integers

  lemma {:induction false} ValueMod(v: nat, n: nat)
    ensures Value(Little(v, n)) == v % Pow256(n)
  {
    if n == 0 {
      ModUnique(v, 1, v, 0);
    } else {
      ValueMod(v / 256, n - 1);
      assert Little(v, n)[1..] == Little(v / 256, n - 1);
      ModStep(v, Pow256(n - 1));
    }
  }

  /** Remainders by a multiple of 256, digit by digit. */
  lemma ModStep(v: nat, p: nat)
    requires p > 0
    ensures v % (256 * p) == v % 256 + 256 * ((v / 256) % p)
  {
    var w, d := v / 256, v % 256;
    var q, r := w / p, w % p;
    assert w == q * p + r;
    Regrouped(q, p, r, d);
    ModUnique(v, 256 * p, q, 256 * r + d);
  }

  lemma Regrouped(q: int, p: int, r: int, d: int)
    ensures 256 * (q * p + r) + d == q * (256 * p) + (256 * r + d)
  {
  }

  lemma PowTable()
    ensures Pow256(1) == 0x100 && Pow256(2) == 0x1_0000 && Pow256(3) == 0x100_0000 && Pow256(4) == 0x1_0000_0000
    ensures Pow256(5) == 0x100_0000_0000 && Pow256(6) == 0x1_0000_0000_0000 && Pow256(7) == 0x100_0000_0000_0000
    ensures Pow256(8) == TWO_TO_64
  {
    assert Pow256(3) == 0x100_0000;
    assert Pow256(6) == 0x1_0000_0000_0000;
  }

  /** Small signed numbers survive the detour over 64 bits. */
  lemma SmallSigned(i: int, size: nat)
    requires 1 <= size < 8 && -(Pow256(size) / 2) <= i < Pow256(size) / 2
    ensures var v := Wrap(i, TWO_TO_64) % Pow256(size); i == if v >= Pow256(size) / 2 then v - Pow256(size) else v
  {
    PowTable();
    if size == 1 { SmallCase(i, 0x100, 0x100_0000_0000_0000); }
    else if size == 2 { SmallCase(i, 0x1_0000, 0x1_0000_0000_0000); }
    else if size == 3 { SmallCase(i, 0x100_0000, 0x100_0000_0000); }
    else if size == 4 { SmallCase(i, 0x1_0000_0000, 0x1_0000_0000); }
    else if size == 5 { SmallCase(i, 0x100_0000_0000, 0x100_0000); }
    else if size == 6 { SmallCase(i, 0x1_0000_0000_0000, 0x1_0000); }
    else { SmallCase(i, 0x100_0000_0000_0000, 0x100); }
  }

  lemma SmallCase(i: int, p: int, k: int)
    requires p > 1 && p * k == TWO_TO_64 && p % 2 == 0 && -(p / 2) <= i < p / 2 && p <= TWO_TO_64
    ensures var v := Wrap(i, TWO_TO_64) % p; i == if v >= p / 2 then v - p else v
  {
    if i >= 0 {
      ModUnique(i, TWO_TO_64, 0, i);
      ModUnique(i, p, 0, i);
    } else {
      ModUnique(i, TWO_TO_64, -1, TWO_TO_64 + i);
      assert TWO_TO_64 + i == (k - 1) * p + (p + i) by { assert (k - 1) * p == k * p - p; assert k * p == p * k; }
      ModUnique(TWO_TO_64 + i, p, k - 1, p + i);
    }
  }

  lemma SignedWrap(i: int)
    requires -TWO_TO_63 <= i < TWO_TO_63
    ensures Wrap(i, TWO_TO_64) < TWO_TO_64 && Signed(Wrap(i, TWO_TO_64), TWO_TO_64) == i
  {
  }

  /** A packed integer reads back, signed or unsigned, at every size. */
  lemma IntRoundTrip(i: int, size: nat, signed: bool)
    requires 1 <= size && -TWO_TO_63 <= i < TWO_TO_63
    requires size < 8 && signed ==> -(Pow256(size) / 2) <= i < Pow256(size) / 2
    requires size < 8 && !signed ==> Wrap(i, TWO_TO_64) < Pow256(size)
    ensures IntValue(IntBytes(Wrap(i, TWO_TO_64), size, signed && i < 0), signed) == Ok(i)
  {
    var u := Wrap(i, TWO_TO_64);
    SignedWrap(i);
    PowTable();
    if size < 8 {
      ValueMod(u, size);
      if signed { SmallSigned(i, size); } else { UnsignedSmall(i, size); }
    } else {
      var b := IntBytes(u, size, signed && i < 0);
      assert b[..8] == Little(u, 8);
      ValueOfLittle(u, 8);
    }
  }

  lemma UnsignedSmall(i: int, size: nat)
    requires 1 <= size < 8 && -TWO_TO_63 <= i < TWO_TO_63 && Wrap(i, TWO_TO_64) < Pow256(size)
    ensures Wrap(i, TWO_TO_64) == i && i % Pow256(size) == i
  {
    PowTable();
    assert Pow256(size) <= 0x100_0000_0000_0000;
    ModUnique(i, Pow256(size), 0, i);
  }

  // -------------------------------------------------------------------- items

  lemma OrderedTwice(b: bytes, little: bool)
    ensures Ordered(Ordered(b, little), little) == b && |Ordered(b, little)| == |b|
  {
    if !little { ReverseTwice(b); }
  }

  lemma FloatRoundTrip(m: Machine, bits: nat, size: nat, little: bool)
    requires bits < Pow256(size)
    ensures var b := CopyEndian(m, NativeBytes(m, bits, size), little);
      |b| == size && NativeValue(m, CopyEndian(m, b, little)) == bits
  {
    var n := NativeBytes(m, bits, size);
    OrderedTwice(Little(bits, size), m.little);
    ReverseTwice(n);
    ValueOfLittle(bits, size);
  }

  /** The conditions on a detail that getdetails guarantees. */
  ghost predicate Proper(d: Detail) {
    && (d.opt in {OInt, OUInt, OString} ==> 1 <= d.size <= 16)
    && (d.opt == OFloat ==> d.size == 4 || d.size == 8)
    && (d.opt in {OZStr, OPadAlign, ONop} ==> d.size == 0)
    && (d.opt == OPadding ==> d.size == 1)
  }

  lemma ItemRoundTrip(m: Machine, d: Detail, a: Arg, pre: bytes, b: bytes, post: bytes)
    requires Proper(d) && TakesArg(d.opt) && Fits(m, a) && EncodeItem(m, d, a) == Ok(b)
    requires |pre + b + post| < TWO_TO_64
    ensures d.size <= |b|
    ensures DecodeItem(m, d, pre + b + post, |pre|) == Ok((Canonical(m, d, a), |pre| + |b|))
  {
    hide IntBytes, IntValue, CopyEndian, NativeBytes, NativeValue, Ordered, Pow256;
    var data := pre + b + post;
    var field := data[|pre|..|pre| + |b|];
    assert field == b;
    match d.opt {
      case OInt =>
        var le := IntBytes(Wrap(a.i, TWO_TO_64), d.size, a.i < 0);
        OrderedTwice(le, d.h.little);
        IntRoundTrip(a.i, d.size, true);
      case OUInt =>
        var le := IntBytes(Wrap(a.i, TWO_TO_64), d.size, false);
        OrderedTwice(le, d.h.little);
        IntRoundTrip(a.i, d.size, false);
      case OFloat =>
        PowTable();
        FloatRoundTrip(m, if d.size == 4 then m.narrow(a.bits) else a.bits, d.size, d.h.little);
      case OChar =>
      case OString =>
        StringRoundTrip(m, d, a.s, pre, post);
      case OZStr =>
        ZStrRoundTrip(m, d, a.s, pre, post);
    }
  }

  lemma ZStrRoundTrip(m: Machine, d: Detail, s: bytes, pre: bytes, post: bytes)
    requires d.opt == OZStr && d.size == 0 && 0 !in s
    ensures DecodeItem(m, d, pre + (s + [0]) + post, |pre|) == Ok((AStr(s), |pre| + |s| + 1))
  {
    var data := pre + (s + [0]) + post;
    FindsZero(pre, s, post);
    assert data == pre + s + [0] + post;
    assert data[|pre|..|pre| + |s|] == s;
  }

  lemma StringRoundTrip(m: Machine, d: Detail, s: bytes, pre: bytes, post: bytes)
    requires d.opt == OString && 1 <= d.size && EncodeItem(m, d, AStr(s)).Ok?
    requires var b := EncodeItem(m, d, AStr(s)).value; |pre + b + post| < TWO_TO_64
    ensures var b := EncodeItem(m, d, AStr(s)).value;
      d.size <= |b| && DecodeItem(m, d, pre + b + post, |pre|) == Ok((AStr(s), |pre| + |b|))
  {
    hide IntBytes, IntValue, Ordered, Pow256;
    var le := IntBytes(|s|, d.size, false);
    var f := Ordered(le, d.h.little);
    OrderedTwice(le, d.h.little);
    assert Wrap(|s|, TWO_TO_64) == |s|;
    LengthRoundTrip(|s|, d.size);
    var data := pre + (f + s) + post;
    assert data[|pre|..|pre| + d.size] == f;
    assert data[|pre| + d.size..|pre| + d.size + |s|] == s;
  }

  /** String lengths, which may use all 64 bits, survive the signed detour. */
  lemma LengthRoundTrip(n: nat, size: nat)
    requires 1 <= size && n < TWO_TO_64 && (size < 8 ==> n < Pow256(size))
    ensures IntValue(IntBytes(n, size, false), false).Ok?
    ensures Wrap(IntValue(IntBytes(n, size, false), false).value, TWO_TO_64) == n
  {
    hide Little, Value;
    if size < 8 {
      ValueOfLittle(n, size);
    } else {
      var b := IntBytes(n, size, false);
      assert b[..8] == Little(n, 8);
      assert Pow256(8) == TWO_TO_64 by { PowTable(); }
      ValueOfLittle(n, 8);
      WrapSigned(n);
    }
  }

  lemma WrapSigned(n: nat)
    requires n < TWO_TO_64
    ensures Wrap(Signed(n, TWO_TO_64), TWO_TO_64) == n
  {
  }

  lemma {:induction false} FindsZero(pre: bytes, s: bytes, post: bytes)
    requires 0 !in s
    ensures StrLen(pre + s + [0] + post, |pre|) == |s|
    decreases |s|
  {
    var data := pre + s + [0] + post;
    if s == [] {
      assert data[|pre|] == 0;
    } else {
      assert data == (pre + [s[0]]) + s[1..] + [0] + post;
      FindsZero(pre + [s[0]], s[1..], post);
      assert data[|pre|] == s[0];
    }
  }

  // ------------------------------------------------------------ whole formats

  /** The arguments that unpacking gives back. */
  function Canon(m: Machine, h: Header, fmt: string, i: nat, total: nat, args: seq<Arg>, k: nat): seq<Arg>
    requires PackFrom(m, h, fmt, i, total, args, k).Ok?
    decreases |fmt| - i
  {
    hide GetDetails, EncodeItem, Canonical;
    if At(fmt, i) == NUL then []
    else
      var d := GetDetails(m, h, total, fmt, i).value;
      if TakesArg(d.opt) then
        [Canonical(m, d, args[k])] + Canon(m, d.h, fmt, d.next, total + d.pad + |EncodeItem(m, d, args[k]).value|,
                                           args, k + 1)
      else
        Canon(m, d.h, fmt, d.next, total + d.pad + |EncodeItem(m, d, AInt(0)).value|, args, k)
  }

  /** Strings have the exact length of their c option and floats are exact at
      their width. */
  ghost predicate Exact(m: Machine, h: Header, fmt: string, i: nat, total: nat, args: seq<Arg>, k: nat)
    requires PackFrom(m, h, fmt, i, total, args, k).Ok?
    decreases |fmt| - i
  {
    hide GetDetails, Canonical;
    At(fmt, i) == NUL ||
    var d := GetDetails(m, h, total, fmt, i).value;
    if TakesArg(d.opt) then
      && (d.opt == OChar ==> |args[k].s| == d.size)
      && (d.opt == OFloat && d.size == 4 ==> m.widen(m.narrow(args[k].bits)) == args[k].bits)
      && Exact(m, d.h, fmt, d.next, total + d.pad + |EncodeItem(m, d, args[k]).value|, args, k + 1)
    else
      Exact(m, d.h, fmt, d.next, total + d.pad + |EncodeItem(m, d, AInt(0)).value|, args, k)
  }

  lemma {:induction false} RoundTripFrom(m: Machine, h: Header, fmt: string, i: nat, pre: bytes, args: seq<Arg>,
                                         k: nat, post: bytes)
    requires (forall a :: a in args ==> Fits(m, a)) && PackFrom(m, h, fmt, i, |pre|, args, k).Ok?
    requires |pre + PackFrom(m, h, fmt, i, |pre|, args, k).value.out + post| < TWO_TO_64
    ensures var out := PackFrom(m, h, fmt, i, |pre|, args, k).value.out;
      UnpackFrom(m, h, fmt, i, pre + out + post, |pre|) ==
        Ok(Unpacked(Canon(m, h, fmt, i, |pre|, args, k), |pre| + |out|))
    decreases |fmt| - i
  {
    hide GetDetails, EncodeItem, DecodeItem, Canonical, Fits, Zeros;
    var out := PackFrom(m, h, fmt, i, |pre|, args, k).value.out;
    if At(fmt, i) != NUL {
      var d := GetDetails(m, h, |pre|, fmt, i).value;
      var takes := TakesArg(d.opt);
      var a := if takes then args[k] else AInt(0);
      var b := EncodeItem(m, d, a).value;
      var padded := pre + Zeros(d.pad);
      var rest := PackFrom(m, d.h, fmt, d.next, |pre| + d.pad + |b|, args, if takes then k + 1 else k).value.out;
      var data := pre + out + post;
      Regroup(pre, Zeros(d.pad), b, rest, post);
      if takes {
        assert a in args;
        ItemRoundTrip(m, d, a, padded, b, rest + post);
      } else {
        assert |b| == d.size by { BareItem(m, d); }
      }
      RoundTripFrom(m, d.h, fmt, d.next, padded + b, args, if takes then k + 1 else k, post);
    }
  }

  lemma Regroup(a: bytes, b: bytes, c: bytes, d: bytes, e: bytes)
    ensures a + (b + c + d) + e == (a + b) + c + (d + e) == (a + b + c) + d + e
  {
  }

  lemma BareItem(m: Machine, d: Detail)
    requires Proper(d) && !TakesArg(d.opt)
    ensures EncodeItem(m, d, AInt(0)).Ok? && |EncodeItem(m, d, AInt(0)).value| == d.size
  {
  }

  lemma {:induction false} CanonIff(m: Machine, h: Header, fmt: string, i: nat, total: nat, args: seq<Arg>, k: nat)
    requires PackFrom(m, h, fmt, i, total, args, k).Ok? && k <= |args|
    ensures var used := PackFrom(m, h, fmt, i, total, args, k).value.used;
      k <= used <= |args| && |Canon(m, h, fmt, i, total, args, k)| == used - k
    ensures var used := PackFrom(m, h, fmt, i, total, args, k).value.used;
      Canon(m, h, fmt, i, total, args, k) == args[k..used] <==> Exact(m, h, fmt, i, total, args, k)
    decreases |fmt| - i
  {
    hide GetDetails, EncodeItem, Canonical;
    if At(fmt, i) != NUL {
      var d := GetDetails(m, h, total, fmt, i).value;
      var takes := TakesArg(d.opt);
      var b := EncodeItem(m, d, if takes then args[k] else AInt(0)).value;
      var used := PackFrom(m, h, fmt, i, total, args, k).value.used;
      CanonIff(m, d.h, fmt, d.next, total + d.pad + |b|, args, if takes then k + 1 else k);
      if takes {
        assert args[k..used] == [args[k]] + args[k + 1..used];
        CanonicalIff(m, d, args[k]);
        var c := Canon(m, h, fmt, i, total, args, k);
        assert c[0] == Canonical(m, d, args[k]);
        assert c[1..] == Canon(m, d.h, fmt, d.next, total + d.pad + |b|, args, k + 1);
        assert args[k..used][0] == args[k] && args[k..used][1..] == args[k + 1..used];
      }
    }
  }

  lemma CanonicalIff(m: Machine, d: Detail, a: Arg)
    requires EncodeItem(m, d, a).Ok?
    ensures Canonical(m, d, a) == a <==>
      (d.opt == OChar ==> |a.s| == d.size) && (d.opt == OFloat && d.size == 4 ==> m.widen(m.narrow(a.bits)) == a.bits)
  {
    if d.opt == OChar {
      assert |a.s + Zeros(d.size - |a.s|)| == d.size;
      if |a.s| == d.size { assert a.s + Zeros(0) == a.s; }
    }
  }

  /** unpack(fmt, pack(fmt, args)) returns the canonical arguments and the
      position after the packed bytes, whatever follows them; it returns the
      arguments themselves exactly when they are exact. */
  lemma PackRoundTrip(m: Machine, fmt: string, args: seq<Arg>, post: bytes)
    requires (forall a :: a in args ==> Fits(m, a)) && PackFrom(m, Start(m), fmt, 0, 0, args, 0).Ok?
    requires |PackFrom(m, Start(m), fmt, 0, 0, args, 0).value.out + post| < TWO_TO_64
    ensures var p := PackFrom(m, Start(m), fmt, 0, 0, args, 0).value;
      UnpackFrom(m, Start(m), fmt, 0, p.out + post, 0).Ok?
    ensures var p := PackFrom(m, Start(m), fmt, 0, 0, args, 0).value;
      UnpackFrom(m, Start(m), fmt, 0, p.out + post, 0).value.pos == |p.out|
    ensures var p := PackFrom(m, Start(m), fmt, 0, 0, args, 0).value;
      var back := UnpackFrom(m, Start(m), fmt, 0, p.out + post, 0).value.args;
      p.used <= |args| && (back == args[..p.used] <==> Exact(m, Start(m), fmt, 0, 0, args, 0))
  {
    hide PackFrom, UnpackFrom, Exact, Canon;
    var out := PackFrom(m, Start(m), fmt, 0, 0, args, 0).value.out;
    assert [] + out + post == out + post;
    RoundTripFrom(m, Start(m), fmt, 0, [], args, 0, post);
    CanonIff(m, Start(m), fmt, 0, 0, args, 0);
  }

  // ----------------------------------------------------------------- packsize

  /** No option of variable length. */
  ghost predicate Fixed(m: Machine, h: Header, fmt: string, i: nat, total: nat)
    decreases |fmt| - i
  {
    At(fmt, i) == NUL || (GetDetails(m, h, total, fmt, i).Ok? &&
      var d := GetDetails(m, h, total, fmt, i).value;
      d.opt != OString && d.opt != OZStr && Fixed(m, d.h, fmt, d.next, total + d.pad + d.size))
  }

  /** For every accepted call of pack, packsize returns the packed length if
      the format is fixed and the length is at most INT_MAX, and otherwise
      fails. */
  lemma {:induction false} SizeOfPacked(m: Machine, h: Header, fmt: string, i: nat, total: nat, args: seq<Arg>, k: nat)
    requires PackFrom(m, h, fmt, i, total, args, k).Ok? && total <= INT_MAX
    ensures var n := total + |PackFrom(m, h, fmt, i, total, args, k).value.out|;
      if Fixed(m, h, fmt, i, total) && n <= INT_MAX then SizeFrom(m, h, fmt, i, total) == Ok(n)
        else SizeFrom(m, h, fmt, i, total).Err?
    decreases |fmt| - i
  {
    hide GetDetails, EncodeItem;
    if At(fmt, i) != NUL {
      var d := GetDetails(m, h, total, fmt, i).value;
      var takes := TakesArg(d.opt);
      var b := EncodeItem(m, d, if takes then args[k] else AInt(0)).value;
      assert d.opt != OString && d.opt != OZStr ==> |b| == d.size
        by { if d.opt != OString && d.opt != OZStr { ItemSize(m, d, if takes then args[k] else AInt(0)); } }
      if d.opt != OString && d.opt != OZStr && total + d.pad + d.size <= INT_MAX {
        SizeOfPacked(m, d.h, fmt, d.next, total + d.pad + |b|, args, if takes then k + 1 else k);
      }
    }
  }

  lemma ItemSize(m: Machine, d: Detail, a: Arg)
    requires Proper(d) && EncodeItem(m, d, a).Ok? && d.opt != OString && d.opt != OZStr
    ensures |EncodeItem(m, d, a).value| == d.size
  {
    hide IntBytes, Little;
  }

  // ------------------------------------------------------------ length fields

  /** The 64-bit length in the field of an s option. */
  function LengthField(d: Detail, data: bytes, pos: nat): Res<nat>
    requires d.size >= 1 && pos + d.size <= |data|
  {
    match IntValue(Ordered(data[pos..pos + d.size], d.h.little), false)
    case Err(e) => Err(e)
    case Ok(v) => Ok(Wrap(v, TWO_TO_64))
  }

  /** The room check of an s option adds 64-bit words, so besides the lengths
      that fit it accepts exactly those whose end passes 2^64. */
  lemma LengthAcceptedIff(m: Machine, d: Detail, data: bytes, pos: nat, len: nat)
    requires d.opt == OString && d.size >= 1 && pos + d.size <= |data| < TWO_TO_64
    requires LengthField(d, data, pos) == Ok(len)
    ensures DecodeItem(m, d, data, pos).Ok? <==> pos + d.size + len <= |data| || pos + d.size + len >= TWO_TO_64
    ensures pos + d.size + len <= |data| ==>
      DecodeItem(m, d, data, pos) == Ok((AStr(data[pos + d.size..pos + d.size + len]), pos + d.size + len))
    ensures pos + d.size + len >= TWO_TO_64 ==>
      DecodeItem(m, d, data, pos) == Ok((AStr(data[pos + d.size..]), pos + d.size + len - TWO_TO_64))
  {
    hide IntValue, Ordered;
    var end := pos + d.size + len;
    if end < TWO_TO_64 {
      ModUnique(end, TWO_TO_64, 0, end);
    } else {
      ModUnique(end, TWO_TO_64, 1, end - TWO_TO_64);
    }
  }

  /** Such a field: eight 255 bytes, read as an empty string at position 7. */
  lemma WrappedLengthExample(m: Machine, data: bytes)
    requires |data| == 8 && forall i :: 0 <= i < 8 ==> data[i] == 255
    ensures UnpackFrom(m, Header(true, 1), "s8", 0, data, 0) == Ok(Unpacked([AStr([])], 7))
  {
    hide GetDetails, DecodeItem;
    var h := Header(true, 1);
    var d := Detail(OString, 8, 0, h, 2);
    DetailS8(m, h);
    WrappedItem(m, d, data);
    assert At("s8", 2) == NUL;
    assert UnpackFrom(m, h, "s8", 2, data, 7) == Ok(Unpacked([], 7));
    assert [AStr([])] + [] == [AStr([])];
  }

  lemma WrappedItem(m: Machine, d: Detail, data: bytes)
    requires |data| == 8 && forall i :: 0 <= i < 8 ==> data[i] == 255
    requires d.opt == OString && d.size == 8 && d.h.little
    ensures DecodeItem(m, d, data, 0) == Ok((AStr([]), 7))
  {
    hide IntValue;
    AllOnes(data);
    assert data[0..8] == data;
    assert LengthField(d, data, 0) == Ok(TWO_TO_64 - 1);
    LengthAcceptedIff(m, d, data, 0, TWO_TO_64 - 1);
    assert data[8..] == [];
  }

  lemma DetailS8(m: Machine, h: Header)
    requires h.maxalign == 1
    ensures GetDetails(m, h, 0, "s8", 0) == Ok(Detail(OString, 8, 0, h, 2))
  {
    hide GetOption;
    OptionS8(m, h);
  }

  lemma OptionS8(m: Machine, h: Header)
    ensures GetOption(m, h, "s8", 0) == Ok(FormatOption(OString, 8, h, 2))
  {
    assert Digits("s8", 1, 0) == (8, 2);
  }

  lemma AllOnes(data: bytes)
    requires |data| == 8 && forall i :: 0 <= i < 8 ==> data[i] == 255
    ensures IntValue(data, false) == Ok(-1)
  {
    assert data[..8] == data;
    assert Value(data[7..]) == 255;
    assert data[6..][1..] == data[7..] && Value(data[6..]) == 0xFFFF;
    assert data[5..][1..] == data[6..] && Value(data[5..]) == 0xFF_FFFF;
    assert data[4..][1..] == data[5..] && Value(data[4..]) == 0xFFFF_FFFF;
    assert data[3..][1..] == data[4..] && Value(data[3..]) == 0xFF_FFFF_FFFF;
    assert data[2..][1..] == data[3..] && Value(data[2..]) == 0xFFFF_FFFF_FFFF;
    assert data[1..][1..] == data[2..] && Value(data[1..]) == 0xFF_FFFF_FFFF_FFFF;
    assert Value(data) == TWO_TO_64 - 1;
  }
}
