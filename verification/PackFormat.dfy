/** Format strings of string.pack: options, alignment, and the bytes of single
    items, as functions. */
module PackFormat {
  import opened Common
  import opened ByteOrder

  datatype Error =
    | IntegralSize | MissingSize | InvalidOption | BadNext | NotPowerOf2
    | IntegerOverflow | UnsignedOverflow | StringLonger | LengthDoesNotFit | ContainsZeros | BadArgument
    | TooShort | TooWide | TooLarge | VariableLength | BadPosition

  datatype Res<T> = Ok(value: T) | Err(error: Error)

  datatype Opt = OInt | OUInt | OFloat | OChar | OString | OZStr | OPadding | OPadAlign | ONop

  datatype Header = Header(little: bool, maxalign: nat)

  /** Integers are 64-bit, numbers are the 64 bits of a double. */
  datatype Arg = AInt(i: int) | ANum(bits: nat) | AStr(s: bytes)

  /** The machine: its byte order, and conversion between the bits of double
      and single precision. */
  datatype Machine = Machine(little: bool, narrow: nat -> nat, widen: nat -> nat)


  /** Formats end at the first NUL. */
  function At(fmt: string, i: nat): char {
    if i < |fmt| then fmt[i] else NUL
  }

  predicate IsDigit(c: char) { '0' <= c <= '9' }

  /** A run of digits, cut before it can overflow an int; the value and the
      position after it. */
  function Digits(fmt: string, i: nat, a: nat): (r: (nat, nat))
    requires IsDigit(At(fmt, i))
    ensures i < r.1 <= |fmt|
    decreases |fmt| - i
  {
    var b := a * 10 + (fmt[i] as int - '0' as int);
    if IsDigit(At(fmt, i + 1)) && b <= (INT_MAX - 9) / 10 then Digits(fmt, i + 1, b) else (b, i + 1)
  }

  function GetNum(fmt: string, i: nat, default: int): (r: (int, nat))
    ensures i <= r.1 && (i <= |fmt| ==> r.1 <= |fmt|)
  {
    if IsDigit(At(fmt, i)) then Digits(fmt, i, 0) else (default, i)
  }

  function GetNumLimit(fmt: string, i: nat, default: nat): (r: Res<(nat, nat)>)
    ensures r.Ok? ==> 1 <= r.value.0 <= 16 && i <= r.value.1 && (i <= |fmt| ==> r.value.1 <= |fmt|)
  {
    var n := GetNum(fmt, i, default);
    if n.0 > 16 || n.0 <= 0 then Err(IntegralSize) else Ok((n.0, n.1))
  }

  datatype FormatOption = FormatOption(opt: Opt, size: nat, h: Header, next: nat)

  function Sized(opt: Opt, h: Header, n: Res<(nat, nat)>): Res<FormatOption> {
    if n.Ok? then Ok(FormatOption(opt, n.value.0, h, n.value.1)) else Err(n.error)
  }

  function GetOption(m: Machine, h: Header, fmt: string, i: nat): (r: Res<FormatOption>)
    requires i < |fmt|
    ensures r.Ok? ==> i < r.value.next <= |fmt|
    ensures r.Ok? && r.value.opt in {OInt, OUInt, OString} ==> 1 <= r.value.size <= 16
    ensures r.Ok? && r.value.opt == OFloat ==> r.value.size == 4 || r.value.size == 8
    ensures r.Ok? && r.value.opt in {OZStr, OPadAlign, ONop} ==> r.value.size == 0
    ensures r.Ok? && r.value.opt == OPadding ==> r.value.size == 1
  {
    match fmt[i]
    case 'b' => Ok(FormatOption(OInt, 1, h, i + 1))
    case 'B' => Ok(FormatOption(OUInt, 1, h, i + 1))
    case 'h' => Ok(FormatOption(OInt, 2, h, i + 1))
    case 'H' => Ok(FormatOption(OUInt, 2, h, i + 1))
    case 'l' => Ok(FormatOption(OInt, 8, h, i + 1))
    case 'L' => Ok(FormatOption(OUInt, 8, h, i + 1))
    case 'j' => Ok(FormatOption(OInt, 8, h, i + 1))
    case 'J' => Ok(FormatOption(OUInt, 8, h, i + 1))
    case 'T' => Ok(FormatOption(OUInt, 8, h, i + 1))
    case 'f' => Ok(FormatOption(OFloat, 4, h, i + 1))
    case 'd' => Ok(FormatOption(OFloat, 8, h, i + 1))
    case 'n' => Ok(FormatOption(OFloat, 8, h, i + 1))
    case 'i' => Sized(OInt, h, GetNumLimit(fmt, i + 1, 4))
    case 'I' => Sized(OUInt, h, GetNumLimit(fmt, i + 1, 4))
    case 's' => Sized(OString, h, GetNumLimit(fmt, i + 1, 8))
    case 'c' =>
      var n := GetNum(fmt, i + 1, -1);
      if n.0 < 0 then Err(MissingSize) else Ok(FormatOption(OChar, n.0, h, n.1))
    case 'z' => Ok(FormatOption(OZStr, 0, h, i + 1))
    case 'x' => Ok(FormatOption(OPadding, 1, h, i + 1))
    case 'X' => Ok(FormatOption(OPadAlign, 0, h, i + 1))
    case '<' => Ok(FormatOption(ONop, 0, h.(little := true), i + 1))
    case '>' => Ok(FormatOption(ONop, 0, h.(little := false), i + 1))
    case '=' => Ok(FormatOption(ONop, 0, h.(little := m.little), i + 1))
    case '!' =>
      var n := GetNumLimit(fmt, i + 1, 8);
      if n.Ok? then Ok(FormatOption(ONop, 0, h.(maxalign := n.value.0), n.value.1)) else Err(n.error)
    case c => if c in " \n\t\U{000B}\U{000C}\r" then Ok(FormatOption(ONop, 0, h, i + 1)) else Err(InvalidOption)
  }

  /** An option with the number of padding bytes that go before it. */
  datatype Detail = Detail(opt: Opt, size: nat, pad: nat, h: Header, next: nat)

  /** Bytes to the next multiple of align. */
  function ToAlign(total: nat, align: nat): (n: nat)
    requires align > 0
    ensures n < align
  {
    (align - total % align) % align
  }

  /** Padding is the least that makes the position a multiple of align. */
  lemma ToAlignIsLeast(total: nat, align: nat, n: nat)
    requires align > 0
    ensures (total + ToAlign(total, align)) % align == 0
    ensures n < ToAlign(total, align) ==> (total + n) % align != 0
  {
    var q, r := total / align, total % align;
    assert total == q * align + r;
    if r == 0 {
      ModUnique(align, align, 1, 0);
    } else {
      ModUnique(align - r, align, 0, align - r);
      assert (q + 1) * align == q * align + align;
      ModUnique(total + (align - r), align, q + 1, 0);
      if n < align - r { ModUnique(total + n, align, q, r + n); }
    }
  }

  function Pad(opt: Opt, align: nat, maxalign: nat, total: nat): (r: Res<nat>) {
    if align <= 1 || opt == OChar then Ok(0)
    else
      var a := if align > maxalign then maxalign else align;
      if !PowerOf2(a) then Err(NotPowerOf2) else Ok(ToAlign(total, a))
  }

  /** What option X aligns to: the size of the option after it. */
  function AlignOf(m: Machine, o: FormatOption, fmt: string): (r: Res<(nat, Header, nat)>)
    requires o.next <= |fmt|
    ensures r.Ok? ==> o.next <= r.value.2 <= |fmt|
  {
    if o.opt != OPadAlign then Ok((o.size, o.h, o.next))
    else if At(fmt, o.next) == NUL then Err(BadNext)
    else match GetOption(m, o.h, fmt, o.next)
      case Err(e) => Err(e)
      case Ok(n) => if n.opt == OChar || n.size == 0 then Err(BadNext) else Ok((n.size, n.h, n.next))
  }

  function GetDetails(m: Machine, h: Header, total: nat, fmt: string, i: nat): (r: Res<Detail>)
    requires i < |fmt|
    ensures r.Ok? ==> i < r.value.next <= |fmt|
    ensures r.Ok? && r.value.opt in {OInt, OUInt, OString} ==> 1 <= r.value.size <= 16
    ensures r.Ok? && r.value.opt == OFloat ==> r.value.size == 4 || r.value.size == 8
    ensures r.Ok? && r.value.opt in {OZStr, OPadAlign, ONop} ==> r.value.size == 0
    ensures r.Ok? && r.value.opt == OPadding ==> r.value.size == 1
  {
    match GetOption(m, h, fmt, i)
    case Err(e) => Err(e)
    case Ok(o) =>
      match AlignOf(m, o, fmt)
      case Err(e) => Err(e)
      case Ok(a) =>
        match Pad(o.opt, a.0, a.1.maxalign, total)
        case Err(e) => Err(e)
        case Ok(pad) => Ok(Detail(o.opt, o.size, pad, a.1, a.2))
  }

  // ------------------------------------------------------------ single items

  function Reverse(b: bytes): (r: bytes)
    ensures |r| == |b|
    ensures forall i :: 0 <= i < |b| ==> r[i] == b[|b| - 1 - i]
  {
    if b == [] then [] else Reverse(b[1..]) + [b[0]]
  }

  lemma ReverseTwice(b: bytes)
    ensures Reverse(Reverse(b)) == b
  {
  }

  /** From least-significant-first order to the requested one, or back. */
  function Ordered(b: bytes, little: bool): bytes {
    if little then b else Reverse(b)
  }

  function Zeros(n: nat): (b: bytes)
    ensures |b| == n
  {
    Fill(n, 0)
  }

  function Fill(n: nat, x: byte): (b: bytes)
    ensures |b| == n && forall i :: 0 <= i < n ==> b[i] == x
  {
    seq(n, _ => x)
  }

  /** The bytes of a 64-bit integer in `size` bytes, least significant first:
      beyond eight bytes, the sign or zeros. */
  function IntBytes(u: nat, size: nat, neg: bool): (b: bytes)
    ensures |b| == size
  {
    if size <= 8 then Little(u, size) else Little(u, 8) + Fill(size - 8, if neg then 255 else 0)
  }

  /** Reads an integer of `size` bytes given least significant first. */
  function IntValue(b: bytes, signed: bool): Res<int>
    requires |b| >= 1
  {
    if |b| < 8 then
      var v := Value(b);
      Ok(if signed && v >= Pow256(|b|) / 2 then v - Pow256(|b|) else v)
    else
      var v := Signed(Value(b[..8]), TWO_TO_64);
      var fill: byte := if signed && v < 0 then 255 else 0;
      if forall i :: 8 <= i < |b| ==> b[i] == fill then Ok(v) else Err(TooWide)
  }

  /** A native float pattern, reversed if the requested order is not native. */
  function CopyEndian(m: Machine, b: bytes, little: bool): bytes {
    if little == m.little then b else Reverse(b)
  }

  function NativeBytes(m: Machine, bits: nat, size: nat): bytes { Ordered(Little(bits, size), m.little) }

  function NativeValue(m: Machine, b: bytes): nat { Value(Ordered(b, m.little)) }

  predicate TakesArg(opt: Opt) { opt !in {OPadding, OPadAlign, ONop} }

  /** The bytes of one item after its padding. */
  function EncodeItem(m: Machine, d: Detail, a: Arg): Res<bytes> {
    match d.opt
    case OInt =>
      if !a.AInt? then Err(BadArgument)
      else if d.size < 8 && !(-(Pow256(d.size) / 2) <= a.i < Pow256(d.size) / 2) then Err(IntegerOverflow)
      else Ok(Ordered(IntBytes(Wrap(a.i, TWO_TO_64), d.size, a.i < 0), d.h.little))
    case OUInt =>
      if !a.AInt? then Err(BadArgument)
      else if d.size < 8 && Wrap(a.i, TWO_TO_64) >= Pow256(d.size) then Err(UnsignedOverflow)
      else Ok(Ordered(IntBytes(Wrap(a.i, TWO_TO_64), d.size, false), d.h.little))
    case OFloat =>
      if !a.ANum? then Err(BadArgument)
      else Ok(CopyEndian(m, NativeBytes(m, if d.size == 4 then m.narrow(a.bits) else a.bits, d.size), d.h.little))
    case OChar =>
      if !a.AStr? then Err(BadArgument)
      else if |a.s| > d.size then Err(StringLonger)
      else Ok(a.s + Zeros(d.size - |a.s|))
    case OString =>
      if !a.AStr? then Err(BadArgument)
      else if d.size < 8 && |a.s| >= Pow256(d.size) then Err(LengthDoesNotFit)
      else Ok(Ordered(IntBytes(Wrap(|a.s|, TWO_TO_64), d.size, false), d.h.little) + a.s)
    case OZStr =>
      if !a.AStr? then Err(BadArgument)
      else if 0 in a.s then Err(ContainsZeros)
      else Ok(a.s + [0])
    case OPadding => Ok([0])
    case _ => Ok([])
  }

  /** What unpacking an item gives back for the argument packed. */
  function Canonical(m: Machine, d: Detail, a: Arg): Arg {
    if d.opt == OChar && a.AStr? && |a.s| <= d.size then AStr(a.s + Zeros(d.size - |a.s|))
    else if d.opt == OFloat && d.size == 4 && a.ANum? then ANum(m.widen(m.narrow(a.bits)))
    else a
  }

  /** Distance to the first zero byte; the string's own terminator counts. */
  function StrLen(data: bytes, pos: nat): (n: nat)
    requires pos <= |data|
    ensures pos + n <= |data| && 0 !in data[pos..pos + n]
    ensures pos + n < |data| ==> data[pos + n] == 0
    decreases |data| - pos
  {
    if pos == |data| || data[pos] == 0 then 0
    else
      var n := StrLen(data, pos + 1);
      assert data[pos..pos + 1 + n] == [data[pos]] + data[pos + 1..pos + 1 + n];
      n + 1
  }

  function Slice(data: bytes, pos: nat, len: nat): bytes
    requires pos <= |data|
  {
    if pos + len <= |data| then data[pos..pos + len] else data[pos..]
  }

  /** One item read at pos, where at least d.size bytes are left; positions
      are 64-bit words. */
  function DecodeItem(m: Machine, d: Detail, data: bytes, pos: nat): Res<(Arg, nat)>
    requires TakesArg(d.opt) && pos + d.size <= |data|
    requires d.opt in {OInt, OUInt, OString} ==> d.size >= 1
  {
    var field := data[pos..pos + d.size];
    match d.opt
    case OInt =>
      var v := IntValue(Ordered(field, d.h.little), true);
      if v.Ok? then Ok((AInt(v.value), pos + d.size)) else Err(v.error)
    case OUInt =>
      var v := IntValue(Ordered(field, d.h.little), false);
      if v.Ok? then Ok((AInt(v.value), pos + d.size)) else Err(v.error)
    case OFloat =>
      var bits := NativeValue(m, CopyEndian(m, field, d.h.little));
      Ok((ANum(if d.size == 4 then m.widen(bits) else bits), pos + d.size))
    case OChar => Ok((AStr(field), pos + d.size))
    case OString =>
      var v := IntValue(Ordered(field, d.h.little), false);
      if v.Err? then Err(v.error)
      else
        var len := Wrap(v.value, TWO_TO_64);
        if Wrap(pos + d.size + len, TWO_TO_64) > |data| then Err(TooShort)
        else Ok((AStr(Slice(data, pos + d.size, len)), Wrap(pos + len + d.size, TWO_TO_64)))
    case OZStr =>
      var len := StrLen(data, pos);
      Ok((AStr(data[pos..pos + len]), pos + len + 1))
  }

  // ----------------------------------------------------------- whole formats

  datatype Packed = Packed(out: bytes, used: nat)

  /** Packing from format position i with `total` bytes written and k
      arguments used. */
  function PackFrom(m: Machine, h: Header, fmt: string, i: nat, total: nat, args: seq<Arg>, k: nat): Res<Packed>
    decreases |fmt| - i
  {
    if At(fmt, i) == NUL then Ok(Packed([], k))
    else match GetDetails(m, h, total, fmt, i)
      case Err(e) => Err(e)
      case Ok(d) =>
        if TakesArg(d.opt) && k >= |args| then Err(BadArgument)
        else match EncodeItem(m, d, if TakesArg(d.opt) then args[k] else AInt(0))
          case Err(e) => Err(e)
          case Ok(b) =>
            match PackFrom(m, d.h, fmt, d.next, total + d.pad + |b|, args, if TakesArg(d.opt) then k + 1 else k)
            case Err(e) => Err(e)
            case Ok(r) => Ok(Packed(Zeros(d.pad) + b + r.out, r.used))
  }

  datatype Unpacked = Unpacked(args: seq<Arg>, pos: nat)

  function UnpackFrom(m: Machine, h: Header, fmt: string, i: nat, data: bytes, pos: nat): Res<Unpacked>
    decreases |fmt| - i
  {
    if At(fmt, i) == NUL then Ok(Unpacked([], pos))
    else match GetDetails(m, h, pos, fmt, i)
      case Err(e) => Err(e)
      case Ok(d) =>
        if pos + d.pad + d.size > |data| then Err(TooShort)
        else if !TakesArg(d.opt) then UnpackFrom(m, d.h, fmt, d.next, data, pos + d.pad + d.size)
        else match DecodeItem(m, d, data, pos + d.pad)
          case Err(e) => Err(e)
          case Ok(r) =>
            match UnpackFrom(m, d.h, fmt, d.next, data, r.1)
            case Err(e) => Err(e)
            case Ok(u) => Ok(Unpacked([r.0] + u.args, u.pos))
  }

  function SizeFrom(m: Machine, h: Header, fmt: string, i: nat, total: nat): Res<nat>
    decreases |fmt| - i
  {
    if At(fmt, i) == NUL then Ok(total)
    else match GetDetails(m, h, total, fmt, i)
      case Err(e) => Err(e)
      case Ok(d) =>
        var size := d.size + d.pad;
        if size > INT_MAX || total > INT_MAX - size then Err(TooLarge)
        else if d.opt == OString || d.opt == OZStr then Err(VariableLength)
        else SizeFrom(m, d.h, fmt, d.next, total + size)
  }

  function Start(m: Machine): Header { Header(m.little, 1) }
}
