/** string.pack, string.unpack and string.packsize: the loops over format,
    buffer and position. */
module Pack {
  import opened Common
  import opened ByteOrder
  import opened PackFormat

  method Number(fmt: string, start: nat, default: int) returns (a: int, i: nat)
    ensures a == GetNum(fmt, start, default).0 && i == GetNum(fmt, start, default).1
  {
    i := start;
    if !IsDigit(At(fmt, i)) { return default, i; }
    a := 0;
    while true
      invariant a >= 0 && IsDigit(At(fmt, i)) && Digits(fmt, i, a) == Digits(fmt, start, 0)
      decreases |fmt| - i
    {
      a := a * 10 + (fmt[i] as int - '0' as int);
      i := i + 1;
      if !(IsDigit(At(fmt, i)) && a <= (INT_MAX - 9) / 10) { return; }
    }
  }

  // ----------------------------------------------------------------- integers

  /** u shifted right by i bytes. */
  function Shift(u: nat, i: nat): nat {
    if i == 0 then u else Shift(u, i - 1) / 256
  }

  lemma {:induction false} ShiftTail(u: nat, i: nat)
    ensures Shift(u / 256, i) == Shift(u, i + 1)
  {
    if i > 0 { ShiftTail(u, i - 1); }
  }

  lemma {:induction false} LittleAt(u: nat, n: nat, i: nat)
    requires i < n
    ensures Little(u, n)[i] == Shift(u, i) % 256
  {
    if i > 0 {
      LittleAt(u / 256, n - 1, i - 1);
      ShiftTail(u, i - 1);
    }
  }

  lemma ShiftOut(u: nat, i: nat)
    requires u < TWO_TO_64 && i >= 8
    ensures Shift(u, i) == 0
  {
    if i == 8 {
      assert Shift(u, 1) < 0x100_0000_0000_0000;
      assert Shift(u, 2) < 0x1_0000_0000_0000;
      assert Shift(u, 3) < 0x100_0000_0000;
      assert Shift(u, 4) < 0x1_0000_0000;
      assert Shift(u, 5) < 0x100_0000;
      assert Shift(u, 6) < 0x1_0000;
      assert Shift(u, 7) < 0x100;
    } else {
      ShiftOut(u, i - 1);
    }
  }

  /** Position of byte i, counted from the least significant, in a field. */
  function Place(i: nat, size: nat, little: bool): (j: nat)
    requires i < size
    ensures j < size
  {
    if little then i else size - 1 - i
  }

  lemma OrderedAt(b: bytes, little: bool, i: nat)
    requires i < |b|
    ensures |Ordered(b, little)| == |b| && Ordered(b, little)[Place(i, |b|, little)] == b[i]
  {
  }

  lemma IntBytesAt(u: nat, size: nat, neg: bool, i: nat)
    requires u < TWO_TO_64 && i < size
    ensures IntBytes(u, size, neg)[i] == if neg && i >= 8 then 255 else Shift(u, i) % 256
  {
    if size <= 8 { LittleAt(u, size, i); }
    else if i < 8 { LittleAt(u, 8, i); }
    else { ShiftOut(u, i); }
  }

  /** Appends an integer of `size` bytes in the requested order. */
  method PackInt(out: bytes, u: nat, little: bool, size: nat, neg: bool) returns (r: bytes)
    requires u < TWO_TO_64 && size >= 1
    ensures r == out + Ordered(IntBytes(u, size, neg), little)
  {
    hide IntBytes, Ordered;
    var f := LowBytes(u, little, size);
    if neg && size > 8 {
      f := SignFill(f, little);
    }
    FieldIs(f, u, size, neg, little);
    r := out + f;
  }

  method LowBytes(u: nat, little: bool, size: nat) returns (f: bytes)
    requires size >= 1
    ensures |f| == size
    ensures forall k :: 0 <= k < size ==> f[Place(k, size, little)] == Shift(u, k) % 256
  {
    hide Shift, Zeros;
    f := Zeros(size);
    var n := u;
    f := f[Place(0, size, little) := n % 256];
    ShiftNone(u);
    for i := 1 to size
      invariant |f| == size && n == Shift(u, i - 1)
      invariant forall k :: 0 <= k < i ==> f[Place(k, size, little)] == Shift(u, k) % 256
    {
      ShiftStep(u, i);
      n := n / 256;
      f := f[Place(i, size, little) := n % 256];
    }
  }

  lemma ShiftNone(u: nat)
    ensures Shift(u, 0) == u
  {
  }

  lemma ShiftStep(u: nat, i: nat)
    requires i > 0
    ensures Shift(u, i) == Shift(u, i - 1) / 256
  {
  }

  method SignFill(field: bytes, little: bool) returns (f: bytes)
    requires |field| > 8
    ensures |f| == |field|
    ensures forall k :: 0 <= k < |f| ==>
      f[Place(k, |f|, little)] == if k >= 8 then 255 else field[Place(k, |f|, little)]
  {
    f := field;
    for i := 8 to |f|
      invariant |f| == |field|
      invariant forall k :: 0 <= k < |f| ==>
        f[Place(k, |f|, little)] == if 8 <= k < i then 255 else field[Place(k, |f|, little)]
    {
      f := f[Place(i, |f|, little) := 255];
    }
  }

  lemma FieldIs(f: bytes, u: nat, size: nat, neg: bool, little: bool)
    requires u < TWO_TO_64 && |f| == size >= 1
    requires forall k :: 0 <= k < size ==> f[Place(k, size, little)] == if neg && k >= 8 then 255 else Shift(u, k) % 256
    ensures f == Ordered(IntBytes(u, size, neg), little)
  {
    hide IntBytes, Ordered, Shift;
    var g := Ordered(IntBytes(u, size, neg), little);
    OrderedAt(IntBytes(u, size, neg), little, 0);
    forall j | 0 <= j < size ensures |g| == size && f[j] == g[j] {
      var k := Place(j, size, little);
      assert Place(k, size, little) == j;
      OrderedAt(IntBytes(u, size, neg), little, k);
      IntBytesAt(u, size, neg, k);
    }
  }

  /** Reads an integer field; wider ones must be a sign or zero extension. */
  method UnpackInt(f: bytes, little: bool, signed: bool) returns (r: Res<int>)
    requires |f| >= 1
    ensures r == IntValue(Ordered(f, little), signed)
  {
    var size := |f|;
    ghost var le := Ordered(f, little);
    forall k | 0 <= k < size ensures |le| == size && f[Place(k, size, little)] == le[k] {
      assert Place(Place(k, size, little), size, little) == k;
      OrderedAt(f, little, Place(k, size, little));
    }
    var limit := if size <= 8 then size else 8;
    var res, i := 0, limit;
    while i > 0
      invariant 0 <= i <= limit && res == Value(le[i..limit])
    {
      i := i - 1;
      assert le[i..limit][1..] == le[i + 1..limit];
      res := res * 256 + f[Place(i, size, little)];
    }
    assert size <= 8 ==> le[0..limit] == le;
    if size < 8 {
      var half := Pow256(size) / 2;
      return Ok(if signed && res >= half then res - Pow256(size) else res);
    }
    assert le[0..limit] == le[..8];
    var v := Signed(res, TWO_TO_64);
    var mask: byte := if signed && v < 0 then 255 else 0;
    for j := 8 to size
      invariant forall k :: 8 <= k < j ==> le[k] == mask
    {
      if f[Place(j, size, little)] != mask { return Err(TooWide); }
    }
    return Ok(v);
  }

  method CopyInOrder(m: Machine, src: bytes, little: bool) returns (dest: bytes)
    ensures dest == CopyEndian(m, src, little)
  {
    if little == m.little { return src; }
    dest := [];
    for i := 0 to |src|
      invariant |dest| == i && forall k :: 0 <= k < i ==> dest[k] == src[|src| - 1 - k]
    {
      dest := dest + [src[|src| - 1 - i]];
    }
  }

  // -------------------------------------------------------------------- items

  function Written(out: bytes, r: Res<bytes>): Res<bytes> {
    if r.Ok? then Ok(out + r.value) else r
  }

  method WriteItem(m: Machine, d: Detail, a: Arg, out: bytes) returns (r: Res<bytes>)
    requires d.opt in {OInt, OUInt, OString} ==> d.size >= 1
    ensures r == Written(out, EncodeItem(m, d, a))
  {
    hide IntBytes, Ordered, CopyEndian, NativeBytes, Pow256;
    match d.opt {
      case OInt =>
        if !a.AInt? { return Err(BadArgument); }
        if d.size < 8 {
          var lim := Pow256(d.size) / 2;
          if a.i < -lim || a.i >= lim { return Err(IntegerOverflow); }
        }
        var x := PackInt(out, Wrap(a.i, TWO_TO_64), d.h.little, d.size, a.i < 0);
        return Ok(x);
      case OUInt =>
        if !a.AInt? { return Err(BadArgument); }
        if d.size < 8 && Wrap(a.i, TWO_TO_64) > Pow256(d.size) - 1 { return Err(UnsignedOverflow); }
        var x := PackInt(out, Wrap(a.i, TWO_TO_64), d.h.little, d.size, false);
        return Ok(x);
      case OFloat =>
        if !a.ANum? { return Err(BadArgument); }
        var x := CopyInOrder(m, NativeBytes(m, if d.size == 4 then m.narrow(a.bits) else a.bits, d.size), d.h.little);
        return Ok(out + x);
      case OChar =>
        if !a.AStr? { return Err(BadArgument); }
        if |a.s| > d.size { return Err(StringLonger); }
        assert out + a.s + Zeros(d.size - |a.s|) == out + (a.s + Zeros(d.size - |a.s|));
        return Ok(out + a.s + Zeros(d.size - |a.s|));
      case OString =>
        if !a.AStr? { return Err(BadArgument); }
        if d.size < 8 && |a.s| >= Pow256(d.size) { return Err(LengthDoesNotFit); }
        var x := PackInt(out, Wrap(|a.s|, TWO_TO_64), d.h.little, d.size, false);
        ghost var f := Ordered(IntBytes(Wrap(|a.s|, TWO_TO_64), d.size, false), d.h.little);
        assert out + f + a.s == out + (f + a.s);
        return Ok(x + a.s);
      case OZStr =>
        if !a.AStr? { return Err(BadArgument); }
        if 0 in a.s { return Err(ContainsZeros); }
        assert out + a.s + [0] == out + (a.s + [0]);
        return Ok(out + a.s + [0]);
      case OPadding =>
        return Ok(out + [0]);
      case OPadAlign =>
        assert out + [] == out;
        return Ok(out);
      case ONop =>
        assert out + [] == out;
        return Ok(out);
    }
  }

  /** Bytes already written, put before the ones still to come. */
  function Ahead(out: bytes, r: Res<Packed>): Res<Packed> {
    if r.Ok? then Ok(Packed(out + r.value.out, r.value.used)) else r
  }

  method StrPack(m: Machine, fmt: string, args: seq<Arg>) returns (r: Res<Packed>)
    ensures r == PackFrom(m, Start(m), fmt, 0, 0, args, 0)
  {
    hide GetDetails, EncodeItem;
    var h, i, k: nat, out: bytes := Start(m), 0, 0, [];
    ghost var all := PackFrom(m, h, fmt, 0, 0, args, 0);
    AheadNothing(all);
    while At(fmt, i) != NUL
      invariant i <= |fmt| && all == Ahead(out, PackFrom(m, h, fmt, i, |out|, args, k))
      decreases |fmt| - i
    {
      var details := GetDetails(m, h, |out|, fmt, i);
      if details.Err? { return Err(details.error); }
      var d := details.value;
      var takes := TakesArg(d.opt);
      if takes && k >= |args| { return Err(BadArgument); }
      var item := WriteItem(m, d, if takes then args[k] else AInt(0), out + Zeros(d.pad));
      if item.Err? { return Err(item.error); }
      ghost var b := EncodeItem(m, d, if takes then args[k] else AInt(0)).value;
      ghost var rest := PackFrom(m, d.h, fmt, d.next, |out| + d.pad + |b|, args, if takes then k + 1 else k);
      AheadStep(out, Zeros(d.pad), b, rest);
      out, h, i := item.value, d.h, d.next;
      if takes { k := k + 1; }
    }
    assert out + [] == out;
    return Ok(Packed(out, k));
  }

  lemma AheadNothing(r: Res<Packed>)
    ensures Ahead([], r) == r
  {
    if r.Ok? { assert [] + r.value.out == r.value.out; }
  }

  lemma AheadStep(out: bytes, pad: bytes, b: bytes, rest: Res<Packed>)
    ensures Ahead(out + pad + b, rest) ==
      if rest.Ok? then Ok(Packed(out + (pad + b + rest.value.out), rest.value.used))
      else rest
  {
    if rest.Ok? { assert out + pad + b + rest.value.out == out + (pad + b + rest.value.out); }
  }

  method StrPackSize(m: Machine, fmt: string) returns (r: Res<nat>)
    ensures r == SizeFrom(m, Start(m), fmt, 0, 0)
  {
    hide GetDetails;
    var h, i, total: nat := Start(m), 0, 0;
    while At(fmt, i) != NUL
      invariant i <= |fmt| && SizeFrom(m, Start(m), fmt, 0, 0) == SizeFrom(m, h, fmt, i, total)
      decreases |fmt| - i
    {
      var details := GetDetails(m, h, total, fmt, i);
      if details.Err? { return Err(details.error); }
      var d := details.value;
      var size := d.size + d.pad;
      if size > INT_MAX || total > INT_MAX - size { return Err(TooLarge); }
      total := total + size;
      if d.opt == OString || d.opt == OZStr { return Err(VariableLength); }
      h, i := d.h, d.next;
    }
    return Ok(total);
  }

  method FindZero(data: bytes, pos: nat) returns (len: nat)
    requires pos <= |data|
    ensures len == StrLen(data, pos)
  {
    len := 0;
    while pos + len < |data| && data[pos + len] != 0
      invariant pos + len <= |data| && StrLen(data, pos) == len + StrLen(data, pos + len)
    {
      len := len + 1;
    }
  }

  method ReadItem(m: Machine, d: Detail, data: bytes, pos: nat) returns (r: Res<(Arg, nat)>)
    requires TakesArg(d.opt) && pos + d.size <= |data|
    requires d.opt in {OInt, OUInt, OString} ==> d.size >= 1
    ensures r == DecodeItem(m, d, data, pos)
  {
    hide IntValue, Ordered, CopyEndian, NativeValue;
    var field := data[pos..pos + d.size];
    match d.opt {
      case OInt =>
        var v := UnpackInt(field, d.h.little, true);
        return if v.Ok? then Ok((AInt(v.value), pos + d.size)) else Err(v.error);
      case OUInt =>
        var v := UnpackInt(field, d.h.little, false);
        return if v.Ok? then Ok((AInt(v.value), pos + d.size)) else Err(v.error);
      case OFloat =>
        var b := CopyInOrder(m, field, d.h.little);
        var bits := NativeValue(m, b);
        return Ok((ANum(if d.size == 4 then m.widen(bits) else bits), pos + d.size));
      case OChar =>
        return Ok((AStr(field), pos + d.size));
      case OString =>
        var v := UnpackInt(field, d.h.little, false);
        if v.Err? { return Err(v.error); }
        var len := Wrap(v.value, TWO_TO_64);
        if Wrap(pos + d.size + len, TWO_TO_64) > |data| { return Err(TooShort); }
        return Ok((AStr(Slice(data, pos + d.size, len)), Wrap(pos + len + d.size, TWO_TO_64)));
      case OZStr =>
        var len := FindZero(data, pos);
        return Ok((AStr(data[pos..pos + len]), pos + len + 1));
    }
  }

  function Before(args: seq<Arg>, r: Res<Unpacked>): Res<Unpacked> {
    if r.Ok? then Ok(Unpacked(args + r.value.args, r.value.pos)) else r
  }

  lemma BeforeStep(args: seq<Arg>, a: Arg, r: Res<Unpacked>)
    ensures Before(args + [a], r) == if r.Ok? then Ok(Unpacked(args + ([a] + r.value.args), r.value.pos)) else r
  {
    if r.Ok? { assert args + [a] + r.value.args == args + ([a] + r.value.args); }
  }

  /** Where unpacking starts: negative positions count from the end. */
  function Initial(data: bytes, ipos: int): Res<nat> {
    var p := if ipos >= 0 then ipos else if -ipos > |data| then 0 else |data| + ipos + 1;
    if p == 0 || p - 1 > |data| then Err(BadPosition) else Ok(p - 1)
  }

  method StrUnpack(m: Machine, fmt: string, data: bytes, ipos: int) returns (r: Res<Unpacked>)
    ensures Initial(data, ipos).Err? ==> r == Err(BadPosition)
    ensures Initial(data, ipos).Ok? ==> r == UnpackFrom(m, Start(m), fmt, 0, data, Initial(data, ipos).value)
  {
    hide GetDetails, DecodeItem;
    var start := Initial(data, ipos);
    if start.Err? { return Err(start.error); }
    var h, i, pos: nat, args: seq<Arg> := Start(m), 0, start.value, [];
    ghost var all := UnpackFrom(m, h, fmt, 0, data, pos);
    if all.Ok? { assert [] + all.value.args == all.value.args; }
    while At(fmt, i) != NUL
      invariant i <= |fmt| && all == Before(args, UnpackFrom(m, h, fmt, i, data, pos))
      decreases |fmt| - i
    {
      var details := GetDetails(m, h, pos, fmt, i);
      if details.Err? { return Err(details.error); }
      var d := details.value;
      if pos + d.pad + d.size > |data| { return Err(TooShort); }
      if TakesArg(d.opt) {
        var item := ReadItem(m, d, data, pos + d.pad);
        if item.Err? { return Err(item.error); }
        BeforeStep(args, item.value.0, UnpackFrom(m, d.h, fmt, d.next, data, item.value.1));
        args, pos := args + [item.value.0], item.value.1;
      } else {
        pos := pos + d.pad + d.size;
      }
      h, i := d.h, d.next;
    }
    assert args + [] == args;
    return Ok(Unpacked(args, pos));
  }
}
