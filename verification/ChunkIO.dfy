/** The dumper's append-only writer and the loader's positioned reader, each
    proved to compute the layouts of binary chunks. */
module ChunkIO {
  import opened ByteOrder
  import opened Chunk

  // ----------------------------------------------------------------- writing

  /** No constant of a type that a chunk cannot hold, here or in the children. */
  ghost predicate Dumpable(p: Proto) {
    COther !in p.constants && forall q :: q in p.protos ==> Dumpable(q)
  }

  lemma Append2(b: bytes, x: bytes, y: bytes)
    ensures b + x + y == b + (x + y)
  {
  }

  lemma Append3(b: bytes, x: bytes, y: bytes, z: bytes)
    ensures b + x + y + z == b + (x + (y + z))
  {
  }

  lemma Append4(b: bytes, x: bytes, y: bytes, z: bytes, u: bytes)
    ensures b + x + y + z + u == b + (x + (y + (z + u)))
  {
  }

  lemma EachStep<T>(enc: T -> bytes, xs: seq<T>, i: nat)
    requires i < |xs|
    ensures Each(enc, xs[i..]) == enc(xs[i]) + Each(enc, xs[i + 1..])
  {
    assert xs[i..][1..] == xs[i + 1..];
  }

  lemma EachStart<T>(b: bytes, enc: T -> bytes, xs: seq<T>)
    ensures b + Word(|xs|) + Each(enc, xs[0..]) == b + Counted(enc, xs)
  {
    assert xs[0..] == xs;
  }

  lemma EachStop<T>(b: bytes, enc: T -> bytes, xs: seq<T>)
    ensures b + Each(enc, xs[|xs|..]) == b
  {
  }

  class Writer {
    var buf: bytes

    constructor ()
      ensures buf == []
    {
      buf := [];
    }

    method Number(v: nat, n: nat)
      modifies this
      ensures buf == old(buf) + Little(v, n)
    {
      var u := v;
      for i := 0 to n
        invariant buf + Little(u, n - i) == old(buf) + Little(v, n)
      {
        assert Little(u, n - i) == [u % 256] + Little(u / 256, n - i - 1);
        buf := buf + [u % 256];
        u := u / 256;
      }
    }

    method Int(i: int)
      modifies this
      ensures buf == old(buf) + Word(i)
    {
      Number(Wrap(i, TWO_TO_32), 4);
    }

    method Byte(b: byte)
      modifies this
      ensures buf == old(buf) + [b]
    {
      buf := buf + [b];
    }

    method Str(s: bytes)
      modifies this
      ensures buf == old(buf) + Text(s)
    {
      Int(|s|);
      buf := buf + s;
    }

    method Constant(c: Const) returns (ok: bool)
      modifies this
      ensures ok == (c != COther)
      ensures ok ==> buf == old(buf) + EncConst(c)
    {
      hide Text, Little;
      ok := true;
      match c {
        case CNil =>
          Byte(0);
        case CBool(b) =>
          Byte(1);
          Byte(if b then 1 else 0);
          Append2(old(buf), [1], Flag(b));
        case CInt(i) =>
          Byte(2);
          Number(Wrap(i, TWO_TO_64), 8);
          Append2(old(buf), [2], Long(i));
        case CFloat(bits) =>
          Byte(3);
          Number(Wrap(bits, TWO_TO_64), 8);
          Append2(old(buf), [3], Long(bits));
        case CStr(s) =>
          Byte(4);
          Str(s);
          Append2(old(buf), [4], Text(s));
        case COther =>
          ok := false;
      }
    }

    method Code(code: seq<nat>)
      modifies this
      ensures buf == old(buf) + Counted(U32, code)
    {
      hide Word, U32, Each, Counted;
      Int(|code|);
      EachStart(old(buf), U32, code);
      for i := 0 to |code|
        invariant buf + Each(U32, code[i..]) == old(buf) + Counted(U32, code)
      {
        EachStep(U32, code, i);
        Append2(buf, U32(code[i]), Each(U32, code[i + 1..]));
        IsU32(code[i]);
        Int(code[i]);
      }
      EachStop(buf, U32, code);
    }

    method Constants(cs: seq<Const>) returns (ok: bool)
      modifies this
      ensures ok == (COther !in cs)
      ensures ok ==> buf == old(buf) + Counted(EncConst, cs)
    {
      hide Word, EncConst, Each, Counted;
      Int(|cs|);
      EachStart(old(buf), EncConst, cs);
      for i := 0 to |cs|
        invariant COther !in cs[..i]
        invariant buf + Each(EncConst, cs[i..]) == old(buf) + Counted(EncConst, cs)
      {
        EachStep(EncConst, cs, i);
        Append2(buf, EncConst(cs[i]), Each(EncConst, cs[i + 1..]));
        ok := Constant(cs[i]);
        if !ok { return; }
      }
      EachStop(buf, EncConst, cs);
      ok := true;
    }

    method Upvalue(instack: bool, idx: byte, name: bytes)
      modifies this
      ensures buf == old(buf) + EncUpval(Upval(instack, idx, name))
    {
      hide Text;
      Byte(if instack then 1 else 0);
      Byte(idx);
      Str(name);
      Append3(old(buf), Flag(instack), [idx], Text(name));
    }

    method Upvalues(us: seq<Upval>, strip: bool, ghost kept: seq<Upval>)
      requires |kept| == |us|
      requires forall i :: 0 <= i < |us| ==> kept[i] == if strip then us[i].(name := []) else us[i]
      modifies this
      ensures buf == old(buf) + Counted(EncUpval, kept)
    {
      hide Word, EncUpval, Each, Counted;
      Int(|us|);
      EachStart(old(buf), EncUpval, kept);
      for i := 0 to |us|
        invariant buf + Each(EncUpval, kept[i..]) == old(buf) + Counted(EncUpval, kept)
      {
        EachStep(EncUpval, kept, i);
        Append2(buf, EncUpval(kept[i]), Each(EncUpval, kept[i + 1..]));
        Upvalue(us[i].instack, us[i].idx, if strip then [] else us[i].name);
      }
      EachStop(buf, EncUpval, kept);
    }

    method Lineinfo(ls: seq<int>)
      modifies this
      ensures buf == old(buf) + Counted(Word, ls)
    {
      hide Word, Each, Counted;
      Int(|ls|);
      EachStart(old(buf), Word, ls);
      for i := 0 to |ls|
        invariant buf + Each(Word, ls[i..]) == old(buf) + Counted(Word, ls)
      {
        EachStep(Word, ls, i);
        Append2(buf, Word(ls[i]), Each(Word, ls[i + 1..]));
        Int(ls[i]);
      }
      EachStop(buf, Word, ls);
    }

    method Locvar(v: LocVar)
      modifies this
      ensures buf == old(buf) + EncLocVar(v)
    {
      hide Text, Word;
      Str(v.name);
      Int(v.reg);
      Int(v.startpc);
      Int(v.endpc);
      Append4(old(buf), Text(v.name), Word(v.reg), Word(v.startpc), Word(v.endpc));
    }

    method Locvars(vs: seq<LocVar>)
      modifies this
      ensures buf == old(buf) + Counted(EncLocVar, vs)
    {
      hide Word, EncLocVar, Each, Counted;
      Int(|vs|);
      EachStart(old(buf), EncLocVar, vs);
      for i := 0 to |vs|
        invariant buf + Each(EncLocVar, vs[i..]) == old(buf) + Counted(EncLocVar, vs)
      {
        EachStep(EncLocVar, vs, i);
        Append2(buf, EncLocVar(vs[i]), Each(EncLocVar, vs[i + 1..]));
        Locvar(vs[i]);
      }
      EachStop(buf, EncLocVar, vs);
    }

    method WriteHead(p: Proto)
      modifies this
      ensures buf == old(buf) + Head(p)
    {
      hide Word;
      Int(p.numparams);
      Byte(if p.isVararg then 1 else 0);
      Int(p.maxstack);
      Append3(old(buf), Word(p.numparams), Flag(p.isVararg), Word(p.maxstack));
    }

    method WriteLines(p: Proto, source: bytes, o: Origin)
      modifies this
      ensures buf == old(buf) + Lines(p.(source := source), o)
    {
      hide Word, Text;
      var field := if o == Inside(source) then [] else source;
      Str(field);
      Int(p.lineDefined);
      Int(p.lastLineDefined);
      Append3(old(buf), Text(field), Word(p.lineDefined), Word(p.lastLineDefined));
    }

    /** Parameters, code, constants, source and lines. */
    method Front(p: Proto, source: bytes, o: Origin) returns (ok: bool)
      modifies this
      ensures ok == (COther !in p.constants)
      ensures ok ==> buf == old(buf) + FrontBytes(p.(source := source), o)
    {
      hide Counted, Head, Lines;
      ghost var q := p.(source := source);
      WriteHead(p);
      Code(p.code);
      ok := Constants(p.constants);
      if !ok { return; }
      WriteLines(p, source, o);
      assert Head(p) == Head(q) by { HeadSource(p, source); }
      Append4(old(buf), Head(q), Counted(U32, p.code), Counted(EncConst, p.constants), Lines(q, o));
    }

    /** Upvalues and debug information. */
    method Back(p: Proto, strip: bool)
      modifies this
      ensures buf == old(buf) + BackBytes(Kept(p, strip))
    {
      hide Counted, Word;
      Upvalues(p.upvalues, strip, Kept(p, strip).upvalues);
      if strip {
        Int(0);
        Int(0);
        NoneCounted();
      } else {
        Lineinfo(p.lineinfo);
        Locvars(p.locvars);
      }
      ghost var k := Kept(p, strip);
      Append3(old(buf), Counted(EncUpval, k.upvalues), Counted(Word, k.lineinfo), Counted(EncLocVar, k.locvars));
    }

    /** A prototype and its children; fails exactly on undumpable constants. */
    method WriteProto(p: Proto, strip: bool, o: Origin) returns (ok: bool)
      modifies this
      ensures ok == Dumpable(p)
      ensures ok ==> buf == old(buf) + EncProto(Kept(p, strip), o)
      decreases p, 0
    {
      hide Counted, Word, FrontBytes, BackBytes, U32;
      var source := if strip then STRIPPED_SOURCE else p.source;
      ghost var k := Kept(p, strip);
      FrontOfKept(p, strip, o);
      ok := Front(p, source, o);
      if !ok { return; }
      IsU32(|p.protos|);
      Int(|p.protos|);
      ok := WriteProtos(p.protos, strip, source);
      if !ok { return; }
      Back(p, strip);
      ChildrenOfKept(p, strip);
      Append4(old(buf), FrontBytes(k, o), U32(|k.protos|), EncProtos(k.protos, k.source), BackBytes(k));
    }

    method WriteProtos(ps: seq<Proto>, strip: bool, source: bytes) returns (ok: bool)
      modifies this
      ensures ok == forall q :: q in ps ==> Dumpable(q)
      ensures ok ==> buf == old(buf) + EncProtos(KeptAll(ps, strip), source)
      decreases ps, 0
    {
      hide EncProto, Kept, Dumpable;
      for i := 0 to |ps|
        invariant forall q :: q in ps[..i] ==> Dumpable(q)
        invariant buf + EncProtos(KeptAll(ps[i..], strip), source) == old(buf) + EncProtos(KeptAll(ps, strip), source)
      {
        KeptAllStep(ps[i..], strip, source);
        assert ps[i..][1..] == ps[i + 1..];
        Append2(buf, EncProto(Kept(ps[i], strip), Inside(source)), EncProtos(KeptAll(ps[i + 1..], strip), source));
        ok := WriteProto(ps[i], strip, Inside(source));
        if !ok { return; }
      }
      ok := true;
    }
  }

  lemma HeadSource(p: Proto, source: bytes)
    ensures Head(p.(source := source)) == Head(p)
  {
  }

  lemma NoneCounted()
    ensures Counted(Word, []) == Word(0) && Counted(EncLocVar, []) == Word(0)
  {
  }

  lemma IsU32(n: nat)
    ensures U32(n) == Word(n)
  {
  }

  lemma FrontOfKept(p: Proto, strip: bool, o: Origin)
    ensures FrontBytes(Kept(p, strip), o) == FrontBytes(p.(source := if strip then STRIPPED_SOURCE else p.source), o)
  {
  }

  lemma ChildrenOfKept(p: Proto, strip: bool)
    ensures Kept(p, strip).protos == KeptAll(p.protos, strip)
    ensures Kept(p, strip).source == if strip then STRIPPED_SOURCE else p.source
  {
    if !strip { KeptAllSame(p.protos); }
  }

  lemma {:induction false} KeptAllSame(ps: seq<Proto>)
    ensures KeptAll(ps, false) == ps
  {
    if ps != [] { KeptAllSame(ps[1..]); }
  }

  lemma KeptAllStep(ps: seq<Proto>, strip: bool, source: bytes)
    requires ps != []
    ensures EncProtos(KeptAll(ps, strip), source) == EncProto(Kept(ps[0], strip),
      Inside(source)) + EncProtos(KeptAll(ps[1..], strip), source)
  {
    hide EncProto, Kept;
    assert KeptAll(ps, strip)[1..] == KeptAll(ps[1..], strip);
  }

  /** The whole dump: header, number of upvalues, strip flag, body. */
  method DumpProto(p: Proto, strip: bool) returns (ok: bool, out: bytes)
    ensures ok == Dumpable(p)
    ensures ok ==> out == Dump(p, strip)
  {
    hide Dumpable, EncProto, Kept, Header, Flag;
    var w := new Writer();
    WriteHeader(w);
    w.Byte(|p.upvalues| % 256);
    w.Byte(if strip then 1 else 0);
    ok := w.WriteProto(p, strip, Root);
    out := w.buf;
    FlagIs(strip);
    if ok { Append3(Header(), [|p.upvalues| % 256], Flag(strip), EncProto(Kept(p, strip), Root)); }
  }

  lemma FlagIs(b: bool)
    ensures Flag(b) == [if b then 1 else 0]
  {
  }

  method WriteHeader(w: Writer)
    modifies w
    ensures w.buf == old(w.buf) + Header()
  {
    hide Plain, SIGNATURE;
    for i := 0 to |SIGNATURE|
      invariant w.buf + Plain(SIGNATURE[i..]) == old(w.buf) + Plain(SIGNATURE)
    {
      PlainStep(SIGNATURE, i);
      Append2(w.buf, [SIGNATURE[i].b], Plain(SIGNATURE[i + 1..]));
      w.Byte(SIGNATURE[i].b);
    }
    PlainNone();
    w.Number(CHUNK_INT, 8);
    w.Number(CHUNK_NUM, 8);
    Append3(old(w.buf), Plain(SIGNATURE), Little(CHUNK_INT, 8), Little(CHUNK_NUM, 8));
  }

  lemma PlainStep(want: seq<Fixed>, i: nat)
    requires i < |want|
    ensures Plain(want[i..]) == [want[i].b] + Plain(want[i + 1..])
  {
    assert want[i..][1..] == want[i + 1..];
  }

  lemma PlainNone()
    ensures Plain([]) == []
  {
  }

  // ----------------------------------------------------------------- reading

  datatype Read<T> = Ok(value: T) | Err(error: Error)

  /** A reading operation did what the function says: same value and same rest,
      or the same error. */
  ghost predicate Tracks<T>(p: Parse<T>, r: Read<T>, rest: bytes) {
    match p
    case Got(v, t) => r == Ok(v) && rest == t
    case Fail(e) => r == Err(e)
  }

  /** Elements already read, put before the ones still to come. */
  function Glue<T>(xs: seq<T>, p: Parse<seq<T>>): Parse<seq<T>> {
    match p
    case Fail(e) => Fail(e)
    case Got(ys, rest) => Got(xs + ys, rest)
  }

  lemma GlueStart<T>(p: Parse<seq<T>>)
    ensures Glue([], p) == p
  {
    if p.Got? { assert [] + p.value == p.value; }
  }

  /** One more element: reading it fails the whole list or moves it over. */
  lemma GlueStep<T>(f: bytes -> Parse<T>, xs: seq<T>, n: nat, b: bytes)
    requires n > 0
    ensures f(b).Fail? ==> Glue(xs, GetEach(f, n, b)) == Fail(f(b).error)
    ensures f(b).Got? ==> Glue(xs, GetEach(f, n, b)) == Glue(xs + [f(b).value], GetEach(f, n - 1, f(b).rest))
  {
    if f(b).Got? && GetEach(f, n - 1, f(b).rest).Got? {
      var ys := GetEach(f, n - 1, f(b).rest).value;
      assert xs + ([f(b).value] + ys) == (xs + [f(b).value]) + ys;
    }
  }

  lemma GlueStop<T>(f: bytes -> Parse<T>, xs: seq<T>, b: bytes)
    ensures Glue(xs, GetEach(f, 0, b)) == Got(xs, b)
  {
    assert xs + [] == xs;
  }

  lemma GlueProtos(outer: bytes, xs: seq<Proto>, n: nat, b: bytes)
    requires n > 0
    ensures var p := GetProto(outer, b); p.Fail? ==> Glue(xs, GetProtos(outer, n, b)) == Fail(p.error)
    ensures var p := GetProto(outer, b);
      p.Got? ==> Glue(xs, GetProtos(outer, n, b)) == Glue(xs + [p.value], GetProtos(outer, n - 1, p.rest))
  {
    hide GetProto;
    var p := GetProto(outer, b);
    if p.Got? && GetProtos(outer, n - 1, p.rest).Got? {
      var ys := GetProtos(outer, n - 1, p.rest).value;
      assert xs + ([p.value] + ys) == (xs + [p.value]) + ys;
    }
  }

  class Reader {
    const data: bytes
    var pos: nat

    constructor (data: bytes)
      ensures this.data == data && pos == 0
    {
      this.data, pos := data, 0;
    }

    ghost predicate Valid()
      reads this
    {
      pos <= |data|
    }

    ghost function Rest(): bytes
      reads this
      requires Valid()
    {
      data[pos..]
    }

    method Byte() returns (r: Read<byte>)
      requires Valid()
      modifies this
      ensures Valid() && pos >= old(pos) && Tracks(GetByte(old(Rest())), r, Rest())
    {
      if pos >= |data| { return Err(Truncated); }
      pos := pos + 1;
      return Ok(data[pos - 1]);
    }

    method Flagged() returns (r: Read<bool>)
      requires Valid()
      modifies this
      ensures Valid() && pos >= old(pos) && Tracks(GetFlag(old(Rest())), r, Rest())
    {
      var x := Byte();
      return match x case Ok(b) => Ok(b != 0) case Err(e) => Err(e);
    }

    method Number(n: nat) returns (r: Read<nat>)
      requires Valid()
      modifies this
      ensures Valid() && pos >= old(pos) && Tracks(GetNumber(n, old(Rest())), r, Rest())
    {
      var v, unit := 0, 1;
      ghost var b := Rest();
      for i := 0 to n
        invariant pos == old(pos) + i <= |data| && i <= |b|
        invariant v == Value(b[..i]) && unit == Pow256(i)
      {
        var x := Byte();
        if x.Err? { return Err(x.error); }
        ValueSnoc(b[..i], x.value);
        assert b[..i + 1] == b[..i] + [x.value];
        v, unit := v + x.value * unit, unit * 256;
      }
      return Ok(v);
    }

    method Int() returns (r: Read<int>)
      requires Valid()
      modifies this
      ensures Valid() && pos >= old(pos) && Tracks(GetWord(old(Rest())), r, Rest())
    {
      var x := Number(4);
      return match x case Ok(u) => Ok(Signed(u, TWO_TO_32)) case Err(e) => Err(e);
    }

    method Unsigned() returns (r: Read<nat>)
      requires Valid()
      modifies this
      ensures Valid() && pos >= old(pos) && Tracks(GetU32(old(Rest())), r, Rest())
    {
      r := Number(4);
    }

    method Str() returns (r: Read<bytes>)
      requires Valid()
      modifies this
      ensures Valid() && pos >= old(pos) && Tracks(GetText(old(Rest())), r, Rest())
    {
      hide GetNumber;
      var x := Number(4);
      if x.Err? { return Err(x.error); }
      if pos + x.value > |data| { return Err(Truncated); }
      ghost var rest := Rest();
      pos := pos + x.value;
      assert data[pos - x.value..pos] == rest[..x.value] && Rest() == rest[x.value..];
      return Ok(data[pos - x.value..pos]);
    }

    method Constant() returns (r: Read<Const>)
      requires Valid()
      modifies this
      ensures Valid() && pos >= old(pos) && Tracks(GetConst(old(Rest())), r, Rest())
    {
      hide GetNumber, GetText, GetFlag;
      var tag := Byte();
      if tag.Err? { return Err(tag.error); }
      match tag.value {
        case 0 =>
          return Ok(CNil);
        case 1 =>
          var b := Flagged();
          return match b case Ok(x) => Ok(CBool(x)) case Err(e) => Err(e);
        case 2 =>
          var u := Number(8);
          return match u case Ok(x) => Ok(CInt(Signed(x, TWO_TO_64))) case Err(e) => Err(e);
        case 3 =>
          var u := Number(8);
          return match u case Ok(x) => Ok(CFloat(x)) case Err(e) => Err(e);
        case 4 =>
          var s := Str();
          return match s case Ok(x) => Ok(CStr(x)) case Err(e) => Err(e);
        case _ =>
          return Err(BadConstant);
      }
    }

    method Upvalue() returns (r: Read<Upval>)
      requires Valid()
      modifies this
      ensures Valid() && pos >= old(pos) && Tracks(GetUpval(old(Rest())), r, Rest())
    {
      hide GetFlag, GetByte, GetText;
      var instack := Flagged();
      if instack.Err? { return Err(instack.error); }
      var idx := Byte();
      if idx.Err? { return Err(idx.error); }
      var name := Str();
      if name.Err? { return Err(name.error); }
      return Ok(Upval(instack.value, idx.value, name.value));
    }

    method Locvar() returns (r: Read<LocVar>)
      requires Valid()
      modifies this
      ensures Valid() && pos >= old(pos) && Tracks(GetLocVar(old(Rest())), r, Rest())
    {
      hide GetWord, GetText;
      var name := Str();
      if name.Err? { return Err(name.error); }
      var reg := Int();
      if reg.Err? { return Err(reg.error); }
      var startpc := Int();
      if startpc.Err? { return Err(startpc.error); }
      var endpc := Int();
      if endpc.Err? { return Err(endpc.error); }
      return Ok(LocVar(name.value, reg.value, startpc.value, endpc.value));
    }

    method Code() returns (r: Read<seq<nat>>)
      requires Valid()
      modifies this
      ensures Valid() && pos >= old(pos) && Tracks(GetCounted(GetU32, old(Rest())), r, Rest())
    {
      hide GetNumber, GetU32, GetEach;
      var n := Number(4);
      if n.Err? { return Err(n.error); }
      var xs: seq<nat> := [];
      ghost var all := GetEach(GetU32, n.value, Rest());
      GlueStart(all);
      for i := 0 to n.value
        invariant Valid() && pos >= old(pos)
        invariant all == Glue(xs, GetEach(GetU32, n.value - i, Rest()))
      {
        GlueStep(GetU32, xs, n.value - i, Rest());
        var x := Unsigned();
        if x.Err? { return Err(x.error); }
        xs := xs + [x.value];
      }
      GlueStop(GetU32, xs, Rest());
      return Ok(xs);
    }

    method Constants() returns (r: Read<seq<Const>>)
      requires Valid()
      modifies this
      ensures Valid() && pos >= old(pos) && Tracks(GetCounted(GetConst, old(Rest())), r, Rest())
    {
      hide GetNumber, GetConst, GetEach;
      var n := Number(4);
      if n.Err? { return Err(n.error); }
      var xs: seq<Const> := [];
      ghost var all := GetEach(GetConst, n.value, Rest());
      GlueStart(all);
      for i := 0 to n.value
        invariant Valid() && pos >= old(pos)
        invariant all == Glue(xs, GetEach(GetConst, n.value - i, Rest()))
      {
        GlueStep(GetConst, xs, n.value - i, Rest());
        var x := Constant();
        if x.Err? { return Err(x.error); }
        xs := xs + [x.value];
      }
      GlueStop(GetConst, xs, Rest());
      return Ok(xs);
    }

    method Upvalues() returns (r: Read<seq<Upval>>)
      requires Valid()
      modifies this
      ensures Valid() && pos >= old(pos) && Tracks(GetCounted(GetUpval, old(Rest())), r, Rest())
    {
      hide GetNumber, GetUpval, GetEach;
      var n := Number(4);
      if n.Err? { return Err(n.error); }
      var xs: seq<Upval> := [];
      ghost var all := GetEach(GetUpval, n.value, Rest());
      GlueStart(all);
      for i := 0 to n.value
        invariant Valid() && pos >= old(pos)
        invariant all == Glue(xs, GetEach(GetUpval, n.value - i, Rest()))
      {
        GlueStep(GetUpval, xs, n.value - i, Rest());
        var x := Upvalue();
        if x.Err? { return Err(x.error); }
        xs := xs + [x.value];
      }
      GlueStop(GetUpval, xs, Rest());
      return Ok(xs);
    }

    method Lineinfo() returns (r: Read<seq<int>>)
      requires Valid()
      modifies this
      ensures Valid() && pos >= old(pos) && Tracks(GetCounted(GetWord, old(Rest())), r, Rest())
    {
      hide GetNumber, GetWord, GetEach;
      var n := Number(4);
      if n.Err? { return Err(n.error); }
      var xs: seq<int> := [];
      ghost var all := GetEach(GetWord, n.value, Rest());
      GlueStart(all);
      for i := 0 to n.value
        invariant Valid() && pos >= old(pos)
        invariant all == Glue(xs, GetEach(GetWord, n.value - i, Rest()))
      {
        GlueStep(GetWord, xs, n.value - i, Rest());
        var x := Int();
        if x.Err? { return Err(x.error); }
        xs := xs + [x.value];
      }
      GlueStop(GetWord, xs, Rest());
      return Ok(xs);
    }

    method Locvars() returns (r: Read<seq<LocVar>>)
      requires Valid()
      modifies this
      ensures Valid() && pos >= old(pos) && Tracks(GetCounted(GetLocVar, old(Rest())), r, Rest())
    {
      hide GetNumber, GetLocVar, GetEach;
      var n := Number(4);
      if n.Err? { return Err(n.error); }
      var xs: seq<LocVar> := [];
      ghost var all := GetEach(GetLocVar, n.value, Rest());
      GlueStart(all);
      for i := 0 to n.value
        invariant Valid() && pos >= old(pos)
        invariant all == Glue(xs, GetEach(GetLocVar, n.value - i, Rest()))
      {
        GlueStep(GetLocVar, xs, n.value - i, Rest());
        var x := Locvar();
        if x.Err? { return Err(x.error); }
        xs := xs + [x.value];
      }
      GlueStop(GetLocVar, xs, Rest());
      return Ok(xs);
    }

    method Front(outer: bytes) returns (r: Read<Chunk.Front>)
      requires Valid()
      modifies this
      ensures Valid() && pos >= old(pos) && Tracks(GetFront(outer, old(Rest())), r, Rest())
    {
      hide GetHead, GetLines, GetCounted;
      var head := Header();
      if head.Err? { return Err(head.error); }
      var code := Code();
      if code.Err? { return Err(code.error); }
      var constants := Constants();
      if constants.Err? { return Err(constants.error); }
      var lines := Lines(outer);
      if lines.Err? { return Err(lines.error); }
      var h, l := head.value, lines.value;
      return Ok(Chunk.Front(h.0, h.1, h.2, code.value, constants.value, l.0, l.1, l.2));
    }

    method Header() returns (r: Read<(int, bool, int)>)
      requires Valid()
      modifies this
      ensures Valid() && pos >= old(pos) && Tracks(GetHead(old(Rest())), r, Rest())
    {
      hide GetWord, GetFlag;
      var numparams := Int();
      if numparams.Err? { return Err(numparams.error); }
      var isVararg := Flagged();
      if isVararg.Err? { return Err(isVararg.error); }
      var maxstack := Int();
      if maxstack.Err? { return Err(maxstack.error); }
      return Ok((numparams.value, isVararg.value, maxstack.value));
    }

    method Lines(outer: bytes) returns (r: Read<(bytes, int, int)>)
      requires Valid()
      modifies this
      ensures Valid() && pos >= old(pos) && Tracks(GetLines(outer, old(Rest())), r, Rest())
    {
      hide GetWord, GetText;
      var source := Str();
      if source.Err? { return Err(source.error); }
      var first := Int();
      if first.Err? { return Err(first.error); }
      var last := Int();
      if last.Err? { return Err(last.error); }
      return Ok((if source.value == [] then outer else source.value, first.value, last.value));
    }

    method Back() returns (r: Read<Chunk.Back>)
      requires Valid()
      modifies this
      ensures Valid() && pos >= old(pos) && Tracks(GetBack(old(Rest())), r, Rest())
    {
      hide GetCounted;
      var upvalues := Upvalues();
      if upvalues.Err? { return Err(upvalues.error); }
      var lineinfo := Lineinfo();
      if lineinfo.Err? { return Err(lineinfo.error); }
      var locvars := Locvars();
      if locvars.Err? { return Err(locvars.error); }
      return Ok(Chunk.Back(upvalues.value, lineinfo.value, locvars.value));
    }

    method ReadProto(outer: bytes) returns (r: Read<Proto>)
      requires Valid()
      modifies this
      ensures Valid() && pos >= old(pos) && Tracks(GetProto(outer, old(Rest())), r, Rest())
      decreases |data| - pos, 0
    {
      hide GetFront, GetBack, GetNumber, GetProtos;
      var front := Front(outer);
      if front.Err? { return Err(front.error); }
      assert pos > old(pos);
      var n := Number(4);
      if n.Err? { return Err(n.error); }
      var protos := ReadProtos(front.value.source, n.value);
      if protos.Err? { return Err(protos.error); }
      var back := Back();
      if back.Err? { return Err(back.error); }
      return Ok(Assemble(front.value, protos.value, back.value));
    }

    method ReadProtos(outer: bytes, n: nat) returns (r: Read<seq<Proto>>)
      requires Valid()
      modifies this
      ensures Valid() && pos >= old(pos) && Tracks(GetProtos(outer, n, old(Rest())), r, Rest())
      decreases |data| - pos, 1
    {
      hide GetProto;
      var ps: seq<Proto> := [];
      ghost var all := GetProtos(outer, n, Rest());
      GlueStart(all);
      for i := 0 to n
        invariant Valid() && pos >= old(pos)
        invariant all == Glue(ps, GetProtos(outer, n - i, Rest()))
      {
        GlueProtos(outer, ps, n - i, Rest());
        var p := ReadProto(outer);
        if p.Err? { return Err(p.error); }
        ps := ps + [p.value];
      }
      assert ps + [] == ps;
      return Ok(ps);
    }

    method CheckedHeader() returns (r: Read<bool>)
      requires Valid()
      modifies this
      ensures Valid() && pos >= old(pos) && Tracks(CheckHeader(old(Rest())), r, Rest())
    {
      hide GetNumber, SIGNATURE;
      for i := 0 to |SIGNATURE|
        invariant Valid() && pos >= old(pos)
        invariant Expect(SIGNATURE, old(Rest())) == Expect(SIGNATURE[i..], Rest())
      {
        assert SIGNATURE[i..][1..] == SIGNATURE[i + 1..];
        var x := Byte();
        if x.Err? { return Err(x.error); }
        if x.value != SIGNATURE[i].b { return Err(Mismatch(SIGNATURE[i].complaint)); }
      }
      var i := Number(8);
      if i.Err? { return Err(i.error); }
      if i.value != CHUNK_INT { return Err(Mismatch("endianness mismatch")); }
      var x := Number(8);
      if x.Err? { return Err(x.error); }
      if x.value != CHUNK_NUM { return Err(Mismatch("float format mismatch")); }
      return Ok(true);
    }
  }

  /** The loader: what it returns, and what it leaves unread, is Undump. */
  method UndumpProto(blob: bytes, name: bytes) returns (r: Read<Proto>, ghost rest: bytes)
    ensures Tracks(Undump(blob, name), r, rest)
  {
    hide CheckHeader, GetProto;
    rest := blob;
    if blob == [] || blob[0] != 0x1B { return Err(NotBinary), rest; }
    var reader := new Reader(blob);
    assert reader.Rest() == blob;
    var header := reader.CheckedHeader();
    if header.Err? { return Err(header.error), rest; }
    var count := reader.Byte();
    if count.Err? { return Err(count.error), rest; }
    var strip := reader.Flagged();
    if strip.Err? { return Err(strip.error), rest; }
    r := reader.ReadProto(name);
    rest := reader.Rest();
  }
}
