/** Reading undoes writing, and every cut is noticed. One statement covers
    both: given input that agrees with a layout as far as it goes, a reader
    returns the value and what follows, or reports truncation. */
module ChunkProof {
  import opened ByteOrder
  import opened Chunk

  /** One is a prefix of the other. */
  ghost predicate Agree(inp: bytes, e: bytes) {
    inp <= e || e <= inp
  }

  /** The reader's result on input that agrees with layout e of value x. */
  ghost predicate Decodes<T>(r: Parse<T>, inp: bytes, e: bytes, x: T) {
    if |inp| >= |e| then r == Got(x, inp[|e|..]) else r == Fail(Truncated)
  }

  lemma AgreeSplit(inp: bytes, a: bytes, b: bytes)
    requires Agree(inp, a + b)
    ensures Agree(inp, a)
    ensures |inp| >= |a| ==> Agree(inp[|a|..], b)
    ensures |inp| >= |a| + |b| ==> inp[|a|..][|b|..] == inp[|a + b|..]
  {
    if |inp| >= |a| {
      var t := inp[|a|..];
      if inp <= a + b {
        assert t == (a + b)[|a|..|inp|] == b[..|t|];
      } else {
        assert (a + b)[|a|..] == b;
        assert inp[|a|..|a| + |b|] == b;
        assert t[..|b|] == b;
      }
    }
  }

  // ------------------------------------------------------------ small readers

  lemma ByteDecodes(x: byte, inp: bytes)
    requires Agree(inp, [x])
    ensures Decodes(GetByte(inp), inp, [x], x)
  {
    if inp != [] { assert inp[0] == x; }
  }

  lemma FlagDecodes(x: bool, inp: bytes)
    requires Agree(inp, Flag(x))
    ensures Decodes(GetFlag(inp), inp, Flag(x), x)
  {
    ByteDecodes(if x then 1 else 0, inp);
  }

  lemma NumberDecodes(v: nat, n: nat, inp: bytes)
    requires v < Pow256(n) && Agree(inp, Little(v, n))
    ensures Decodes(GetNumber(n, inp), inp, Little(v, n), v)
  {
    if |inp| >= n {
      assert inp[..n] == Little(v, n);
      ValueOfLittle(v, n);
    }
  }

  lemma U32Decodes(u: nat, inp: bytes)
    requires u < TWO_TO_32 && Agree(inp, U32(u))
    ensures Decodes(GetU32(inp), inp, U32(u), u)
  {
    Powers();
    NumberDecodes(u, 4, inp);
  }

  lemma WordDecodes(i: int, inp: bytes)
    requires Int32(i) && Agree(inp, Word(i))
    ensures Decodes(GetWord(inp), inp, Word(i), i)
  {
    Powers();
    NumberDecodes(Wrap(i, TWO_TO_32), 4, inp);
  }

  lemma LongDecodes(i: int, inp: bytes)
    requires -TWO_TO_63 <= i < TWO_TO_64 && Agree(inp, Long(i))
    ensures Decodes(GetNumber(8, inp), inp, Long(i), Wrap(i, TWO_TO_64))
    ensures i < TWO_TO_63 ==> Signed(Wrap(i, TWO_TO_64), TWO_TO_64) == i
  {
    Powers();
    NumberDecodes(Wrap(i, TWO_TO_64), 8, inp);
  }

  lemma TextDecodes(s: bytes, inp: bytes)
    requires |s| < TWO_TO_32 && Agree(inp, Text(s))
    ensures Decodes(GetText(inp), inp, Text(s), s)
  {
    AgreeSplit(inp, U32(|s|), s);
    U32Decodes(|s|, inp);
    if |inp| >= 4 {
      var t := inp[4..];
      if |t| >= |s| { assert t[..|s|] == s; }
    }
  }

  // ---------------------------------------------------------------- entities

  /** What the C++ types and the 32-bit length fields can represent. */
  ghost predicate FitsConst(c: Const) {
    match c
    case CInt(i) => -TWO_TO_63 <= i < TWO_TO_63
    case CFloat(bits) => bits < TWO_TO_64
    case CStr(s) => |s| < TWO_TO_32
    case COther => false
    case _ => true
  }

  ghost predicate FitsUpval(u: Upval) { |u.name| < TWO_TO_32 }

  ghost predicate FitsLocVar(v: LocVar) {
    |v.name| < TWO_TO_32 && Int32(v.reg) && Int32(v.startpc) && Int32(v.endpc)
  }

  lemma ConstDecodes(c: Const, inp: bytes)
    requires FitsConst(c) && Agree(inp, EncConst(c))
    ensures Decodes(GetConst(inp), inp, EncConst(c), c)
  {
    hide Text, Long, Agree;
    match c {
      case CNil =>
        ByteDecodes(0, inp);
      case CBool(b) =>
        AgreeSplit(inp, [1], Flag(b));
        ByteDecodes(1, inp);
        if |inp| >= 1 { FlagDecodes(b, inp[1..]); }
      case CInt(i) =>
        AgreeSplit(inp, [2], Long(i));
        ByteDecodes(2, inp);
        if |inp| >= 1 { LongDecodes(i, inp[1..]); }
      case CFloat(bits) =>
        AgreeSplit(inp, [3], Long(bits));
        ByteDecodes(3, inp);
        if |inp| >= 1 { LongDecodes(bits, inp[1..]); }
      case CStr(s) =>
        AgreeSplit(inp, [4], Text(s));
        ByteDecodes(4, inp);
        if |inp| >= 1 { TextDecodes(s, inp[1..]); }
    }
  }

  lemma UpvalDecodes(u: Upval, inp: bytes)
    requires FitsUpval(u) && Agree(inp, EncUpval(u))
    ensures Decodes(GetUpval(inp), inp, EncUpval(u), u)
  {
    hide Text, Agree, GetText;
    AgreeSplit(inp, Flag(u.instack), [u.idx] + Text(u.name));
    FlagDecodes(u.instack, inp);
    if |inp| >= 1 {
      var t := inp[1..];
      AgreeSplit(t, [u.idx], Text(u.name));
      ByteDecodes(u.idx, t);
      if |t| >= 1 { TextDecodes(u.name, t[1..]); }
    }
  }

  lemma LocVarDecodes(v: LocVar, inp: bytes)
    requires FitsLocVar(v) && Agree(inp, EncLocVar(v))
    ensures Decodes(GetLocVar(inp), inp, EncLocVar(v), v)
  {
    hide Text, Agree, GetText, GetWord, Word;
    AgreeSplit(inp, Text(v.name), Word(v.reg) + (Word(v.startpc) + Word(v.endpc)));
    TextDecodes(v.name, inp);
    if |inp| >= |Text(v.name)| {
      var t := inp[|Text(v.name)|..];
      AgreeSplit(t, Word(v.reg), Word(v.startpc) + Word(v.endpc));
      WordDecodes(v.reg, t);
      if |t| >= 4 {
        AgreeSplit(t[4..], Word(v.startpc), Word(v.endpc));
        WordDecodes(v.startpc, t[4..]);
        if |t[4..]| >= 4 { WordDecodes(v.endpc, t[4..][4..]); }
      }
    }
  }

  // ------------------------------------------------------------------- lists

  lemma {:induction false} EachDecodes<T>(enc: T -> bytes, f: bytes -> Parse<T>, xs: seq<T>, inp: bytes)
    requires forall x, b :: x in xs && Agree(b, enc(x)) ==> Decodes(f(b), b, enc(x), x)
    requires Agree(inp, Each(enc, xs))
    ensures Decodes(GetEach(f, |xs|, inp), inp, Each(enc, xs), xs)
  {
    hide Agree;
    if xs != [] {
      var a, rest := enc(xs[0]), Each(enc, xs[1..]);
      AgreeSplit(inp, a, rest);
      assert xs[0] in xs;
      if |inp| >= |a| {
        EachDecodes(enc, f, xs[1..], inp[|a|..]);
        assert [xs[0]] + xs[1..] == xs;
      }
    }
  }

  lemma CountedDecodes<T>(enc: T -> bytes, f: bytes -> Parse<T>, xs: seq<T>, inp: bytes)
    requires |xs| < TWO_TO_32
    requires forall x, b :: x in xs && Agree(b, enc(x)) ==> Decodes(f(b), b, enc(x), x)
    requires Agree(inp, Counted(enc, xs))
    ensures Decodes(GetCounted(f, inp), inp, Counted(enc, xs), xs)
  {
    hide Agree;
    AgreeSplit(inp, U32(|xs|), Each(enc, xs));
    U32Decodes(|xs|, inp);
    if |inp| >= 4 { EachDecodes(enc, f, xs, inp[4..]); }
  }

  // -------------------------------------------------------------- prototypes

  ghost predicate Fits(p: Proto) {
    && Int32(p.numparams) && Int32(p.maxstack) && Int32(p.lineDefined) && Int32(p.lastLineDefined)
    && |p.code| < TWO_TO_32 && (forall u :: u in p.code ==> u < TWO_TO_32)
    && |p.constants| < TWO_TO_32 && (forall c :: c in p.constants ==> FitsConst(c))
    && |p.source| < TWO_TO_32
    && |p.protos| < TWO_TO_32 && (forall q :: q in p.protos ==> Fits(q))
    && |p.upvalues| < TWO_TO_32 && (forall u :: u in p.upvalues ==> FitsUpval(u))
    && |p.lineinfo| < TWO_TO_32 && (forall i :: i in p.lineinfo ==> Int32(i))
    && |p.locvars| < TWO_TO_32 && (forall v :: v in p.locvars ==> FitsLocVar(v))
  }

  /** What a chunk can tell about sources: an empty one is taken from outside. */
  function Resolve(p: Proto, outer: bytes): Proto {
    var source := if p.source == [] then outer else p.source;
    p.(source := source, protos := ResolveAll(p.protos, source))
  }

  function ResolveAll(ps: seq<Proto>, outer: bytes): seq<Proto> {
    if ps == [] then [] else [Resolve(ps[0], outer)] + ResolveAll(ps[1..], outer)
  }

  /** The source a reader inherits stands for the one the writer compared with. */
  ghost predicate Linked(o: Origin, outer: bytes) {
    o.Inside? && o.source != [] ==> o.source == outer
  }

  lemma HeadDecodes(p: Proto, inp: bytes)
    requires Fits(p) && Agree(inp, Head(p))
    ensures Decodes(GetHead(inp), inp, Head(p), (p.numparams, p.isVararg, p.maxstack))
  {
    hide Agree, GetWord, Word, Fits;
    FitsNumbers(p);
    AgreeSplit(inp, Word(p.numparams), Flag(p.isVararg) + Word(p.maxstack));
    WordDecodes(p.numparams, inp);
    if |inp| >= 4 {
      var t := inp[4..];
      AgreeSplit(t, Flag(p.isVararg), Word(p.maxstack));
      FlagDecodes(p.isVararg, t);
      if |t| >= 1 { WordDecodes(p.maxstack, t[1..]); }
    }
  }

  lemma FitsNumbers(p: Proto)
    requires Fits(p)
    ensures Int32(p.numparams) && Int32(p.maxstack) && Int32(p.lineDefined) && Int32(p.lastLineDefined)
    ensures |p.code| < TWO_TO_32 && |p.constants| < TWO_TO_32 && |p.source| < TWO_TO_32 && |p.protos| < TWO_TO_32
    ensures |p.upvalues| < TWO_TO_32 && |p.lineinfo| < TWO_TO_32 && |p.locvars| < TWO_TO_32
  {
  }

  lemma LinesDecodes(p: Proto, o: Origin, outer: bytes, inp: bytes)
    requires Fits(p) && Linked(o, outer) && Agree(inp, Lines(p, o))
    ensures Decodes(GetLines(outer, inp), inp, Lines(p, o),
                    (if p.source == [] then outer else p.source, p.lineDefined, p.lastLineDefined))
  {
    hide Agree, GetWord, Word, Fits, Text, GetText;
    FitsNumbers(p);
    var s := SourceField(p, o);
    AgreeSplit(inp, Text(s), Word(p.lineDefined) + Word(p.lastLineDefined));
    TextDecodes(s, inp);
    if |inp| >= |Text(s)| {
      var t := inp[|Text(s)|..];
      AgreeSplit(t, Word(p.lineDefined), Word(p.lastLineDefined));
      WordDecodes(p.lineDefined, t);
      if |t| >= 4 { WordDecodes(p.lastLineDefined, t[4..]); }
    }
  }

  lemma CodeDecodes(p: Proto, inp: bytes)
    requires Fits(p) && Agree(inp, Counted(U32, p.code))
    ensures Decodes(GetCounted(GetU32, inp), inp, Counted(U32, p.code), p.code)
  {
    hide Agree, U32, GetU32;
    forall x, b | x in p.code && Agree(b, U32(x)) ensures Decodes(GetU32(b), b, U32(x), x) { U32Decodes(x, b); }
    CountedDecodes(U32, GetU32, p.code, inp);
  }

  lemma ConstantsDecode(p: Proto, inp: bytes)
    requires Fits(p) && Agree(inp, Counted(EncConst, p.constants))
    ensures Decodes(GetCounted(GetConst, inp), inp, Counted(EncConst, p.constants), p.constants)
  {
    hide Agree, EncConst, GetConst;
    forall x, b | x in p.constants && Agree(b, EncConst(x))
      ensures Decodes(GetConst(b), b, EncConst(x), x)
    {
      ConstDecodes(x, b);
    }
    CountedDecodes(EncConst, GetConst, p.constants, inp);
  }

  lemma UpvaluesDecode(p: Proto, inp: bytes)
    requires Fits(p) && Agree(inp, Counted(EncUpval, p.upvalues))
    ensures Decodes(GetCounted(GetUpval, inp), inp, Counted(EncUpval, p.upvalues), p.upvalues)
  {
    hide Agree, EncUpval, GetUpval;
    forall x, b | x in p.upvalues && Agree(b, EncUpval(x))
      ensures Decodes(GetUpval(b), b, EncUpval(x), x)
    {
      UpvalDecodes(x, b);
    }
    CountedDecodes(EncUpval, GetUpval, p.upvalues, inp);
  }

  lemma LineinfoDecodes(p: Proto, inp: bytes)
    requires Fits(p) && Agree(inp, Counted(Word, p.lineinfo))
    ensures Decodes(GetCounted(GetWord, inp), inp, Counted(Word, p.lineinfo), p.lineinfo)
  {
    hide Agree, Word, GetWord;
    forall x, b | x in p.lineinfo && Agree(b, Word(x)) ensures Decodes(GetWord(b), b, Word(x), x) { WordDecodes(x, b); }
    CountedDecodes(Word, GetWord, p.lineinfo, inp);
  }

  lemma LocvarsDecode(p: Proto, inp: bytes)
    requires Fits(p) && Agree(inp, Counted(EncLocVar, p.locvars))
    ensures Decodes(GetCounted(GetLocVar, inp), inp, Counted(EncLocVar, p.locvars), p.locvars)
  {
    hide Agree, EncLocVar, GetLocVar;
    forall x, b | x in p.locvars && Agree(b, EncLocVar(x))
      ensures Decodes(GetLocVar(b), b, EncLocVar(x), x)
    {
      LocVarDecodes(x, b);
    }
    CountedDecodes(EncLocVar, GetLocVar, p.locvars, inp);
  }

  function FrontOf(p: Proto, outer: bytes): Front {
    Front(p.numparams, p.isVararg, p.maxstack, p.code, p.constants,
          if p.source == [] then outer else p.source, p.lineDefined, p.lastLineDefined)
  }

  lemma FrontDecodes(p: Proto, o: Origin, outer: bytes, inp: bytes)
    requires Fits(p) && Linked(o, outer) && Agree(inp, FrontBytes(p, o))
    ensures Decodes(GetFront(outer, inp), inp, FrontBytes(p, o), FrontOf(p, outer))
  {
    hide Agree, Fits, Head, Lines, Counted, GetHead, GetLines, GetCounted, Linked;
    var h, c, k, l := Head(p), Counted(U32, p.code), Counted(EncConst, p.constants), Lines(p, o);
    AgreeSplit(inp, h, c + (k + l));
    HeadDecodes(p, inp);
    if |inp| >= |h| {
      var t := inp[|h|..];
      AgreeSplit(t, c, k + l);
      CodeDecodes(p, t);
      if |t| >= |c| {
        var u := t[|c|..];
        AgreeSplit(u, k, l);
        ConstantsDecode(p, u);
        if |u| >= |k| { LinesDecodes(p, o, outer, u[|k|..]); }
      }
    }
  }

  lemma BackDecodes(p: Proto, inp: bytes)
    requires Fits(p) && Agree(inp, BackBytes(p))
    ensures Decodes(GetBack(inp), inp, BackBytes(p), Back(p.upvalues, p.lineinfo, p.locvars))
  {
    hide Agree, Fits, Counted, GetCounted;
    var u, l, v := Counted(EncUpval, p.upvalues), Counted(Word, p.lineinfo), Counted(EncLocVar, p.locvars);
    AgreeSplit(inp, u, l + v);
    UpvaluesDecode(p, inp);
    if |inp| >= |u| {
      var t := inp[|u|..];
      AgreeSplit(t, l, v);
      LineinfoDecodes(p, t);
      if |t| >= |l| { LocvarsDecode(p, t[|l|..]); }
    }
  }

  /** A whole prototype tree: reading the layout gives the tree with its
      sources resolved; reading a proper prefix reports truncation. */
  lemma {:induction false} ProtoDecodes(p: Proto, o: Origin, outer: bytes, inp: bytes)
    requires Fits(p) && Linked(o, outer) && Agree(inp, EncProto(p, o))
    ensures Decodes(GetProto(outer, inp), inp, EncProto(p, o), Resolve(p, outer))
    decreases p, 0
  {
    hide Agree, Fits, FrontBytes, BackBytes, GetFront, GetBack, U32, GetNumber;
    var f, n, c, b := FrontBytes(p, o), U32(|p.protos|), EncProtos(p.protos, p.source), BackBytes(p);
    FitsNumbers(p);
    AgreeSplit(inp, f, n + (c + b));
    FrontDecodes(p, o, outer, inp);
    if |inp| >= |f| {
      var t := inp[|f|..];
      AgreeSplit(t, n, c + b);
      U32Decodes(|p.protos|, t);
      if |t| >= 4 {
        var u := t[4..];
        var source := if p.source == [] then outer else p.source;
        AgreeSplit(u, c, b);
        FitsChildren(p);
        ProtosDecode(p.protos, p.source, source, u);
        if |u| >= |c| { BackDecodes(p, u[|c|..]); }
      }
    }
  }

  lemma FitsChildren(p: Proto)
    requires Fits(p)
    ensures forall q :: q in p.protos ==> Fits(q)
  {
  }

  lemma {:induction false} ProtosDecode(ps: seq<Proto>, source: bytes, outer: bytes, inp: bytes)
    requires (forall q :: q in ps ==> Fits(q)) && Linked(Inside(source), outer) && Agree(inp, EncProtos(ps, source))
    ensures Decodes(GetProtos(outer, |ps|, inp), inp, EncProtos(ps, source), ResolveAll(ps, outer))
    decreases ps, 0
  {
    hide Agree, Fits, EncProto, GetProto, Linked, Resolve;
    if ps != [] {
      var a, rest := EncProto(ps[0], Inside(source)), EncProtos(ps[1..], source);
      AgreeSplit(inp, a, rest);
      ProtoDecodes(ps[0], Inside(source), outer, inp);
      if |inp| >= |a| { ProtosDecode(ps[1..], source, outer, inp[|a|..]); }
    }
  }

  // -------------------------------------------------------------- the header

  lemma {:induction false} ExpectDecodes(want: seq<Fixed>, inp: bytes)
    requires Agree(inp, Plain(want))
    ensures Decodes(Expect(want, inp), inp, Plain(want), true)
  {
    hide Agree;
    if want != [] {
      AgreeSplit(inp, [want[0].b], Plain(want[1..]));
      ByteDecodes(want[0].b, inp);
      if inp != [] { ExpectDecodes(want[1..], inp[1..]); }
    }
  }

  lemma HeaderDecodes(inp: bytes)
    requires Agree(inp, Header())
    ensures Decodes(CheckHeader(inp), inp, Header(), true)
  {
    hide Agree, Expect, Plain, Little, GetNumber;
    var w, i, n := Plain(SIGNATURE), Little(CHUNK_INT, 8), Little(CHUNK_NUM, 8);
    Powers();
    AgreeSplit(inp, w, i + n);
    ExpectDecodes(SIGNATURE, inp);
    if |inp| >= |w| {
      var t := inp[|w|..];
      AgreeSplit(t, i, n);
      NumberDecodes(CHUNK_INT, 8, t);
      if |t| >= 8 { NumberDecodes(CHUNK_NUM, 8, t[8..]); }
    }
  }

  /** Everything there is to say about reading a dump or a part of it, with or
      without bytes after it. */
  lemma UndumpOf(p: Proto, strip: bool, name: bytes, inp: bytes)
    requires Fits(Kept(p, strip)) && inp != [] && Agree(inp, Dump(p, strip))
    ensures Decodes(Undump(inp, name), inp, Dump(p, strip), Resolve(Kept(p, strip), name))
  {
    hide Agree, Fits, CheckHeader, EncProto, GetProto, Resolve, Kept;
    var h, body := Header(), EncProto(Kept(p, strip), Root);
    var count: byte := |p.upvalues| % 256;
    assert inp[0] == Dump(p, strip)[0] == h[0] == 0x1B by { FirstByte(p, strip, inp); }
    AgreeSplit(inp, h, [count] + (Flag(strip) + body));
    HeaderDecodes(inp);
    if |inp| >= |h| {
      var t := inp[|h|..];
      AgreeSplit(t, [count], Flag(strip) + body);
      ByteDecodes(count, t);
      if |t| >= 1 {
        AgreeSplit(t[1..], Flag(strip), body);
        FlagDecodes(strip, t[1..]);
        if |t| >= 2 { ProtoDecodes(Kept(p, strip), Root, name, t[1..][1..]); }
      }
    }
  }

  lemma FirstByte(p: Proto, strip: bool, inp: bytes)
    requires inp != [] && Agree(inp, Dump(p, strip))
    ensures |Header()| > 0 && inp[0] == Dump(p, strip)[0] == Header()[0] == 0x1B
  {
    assert Plain(SIGNATURE)[0] == 0x1B;
  }

  /** Undumping a dump, also with bytes after it, gives the kept part of the
      prototype with its sources resolved. */
  lemma DumpRoundTrip(p: Proto, strip: bool, name: bytes, tail: bytes)
    requires Fits(Kept(p, strip))
    ensures Undump(Dump(p, strip) + tail, name) == Got(Resolve(Kept(p, strip), name), tail)
  {
    hide Fits, Undump, Resolve, Kept;
    var d := Dump(p, strip);
    assert d <= d + tail;
    assert (d + tail)[|d|..] == tail;
    FirstByteOf(p, strip);
    UndumpOf(p, strip, name, d + tail);
  }

  lemma FirstByteOf(p: Proto, strip: bool)
    ensures Dump(p, strip) != []
  {
    assert Plain(SIGNATURE)[0] == 0x1B;
  }

  /** Every non-empty proper prefix of a dump is reported as truncated. */
  lemma CutDumpIsTruncated(p: Proto, strip: bool, name: bytes, n: nat)
    requires Fits(Kept(p, strip)) && 0 < n < |Dump(p, strip)|
    ensures Undump(Dump(p, strip)[..n], name) == Fail(Truncated)
  {
    hide Fits, Undump, Resolve, Kept;
    UndumpOf(p, strip, name, Dump(p, strip)[..n]);
  }

  // ------------------------------------------------- which trees come back

  /** No function has an empty source unless everything outside it has too. */
  ghost predicate Named(p: Proto, outer: bytes) {
    (p.source == [] ==> outer == []) && forall q :: q in p.protos ==> Named(q, p.source)
  }

  /** Unstripped, exactly the trees whose sources are named come back equal. */
  lemma {:induction false} ResolveIsIdentity(p: Proto, outer: bytes)
    ensures Resolve(p, outer) == p <==> Named(p, outer)
    decreases p, 0
  {
    if p.source == [] && outer != [] {
    } else {
      var source := if p.source == [] then outer else p.source;
      assert source == p.source;
      ResolveAllIsIdentity(p.protos, source);
    }
  }

  lemma {:induction false} ResolveAllIsIdentity(ps: seq<Proto>, outer: bytes)
    ensures ResolveAll(ps, outer) == ps <==> forall q :: q in ps ==> Named(q, outer)
    decreases ps, 0
  {
    if ps != [] {
      ResolveIsIdentity(ps[0], outer);
      ResolveAllIsIdentity(ps[1..], outer);
      assert ps == [ps[0]] + ps[1..];
      assert ResolveAll(ps, outer)[0] == Resolve(ps[0], outer);
      assert ResolveAll(ps, outer)[1..] == ResolveAll(ps[1..], outer);
      assert forall q :: q in ps <==> q == ps[0] || q in ps[1..];
    }
  }

  /** The round trip of an unstripped dump is exact precisely for named trees. */
  lemma UnstrippedRoundTripIff(p: Proto, name: bytes)
    requires Fits(p)
    ensures Undump(Dump(p, false), name) == Got(p, []) <==> Named(p, name)
  {
    hide Fits, Undump, Dump, Resolve, Named;
    assert Dump(p, false) + [] == Dump(p, false);
    KeptUnstripped(p);
    DumpRoundTrip(p, false, name, []);
    ResolveIsIdentity(p, name);
  }

  /** A function without a source inside one named "m". */
  const NAMELESS: Proto := Proto(0, false, 2, [], [], [], 0, 0, [], [], [], [])
  const NAMED_OUTER: Proto := Proto(0, false, 2, [], [], ['m' as int], 0, 0, [NAMELESS], [], [], [])

  /** It comes back with the source of the function around it. */
  lemma NamelessInsideNamed(name: bytes)
    ensures Undump(Dump(NAMED_OUTER, false), name) ==
      Got(NAMED_OUTER.(protos := [NAMELESS.(source := ['m' as int])]), [])
    ensures Undump(Dump(NAMED_OUTER, false), name) != Got(NAMED_OUTER, [])
  {
    hide Undump, Dump;
    var d := Dump(NAMED_OUTER, false);
    assert d + [] == d;
    assert Fits(NAMELESS) && Fits(NAMED_OUTER);
    DumpRoundTrip(NAMED_OUTER, false, name, []);
    assert ResolveAll([], ['m' as int]) == [];
    assert Resolve(NAMELESS, ['m' as int]) == NAMELESS.(source := ['m' as int]);
    assert ResolveAll([NAMELESS], ['m' as int]) == [NAMELESS.(source := ['m' as int])];
    assert NAMED_OUTER.protos[0] == NAMELESS;
  }

  lemma KeptUnstripped(p: Proto)
    ensures Kept(p, false) == p
  {
  }

  /** Stripped trees always come back as stripped. */
  lemma {:induction false} StrippedIsNamed(p: Proto, outer: bytes)
    ensures Named(Kept(p, true), outer)
    decreases p, 0
  {
    StrippedAreNamed(p.protos, STRIPPED_SOURCE);
  }

  lemma {:induction false} StrippedAreNamed(ps: seq<Proto>, outer: bytes)
    ensures forall q :: q in KeptAll(ps, true) ==> Named(q, outer)
    decreases ps, 0
  {
    if ps != [] {
      StrippedIsNamed(ps[0], outer);
      StrippedAreNamed(ps[1..], outer);
    }
  }

  lemma StrippedRoundTrip(p: Proto, name: bytes)
    requires Fits(Kept(p, true))
    ensures Undump(Dump(p, true), name) == Got(Kept(p, true), [])
  {
    hide Fits, Undump, Dump, Resolve, Named, Kept;
    assert Dump(p, true) + [] == Dump(p, true);
    DumpRoundTrip(p, true, name, []);
    StrippedIsNamed(p, name);
    ResolveIsIdentity(Kept(p, true), name);
  }
}
