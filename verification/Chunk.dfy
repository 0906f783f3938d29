/** Binary chunks as byte strings: how a function prototype is laid out and
    how a layout is read back, as functions. */
module Chunk {
  import opened ByteOrder

  datatype Error = Truncated | NotBinary | Mismatch(what: string) | BadConstant

  datatype Parse<T> = Got(value: T, rest: bytes) | Fail(error: Error)

  // ----------------------------------------------------------------- values

  /** Constants; floats by their 64 bits, Other for types a chunk cannot hold. */
  datatype Const = CNil | CBool(b: bool) | CInt(i: int) | CFloat(bits: nat) | CStr(s: bytes) | COther

  datatype Upval = Upval(instack: bool, idx: byte, name: bytes)
  datatype LocVar = LocVar(name: bytes, reg: int, startpc: int, endpc: int)

  datatype Proto = Proto(
    numparams: int, isVararg: bool, maxstack: int,
    code: seq<nat>, constants: seq<Const>,
    source: bytes, lineDefined: int, lastLineDefined: int,
    protos: seq<Proto>, upvalues: seq<Upval>, lineinfo: seq<int>, locvars: seq<LocVar>)

  // --------------------------------------------------------------- integers

  predicate Int32(i: int) { -TWO_TO_31 <= i < TWO_TO_31 }

  // ---------------------------------------------------------------- writing

  function Word(i: int): (b: bytes)
    ensures |b| == 4
  {
    Little(Wrap(i, TWO_TO_32), 4)
  }

  function U32(u: nat): (b: bytes)
    ensures |b| == 4
  {
    Word(u)
  }

  function Long(i: int): bytes { Little(Wrap(i, TWO_TO_64), 8) }

  function Flag(b: bool): bytes { [if b then 1 else 0] }

  function Text(s: bytes): bytes { Word(|s|) + s }

  function EncConst(c: Const): bytes {
    match c
    case CNil => [0]
    case CBool(b) => [1] + Flag(b)
    case CInt(i) => [2] + Long(i)
    case CFloat(bits) => [3] + Long(bits)
    case CStr(s) => [4] + Text(s)
    case COther => []
  }

  function EncUpval(u: Upval): bytes { Flag(u.instack) + ([u.idx] + Text(u.name)) }

  function EncLocVar(v: LocVar): bytes { Text(v.name) + (Word(v.reg) + (Word(v.startpc) + Word(v.endpc))) }

  /** The elements one after the other. */
  function Each<T>(enc: T -> bytes, xs: seq<T>): bytes {
    if xs == [] then [] else enc(xs[0]) + Each(enc, xs[1..])
  }

  /** A count, then the elements. */
  function Counted<T>(enc: T -> bytes, xs: seq<T>): bytes { Word(|xs|) + Each(enc, xs) }

  datatype Origin = Root | Inside(source: bytes)

  const STRIPPED_SOURCE: bytes := ['=' as int, '?' as int]

  /** What is dumped of a prototype: stripping drops names and line data. */
  function Kept(p: Proto, strip: bool): Proto {
    if strip then
      p.(source := STRIPPED_SOURCE,
         upvalues := seq(|p.upvalues|, i requires 0 <= i < |p.upvalues| => p.upvalues[i].(name := [])),
         lineinfo := [], locvars := [], protos := KeptAll(p.protos, strip))
    else p
  }

  function KeptAll(ps: seq<Proto>, strip: bool): (r: seq<Proto>)
    ensures |r| == |ps|
  {
    if ps == [] then [] else [Kept(ps[0], strip)] + KeptAll(ps[1..], strip)
  }

  /** The source as written: empty when it repeats the enclosing function's. */
  function SourceField(p: Proto, o: Origin): bytes {
    if o == Inside(p.source) then [] else p.source
  }

  function Head(p: Proto): bytes { Word(p.numparams) + (Flag(p.isVararg) + Word(p.maxstack)) }

  function Lines(p: Proto, o: Origin): bytes {
    Text(SourceField(p, o)) + (Word(p.lineDefined) + Word(p.lastLineDefined))
  }

  function FrontBytes(p: Proto, o: Origin): bytes {
    Head(p) + (Counted(U32, p.code) + (Counted(EncConst, p.constants) + Lines(p, o)))
  }

  function BackBytes(p: Proto): bytes {
    Counted(EncUpval, p.upvalues) + (Counted(Word, p.lineinfo) + Counted(EncLocVar, p.locvars))
  }

  function EncProto(p: Proto, o: Origin): bytes {
    FrontBytes(p, o) + (U32(|p.protos|) + (EncProtos(p.protos, p.source) + BackBytes(p)))
  }

  function EncProtos(ps: seq<Proto>, source: bytes): bytes {
    if ps == [] then [] else EncProto(ps[0], Inside(source)) + EncProtos(ps[1..], source)
  }

  // ---------------------------------------------------------------- reading

  function GetByte(b: bytes): (r: Parse<byte>)
    ensures r.Got? ==> |r.rest| < |b|
  {
    if b == [] then Fail(Truncated) else Got(b[0], b[1..])
  }

  /** An unsigned number of n bytes. */
  function GetNumber(n: nat, b: bytes): (r: Parse<nat>)
    ensures r.Got? ==> |r.rest| + n == |b|
  {
    if |b| < n then Fail(Truncated) else Got(Value(b[..n]), b[n..])
  }

  function GetWord(b: bytes): (r: Parse<int>)
    ensures r.Got? ==> |r.rest| + 4 == |b|
  {
    match GetNumber(4, b)
    case Fail(e) => Fail(e)
    case Got(u, rest) => Got(Signed(u, TWO_TO_32), rest)
  }

  function GetU32(b: bytes): (r: Parse<nat>)
    ensures r.Got? ==> |r.rest| + 4 == |b|
  {
    GetNumber(4, b)
  }

  function GetFlag(b: bytes): (r: Parse<bool>)
    ensures r.Got? ==> |r.rest| < |b|
  {
    match GetByte(b)
    case Fail(e) => Fail(e)
    case Got(x, rest) => Got(x != 0, rest)
  }

  function GetText(b: bytes): (r: Parse<bytes>)
    ensures r.Got? ==> |r.rest| < |b|
  {
    match GetNumber(4, b)
    case Fail(e) => Fail(e)
    case Got(n, rest) => if |rest| < n then Fail(Truncated) else Got(rest[..n], rest[n..])
  }

  function GetConst(b: bytes): (r: Parse<Const>)
    ensures r.Got? ==> |r.rest| < |b|
  {
    match GetByte(b)
    case Fail(e) => Fail(e)
    case Got(tag, rest) =>
      if tag == 0 then Got(CNil, rest)
      else if tag == 1 then
        match GetFlag(rest) { case Fail(e) => Fail(e) case Got(x, r) => Got(CBool(x), r) }
      else if tag == 2 then
        match GetNumber(8, rest) { case Fail(e) => Fail(e) case Got(u, r) => Got(CInt(Signed(u, TWO_TO_64)), r) }
      else if tag == 3 then
        match GetNumber(8, rest) { case Fail(e) => Fail(e) case Got(u, r) => Got(CFloat(u), r) }
      else if tag == 4 then
        match GetText(rest) { case Fail(e) => Fail(e) case Got(s, r) => Got(CStr(s), r) }
      else Fail(BadConstant)
  }

  function GetUpval(b: bytes): (r: Parse<Upval>)
    ensures r.Got? ==> |r.rest| < |b|
  {
    match GetFlag(b)
    case Fail(e) => Fail(e)
    case Got(instack, r1) =>
      match GetByte(r1)
      case Fail(e) => Fail(e)
      case Got(idx, r2) =>
        match GetText(r2)
        case Fail(e) => Fail(e)
        case Got(name, r3) => Got(Upval(instack, idx, name), r3)
  }

  function GetLocVar(b: bytes): (r: Parse<LocVar>)
    ensures r.Got? ==> |r.rest| < |b|
  {
    match GetText(b)
    case Fail(e) => Fail(e)
    case Got(name, r1) =>
      match GetWord(r1)
      case Fail(e) => Fail(e)
      case Got(reg, r2) =>
        match GetWord(r2)
        case Fail(e) => Fail(e)
        case Got(startpc, r3) =>
          match GetWord(r3)
          case Fail(e) => Fail(e)
          case Got(endpc, r4) => Got(LocVar(name, reg, startpc, endpc), r4)
  }

  /** n elements, each read by f. */
  function GetEach<T>(f: bytes -> Parse<T>, n: nat, b: bytes): Parse<seq<T>> {
    if n == 0 then Got([], b)
    else match f(b)
      case Fail(e) => Fail(e)
      case Got(x, r1) =>
        match GetEach(f, n - 1, r1)
        case Fail(e) => Fail(e)
        case Got(xs, r2) => Got([x] + xs, r2)
  }

  function GetCounted<T>(f: bytes -> Parse<T>, b: bytes): Parse<seq<T>> {
    match GetNumber(4, b)
    case Fail(e) => Fail(e)
    case Got(n, rest) => GetEach(f, n, rest)
  }

  lemma {:induction false} EachShrinks<T>(f: bytes -> Parse<T>, n: nat, b: bytes)
    requires forall c :: f(c).Got? ==> |f(c).rest| <= |c|
    ensures GetEach(f, n, b).Got? ==> |GetEach(f, n, b).rest| <= |b|
  {
    if n > 0 && f(b).Got? { EachShrinks(f, n - 1, f(b).rest); }
  }

  lemma CountedShrinks<T>(f: bytes -> Parse<T>, b: bytes)
    requires forall c :: f(c).Got? ==> |f(c).rest| <= |c|
    ensures GetCounted(f, b).Got? ==> |GetCounted(f, b).rest| <= |b|
  {
    var r := GetNumber(4, b);
    if r.Got? { EachShrinks(f, r.value, r.rest); }
  }

  /** A prototype without its children and what follows them. */
  datatype Front = Front(numparams: int, isVararg: bool, maxstack: int, code: seq<nat>, constants: seq<Const>,
                         source: bytes, lineDefined: int, lastLineDefined: int)

  datatype Back = Back(upvalues: seq<Upval>, lineinfo: seq<int>, locvars: seq<LocVar>)

  function GetHead(b: bytes): (r: Parse<(int, bool, int)>)
    ensures r.Got? ==> |r.rest| < |b|
  {
    match GetWord(b)
    case Fail(e) => Fail(e)
    case Got(numparams, r1) =>
      match GetFlag(r1)
      case Fail(e) => Fail(e)
      case Got(isVararg, r2) =>
        match GetWord(r2)
        case Fail(e) => Fail(e)
        case Got(maxstack, r3) => Got((numparams, isVararg, maxstack), r3)
  }

  /** The source field and the two line numbers; an empty source is inherited. */
  function GetLines(parent: bytes, b: bytes): (r: Parse<(bytes, int, int)>)
    ensures r.Got? ==> |r.rest| < |b|
  {
    match GetText(b)
    case Fail(e) => Fail(e)
    case Got(source, r1) =>
      match GetWord(r1)
      case Fail(e) => Fail(e)
      case Got(first, r2) =>
        match GetWord(r2)
        case Fail(e) => Fail(e)
        case Got(last, r3) => Got((if source == [] then parent else source, first, last), r3)
  }

  function GetFront(parent: bytes, b: bytes): (r: Parse<Front>)
    ensures r.Got? ==> |r.rest| < |b|
  {
    match GetHead(b)
    case Fail(e) => Fail(e)
    case Got(head, r1) =>
      CountedShrinks(GetU32, r1);
      match GetCounted(GetU32, r1)
      case Fail(e) => Fail(e)
      case Got(code, r2) =>
        CountedShrinks(GetConst, r2);
        match GetCounted(GetConst, r2)
        case Fail(e) => Fail(e)
        case Got(constants, r3) =>
          match GetLines(parent, r3)
          case Fail(e) => Fail(e)
          case Got(lines, r4) =>
            Got(Front(head.0, head.1, head.2, code, constants, lines.0, lines.1, lines.2), r4)
  }

  function GetBack(b: bytes): (r: Parse<Back>)
    ensures r.Got? ==> |r.rest| <= |b|
  {
    CountedShrinks(GetUpval, b);
    match GetCounted(GetUpval, b)
    case Fail(e) => Fail(e)
    case Got(upvalues, r1) =>
      CountedShrinks(GetWord, r1);
      match GetCounted(GetWord, r1)
      case Fail(e) => Fail(e)
      case Got(lineinfo, r2) =>
        CountedShrinks(GetLocVar, r2);
        match GetCounted(GetLocVar, r2)
        case Fail(e) => Fail(e)
        case Got(locvars, r3) => Got(Back(upvalues, lineinfo, locvars), r3)
  }

  function Assemble(f: Front, ps: seq<Proto>, b: Back): Proto {
    Proto(f.numparams, f.isVararg, f.maxstack, f.code, f.constants, f.source, f.lineDefined, f.lastLineDefined,
          ps, b.upvalues, b.lineinfo, b.locvars)
  }

  function GetProto(parent: bytes, b: bytes): (r: Parse<Proto>)
    ensures r.Got? ==> |r.rest| < |b|
    decreases |b|, 0
  {
    match GetFront(parent, b)
    case Fail(e) => Fail(e)
    case Got(front, r1) =>
      match GetNumber(4, r1)
      case Fail(e) => Fail(e)
      case Got(n, r2) =>
        match GetProtos(front.source, n, r2)
        case Fail(e) => Fail(e)
        case Got(protos, r3) =>
          match GetBack(r3)
          case Fail(e) => Fail(e)
          case Got(back, r4) => Got(Assemble(front, protos, back), r4)
  }

  function GetProtos(parent: bytes, n: nat, b: bytes): (r: Parse<seq<Proto>>)
    ensures r.Got? ==> |r.rest| <= |b|
    decreases |b|, n + 1
  {
    if n == 0 then Got([], b)
    else match GetProto(parent, b)
      case Fail(e) => Fail(e)
      case Got(p, r1) =>
        match GetProtos(parent, n - 1, r1)
        case Fail(e) => Fail(e)
        case Got(ps, r2) => Got([p] + ps, r2)
  }

  // ----------------------------------------------------------- whole chunks

  const CHUNK_INT: nat := 0x5678
  /** The 64 bits of the number 370.5. */
  const CHUNK_NUM: nat := 0x4077_2800_0000_0000

  /** A byte every chunk has, with the complaint its absence draws. */
  datatype Fixed = Fixed(b: byte, complaint: string)

  /** The fixed bytes of the header. */
  const SIGNATURE: seq<Fixed> := [
    Fixed(0x1B, "not a binary chunk"), Fixed('L' as int, "not a binary chunk"), Fixed('u' as int,
      "not a binary chunk"), Fixed('a' as int, "not a binary chunk"),
    Fixed(0x53, "version mismatch"), Fixed(0, "format mismatch"),
    Fixed(0x19, "corrupted"), Fixed(0x93, "corrupted"), Fixed(0x0D, "corrupted"), Fixed(0x0A, "corrupted"),
      Fixed(0x1A, "corrupted"), Fixed(0x0A, "corrupted"),
    Fixed(4, "int size mismatch"), Fixed(8, "size_t size mismatch"), Fixed(4, "instruction size mismatch"),
    Fixed(8, "lua_Integer size mismatch"), Fixed(8, "lua_Number size mismatch")]

  function Plain(want: seq<Fixed>): (b: bytes)
    ensures |b| == |want|
  {
    if want == [] then [] else [want[0].b] + Plain(want[1..])
  }

  function Header(): bytes { Plain(SIGNATURE) + (Little(CHUNK_INT, 8) + Little(CHUNK_NUM, 8)) }

  function Dump(p: Proto, strip: bool): bytes {
    Header() + ([|p.upvalues| % 256] + (Flag(strip) + EncProto(Kept(p, strip), Root)))
  }

  function Expect(want: seq<Fixed>, b: bytes): Parse<bool> {
    if want == [] then Got(true, b)
    else match GetByte(b)
      case Fail(e) => Fail(e)
      case Got(x, rest) => if x != want[0].b then Fail(Mismatch(want[0].complaint)) else Expect(want[1..], rest)
  }

  function CheckHeader(b: bytes): Parse<bool> {
    match Expect(SIGNATURE, b)
    case Fail(e) => Fail(e)
    case Got(_, r1) =>
      match GetNumber(8, r1)
      case Fail(e) => Fail(e)
      case Got(i, r2) =>
        if i != CHUNK_INT then Fail(Mismatch("endianness mismatch"))
        else match GetNumber(8, r2)
          case Fail(e) => Fail(e)
          case Got(x, r3) => if x != CHUNK_NUM then Fail(Mismatch("float format mismatch")) else Got(true, r3)
  }

  function Undump(b: bytes, name: bytes): Parse<Proto> {
    if b == [] || b[0] != 0x1B then Fail(NotBinary)
    else match CheckHeader(b)
      case Fail(e) => Fail(e)
      case Got(_, r1) =>
        match GetByte(r1)
        case Fail(e) => Fail(e)
        case Got(_, r2) =>
          match GetFlag(r2)
          case Fail(e) => Fail(e)
          case Got(_, r3) => GetProto(name, r3)
  }
}
