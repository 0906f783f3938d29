/** The bytes of a chunk, written out: the fixed header and the layout of one
    prototype that has something of everything. */
module ChunkLayout {
  import opened ByteOrder
  import opened Chunk
  import opened ChunkProof

  /** ESC, "Lua", the version, and what the reader compares with its own sizes and formats: 0x5678 and 370.5 at the
      end, least significant byte first. */
  const HEADER_BYTES: bytes := [
    0x1B, 0x4C, 0x75, 0x61, 0x53, 0x00, 0x19, 0x93, 0x0D, 0x0A, 0x1A, 0x0A, 4, 8, 4, 8, 8,
    0x78, 0x56, 0, 0, 0, 0, 0, 0,
    0, 0, 0, 0, 0, 0x28, 0x77, 0x40]

  lemma SignatureBytes()
    ensures Plain(SIGNATURE) == HEADER_BYTES[..17]
  {
    assert Plain(SIGNATURE[17..]) == [];
    assert forall i :: 0 <= i < 17 ==> SIGNATURE[i].b == HEADER_BYTES[i];
    PlainIs(SIGNATURE);
  }

  lemma {:induction false} PlainIs(want: seq<Fixed>)
    ensures forall i :: 0 <= i < |want| ==> Plain(want)[i] == want[i].b
  {
    if want != [] { PlainIs(want[1..]); }
  }

  lemma NumberBytes()
    ensures Little(CHUNK_INT, 8) == [0x78, 0x56, 0, 0, 0, 0, 0, 0]
    ensures Little(CHUNK_NUM, 8) == [0, 0, 0, 0, 0, 0x28, 0x77, 0x40]
  {
    assert Little(0x5678, 8) == [0x78, 0x56, 0, 0, 0, 0, 0, 0];
    assert Little(0x4077_2800_0000_0000, 8) == [0, 0, 0, 0, 0, 0x28, 0x77, 0x40];
  }

  /** Every dump begins with these bytes, the number of upvalues modulo 256 and the mark of a stripped dump. */
  lemma DumpBegins(p: Proto, strip: bool)
    ensures |Dump(p, strip)| >= 35 && Dump(p, strip)[..33] == HEADER_BYTES
    ensures Dump(p, strip)[33] == |p.upvalues| % 256 && Dump(p, strip)[34] == if strip then 1 else 0
  {
    hide EncProto, Plain, Little;
    SignatureBytes();
    NumberBytes();
    assert Header() == HEADER_BYTES;
  }

  const SIGNATURE_ERRORS: seq<string> := [
    "not a binary chunk", "not a binary chunk", "not a binary chunk", "not a binary chunk",
    "version mismatch", "format mismatch",
    "corrupted", "corrupted", "corrupted", "corrupted", "corrupted", "corrupted",
    "int size mismatch", "size_t size mismatch", "instruction size mismatch",
    "lua_Integer size mismatch", "lua_Number size mismatch"]

  lemma {:induction false} ExpectStops(want: seq<Fixed>, b: bytes, k: nat)
    requires k < |want| && k < |b| && b[k] != want[k].b && forall i :: 0 <= i < k ==> b[i] == want[i].b
    ensures Expect(want, b) == Fail(Mismatch(want[k].complaint))
    decreases k
  {
    if k > 0 { ExpectStops(want[1..], b[1..], k - 1); }
  }

  /** The first byte of the header that is wrong says what is wrong. */
  lemma HeaderMismatch(b: bytes, name: bytes, k: nat)
    requires 1 <= k < 17 && k < |b| && b[k] != HEADER_BYTES[k] && forall i :: 0 <= i < k ==> b[i] == HEADER_BYTES[i]
    ensures Undump(b, name) == Fail(Mismatch(SIGNATURE_ERRORS[k]))
  {
    assert forall i :: 0 <= i < 17 ==> SIGNATURE[i] == Fixed(HEADER_BYTES[i], SIGNATURE_ERRORS[i]);
    ExpectStops(SIGNATURE, b, k);
  }

  /** The two numbers behind them are read whole before they are compared. */
  lemma NumberMismatch(b: bytes, name: bytes)
    requires |b| >= 33 && b[..17] == HEADER_BYTES[..17] && b[..33] != HEADER_BYTES
    ensures Undump(b, name) ==
      Fail(Mismatch(if b[17..25] != HEADER_BYTES[17..25] then "endianness mismatch" else "float format mismatch"))
  {
    hide GetProto, Expect, GetNumber, Little;
    assert b[0] == b[..17][0] == HEADER_BYTES[..17][0] == 0x1B;
    var rest := b[17..];
    assert Expect(SIGNATURE, b) == Got(true, rest) by {
      SignatureBytes();
      ExpectAll(SIGNATURE, b[..17], rest);
      assert b == b[..17] + rest;
    }
    NumberBytes();
    HeaderNumbers();
    WholeNumber(rest, CHUNK_INT);
    WholeNumber(rest[8..], CHUNK_NUM);
    assert rest[..8] == b[17..25] && rest[8..][..8] == b[25..33];
    assert b[..33] == b[..17] + (b[17..25] + b[25..33]);
    assert HEADER_BYTES == HEADER_BYTES[..17] + (HEADER_BYTES[17..25] + HEADER_BYTES[25..]);
  }

  lemma HeaderNumbers()
    ensures HEADER_BYTES[17..25] == [0x78, 0x56, 0, 0, 0, 0, 0, 0]
    ensures HEADER_BYTES[25..] == [0, 0, 0, 0, 0, 0x28, 0x77, 0x40]
  {
  }

  lemma {:induction false} LittleOfValue(b: bytes)
    ensures Little(Value(b), |b|) == b
  {
    if b != [] {
      var v := Value(b[1..]);
      LittleOfValue(b[1..]);
      assert Value(b) == b[0] + 256 * v && Value(b) % 256 == b[0] && Value(b) / 256 == v;
    }
  }

  /** Eight bytes read as v exactly if they are those of v. */
  lemma WholeNumber(b: bytes, v: nat)
    requires |b| >= 8 && v < TWO_TO_64
    ensures GetNumber(8, b).Got? && GetNumber(8, b).rest == b[8..]
    ensures GetNumber(8, b).value == v <==> b[..8] == Little(v, 8)
  {
    LittleOfValue(b[..8]);
    Powers();
    ValueOfLittle(v, 8);
  }

  lemma {:induction false} ExpectAll(want: seq<Fixed>, b: bytes, rest: bytes)
    requires b == Plain(want)
    ensures Expect(want, b + rest) == Got(true, rest)
  {
    if want != [] {
      ExpectAll(want[1..], b[1..], rest);
      assert (b + rest)[1..] == b[1..] + rest;
    } else {
      assert b + rest == rest;
    }
  }

  /** Whatever else its fields, a stripped function is dumped without names, lines and source; "=?" stands for that. */
  lemma StrippedDrops(p: Proto)
    ensures var k := Kept(p, true);
      && k.source == ['=' as int, '?' as int] && k.lineinfo == [] && k.locvars == []
      && |k.upvalues| == |p.upvalues| && |k.protos| == |p.protos|
      && k.code == p.code && k.constants == p.constants && k.maxstack == p.maxstack && k.numparams == p.numparams
      && k.isVararg == p.isVararg && k.lineDefined == p.lineDefined && k.lastLineDefined == p.lastLineDefined
      && forall i :: 0 <= i < |p.upvalues| ==> k.upvalues[i] == Upval(p.upvalues[i].instack, p.upvalues[i].idx, [])
    ensures forall i :: 0 <= i < |p.protos| ==> Kept(p, true).protos[i] == Kept(p.protos[i], true)
    ensures Kept(p, false) == p
  {
    KeptEach(p.protos);
  }

  lemma {:induction false} KeptEach(ps: seq<Proto>)
    ensures forall i :: 0 <= i < |ps| ==> KeptAll(ps, true)[i] == Kept(ps[i], true)
  {
    if ps != [] { KeptEach(ps[1..]); }
  }

  /** Any byte but zero is a set flag, and tags past four are no constants. */
  lemma LenientReads(b: bytes)
    requires b != []
    ensures GetFlag(b) == Got(b[0] > 0, b[1..])
    ensures b[0] > 4 ==> GetConst(b) == Fail(BadConstant)
  {
  }

  const CHILD := Proto(0, false, 2, [], [], [115], 0, 0, [], [], [], [])

  /** One instruction, a constant of every kind, a source, a child, an upvalue, a line and a local variable. */
  const EXAMPLE := Proto(
    1, true, 2, [0x0102_0304],
    [CNil, CBool(true), CInt(-2), CFloat(CHUNK_NUM), CStr([97])], [115], 3, 4,
    [CHILD], [Upval(true, 5, [117])], [7], [LocVar([118], 8, 9, 10)])

  const HEAD_BYTES: bytes := [1, 0, 0, 0, 1, 2, 0, 0, 0]

  const CODE_BYTES: bytes := [1, 0, 0, 0, 0x04, 0x03, 0x02, 0x01]

  const CONSTANT_BYTES: bytes :=
    [5, 0, 0, 0]
    + ([0]
       + ([1, 1]
          + ([2, 0xFE, 0xFF, 0xFF, 0xFF, 0xFF, 0xFF, 0xFF, 0xFF]
             + ([3, 0, 0, 0, 0, 0, 0x28, 0x77, 0x40]
                + [4, 1, 0, 0, 0, 97]))))

  const LINES_BYTES: bytes := [1, 0, 0, 0, 115, 3, 0, 0, 0, 4, 0, 0, 0]

  const NONE: bytes := [0, 0, 0, 0]

  /** A child with its parent's source leaves it out. */
  const CHILD_BYTES: bytes :=
    ([0, 0, 0, 0, 0, 2, 0, 0, 0] + (NONE + (NONE + (NONE + (NONE + NONE))))) + (NONE + (NONE + (NONE + NONE)))

  const BACK_BYTES: bytes :=
    ([1, 0, 0, 0] + [1, 5, 1, 0, 0, 0, 117])
    + (([1, 0, 0, 0] + [7, 0, 0, 0])
       + ([1, 0, 0, 0] + [1, 0, 0, 0, 118, 8, 0, 0, 0, 9, 0, 0, 0, 10, 0, 0, 0]))

  lemma SmallWord(i: nat)
    requires i < 256
    ensures Word(i) == [i, 0, 0, 0]
  {
    assert Little(i, 4) == [i % 256] + Little(0, 3) && Little(0, 3) == [0, 0, 0];
  }

  lemma ExampleCode()
    ensures Counted(U32, EXAMPLE.code) == CODE_BYTES
  {
    assert Little(0x0102_0304, 4) == [0x04, 0x03, 0x02, 0x01];
    SmallWord(1);
    assert Each(U32, []) == [] && [0x0102_0304][1..] == [];
    assert Each(U32, [0x0102_0304]) == [0x04, 0x03, 0x02, 0x01];
  }

  lemma OneElement<T>(enc: T -> bytes, xs: seq<T>)
    requires |xs| == 1
    ensures Counted(enc, xs) == [1, 0, 0, 0] + enc(xs[0])
  {
    SmallWord(1);
    assert xs[1..] == [];
    assert Each(enc, xs) == enc(xs[0]) + [];
  }

  lemma NoElement<T>(enc: T -> bytes)
    ensures Counted(enc, []) == NONE
  {
    SmallWord(0);
    assert Each(enc, []) == [];
  }

  /** The five kinds of constants: a tag and the value, text with its length in four bytes. */
  lemma ConstantBytes()
    ensures EncConst(CNil) == [0] && EncConst(CBool(true)) == [1, 1] && EncConst(CBool(false)) == [1, 0]
    ensures EncConst(CInt(-2)) == [2, 0xFE, 0xFF, 0xFF, 0xFF, 0xFF, 0xFF, 0xFF, 0xFF]
    ensures EncConst(CFloat(CHUNK_NUM)) == [3, 0, 0, 0, 0, 0, 0x28, 0x77, 0x40]
    ensures EncConst(CStr([97])) == [4, 1, 0, 0, 0, 97]
  {
    hide Little, Word;
    NumberBytes();
    SmallWord(1);
    MinusTwo();
    assert Wrap(CHUNK_NUM, TWO_TO_64) == CHUNK_NUM;
  }

  lemma MinusTwo()
    ensures Long(-2) == [0xFE, 0xFF, 0xFF, 0xFF, 0xFF, 0xFF, 0xFF, 0xFF]
  {
    assert Wrap(-2, TWO_TO_64) == 0xFFFF_FFFF_FFFF_FFFE;
    assert Little(0xFFFF_FFFF_FFFF_FFFE, 8) == [0xFE, 0xFF, 0xFF, 0xFF, 0xFF, 0xFF, 0xFF, 0xFF];
  }

  lemma FiveElements<T>(enc: T -> bytes, xs: seq<T>)
    requires |xs| == 5
    ensures Each(enc, xs) == enc(xs[0]) + (enc(xs[1]) + (enc(xs[2]) + (enc(xs[3]) + enc(xs[4]))))
  {
    assert xs[1..][1..] == xs[2..] && xs[2..][1..] == xs[3..] && xs[3..][1..] == xs[4..] && xs[4..][1..] == [];
    assert Each(enc, xs[4..]) == enc(xs[4]) + [];
    assert Each(enc, xs[3..]) == enc(xs[3]) + Each(enc, xs[4..]);
    assert Each(enc, xs[2..]) == enc(xs[2]) + Each(enc, xs[3..]);
  }

  lemma ExampleConstants()
    ensures Counted(EncConst, EXAMPLE.constants) == CONSTANT_BYTES
  {
    hide Word, EncConst, Each;
    SmallWord(5);
    ConstantBytes();
    FiveElements(EncConst, EXAMPLE.constants);
  }

  lemma UpvalBytes()
    ensures EncUpval(Upval(true, 5, [117])) == [1, 5, 1, 0, 0, 0, 117]
  {
    hide Word;
    SmallWord(1);
  }

  lemma LocVarBytes()
    ensures EncLocVar(LocVar([118], 8, 9, 10)) == [1, 0, 0, 0, 118, 8, 0, 0, 0, 9, 0, 0, 0, 10, 0, 0, 0]
  {
    hide Word;
    SmallWord(1);
    SmallWord(8);
    SmallWord(9);
    SmallWord(10);
  }

  lemma ExampleBack()
    ensures BackBytes(EXAMPLE) == BACK_BYTES
  {
    hide Word, Counted, EncUpval, EncLocVar;
    SmallWord(7);
    UpvalBytes();
    LocVarBytes();
    OneElement(EncUpval, EXAMPLE.upvalues);
    OneElement(Word, EXAMPLE.lineinfo);
    OneElement(EncLocVar, EXAMPLE.locvars);
  }

  lemma ChildLayout()
    ensures EncProto(CHILD, Inside([115])) == CHILD_BYTES
  {
    hide Word, Counted;
    SmallWord(0);
    SmallWord(2);
    NoElement(U32);
    NoElement(EncConst);
    NoElement(EncUpval);
    NoElement(Word);
    NoElement(EncLocVar);
    assert EncProtos(CHILD.protos, CHILD.source) == [] && Head(CHILD) == [0, 0, 0, 0, 0, 2, 0, 0, 0];
    assert Lines(CHILD, Inside([115])) == NONE + (NONE + NONE);
    assert [] + BackBytes(CHILD) == NONE + (NONE + NONE);
  }

  /** The layout of the example, field by field. */
  lemma ExampleLayout()
    ensures EncProto(EXAMPLE, Root) ==
      HEAD_BYTES + CODE_BYTES + CONSTANT_BYTES + LINES_BYTES + [1, 0, 0, 0] + CHILD_BYTES + BACK_BYTES
  {
    hide Word, Counted, BackBytes;
    SmallWord(1);
    SmallWord(2);
    SmallWord(3);
    SmallWord(4);
    ExampleCode();
    ExampleConstants();
    ExampleBack();
    ChildLayout();
    assert Head(EXAMPLE) == HEAD_BYTES && Lines(EXAMPLE, Root) == LINES_BYTES;
    assert EXAMPLE.protos[1..] == [] && EncProtos([], [115]) == [];
    assert EncProtos(EXAMPLE.protos, [115]) == CHILD_BYTES + [];
  }
}
