/**
 Which registers the code of an expression writes, and where the register
 discipline stops holding: unary operators on temporaries.
 */
module LoweringLimits {
  import opened Common
  import opened Bytecode
  import opened Lang
  import opened Lowering
  import opened LoweringProof

  /** The value needs no register, or its register counts as taken. */
  predicate Protected(c: Code) { c.desc.Constant? || RegOf(c.desc) < c.free }

  /** Which expressions stay in their local, and which fold to a numeral. */
  lemma {:induction false} OperandKind(s: Scope, free: nat, ks: seq<Value>, e: Expr)
    requires Scoped(s) && s.nactvar <= free && Safe(e) && Lower(s, free, ks, e).Done?
    ensures Lower(s, free, ks, e).value.desc.LocalVar? <==> IsLocalName(e)
    ensures var d := Lower(s, free, ks, e).value.desc; d.Constant? && (d.k.Int? || d.k.Float?) <==> IsNumeral(e)
    decreases e
  {
    hide LowerTwoTests, LowerLogic, Pair;
    match e
    case Const(_) =>
    case Name(_) =>
    case Paren(e1) => OperandKind(s, free, ks, e1);
    case Un(op, e1) =>
      if IsLocalName(e1) {
        LocalShape(s, free, ks, e1);
        LocalIsNoNumeral(e1);
      } else {
        NumeralShape(s, free, ks, e1);
      }
    case Bin(op, l, r) =>
      if op == And && IsRel(l) && IsRel(r) {
        TwoTestsIsTemp(s, free, ks, l, r);
      } else if op == And || op == Or {
        LogicIsTemp(s, free, ks, op == Or, l, r);
      }
  }

  lemma {:induction false} LocalIsNoNumeral(e: Expr)
    requires IsLocalName(e)
    ensures !IsNumeral(e)
  {
    if e.Paren? { LocalIsNoNumeral(e.e); }
  }

  lemma TwoTestsIsTemp(s: Scope, free: nat, ks: seq<Value>, l: Expr, r: Expr)
    requires IsRel(l) && IsRel(r) && LowerTwoTests(s, free, ks, l, r).Done?
    ensures LowerTwoTests(s, free, ks, l, r).value.desc.Temp?
  {
    hide Pair;
  }

  lemma LogicIsTemp(s: Scope, free: nat, ks: seq<Value>, isOr: bool, l: Expr, r: Expr)
    requires LowerLogic(s, free, ks, isOr, l, r).Done?
    ensures LowerLogic(s, free, ks, isOr, l, r).value.desc.Temp?
  {
    hide ToReg;
  }

  /** The result of a unary operator is protected from later temporaries exactly
      when the operand is a local variable or a numeral being negated. */
  lemma UnaryProtectedIff(s: Scope, free: nat, ks: seq<Value>, op: UnOp, e: Expr)
    requires Scoped(s) && s.nactvar <= free && Safe(e) && Lower(s, free, ks, Un(op, e)).Done?
    ensures Protected(Lower(s, free, ks, Un(op, e)).value) <==> IsLocalName(e) || (op == Neg && IsNumeral(e))
  {
    hide LowerTwoTests, LowerLogic, LowerStrict, Safe, IsLocalName, IsNumeral;
    LowerShape(s, free, ks, e);
    OperandKind(s, free, ks, e);
  }

  // ----- An unprotected result is overwritten -----

  const CLOBBERED: Expr :=
    Bin(ArithOp(Add), Un(Neg, Bin(ArithOp(Add), Name("x"), Const(Int(1)))),
        Bin(ArithOp(Mul), Const(Int(2)), Const(Int(3))))

  const CLOBBERED_CODE: seq<Instr> := [
    LoadInt(1, 1), Arith(Add, 1, 0, 1), Unary(Neg, 2, 1),
    LoadInt(1, 2), LoadInt(2, 3), Arith(Mul, 1, 1, 2),
    Arith(Add, 2, 2, 1)]

  const ONE_LOCAL: Scope := Scope(["x"], [0], 1)

  lemma LoadSmall(free: nat, n: int)
    requires free < 10 && 0 <= n < 10
    ensures Discharge(Code([], Constant(Int(n)), free, [], 0)) ==
      Done(Code([LoadInt(free, n)], Temp(free), free + 1, [], free + 1))
  {
    assert [] + [LoadInt(free, n)] == [LoadInt(free, n)];
  }

  /** `-(x + 1)`: the sum is built in register 1, the result goes to 2, and 1 is free again. */
  lemma NegatedSumCode()
    ensures Lower(ONE_LOCAL, 1, [], CLOBBERED.l) == Done(Code(CLOBBERED_CODE[..3], Temp(2), 1, [], 3))
  {
    var sum := CLOBBERED.l.e;
    assert Find(["x"], "x") == 0;
    assert Lower(ONE_LOCAL, 1, [], sum.l) == Done(Code([], LocalVar(0), 1, [], 0));
    assert Lower(ONE_LOCAL, 1, [], sum.r) == Done(Code([], Constant(Int(1)), 1, [], 0));
    assert ToReg(ONE_LOCAL, 1, [], sum.l) == Done(Code([], LocalVar(0), 1, [], 0));
    LoadSmall(1, 1);
    assert ToReg(ONE_LOCAL, 1, [], sum.r) == Done(Code([LoadInt(1, 1)], Temp(1), 2, [], 2));
    assert [] + [LoadInt(1, 1)] == [LoadInt(1, 1)];
    assert Pair(ONE_LOCAL, 1, [], sum.l, sum.r) == Done(Operands([LoadInt(1, 1)], 0, 1, 2, [], 2));
    assert [LoadInt(1, 1)] + [Arith(Add, 1, 0, 1)] == [LoadInt(1, 1), Arith(Add, 1, 0, 1)];
    assert Lower(ONE_LOCAL, 1, [], sum) == Done(Code([LoadInt(1, 1), Arith(Add, 1, 0, 1)], Temp(1), 2, [], 2));
    assert CLOBBERED_CODE[..3] == [LoadInt(1, 1), Arith(Add, 1, 0, 1)] + [Unary(Neg, 2, 1)];
  }

  /** `2 * 3` from register 1 on uses registers 1 and 2. */
  lemma ProductCode()
    ensures Lower(ONE_LOCAL, 1, [], CLOBBERED.r) == Done(Code(CLOBBERED_CODE[3..6], Temp(1), 2, [], 3))
  {
    var e := CLOBBERED.r;
    assert Lower(ONE_LOCAL, 1, [], e.l) == Done(Code([], Constant(Int(2)), 1, [], 0));
    assert Lower(ONE_LOCAL, 2, [], e.r) == Done(Code([], Constant(Int(3)), 2, [], 0));
    LoadSmall(1, 2);
    LoadSmall(2, 3);
    assert ToReg(ONE_LOCAL, 1, [], e.l) == Done(Code([LoadInt(1, 2)], Temp(1), 2, [], 2));
    assert ToReg(ONE_LOCAL, 2, [], e.r) == Done(Code([LoadInt(2, 3)], Temp(2), 3, [], 3));
    assert [LoadInt(1, 2)] + [LoadInt(2, 3)] == [LoadInt(1, 2), LoadInt(2, 3)];
    assert Pair(ONE_LOCAL, 1, [], e.l, e.r) == Done(Operands([LoadInt(1, 2), LoadInt(2, 3)], 1, 2, 3, [], 3));
    assert CLOBBERED_CODE[3..6] == [LoadInt(1, 2), LoadInt(2, 3)] + [Arith(Mul, 1, 1, 2)];
  }

  lemma ClobberedLowers()
    ensures Lower(ONE_LOCAL, 1, [], CLOBBERED) == Done(Code(CLOBBERED_CODE, Temp(2), 3, [], 3))
  {
    var e := CLOBBERED;
    NegatedSumCode();
    ProductCode();
    assert ToReg(ONE_LOCAL, 1, [], e.l) == Done(Code(CLOBBERED_CODE[..3], Temp(2), 1, [], 3));
    assert ToReg(ONE_LOCAL, 1, [], e.r) == Done(Code(CLOBBERED_CODE[3..6], Temp(1), 2, [], 3));
    assert CLOBBERED_CODE[..3] + CLOBBERED_CODE[3..6] == CLOBBERED_CODE[..6];
    assert Pair(ONE_LOCAL, 1, [], e.l, e.r) == Done(Operands(CLOBBERED_CODE[..6], 2, 1, 2, [], 3));
    assert CLOBBERED_CODE == CLOBBERED_CODE[..6] + [Arith(Add, 2, 2, 1)];
  }

  /** Ordinary integer arithmetic on the operands of the example. */
  ghost predicate CountsRight(ops: Ops)
  {
    && ops.arith(Add, Int(0), Int(1)) == Ok(Int(1)) && ops.unary(Neg, Int(1)) == Ok(Int(-1))
    && ops.arith(Mul, Int(2), Int(3)) == Ok(Int(6)) && ops.arith(Add, Int(-1), Int(6)) == Ok(Int(5))
    && ops.arith(Add, Int(3), Int(6)) == Ok(Int(9))
  }

  /** With x = 0, `-(x + 1) + 2 * 3` means 5 and its code computes 9. */
  lemma UnaryResultClobbered(ops: Ops, regs: Regs)
    requires CountsRight(ops) && regs[0] == Int(0)
    ensures Eval(CLOBBERED, [Binding("x", Int(0))], ops) == Ok(Int(5))
    ensures Lower(ONE_LOCAL, 1, [], CLOBBERED) == Done(Code(CLOBBERED_CODE, Temp(2), 3, [], 3))
    ensures var c := Run(Program(CLOBBERED_CODE, []), ops, Running(0, regs), 7);
      c.Running? && c.pc == 7 && c.regs[2] == Int(9)
  {
    ClobberedLowers();
    assert NamesOf([Binding("x", Int(0))]) == ["x"];
    ClobberedEval(ops);
    ClobberedRun(ops, regs);
  }

  lemma ClobberedEval(ops: Ops)
    requires CountsRight(ops)
    ensures Eval(CLOBBERED, [Binding("x", Int(0))], ops) == Ok(Int(5))
  {
    var env := [Binding("x", Int(0))];
    assert NamesOf(env) == ["x"] && Find(["x"], "x") == 0;
    assert Eval(CLOBBERED.l.e.l, env, ops) == Ok(Int(0));
    assert Eval(CLOBBERED.l.e, env, ops) == Ok(Int(1));
    assert Eval(CLOBBERED.l, env, ops) == Ok(Int(-1));
    assert Eval(CLOBBERED.r, env, ops) == Ok(Int(6));
  }

  lemma ClobberedRun(ops: Ops, regs: Regs)
    requires CountsRight(ops) && regs[0] == Int(0)
    ensures var c := Run(Program(CLOBBERED_CODE, []), ops, Running(0, regs), 7);
      c.Running? && c.pc == 7 && c.regs[2] == Int(9)
  {
    var p := Program(CLOBBERED_CODE, []);
    var r1 := regs[1 := Int(1)];
    var r3 := r1[2 := Int(-1)];
    var r5 := r3[1 := Int(2)][2 := Int(3)];
    var r6 := r5[1 := Int(6)];
    var r7 := r6[2 := Int(9)];
    RunFew(p, ops, Running(0, regs));
    assert Step(p, ops, Running(0, regs)) == Running(1, r1);
    assert Step(p, ops, Running(1, r1)) == Running(2, r1[1 := Int(1)]) && r1[1 := Int(1)] == r1;
    assert Step(p, ops, Running(2, r1)) == Running(3, r3);
    RunFew(p, ops, Running(3, r3));
    assert Step(p, ops, Running(3, r3)) == Running(4, r3[1 := Int(2)]);
    assert Step(p, ops, Running(4, r3[1 := Int(2)])) == Running(5, r5);
    assert Step(p, ops, Running(5, r5)) == Running(6, r6);
    RunFew(p, ops, Running(6, r6));
    assert Step(p, ops, Running(6, r6)) == Running(7, r7);
    RunAdds(p, ops, Running(0, regs), 3, 4);
    RunAdds(p, ops, Running(3, r3), 3, 1);
  }

  // ----- What an expression's code writes -----

  /** The instruction may change register q. */
  predicate Writes(i: Instr, q: nat)
  {
    match i
    case Move(a, _) => Reg8(a) == q
    case LoadNil(a, b) => Reg8(a) <= q <= Reg8(a) + b
    case LoadBool(a, _, _) => Reg8(a) == q
    case LoadInt(a, _) => Reg8(a) == q
    case LoadK(a, _) => Reg8(a) == q
    case Arith(_, a, _, _) => Reg8(a) == q
    case Unary(_, a, _) => Reg8(a) == q
    case Concat(a, _, _) => Reg8(a) == q
    case _ => false
  }

  ghost predicate CodeWrites(code: seq<Instr>, q: nat)
  {
    exists i :: 0 <= i < |code| && Writes(code[i], q)
  }

  /** The code writes exactly the registers from `free` up to, not including, `high`. */
  ghost predicate Spans(code: seq<Instr>, free: nat, high: nat)
  {
    forall q: nat :: CodeWrites(code, q) <==> free <= q < high
  }

  lemma WritesAppend(a: seq<Instr>, b: seq<Instr>, q: nat)
    ensures CodeWrites(a + b, q) <==> CodeWrites(a, q) || CodeWrites(b, q)
  {
    if CodeWrites(a, q) {
      var i :| 0 <= i < |a| && Writes(a[i], q);
      assert Writes((a + b)[i], q);
    }
    if CodeWrites(b, q) {
      var i :| 0 <= i < |b| && Writes(b[i], q);
      assert Writes((a + b)[|a| + i], q);
    }
  }

  /** Spans that meet or overlap join. */
  lemma SpansAppend(a: seq<Instr>, fa: nat, ha: nat, b: seq<Instr>, fb: nat, hb: nat)
    requires Spans(a, fa, ha) && Spans(b, fb, hb) && fa <= fb <= Max(fa, ha)
    ensures Spans(a + b, fa, Max(ha, hb))
  {
    hide CodeWrites;
    forall q: nat ensures CodeWrites(a + b, q) <==> fa <= q < Max(ha, hb) { WritesAppend(a, b, q); }
  }

  /** Code that writes nothing may be put anywhere. */
  lemma SpansQuiet(a: seq<Instr>, f: nat, h: nat, b: seq<Instr>)
    requires Spans(a, f, h) && forall i, q: nat :: 0 <= i < |b| ==> !Writes(b[i], q)
    ensures Spans(a + b, f, h) && Spans(b + a, f, h)
  {
    hide Writes;
    assert forall q: nat :: !CodeWrites(b, q);
    forall q: nat ensures CodeWrites(a + b, q) <==> f <= q < h ensures CodeWrites(b + a, q) <==> f <= q < h {
      WritesAppend(a, b, q);
      WritesAppend(b, a, q);
    }
  }

  lemma SpansOne(i: Instr, r: nat)
    requires r < 256 && forall q: nat :: Writes(i, q) <==> q == r
    ensures Spans([i], r, r + 1)
  {
    hide Writes;
    forall q: nat ensures CodeWrites([i], q) <==> r <= q < r + 1 {
      assert [i][0] == i;
    }
  }

  lemma SpansNone(f: nat, h: nat)
    requires h <= f
    ensures Spans([], f, h)
  {
  }

  /** A result in a temporary is among the registers written; `high` stays within the frame. */
  ghost predicate Tame(free: nat, c: Code)
  {
    Spans(c.code, free, c.high) && c.high <= MAX_STACK && (c.desc.Temp? ==> c.desc.reg < c.high)
  }

  lemma EmptySpan(f: nat, h: nat)
    requires Spans([], f, h)
    ensures h <= f
  {
    assert CodeWrites([], f) <==> f <= f < h;
  }

  lemma LoadSpans(r: nat, k: Value, ks: seq<Value>)
    requires r < 256
    ensures Spans([LoadConst(r, k, ks)], r, r + 1)
  {
    SpansOne(LoadConst(r, k, ks), r);
  }

  lemma DischargeTame(s: Scope, free: nat, ks: seq<Value>, c: Code)
    requires WellShaped(s, free, ks, c) && Tame(free, c) && Discharge(c).Done?
    ensures Tame(free, Discharge(c).value)
  {
    hide Spans;
    if c.desc.Constant? {
      EmptySpan(free, c.high);
      LoadSpans(c.free, c.desc.k, c.ks);
      assert [] + [LoadConst(c.free, c.desc.k, c.ks)] == [LoadConst(c.free, c.desc.k, c.ks)];
    }
  }

  /** The code of an expression of the fragment writes exactly the registers from the first free one up to its
      high-water mark. */
  lemma LowerTame(s: Scope, free: nat, ks: seq<Value>, e: Expr)
    requires Scoped(s) && s.nactvar <= free && Safe(e) && Lower(s, free, ks, e).Done?
    ensures Tame(free, Lower(s, free, ks, e).value)
    decreases Size(e), 0
  {
    hide Spans, LowerTwoTests, LowerLogic, LowerStrict;
    match e
    case Const(_) => SpansNone(free, 0);
    case Name(_) => SpansNone(free, 0);
    case Paren(e1) => LowerTame(s, free, ks, e1);
    case Un(op, e1) => UnaryTame(s, free, ks, op, e1);
    case Bin(op, l, r) =>
      if op == And && IsRel(l) && IsRel(r) {
        TwoTestsTame(s, free, ks, l, r);
      } else if op == And || op == Or {
        LogicTame(s, free, ks, op == Or, l, r);
      } else {
        StrictTame(s, free, ks, op, l, r);
      }
  }

  lemma {:induction false} QuietOperand(s: Scope, free: nat, ks: seq<Value>, e: Expr)
    requires (IsLocalName(e) || IsNumeral(e)) && Lower(s, free, ks, e).Done?
    ensures Lower(s, free, ks, e).value.high == 0 && Lower(s, free, ks, e).value.code == []
    decreases e
  {
    match e
    case Const(_) =>
    case Name(_) =>
    case Paren(e1) => QuietOperand(s, free, ks, e1);
    case Un(op, e1) =>
      NumeralShape(s, free, ks, e1);
      QuietOperand(s, free, ks, e1);
  }

  lemma UnaryTame(s: Scope, free: nat, ks: seq<Value>, op: UnOp, e: Expr)
    requires Scoped(s) && s.nactvar <= free && Safe(Un(op, e)) && Lower(s, free, ks, Un(op, e)).Done?
    ensures Tame(free, Lower(s, free, ks, Un(op, e)).value)
  {
    hide Spans;
    QuietOperand(s, free, ks, e);
    if IsLocalName(e) {
      LocalShape(s, free, ks, e);
      var r := RegOf(Lower(s, free, ks, e).value.desc);
      SpansOne(Unary(op, free, r), free);
      assert [] + [Unary(op, free, r)] == [Unary(op, free, r)];
    } else {
      NumeralShape(s, free, ks, e);
      SpansNone(free, 0);
    }
  }

  lemma ToRegTame(s: Scope, free: nat, ks: seq<Value>, e: Expr)
    requires Scoped(s) && s.nactvar <= free && Safe(e) && ToReg(s, free, ks, e).Done?
    ensures Tame(free, ToReg(s, free, ks, e).value)
    ensures ToReg(s, free, ks, e).value.free <= Max(free, ToReg(s, free, ks, e).value.high)
    decreases Size(e), 1
  {
    hide Spans, Lower;
    LowerTame(s, free, ks, e);
    LowerShape(s, free, ks, e);
    DischargeTame(s, free, ks, Lower(s, free, ks, e).value);
    ToRegShape(s, free, ks, e);
  }

  lemma PairTame(s: Scope, free: nat, ks: seq<Value>, l: Expr, r: Expr)
    requires Scoped(s) && s.nactvar <= free && Safe(l) && Safe(r) && Pair(s, free, ks, l, r).Done?
    ensures var p := Pair(s, free, ks, l, r).value;
      && Spans(p.code, free, p.high) && p.high <= MAX_STACK && p.free <= Max(free, p.high)
      && (p.left >= s.nactvar ==> free <= p.left < p.high) && (p.right >= s.nactvar ==> free <= p.right < p.high)
    decreases Size(l) + Size(r), 2
  {
    hide Spans, ToReg;
    var a := ToReg(s, free, ks, l).value;
    ToRegTame(s, free, ks, l);
    ToRegShape(s, free, ks, l);
    var b := ToReg(s, a.free, a.ks, r).value;
    ToRegTame(s, a.free, a.ks, r);
    ToRegShape(s, a.free, a.ks, r);
    SpansAppend(a.code, free, a.high, b.code, a.free, b.high);
  }

  lemma StrictCodeSpans(op: BinOp, dest: nat, b: nat, c: nat)
    requires op != And && op != Or && dest < 255 && (op.ConcatOp? ==> c < dest)
    ensures Spans(StrictCode(op, dest, b, c), dest, if op.ConcatOp? then dest + 2 else dest + 1)
  {
    var code := StrictCode(op, dest, b, c);
    var last := code[|code| - 1];
    forall q: nat ensures CodeWrites(code, q) <==> dest <= q < if op.ConcatOp? then dest + 2 else dest + 1 {
      if q == dest { assert Writes(last, q); }
      if op.ConcatOp? && q == dest + 1 { assert Writes(code[|code| - 2], q); }
    }
  }

  lemma StrictTame(s: Scope, free: nat, ks: seq<Value>, op: BinOp, l: Expr, r: Expr)
    requires Scoped(s) && s.nactvar <= free && Safe(l) && Safe(r) && op != And && op != Or
    requires LowerStrict(s, free, ks, op, l, r).Done?
    ensures Tame(free, LowerStrict(s, free, ks, op, l, r).value)
    decreases Size(l) + Size(r), 3
  {
    hide Spans, Pair, StrictCode;
    PairTame(s, free, ks, l, r);
    PairShape(s, free, ks, l, r);
    var p := Pair(s, free, ks, l, r).value;
    var dest := StrictDest(s, op, p).value;
    StrictCodeSpans(op, dest, p.left, p.right);
    SpansAppend(p.code, free, p.high, StrictCode(op, dest, p.left, p.right), dest,
                if op.ConcatOp? then dest + 2 else dest + 1);
  }

  lemma BoolSpans(dest: nat)
    requires dest < 256
    ensures Spans([LoadBool(dest, true, false), Jmp(Sbx16(1)), LoadBool(dest, false, false)], dest, dest + 1)
  {
    var code := [LoadBool(dest, true, false), Jmp(Sbx16(1)), LoadBool(dest, false, false)];
    forall q: nat ensures CodeWrites(code, q) <==> dest <= q < dest + 1 {
      if q == dest { assert Writes(code[0], q); }
    }
  }

  lemma TwoTestsTame(s: Scope, free: nat, ks: seq<Value>, l: Expr, r: Expr)
    requires Scoped(s) && s.nactvar <= free && Safe(l) && Safe(r) && IsRel(l) && IsRel(r)
    requires LowerTwoTests(s, free, ks, l, r).Done?
    ensures Tame(free, LowerTwoTests(s, free, ks, l, r).value)
    decreases Size(l) + Size(r), 3
  {
    hide Spans, Pair, Writes, CompareInstr;
    var a := Pair(s, free, ks, l.l, l.r).value;
    var b := Pair(s, free, a.ks, r.l, r.r).value;
    PairTame(s, free, ks, l.l, l.r);
    PairTame(s, free, a.ks, r.l, r.r);
    var second := b.code + [CompareInstr(r.bop.rel, false, b.left, b.right), Jmp(Sbx16(2))];
    TestQuiet(r.bop.rel, b.left, b.right, 2);
    TestQuiet(l.bop.rel, a.left, a.right, |second| + 2);
    var test := [CompareInstr(l.bop.rel, false, a.left, a.right), Jmp(Sbx16(|second| + 2))];
    SpansQuiet(a.code, free, a.high, test);
    SpansQuiet(b.code, free, b.high, [CompareInstr(r.bop.rel, false, b.left, b.right), Jmp(Sbx16(2))]);
    SpansAppend(a.code + test, free, a.high, second, free, b.high);
    BoolSpans(free);
    SpansAppend(a.code + test + second, free, Max(a.high, b.high),
                [LoadBool(free, true, false), Jmp(Sbx16(1)), LoadBool(free, false, false)], free, free + 1);
  }

  lemma TestQuiet(rel: RelOp, b: nat, c: nat, skip: int)
    ensures forall i, q: nat :: 0 <= i < 2 ==> !Writes([CompareInstr(rel, false, b, c), Jmp(Sbx16(skip))][i], q)
  {
  }

  lemma HeadSpans(dest: nat, left: nat, isOr: bool, skip: int)
    requires dest < 256
    ensures Spans([Move(dest, left), Test(dest, isOr), Jmp(Sbx16(skip))], dest, dest + 1)
  {
    var code := [Move(dest, left), Test(dest, isOr), Jmp(Sbx16(skip))];
    forall q: nat ensures CodeWrites(code, q) <==> dest <= q < dest + 1 {
      if q == dest { assert Writes(code[0], q); }
    }
  }

  lemma LogicTame(s: Scope, free: nat, ks: seq<Value>, isOr: bool, l: Expr, r: Expr)
    requires Scoped(s) && s.nactvar <= free && Safe(l) && Safe(r) && LowerLogic(s, free, ks, isOr, l, r).Done?
    ensures Tame(free, LowerLogic(s, free, ks, isOr, l, r).value)
    decreases Size(l) + Size(r), 3
  {
    hide Spans, ToReg;
    var a := ToReg(s, free, ks, l).value;
    ToRegTame(s, free, ks, l);
    ToRegShape(s, free, ks, l);
    var dest := a.free;
    var b := ToReg(s, dest + 1, a.ks, r).value;
    ToRegTame(s, dest + 1, a.ks, r);
    var move := if RegOf(b.desc) != dest then [Move(dest, RegOf(b.desc))] else [];
    var head := [Move(dest, RegOf(a.desc)), Test(dest, isOr), Jmp(Sbx16(|b.code + move|))];
    HeadSpans(dest, RegOf(a.desc), isOr, |b.code + move|);
    SpansAppend(a.code, free, a.high, head, dest, dest + 1);
    SpansAppend(a.code + head, free, Max(a.high, dest + 1), b.code, dest + 1, b.high);
    var high := Max(Max(a.high, dest + 1), b.high);
    if move != [] {
      SpansOne(move[0], dest);
      SpansAppend(a.code + head + b.code, free, high, move, dest, dest + 1);
    }
    var code := a.code + head + (b.code + move);
    assert code == if move != [] then a.code + head + b.code + move else a.code + head + b.code;
    var c := LowerLogic(s, free, ks, isOr, l, r).value;
    assert c.code == code && c.high == high && c.desc == Temp(dest);
  }

  // ----- When the result of a unary operator outlives the other operand -----

  /** `u e` is in a register that does not count as taken. */
  predicate Exposed(u: UnOp, e: Expr) { !IsLocalName(e) && !(u == Neg && IsNumeral(e)) }

  /** Such a result sits just above the first free register. */
  lemma ExposedShape(s: Scope, free: nat, ks: seq<Value>, u: UnOp, e: Expr)
    requires Scoped(s) && s.nactvar <= free && Safe(e) && Exposed(u, e) && Lower(s, free, ks, Un(u, e)).Done?
    ensures ToReg(s, free, ks, e).Done?
    ensures var o, a := ToReg(s, free, ks, e).value, Lower(s, free, ks, Un(u, e)).value;
      && o.desc.Temp? && o.free == o.desc.reg + 1 <= MAX_STACK - 2 && free <= o.desc.reg
      && a.code == o.code + [Unary(u, o.free,
                                   o.desc.reg)] && a.desc == Temp(o.free) && a.free == o.desc.reg && a.ks == o.ks
  {
    hide LowerTwoTests, LowerLogic, LowerStrict, Safe, IsLocalName, IsNumeral;
    LowerShape(s, free, ks, e);
    OperandKind(s, free, ks, e);
  }

  /** The code of the other operand leaves the result of `u e` alone if and only if it uses no register beyond the
      first free one. */
  lemma LeftKeptIff(s: Scope, free: nat, ks: seq<Value>, u: UnOp, e: Expr, r: Expr)
    requires Scoped(s) && s.nactvar <= free && Safe(e) && Safe(r) && Exposed(u, e) && Lower(s, free, ks, Un(u, e)).Done?
    requires var a := Lower(s, free, ks, Un(u, e)).value; ToReg(s, a.free, a.ks, r).Done?
    ensures var a := Lower(s, free, ks, Un(u, e)).value;
      var b := ToReg(s, a.free, a.ks, r).value;
      !CodeWrites(b.code, RegOf(a.desc)) <==> b.high <= RegOf(a.desc)
  {
    hide Lower, ToReg, CodeWrites;
    ExposedShape(s, free, ks, u, e);
    var a := Lower(s, free, ks, Un(u, e)).value;
    ToRegTame(s, a.free, a.ks, r);
  }

  // ----- Code on its own -----

  /** A register that no instruction writes keeps its value. */
  lemma {:induction false} UnwrittenKept(p: Program, ops: Ops, c: Config, n: nat, q: nat)
    requires c.Running? && q < 256 && !CodeWrites(p.code, q)
    ensures Run(p, ops, c, n).Running? ==> Run(p, ops, c, n).regs[q] == c.regs[q]
    decreases n
  {
    if n > 0 {
      var next := Step(p, ops, c);
      if 0 <= c.pc < |p.code| { assert !Writes(p.code[c.pc], q); }
      if next.Running? {
        UnwrittenKept(p, ops, next, n - 1, q);
      } else {
        Broken(p, ops, next, n - 1);
      }
    }
  }

  lemma {:induction false} Broken(p: Program, ops: Ops, c: Config, n: nat)
    requires c.Failed?
    ensures Run(p, ops, c, n) == c
    decreases n
  {
    if n > 0 { Broken(p, ops, c, n - 1); }
  }

  /** Code that runs to its end on its own does the same inside a program, and in the same frame. */
  lemma {:induction false} RunInside(p: Program, ops: Ops, size: nat, base: nat, code: seq<Instr>, pc: nat, regs: Regs,
                                     n: nat)
    returns (k: nat)
    requires At(p, base, code) && pc <= |code| && AllInside(code, size)
    requires var c := Run(Program(code, p.constants), ops, Start(pc, regs), n); c.Failed? || c.pc == |code|
    ensures var c := Run(Program(code, p.constants), ops, Start(pc, regs), n);
      RunIn(p, ops, size, Start(base + pc, regs), k) == Some(if c.Failed? then c else Start(base + c.pc, c.regs))
    decreases n
  {
    hide At, Step, Inside;
    var alone := Program(code, p.constants);
    if pc == |code| {
      AtEnd(alone, ops, regs, n);
      k := 0;
    } else {
      assert n > 0;
      var next := Step(alone, ops, Start(pc, regs));
      StepInside(p, ops, base, code, pc, regs);
      var j := 0;
      if next.Failed? {
        Broken(alone, ops, next, n - 1);
      } else {
        InRange(alone, ops, next, n - 1);
        j := RunInside(p, ops, size, base, code, next.pc, next.regs, n - 1);
      }
      k := 1 + j;
    }
  }

  lemma {:induction false} SomeFrame(code: seq<Instr>) returns (size: nat)
    ensures AllInside(code, size)
  {
    size := 0;
    if code != [] {
      var n := SomeFrame(code[1..]);
      size := Max(n, if code[0].LoadNil? then 256 + code[0].b else 256);
      forall i | 0 <= i < |code| ensures Inside(code[i], size) {
        if i > 0 { assert code[1..][i - 1] == code[i]; }
      }
    }
  }

  lemma StepInside(p: Program, ops: Ops, base: nat, code: seq<Instr>, pc: nat, regs: Regs)
    requires At(p, base, code) && pc < |code|
    ensures var c := Step(Program(code, p.constants), ops, Start(pc, regs));
      Step(p, ops, Start(base + pc, regs)) == if c.Failed? then c else Start(base + c.pc, c.regs)
    ensures base + pc < |p.code| && p.code[base + pc] == code[pc]
  {
    hide Execute;
    AtIndex(p, base, code, pc);
    Shifted(code[pc], p.constants, ops, pc + 1, base, regs);
  }

  lemma AtEnd(p: Program, ops: Ops, regs: Regs, n: nat)
    ensures Run(p, ops, Start(|p.code|, regs), n) == Start(|p.code|, regs)
    decreases n
  {
    if n > 0 { AtEnd(p, ops, regs, n - 1); }
  }

  /** A run that ends at the end of the code has never been anywhere else outside it. */
  lemma {:induction false} InRange(p: Program, ops: Ops, c: Config, n: nat)
    requires c.Running? && (Run(p, ops, c, n).Failed? || Run(p, ops, c, n).pc == |p.code|)
    ensures 0 <= c.pc <= |p.code|
  {
    if !(0 <= c.pc < |p.code|) { Idle(p, ops, c, n); }
  }

  lemma {:induction false} Idle(p: Program, ops: Ops, c: Config, n: nat)
    requires c.Running? && !(0 <= c.pc < |p.code|)
    ensures Run(p, ops, c, n) == c
    decreases n
  {
    if n > 0 { Idle(p, ops, c, n - 1); }
  }

  lemma Shifted(i: Instr, ks: seq<Value>, ops: Ops, pc: int, base: int, regs: Regs)
    ensures var c := Execute(i, ks, ops, pc, regs);
      Execute(i, ks, ops, base + pc, regs) == if c.Failed? then c else Running(base + c.pc, c.regs)
  {
  }

  /** Running the code of `u e` delivers its value, whether or not its register counts as taken. */
  lemma ExposedCorrect(m: Machine, free: nat, ks: seq<Value>, u: UnOp, e: Expr, pc: nat, regs: Regs) returns (n: nat)
    requires Ready(m, regs) && m.s.nactvar <= free && Safe(e) && Exposed(u, e) && Lower(m.s, free, ks, Un(u, e)).Done?
    requires var a := Lower(m.s, free, ks, Un(u, e)).value; Loaded(m, pc, a.code, a.ks)
    ensures var a := Lower(m.s, free, ks, Un(u, e)).value;
      Delivers(Eval(Un(u, e), m.env, m.ops), Run(m.p, m.ops, Start(pc, regs), n), pc + |a.code|, a.desc, regs, free)
  {
    hide Lower, ToReg, Run, At, Safe, NegatesNumbers, Agrees;
    ExposedShape(m.s, free, ks, u, e);
    var o := ToReg(m.s, free, ks, e).value;
    var dest, r := o.free, o.desc.reg;
    AtSplit(m.p, pc, o.code, [Unary(u, dest, r)]);
    n := ToRegCorrect(m, free, ks, e, pc, regs);
    if Eval(e, m.env, m.ops).Ok? {
      var mid := Run(m.p, m.ops, Start(pc, regs), n);
      UnaryStep(m, u, dest, r, pc + |o.code|, mid.regs);
      RunAdds(m.p, m.ops, Start(pc, regs), n, 1);
      n := n + 1;
    }
  }

  lemma UnaryStep(m: Machine, u: UnOp, dest: nat, r: nat, pc: nat, regs: Regs)
    requires At(m.p, pc, [Unary(u, dest, r)])
    ensures Run(m.p, m.ops, Start(pc, regs), 1) == Store(regs, dest, m.ops.unary(u, Get(regs, r)), pc + 1)
  {
    AtIndex(m.p, pc, [Unary(u, dest, r)], 0);
    RunFew(m.p, m.ops, Start(pc, regs));
  }

  /** An operand's code, run inside a program, delivers its value and keeps every register it does not write. */
  lemma ToRegKeeps(m: Machine, free: nat, ks: seq<Value>, e: Expr, pc: nat, regs: Regs, q: nat) returns (n: nat)
    requires Ready(m, regs) && m.s.nactvar <= free && Safe(e) && ToReg(m.s, free, ks, e).Done? && q < 256
    requires var b := ToReg(m.s, free, ks, e).value; Loaded(m, pc, b.code, b.ks) && !CodeWrites(b.code, q)
    ensures var b, c := ToReg(m.s, free, ks, e).value, Run(m.p, m.ops, Start(pc, regs), n);
      && Delivers(Eval(e, m.env, m.ops), c, pc + |b.code|, b.desc, regs, free)
      && (Eval(e, m.env, m.ops).Ok? ==> c.regs[q] == regs[q])
  {
    hide ToReg, Run, Safe, CodeWrites, NegatesNumbers, Agrees, Eval;
    var b := ToReg(m.s, free, ks, e).value;
    var alone := m.(p := Program(b.code, m.p.constants));
    assert b.code[0..|b.code|] == b.code;
    var k := ToRegCorrect(alone, free, ks, e, 0, regs);
    UnwrittenKept(alone.p, m.ops, Start(0, regs), k, q);
    var size := SomeFrame(b.code);
    n := RunInside(m.p, m.ops, size, pc, b.code, 0, regs, k);
    RunInIsRun(m.p, m.ops, size, Start(pc, regs), n);
  }

  /** The other operand's code stays below the result of `u e`. */
  predicate StaysBelow(s: Scope, free: nat, ks: seq<Value>, u: UnOp, e: Expr, r: Expr)
  {
    && Lower(s, free, ks, Un(u, e)).Done?
    && var a := Lower(s, free, ks, Un(u, e)).value;
       ToReg(s, a.free, a.ks, r).Done? && ToReg(s, a.free, a.ks, r).value.high <= RegOf(a.desc)
  }

  /** Both operands arrive when the first is exposed and the second needs only the first free register. */
  lemma ExposedPair(m: Machine, free: nat, ks: seq<Value>, u: UnOp, e: Expr, r: Expr, pc: nat, regs: Regs)
    returns (n: nat)
    requires Ready(m, regs) && m.s.nactvar <= free && Safe(e) && Safe(r) && Exposed(u, e)
    requires Pair(m.s, free, ks, Un(u, e), r).Done?
    requires var o := Pair(m.s, free, ks, Un(u, e), r).value; Loaded(m, pc, o.code, o.ks)
    requires StaysBelow(m.s, free, ks, u, e, r)
    ensures var o := Pair(m.s, free, ks, Un(u, e), r).value;
      DeliversPair(EvalPair(Un(u, e), r, m.env, m.ops), Run(m.p, m.ops, Start(pc, regs), n), pc + |o.code|, o, regs,
                   free)
  {
    hide Lower, Run, At, Safe, NegatesNumbers, Agrees, Eval, CodeWrites;
    ExposedToReg(m.s, free, ks, u, e);
    var a := Lower(m.s, free, ks, Un(u, e)).value;
    var b := ToReg(m.s, a.free, a.ks, r).value;
    ToRegShape(m.s, a.free, a.ks, r);
    LeftKeptIff(m.s, free, ks, u, e, r);
    AtSplit(m.p, pc, a.code, b.code);
    n := ExposedCorrect(m, free, ks, u, e, pc, regs);
    if Eval(Un(u, e), m.env, m.ops).Ok? {
      var mid := Run(m.p, m.ops, Start(pc, regs), n);
      ReadyKept(m, regs, mid.regs, free);
      var k := ToRegKeeps(m, a.free, a.ks, r, pc + |a.code|, mid.regs, RegOf(a.desc));
      RunAdds(m.p, m.ops, Start(pc, regs), n, k);
      n := n + k;
    }
  }

  lemma ExposedToReg(s: Scope, free: nat, ks: seq<Value>, u: UnOp, e: Expr)
    requires Scoped(s) && s.nactvar <= free && Safe(e) && Exposed(u, e) && Lower(s, free, ks, Un(u, e)).Done?
    ensures var a := Lower(s, free, ks, Un(u, e)).value;
      && ToReg(s, free, ks, Un(u, e)) == Done(a) && a.desc.Temp? && free <= a.free && a.free + 1 == RegOf(a.desc) < 255
      && ks <= a.ks && s.nactvar <= a.free
  {
    hide LowerTwoTests, LowerLogic, LowerStrict, Safe;
    ExposedShape(s, free, ks, u, e);
    ToRegShape(s, free, ks, e);
  }

  /** Whatever the operator, its code is right when the other operand needs no register beyond the first free one. */
  lemma ExposedLeftCorrect(m: Machine, free: nat, ks: seq<Value>, op: BinOp, u: UnOp, e: Expr, r: Expr, pc: nat,
                           regs: Regs)
    returns (n: nat)
    requires Ready(m, regs) && m.s.nactvar <= free && Safe(e) && Safe(r) && Exposed(u, e) && op != And && op != Or
    requires LowerStrict(m.s, free, ks, op, Un(u, e), r).Done?
    requires var c := LowerStrict(m.s, free, ks, op, Un(u, e), r).value; Loaded(m, pc, c.code, c.ks)
    requires StaysBelow(m.s, free, ks, u, e, r)
    ensures var c := LowerStrict(m.s, free, ks, op, Un(u, e), r).value;
      Delivers(Eval(Bin(op, Un(u, e), r), m.env, m.ops), Run(m.p, m.ops, Start(pc, regs), n), pc + |c.code|, c.desc,
               regs, free)
  {
    hide Lower, ToReg, Run, At, Safe, NegatesNumbers, Agrees, Eval, EvalPair, StrictCode, Apply;
    StrictMeaning(op, Un(u, e), r, m.env, m.ops);
    var o := Pair(m.s, free, ks, Un(u, e), r).value;
    var dest := StrictDest(m.s, op, o).value;
    ExposedRegisters(m.s, free, ks, op, u, e, r);
    AtSplit(m.p, pc, o.code, StrictCode(op, dest, o.left, o.right));
    n := ExposedPair(m, free, ks, u, e, r, pc, regs);
    n := StrictRest(m, free, op, o, dest, EvalPair(Un(u, e), r, m.env, m.ops), pc, regs, n);
  }

  /** The registers involved: the operands' and the destination. */
  lemma ExposedRegisters(s: Scope, free: nat, ks: seq<Value>, op: BinOp, u: UnOp, e: Expr, r: Expr)
    requires Scoped(s) && s.nactvar <= free && Safe(e) && Safe(r) && Exposed(u, e) && op != And && op != Or
    requires LowerStrict(s, free, ks, op, Un(u, e), r).Done?
    requires StaysBelow(s, free, ks, u, e, r)
    ensures var o := Pair(s, free, ks, Un(u, e), r).value;
      var dest := StrictDest(s, op, o).value;
      free <= dest < 255 && o.left < 256 && o.right < 256 && (op.ConcatOp? ==> o.right != dest || o.left == dest)
  {
    hide Lower, Safe, StrictCode, Spans;
    ExposedToReg(s, free, ks, u, e);
    var a := Lower(s, free, ks, Un(u, e)).value;
    ToRegShape(s, a.free, a.ks, r);
    ToRegTame(s, a.free, a.ks, r);
  }

  /** The example above goes beyond: its right operand `2 * 3` needs the register of the left one, while a plain `2`
      in its place would not. */
  lemma ClobberedGoesBeyond()
    ensures !StaysBelow(ONE_LOCAL, 1, [], Neg, CLOBBERED.l.e, CLOBBERED.r)
    ensures StaysBelow(ONE_LOCAL, 1, [], Neg, CLOBBERED.l.e, Const(Int(2)))
  {
    NegatedSumCode();
    ProductCode();
    assert Lower(ONE_LOCAL, 1, [], CLOBBERED.l) == Lower(ONE_LOCAL, 1, [], Un(Neg, CLOBBERED.l.e));
    LoadSmall(1, 2);
    assert Lower(ONE_LOCAL, 1, [], Const(Int(2))) == Done(Code([], Constant(Int(2)), 1, [], 0));
  }
}
