/**
 Frames: a call gives a function as many registers as the compiler asked for,
 and the code of a statement stays inside them exactly when its value lists do.
 */
module LoweringFrames {
  import opened Common
  import opened Bytecode
  import opened Lang
  import opened Lowering
  import opened LoweringProof
  import opened LoweringLimits
  import opened LoweringStmt
  import opened LoweringStmtProof

  lemma InsideAppend(a: seq<Instr>, b: seq<Instr>, size: nat)
    ensures AllInside(a + b, size) <==> AllInside(a, size) && AllInside(b, size)
  {
    if AllInside(a + b, size) {
      forall i | 0 <= i < |a| ensures Inside(a[i], size) { assert (a + b)[i] == a[i]; }
      forall i | 0 <= i < |b| ensures Inside(b[i], size) { assert (a + b)[|a| + i] == b[i]; }
    }
  }

  // ----- Expressions -----

  /** The code of an expression of the fragment names no register past the locals and its own high-water mark. */
  lemma LowerInside(s: Scope, free: nat, ks: seq<Value>, e: Expr, size: nat)
    requires Scoped(s) && s.nactvar <= free && Safe(e) && Lower(s, free, ks, e).Done?
    requires Max(s.nactvar, Lower(s, free, ks, e).value.high) <= size
    ensures AllInside(Lower(s, free, ks, e).value.code, size)
    decreases Size(e), 0
  {
    hide LowerTwoTests, LowerLogic, LowerStrict;
    match e
    case Const(_) =>
    case Name(_) =>
    case Paren(e1) => LowerInside(s, free, ks, e1, size);
    case Un(op, e1) =>
      QuietOperand(s, free, ks, e1);
      if IsLocalName(e1) {
        LocalShape(s, free, ks, e1);
      } else {
        NumeralShape(s, free, ks, e1);
      }
    case Bin(op, l, r) =>
      if op == And && IsRel(l) && IsRel(r) {
        TwoTestsInside(s, free, ks, l, r, size);
      } else if op == And || op == Or {
        LogicInside(s, free, ks, op == Or, l, r, size);
      } else {
        StrictInside(s, free, ks, op, l, r, size);
      }
  }

  lemma ToRegInside(s: Scope, free: nat, ks: seq<Value>, e: Expr, size: nat)
    requires Scoped(s) && s.nactvar <= free && Safe(e) && ToReg(s, free, ks, e).Done?
    requires Max(s.nactvar, ToReg(s, free, ks, e).value.high) <= size
    ensures var c := ToReg(s, free, ks, e).value; AllInside(c.code, size) && RegOf(c.desc) < size
    decreases Size(e), 1
  {
    hide Lower, Spans;
    var c := Lower(s, free, ks, e).value;
    LowerInside(s, free, ks, e, size);
    ToRegTame(s, free, ks, e);
    ToRegShape(s, free, ks, e);
    if c.desc.Constant? { InsideAppend(c.code, [LoadConst(c.free, c.desc.k, c.ks)], size); }
  }

  lemma PairInside(s: Scope, free: nat, ks: seq<Value>, l: Expr, r: Expr, size: nat)
    requires Scoped(s) && s.nactvar <= free && Safe(l) && Safe(r) && Pair(s, free, ks, l, r).Done?
    requires Max(s.nactvar, Pair(s, free, ks, l, r).value.high) <= size
    ensures var p := Pair(s, free, ks, l, r).value; AllInside(p.code, size) && p.left < size && p.right < size
    decreases Size(l) + Size(r), 2
  {
    hide ToReg, AllInside;
    var a := ToReg(s, free, ks, l).value;
    ToRegShape(s, free, ks, l);
    ToRegInside(s, free, ks, l, size);
    ToRegInside(s, a.free, a.ks, r, size);
    InsideAppend(a.code, ToReg(s, a.free, a.ks, r).value.code, size);
  }

  lemma OneInside(i: Instr, size: nat)
    requires Inside(i, size)
    ensures AllInside([i], size) && AllInside([], size)
  {
  }

  lemma ConcatInside(dest: nat, b: nat, c: nat, size: nat)
    requires b < size && c < size && dest + 1 < size
    ensures AllInside(StrictCode(ConcatOp, dest, b, c), size)
  {
    hide AllInside;
    var first := if b != dest then [Move(dest, b)] else [];
    var second := if c != dest + 1 then [Move(dest + 1, c)] else [];
    OneInside(Move(dest, b), size);
    OneInside(Move(dest + 1, c), size);
    OneInside(Concat(dest, dest, dest + 1), size);
    InsideAppend(first, second, size);
    InsideAppend(first + second, [Concat(dest, dest, dest + 1)], size);
  }

  lemma RelInside(rel: RelOp, want: bool, b: nat, c: nat, size: nat)
    requires b < size && c < size
    ensures Inside(CompareInstr(rel, want, b, c), size)
  {
  }

  lemma StrictCodeInside(op: BinOp, dest: nat, b: nat, c: nat, size: nat)
    requires b < size && c < size && (if op.ConcatOp? then dest + 1 else dest) < size
    ensures AllInside(StrictCode(op, dest, b, c), size)
  {
    match op
    case ConcatOp => ConcatInside(dest, b, c, size);
    case Rel(rel) => RelInside(rel, true, b, c, size);
    case _ =>
  }

  lemma StrictInside(s: Scope, free: nat, ks: seq<Value>, op: BinOp, l: Expr, r: Expr, size: nat)
    requires Scoped(s) && s.nactvar <= free && Safe(l) && Safe(r) && LowerStrict(s, free, ks, op, l, r).Done?
    requires Max(s.nactvar, LowerStrict(s, free, ks, op, l, r).value.high) <= size
    ensures AllInside(LowerStrict(s, free, ks, op, l, r).value.code, size)
    decreases Size(l) + Size(r), 3
  {
    hide Pair, AllInside, StrictCode;
    var p := Pair(s, free, ks, l, r).value;
    PairInside(s, free, ks, l, r, size);
    StrictCodeInside(op, StrictDest(s, op, p).value, p.left, p.right, size);
    InsideAppend(p.code, StrictCode(op, StrictDest(s, op, p).value, p.left, p.right), size);
  }

  lemma HeadInside(dest: nat, left: nat, isOr: bool, skip: int, size: nat)
    requires dest < size && left < size
    ensures AllInside([Move(dest, left), Test(dest, isOr), Jmp(Sbx16(skip))], size)
    ensures AllInside([Move(dest, left)], size) && AllInside([], size)
  {
  }

  lemma LogicInside(s: Scope, free: nat, ks: seq<Value>, isOr: bool, l: Expr, r: Expr, size: nat)
    requires Scoped(s) && s.nactvar <= free && Safe(l) && Safe(r) && LowerLogic(s, free, ks, isOr, l, r).Done?
    requires Max(s.nactvar, LowerLogic(s, free, ks, isOr, l, r).value.high) <= size
    ensures AllInside(LowerLogic(s, free, ks, isOr, l, r).value.code, size)
    decreases Size(l) + Size(r), 3
  {
    hide ToReg, AllInside;
    var a := ToReg(s, free, ks, l).value;
    ToRegShape(s, free, ks, l);
    ToRegInside(s, free, ks, l, size);
    var dest := a.free;
    var b := ToReg(s, dest + 1, a.ks, r).value;
    ToRegInside(s, dest + 1, a.ks, r, size);
    var move := if RegOf(b.desc) != dest then [Move(dest, RegOf(b.desc))] else [];
    var head := [Move(dest, RegOf(a.desc)), Test(dest, isOr), Jmp(Sbx16(|b.code + move|))];
    HeadInside(dest, RegOf(a.desc), isOr, |b.code + move|, size);
    HeadInside(dest, RegOf(b.desc), isOr, 0, size);
    InsideAppend(a.code, head, size);
    InsideAppend(b.code, move, size);
    InsideAppend(a.code + head, b.code + move, size);
  }

  lemma SkipInside(rel: RelOp, b: nat, c: nat, skip: int, size: nat)
    requires b < size && c < size
    ensures AllInside([CompareInstr(rel, false, b, c), Jmp(Sbx16(skip))], size)
  {
  }

  lemma BoolInside(dest: nat, size: nat)
    requires dest < size
    ensures AllInside([LoadBool(dest, true, false), Jmp(Sbx16(1)), LoadBool(dest, false, false)], size)
  {
  }

  lemma TwoTestsInside(s: Scope, free: nat, ks: seq<Value>, l: Expr, r: Expr, size: nat)
    requires Scoped(s) && s.nactvar <= free && Safe(l) && Safe(r) && IsRel(l) && IsRel(r)
    requires LowerTwoTests(s, free, ks, l, r).Done?
    requires Max(s.nactvar, LowerTwoTests(s, free, ks, l, r).value.high) <= size
    ensures AllInside(LowerTwoTests(s, free, ks, l, r).value.code, size)
    decreases Size(l) + Size(r), 3
  {
    hide Pair, AllInside, CompareInstr;
    var a := Pair(s, free, ks, l.l, l.r).value;
    var b := Pair(s, free, a.ks, r.l, r.r).value;
    PairInside(s, free, ks, l.l, l.r, size);
    PairInside(s, free, a.ks, r.l, r.r, size);
    var second := b.code + [CompareInstr(r.bop.rel, false, b.left, b.right), Jmp(Sbx16(2))];
    var test := [CompareInstr(l.bop.rel, false, a.left, a.right), Jmp(Sbx16(|second| + 2))];
    var last := [LoadBool(free, true, false), Jmp(Sbx16(1)), LoadBool(free, false, false)];
    SkipInside(l.bop.rel, a.left, a.right, |second| + 2, size);
    SkipInside(r.bop.rel, b.left, b.right, 2, size);
    BoolInside(free, size);
    InsideAppend(a.code, test, size);
    InsideAppend(b.code, [CompareInstr(r.bop.rel, false, b.left, b.right), Jmp(Sbx16(2))], size);
    InsideAppend(a.code + test, second, size);
    InsideAppend(a.code + test + second, last, size);
  }

  // ----- Value lists -----

  /** A value list stays inside a frame that is large enough for its operands if and only if all its values do. */
  lemma {:induction false} ValuesInsideIff(s: Scope, base: nat, ks: seq<Value>, high: nat, values: seq<Expr>,
                                           size: nat)
    requires Scoped(s) && s.nactvar <= base && base + |values| <= 256 && SafeList(values)
    requires LowerValues(s, base, ks, high, values).Done? && base <= size
    requires Max(s.nactvar, LowerValues(s, base, ks, high, values).value.maxstack) <= size
    ensures AllInside(LowerValues(s, base, ks, high, values).value.code, size) <==> base + |values| <= size
    decreases |values|
  {
    hide ToReg, Spans, Inside;
    if values != [] {
      var c := ToReg(s, base, ks, values[0]).value;
      var rest := LowerValues(s, base + 1, c.ks, Max(high, c.high), values[1..]).value;
      ToRegInside(s, base, ks, values[0], size);
      ToRegShape(s, base, ks, values[0]);
      ToRegTame(s, base, ks, values[0]);
      var move := if RegOf(c.desc) != base then [Move(base, RegOf(c.desc))] else [];
      MoveInside(base, RegOf(c.desc), size);
      InsideAppend(c.code, move, size);
      InsideAppend(c.code + move, rest.code, size);
      if base + 1 <= size {
        ValuesInsideIff(s, base + 1, c.ks, Max(high, c.high), values[1..], size);
      }
    }
  }

  lemma MoveInside(a: nat, b: nat, size: nat)
    requires a < 256 && b < size
    ensures AllInside([Move(a, b)], size) <==> a < size
  {
    assert [Move(a, b)][0] == Move(a, b);
  }

  lemma {:induction false} PadInside(base: nat, from: nat, upTo: nat, size: nat)
    requires base + upTo <= size
    ensures AllInside(PadCode(base, from, upTo), size)
    decreases upTo - from
  {
    if from < upTo { PadInside(base, from + 1, upTo, size); }
  }

  lemma {:induction false} StoreInside(targets: seq<nat>, base: nat, size: nat)
    requires base + |targets| <= size && forall i :: 0 <= i < |targets| ==> targets[i] < size
    ensures AllInside(StoreCode(targets, base), size)
  {
    if targets != [] { StoreInside(targets[1..], base + 1, size); }
  }

  // ----- Statements -----

  /** The marks never fall behind the registers in use. */
  predicate Covers(mark: nat, f: Frag) { f.scope.nactvar <= Max(mark, f.maxstack) && f.high <= Max(mark, f.maxstack) }

  lemma {:induction false} ValuesHigh(s: Scope, base: nat, ks: seq<Value>, high: nat, values: seq<Expr>)
    requires LowerValues(s, base, ks, high, values).Done?
    ensures var v := LowerValues(s, base, ks, high, values).value;
      v.high == Max(high, v.maxstack) && v.reach == base + |values|
    decreases |values|
  {
    hide ToReg;
    if values != [] {
      var c := ToReg(s, base, ks, values[0]).value;
      ValuesHigh(s, base + 1, c.ks, Max(high, c.high), values[1..]);
    }
  }

  lemma LocalInsideIff(s: Scope, ks: seq<Value>, high: nat, names: seq<string>, values: seq<Expr>, mark: nat,
                       size: nat)
    requires Scoped(s) && SafeList(values) && s.nactvar <= mark && high <= mark
    requires LowerStmt(s, ks, high, Local(names, values)).Done?
    requires var f := LowerStmt(s, ks, high, Local(names, values)).value; f.fits && Max(mark, f.maxstack) <= size
    ensures var f := LowerStmt(s, ks, high, Local(names, values)).value;
      Covers(mark, f) && (AllInside(f.code, size) <==> f.reach <= size)
  {
    hide LowerValues, PushLocals, AllInside;
    var base := s.nactvar;
    var v := LowerValues(s, base, ks, high, values).value;
    ValuesHigh(s, base, ks, high, values);
    PushShape(s, names, base);
    ValuesInsideIff(s, base, ks, high, values, size);
    PadInside(base, |values|, |names|, size);
    InsideAppend(v.code, PadCode(base, |values|, |names|), size);
  }

  lemma AssignInsideIff(s: Scope, ks: seq<Value>, high: nat, vars: seq<string>, values: seq<Expr>, mark: nat,
                        size: nat)
    requires Scoped(s) && SafeList(values) && s.nactvar <= mark && high <= mark
    requires LowerStmt(s, ks, high, Assign(vars, values)).Done?
    requires var f := LowerStmt(s, ks, high, Assign(vars, values)).value; f.fits && Max(mark, f.maxstack) <= size
    ensures var f := LowerStmt(s, ks, high, Assign(vars, values)).value;
      Covers(mark, f) && (AllInside(f.code, size) <==> f.reach <= size)
  {
    hide LowerValues, Targets, AllInside;
    var base, targets := s.nactvar, Targets(s, vars).value;
    var v := LowerValues(s, base, ks, high, values).value;
    ValuesHigh(s, base, ks, high, values);
    TargetsShape(s, vars);
    ValuesInsideIff(s, base, ks, high, values, size);
    PadInside(base, |values|, |vars|, size);
    StoreInside(targets, base, size);
    InsideAppend(v.code, PadCode(base, |values|, |vars|), size);
    InsideAppend(v.code + PadCode(base, |values|, |vars|), StoreCode(targets, base), size);
  }

  /** The code of a statement stays inside a frame of the size asked for, or a larger one, if and only if all its
      value lists do. */
  lemma StmtInsideIff(s: Scope, ks: seq<Value>, high: nat, st: Stmt, mark: nat, size: nat)
    requires Scoped(s) && SafeStmt(st) && s.nactvar <= mark && high <= mark && LowerStmt(s, ks, high, st).Done?
    requires var f := LowerStmt(s, ks, high, st).value; f.fits && Max(mark, f.maxstack) <= size
    ensures var f := LowerStmt(s, ks, high, st).value;
      Covers(mark, f) && (AllInside(f.code, size) <==> f.reach <= size)
    decreases StmtSize(st), 0
  {
    hide ToReg, LowerValues, PushLocals, LowerIf, LowerBlock, Targets, AllInside;
    match st
    case Local(names, values) => LocalInsideIff(s, ks, high, names, values, mark, size);
    case Assign(vars, values) => AssignInsideIff(s, ks, high, vars, values, mark, size);
    case If(branches, otherwise) => IfInsideIff(s, ks, high, branches, otherwise, mark, size);
    case Do(body) => BlockInsideIff(s, ks, high, body, mark, size);
    case While(cond, body, marked) => WhileInsideIff(s, ks, high, st, mark, size);
  }

  lemma TestInside(r: nat, skip: int, size: nat)
    requires r < size
    ensures AllInside([Test(r, false), Jmp(Sbx16(skip))], size) && AllInside([Jmp(Sbx16(skip))], size)
  {
  }

  lemma WhileInsideIff(s: Scope, ks: seq<Value>, high: nat, st: Stmt, mark: nat, size: nat)
    requires Scoped(s) && st.While? && SafeStmt(st) && s.nactvar <= mark && high <= mark
    requires LowerStmt(s, ks, high, st).Done?
    requires var f := LowerStmt(s, ks, high, st).value; f.fits && Max(mark, f.maxstack) <= size
    ensures var f := LowerStmt(s, ks, high, st).value;
      Covers(mark, f) && (AllInside(f.code, size) <==> f.reach <= size)
    decreases BodySize(st.body), 3
  {
    hide ToReg, LowerBlock, AllInside;
    var c := ToReg(s, s.nactvar, ks, st.cond).value;
    var b := LowerBlock(s, c.ks, Max(high, c.high), st.body).value;
    BlockShape(s, c.ks, Max(high, c.high), st.body);
    ToRegInside(s, s.nactvar, ks, st.cond, size);
    BlockInsideIff(s, c.ks, Max(high, c.high), st.body, Max(mark, c.high), size);
    var test, back := [Test(RegOf(c.desc), false), Jmp(Sbx16(|b.code| + 1))], [Jmp(Sbx16(-(|c.code| + |b.code| + 3)))];
    TestInside(RegOf(c.desc), |b.code| + 1, size);
    TestInside(RegOf(c.desc), -(|c.code| + |b.code| + 3), size);
    InsideAppend(c.code, test, size);
    InsideAppend(c.code + test, b.code, size);
    InsideAppend(c.code + test + b.code, back, size);
    if st.marked {
      PadInside(s.nactvar, 0, 1, size);
      assert PadCode(s.nactvar, 0, 1) == [LoadNil(s.nactvar, 0)];
      InsideAppend(LoopCode(c, b), [LoadNil(s.nactvar, 0)], size);
    }
  }

  lemma IfInsideIff(s: Scope, ks: seq<Value>, high: nat, branches: seq<Branch>, otherwise: seq<Stmt>, mark: nat,
                    size: nat)
    requires Scoped(s) && SafeBranches(branches) && SafeBody(otherwise) && s.nactvar <= mark && high <= mark
    requires LowerIf(s, ks, high, branches, otherwise).Done?
    requires var f := LowerIf(s, ks, high, branches, otherwise).value; f.fits && Max(mark, f.maxstack) <= size
    ensures var f := LowerIf(s, ks, high, branches, otherwise).value;
      Covers(mark, f) && (AllInside(f.code, size) <==> f.reach <= size)
    decreases BranchesSize(branches) + BodySize(otherwise), 3
  {
    hide ToReg, LowerBlock, AllInside;
    if branches == [] {
      BlockInsideIff(s, ks, high, otherwise, mark, size);
    } else {
      var c := ToReg(s, s.nactvar, ks, branches[0].cond).value;
      var b := LowerBlock(s, c.ks, Max(high, c.high), branches[0].body).value;
      var rest := LowerIf(s, b.ks, b.high, branches[1..], otherwise).value;
      ToRegInside(s, s.nactvar, ks, branches[0].cond, size);
      BlockInsideIff(s, c.ks, Max(high, c.high), branches[0].body, Max(mark, c.high), size);
      IfInsideIff(s, b.ks, b.high, branches[1..], otherwise, Max(Max(mark, c.high), b.maxstack), size);
      var test, skip := [Test(RegOf(c.desc), false), Jmp(Sbx16(|b.code| + 1))], [Jmp(Sbx16(|rest.code|))];
      TestInside(RegOf(c.desc), |b.code| + 1, size);
      TestInside(RegOf(c.desc), |rest.code|, size);
      InsideAppend(c.code, test, size);
      InsideAppend(c.code + test, b.code, size);
      InsideAppend(c.code + test + b.code, skip, size);
      InsideAppend(BranchCode(c, b, |rest.code|), rest.code, size);
    }
  }

  lemma SeqInsideIff(s: Scope, ks: seq<Value>, high: nat, body: seq<Stmt>, mark: nat, size: nat)
    requires Scoped(s) && SafeBody(body) && s.nactvar <= mark && high <= mark && LowerSeq(s, ks, high, body).Done?
    requires var f := LowerSeq(s, ks, high, body).value; f.fits && Max(mark, f.maxstack) <= size
    ensures var f := LowerSeq(s, ks, high, body).value;
      Covers(mark, f) && (AllInside(f.code, size) <==> f.reach <= size)
    decreases BodySize(body), 1
  {
    hide LowerStmt;
    if body != [] {
      hide Inside;
      var a := LowerStmt(s, ks, high, body[0]).value;
      StmtInsideIff(s, ks, high, body[0], mark, size);
      StmtShape(s, ks, high, body[0]);
      SeqInsideIff(a.scope, a.ks, a.high, body[1..], Max(mark, a.maxstack), size);
      InsideAppend(a.code, LowerSeq(a.scope, a.ks, a.high, body[1..]).value.code, size);
    }
  }

  lemma BlockInsideIff(s: Scope, ks: seq<Value>, high: nat, body: seq<Stmt>, mark: nat, size: nat)
    requires Scoped(s) && SafeBody(body) && s.nactvar <= mark && high <= mark && LowerBlock(s, ks, high, body).Done?
    requires var f := LowerBlock(s, ks, high, body).value; f.fits && Max(mark, f.maxstack) <= size
    ensures var f := LowerBlock(s, ks, high, body).value;
      Covers(mark, f) && (AllInside(f.code, size) <==> f.reach <= size)
    decreases BodySize(body), 2
  {
    hide LowerSeq;
    var f := LowerSeq(s, ks, high, body).value;
    SeqInsideIff(s, ks, high, body, mark, size);
    SeqShape(s, ks, high, body);
    InsideAppend(f.code, LeaveCode(s, f), size);
  }
}
