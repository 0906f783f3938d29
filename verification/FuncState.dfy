/**
 The compiler as it works: fields updated while recursing over the tree, code
 appended instruction by instruction and jumps patched once their target is known.
 */
module FuncStateModule {
  import opened Common
  import opened Bytecode
  import opened Lang
  import opened Lowering
  import opened LoweringStmt
  import opened LoweringProof
  import opened LoweringStmtProof
  import opened LoweringChunk

  /** Code already there and an earlier high-water mark carry over. */
  lemma UnaryPrefix(s: Scope, op: UnOp, c: Code, before: seq<Instr>, hwm: nat)
    ensures var w, w' := LowerUnary(s, op, c), LowerUnary(s, op, c.(code := before + c.code, high := Max(hwm, c.high)));
      if w.Fail? then w' == w
      else w' == Done(w.value.(code := before + w.value.code, high := Max(hwm, w.value.high)))
  {
    if !Folds(op, c.desc) && LowerUnary(s, op, c).Done? {
      var o := Discharge(c).value;
      var o' := Discharge(c.(code := before + c.code, high := Max(hwm, c.high))).value;
      assert o'.code == before + o.code;
      var w := LowerUnary(s, op, c).value;
      assert before + w.code == before + o.code + [Unary(op, RegOf(w.desc), RegOf(o.desc))];
    }
  }

  /** Patching an instruction in the middle of the code. */
  lemma Patch(a: seq<Instr>, was: Instr, b: seq<Instr>, now: Instr)
    ensures (a + [was] + b)[|a| := now] == a + [now] + b
  {
  }

  /** The block of a branch, lowered after its condition. */
  function LowerBranch(s: Scope, ks: seq<Value>, high: nat, branch: Branch): (b: Res<Frag>)
    ensures b.Done? ==> Lowering.ToReg(s, s.nactvar, ks, branch.cond).Done?
  {
    var c :- Lowering.ToReg(s, s.nactvar, ks, branch.cond);
    LowerBlock(s, c.ks, Max(high, c.high), branch.body)
  }

  lemma IfNone(s: Scope, ks: seq<Value>, high: nat, otherwise: seq<Stmt>)
    ensures LowerIf(s, ks, high, [], otherwise) == LowerBlock(s, ks, high, otherwise)
  {
  }

  lemma IfUnfold(s: Scope, ks: seq<Value>, high: nat, branches: seq<Branch>, otherwise: seq<Stmt>)
    requires branches != []
    ensures LowerIf(s, ks, high, branches, otherwise) ==
      var b := LowerBranch(s, ks, high, branches[0]);
      if b.Fail? then Fail(b.reason)
      else
        var rest := LowerIf(s, b.value.ks, b.value.high, branches[1..], otherwise);
        if rest.Fail? then Fail(rest.reason)
        else
          var c := Lowering.ToReg(s, s.nactvar, ks, branches[0].cond).value;
          Done(rest.value.(code := BranchCode(c, b.value, |rest.value.code|) + rest.value.code,
                           fits := b.value.fits && rest.value.fits,
                           maxstack := Max(Max(c.high, b.value.maxstack), rest.value.maxstack),
                           reach := Max(b.value.reach, rest.value.reach)))
  {
    hide Lowering.ToReg, LowerBlock;
  }

  /** Aiming the final jump of a branch over the rest of the chain. */
  lemma BranchPatched(before: seq<Instr>, front: seq<Instr>, c: Code, b: Frag, rest: seq<Instr>)
    requires front + [Jmp(0)] == before + BranchCode(c, b, 0)
    ensures front + [Jmp(Sbx16(|rest|))] + rest == before + (BranchCode(c, b, |rest|) + rest)
  {
    var head := c.code + [Test(RegOf(c.desc), false), Jmp(Sbx16(|b.code| + 1))] + b.code;
    assert before + BranchCode(c, b, 0) == (before + head) + [Jmp(0)];
    assert (front + [Jmp(0)])[..|front|] == front;
    assert ((before + head) + [Jmp(0)])[..|before + head|] == before + head;
    assert front == before + head;
  }

  lemma LogicUnfold(s: Scope, free: nat, ks: seq<Value>, isOr: bool, l: Expr, r: Expr, before: seq<Instr>)
    ensures var w, a := LowerLogic(s, free, ks, isOr, l, r), Lowering.ToReg(s, free, ks, l);
      if a.Fail? then w == Fail(a.reason)
      else if NewReg(a.value.free).Fail? then w == Fail(TooManyRegisters)
      else
        var dest := a.value.free;
        var b := Lowering.ToReg(s, dest + 1, a.value.ks, r);
        if b.Fail? then w == Fail(b.reason)
        else
          var rest := b.value.code + (if RegOf(b.value.desc) != dest then [Move(dest, RegOf(b.value.desc))] else []);
          && w.Done? && w.value.desc == Temp(dest) && w.value.free == dest + 1 && w.value.ks == b.value.ks
          && w.value.high == Max(Max(a.value.high, b.value.high), dest + 1)
          && before + w.value.code
             == before + a.value.code + [Move(dest, RegOf(a.value.desc)), Test(dest, isOr)]
                + ([Jmp(Sbx16(|rest|))] + rest)
  {
    hide Lowering.ToReg, Sbx16;
  }

  lemma TwoTestsUnfold(s: Scope, free: nat, ks: seq<Value>, l: Expr, r: Expr, before: seq<Instr>)
    requires IsRel(l) && IsRel(r)
    ensures var w, a := LowerTwoTests(s, free, ks, l, r), Pair(s, free, ks, l.l, l.r);
      if a.Fail? then w == Fail(a.reason)
      else
        var b := Pair(s, free, a.value.ks, r.l, r.r);
        if b.Fail? then w == Fail(b.reason)
        else if NewReg(free).Fail? then w == Fail(TooManyRegisters)
        else
          var first := before + a.value.code + [CompareInstr(l.bop.rel, false, a.value.left, a.value.right)];
          var second := b.value.code + [CompareInstr(r.bop.rel, false, b.value.left, b.value.right)];
          && w.Done? && w.value.desc == Temp(free) && w.value.free == free + 1 && w.value.ks == b.value.ks
          && w.value.high == Max(Max(a.value.high, b.value.high), free + 1)
          && before + w.value.code
             == first + [Jmp(Sbx16(|second| + 3))] + second + [Jmp(Sbx16(2))]
                + [LoadBool(free, true, false), Jmp(Sbx16(1)), LoadBool(free, false, false)]
  {
    hide Pair, CompareInstr;
    var w, a := LowerTwoTests(s, free, ks, l, r), Pair(s, free, ks, l.l, l.r);
    if w.Done? {
      var b := Pair(s, free, a.value.ks, r.l, r.r);
      var c1 := CompareInstr(l.bop.rel, false, a.value.left, a.value.right);
      var c2 := CompareInstr(r.bop.rel, false, b.value.left, b.value.right);
      var second := b.value.code + [c2];
      var tail := [LoadBool(free, true, false), Jmp(Sbx16(1)), LoadBool(free, false, false)];
      var j1, j2 := Jmp(Sbx16(|second| + 3)), Jmp(Sbx16(2));
      assert w.value.code == a.value.code + [c1, j1] + (b.value.code + [c2, j2]) + tail;
    }
  }

  lemma StrictUnfold(s: Scope, free: nat, ks: seq<Value>, op: BinOp, l: Expr, r: Expr, before: seq<Instr>)
    requires op != And && op != Or
    ensures var w, p := LowerStrict(s, free, ks, op, l, r), Pair(s, free, ks, l, r);
      if p.Fail? then w == Fail(p.reason)
      else
        var o := p.value;
        var inPlace := InPlace(s, op, o);
        if !inPlace && (NewReg(o.free).Fail? || (op.ConcatOp?
          && NewReg(o.free + 1).Fail?)) then w == Fail(TooManyRegisters)
        else
          var dest := if !inPlace then o.free else if o.left >= s.nactvar then o.left else o.right;
          && w.Done? && w.value.desc == Temp(dest) && w.value.free == dest + 1 && w.value.ks == o.ks
          && w.value.high == (if inPlace then o.high else Max(o.high, if op.ConcatOp? then dest + 2 else dest + 1))
          && before + w.value.code == before + o.code + StrictCode(op, dest, o.left, o.right)
  {
    hide Pair;
  }

  predicate Increasing(regs: seq<nat>) { forall i, j :: 0 <= i < j < |regs| ==> regs[i] < regs[j] }

  /** `nactvar` is just past the last local. */
  predicate Snug(s: Scope)
  {
    s.nactvar == if s.regs == [] then 0 else s.regs[|s.regs| - 1] + 1
  }

  lemma ScopedFacts(s: Scope)
    requires Scoped(s)
    ensures |s.names| == |s.regs| && Increasing(s.regs)
  {
  }

  predicate Grows(s: Scope, s': Scope) { Scoped(s') && Snug(s') && s.names <= s'.names && s.regs <= s'.regs }

  lemma StmtScope(s: Scope, ks: seq<Value>, high: nat, st: Stmt)
    requires Scoped(s) && Snug(s)
    ensures var w := LowerStmt(s, ks, high, st); w.Done? ==> Grows(s, w.value.scope)
    ensures var w := LowerStmt(s, ks, high, st); w.Done? && !st.Local? ==> w.value.scope == s
  {
    hide Lowering.ToReg, LowerValues, PushLocals, LowerSeq;
    match st
    case Local(names, values) =>
      if PushLocals(s, names, s.nactvar).Done? {
        PushShape(s, names, s.nactvar);
      }
    case Assign(_, _) =>
    case If(branches, otherwise) => IfScope(s, ks, high, branches, otherwise);
    case While(_, _, _) =>
    case Do(_) =>
  }

  lemma {:induction false} IfScope(s: Scope, ks: seq<Value>, high: nat, branches: seq<Branch>, otherwise: seq<Stmt>)
    ensures var w := LowerIf(s, ks, high, branches, otherwise); w.Done? ==> w.value.scope == s
    decreases |branches|
  {
    hide Lowering.ToReg, LowerSeq;
    if branches != [] && LowerIf(s, ks, high, branches, otherwise).Done? {
      var c := Lowering.ToReg(s, s.nactvar, ks, branches[0].cond).value;
      var b := LowerBlock(s, c.ks, Max(high, c.high), branches[0].body).value;
      IfScope(s, b.ks, b.high, branches[1..], otherwise);
    }
  }

  lemma BlockScope(s: Scope, ks: seq<Value>, high: nat, body: seq<Stmt>)
    ensures var w := LowerBlock(s, ks, high, body); w.Done? ==> w.value.scope == s
  {
    hide LowerSeq;
  }

  lemma {:induction false} SeqScope(s: Scope, ks: seq<Value>, high: nat, body: seq<Stmt>)
    requires Scoped(s) && Snug(s)
    ensures var w := LowerSeq(s, ks, high, body); w.Done? ==> Grows(s, w.value.scope)
    decreases |body|
  {
    hide LowerStmt;
    if body != [] && LowerSeq(s, ks, high, body).Done? {
      StmtScope(s, ks, high, body[0]);
      var a := LowerStmt(s, ks, high, body[0]).value;
      SeqScope(a.scope, a.ks, a.high, body[1..]);
    }
  }

  class FuncState {
    var code: seq<Instr>
    var constants: seq<Value>
    var names: seq<string>
    var regs: seq<nat>
    var nactvar: nat
    var freereg: nat
    var regHwm: nat
    var maxstack: nat

    constructor ()
      ensures code == [] && constants == [] && TheScope() == NO_LOCALS && freereg == regHwm == maxstack == 0
    {
      code, constants, names, regs := [], [], [], [];
      nactvar, freereg, regHwm, maxstack := 0, 0, 0, 0;
    }

    ghost function TheScope(): Scope
      reads this`names, this`regs, this`nactvar
    {
      Scope(names, regs, nactvar)
    }

    /** Both marks are raised to `h`. */
    ghost predicate Raised(hwm: nat, mark: nat, h: nat)
      reads this`regHwm, this`maxstack
    {
      regHwm == Max(hwm, h) && maxstack == Max(mark, h)
    }

    /** The state is what `c` describes, on top of the given code, high-water mark and frame size. */
    ghost predicate Emitted(before: seq<Instr>, hwm: nat, mark: nat, c: Code)
      reads this`code, this`constants, this`freereg, this`regHwm, this`maxstack
    {
      code == before + c.code && constants == c.ks && freereg == c.free && Raised(hwm, mark, c.high)
    }

    method NewReg() returns (r: Res<nat>)
      modifies this`freereg, this`regHwm, this`maxstack
      ensures r == Lowering.NewReg(old(freereg))
      ensures r.Done? ==> freereg == old(freereg) + 1 && Raised(old(regHwm), old(maxstack), freereg)
    {
      var reg := freereg;
      freereg := freereg + 1;
      regHwm := Max(regHwm, freereg);
      maxstack := Max(maxstack, freereg);
      if freereg > MAX_STACK - 1 {
        return Fail(TooManyRegisters);
      }
      return Done(reg);
    }

    method Emit(i: Instr) returns (pc: nat)
      modifies this`code
      ensures code == old(code) + [i] && pc == |old(code)|
    {
      pc := |code|;
      code := code + [i];
    }

    /** Points the jump at `pc` to `dest`. */
    method FixJump(pc: nat, dest: nat)
      requires pc < |code|
      modifies this`code
      ensures code == old(code)[pc := Jmp(Sbx16(dest - (pc + 1)))]
    {
      code := code[pc := Jmp(Sbx16(dest - (pc + 1)))];
    }

    method FreeReg(r: nat)
      modifies this`freereg
      ensures freereg == if r >= nactvar then r else old(freereg)
    {
      if r >= nactvar {
        freereg := r;
      }
    }

    method AddConstant(v: Value) returns (k: nat)
      modifies this`constants
      ensures k == ConstIndex(old(constants), v) && constants == WithConst(old(constants), v)
    {
      k := 0;
      while k < |constants|
        invariant k <= |constants| && constants == old(constants)
        invariant ConstIndex(constants, v) == k + ConstIndex(constants[k..], v)
      {
        if constants[k] == v {
          return;
        }
        assert constants[k..][1..] == constants[k + 1..];
        k := k + 1;
      }
      constants := constants + [v];
    }

    method Discharge(d: Desc) returns (r: Res<nat>)
      modifies this`code, this`constants, this`freereg, this`regHwm, this`maxstack
      ensures var w := Lowering.Discharge(Code(old(code), d, old(freereg), old(constants), old(regHwm)));
        if w.Fail? then r == Fail(w.reason)
        else r == Done(RegOf(w.value.desc)) && code == w.value.code && constants == w.value.ks
             && freereg == w.value.free && regHwm == w.value.high
      ensures var w := Lowering.Discharge(Code(old(code), d, old(freereg), old(constants), old(maxstack)));
        w.Done? ==> maxstack == w.value.high
    {
      match d
      case LocalVar(reg) => r := Done(reg);
      case Temp(reg) => r := Done(reg);
      case Constant(k) =>
        r := NewReg();
        if r.Fail? {
          return;
        }
        var reg := r.value;
        if k == Nil {
          var _ := Emit(LoadNil(reg, 0));
        } else if k.Bool? {
          var _ := Emit(LoadBool(reg, k.b, false));
        } else if k.Int? && -32768 <= k.n <= 32767 {
          var _ := Emit(LoadInt(reg, Sbx16(k.n)));
        } else {
          var i := AddConstant(k);
          var _ := Emit(LoadK(reg, Bx16(i)));
        }
    }

    /** An expression and the load of its value: `expr` followed by `exp2reg`. */
    method ToReg(e: Expr) returns (r: Res<nat>)
      modifies this`code, this`constants, this`freereg, this`regHwm, this`maxstack
      ensures var w := Lowering.ToReg(TheScope(), old(freereg), old(constants), e);
        if w.Fail? then r == Fail(w.reason)
        else r == Done(RegOf(w.value.desc)) && Emitted(old(code), old(regHwm), old(maxstack), w.value)
      decreases Size(e), 1
    {
      hide Lower;
      var d := Expr(e);
      if d.Fail? {
        return Fail(d.reason);
      }
      r := Discharge(d.value);
    }

    method Expr(e: Expr) returns (r: Res<Desc>)
      modifies this`code, this`constants, this`freereg, this`regHwm, this`maxstack
      ensures var w := Lower(TheScope(), old(freereg), old(constants), e);
        if w.Fail? then r == Fail(w.reason)
        else r == Done(w.value.desc) && Emitted(old(code), old(regHwm), old(maxstack), w.value)
      decreases Size(e), 0
    {
      match e
      case Const(v) => r := Done(Constant(v));
      case Name(x) =>
        var i := Find(names, x);
        r := if 0 <= i < |regs| then Done(LocalVar(regs[i])) else Fail(NotInFragment);
      case Paren(e1) => r := Expr(e1);
      case Un(op, e1) => r := UnaryExpr(op, e1);
      case Bin(op, l, rhs) =>
        if op == And && IsRel(l) && IsRel(rhs) {
          r := TwoTestsExpr(l, rhs);
        } else if op == And || op == Or {
          r := LogicExpr(op == Or, l, rhs);
        } else {
          r := StrictExpr(op, l, rhs);
        }
    }

    method UnaryExpr(op: UnOp, e: Expr) returns (r: Res<Desc>)
      modifies this`code, this`constants, this`freereg, this`regHwm, this`maxstack
      ensures var w := Lower(TheScope(), old(freereg), old(constants), Un(op, e));
        if w.Fail? then r == Fail(w.reason)
        else r == Done(w.value.desc) && Emitted(old(code), old(regHwm), old(maxstack), w.value)
      decreases Size(e), 2
    {
      ghost var w := Lower(TheScope(), freereg, constants, e);
      r := Expr(e);
      if r.Fail? {
        return;
      }
      UnaryPrefix(TheScope(), op, w.value, old(code), old(regHwm));
      UnaryPrefix(TheScope(), op, w.value, old(code), old(maxstack));
      r := ApplyUnary(op, r.value);
    }

    method ApplyUnary(op: UnOp, d: Desc) returns (r: Res<Desc>)
      modifies this`code, this`constants, this`freereg, this`regHwm, this`maxstack
      ensures var w := LowerUnary(TheScope(), op, Code(old(code), d, old(freereg), old(constants), old(regHwm)));
        if w.Fail? then r == Fail(w.reason)
        else r == Done(w.value.desc) && code == w.value.code && constants == w.value.ks
             && freereg == w.value.free && regHwm == w.value.high
      ensures var w := LowerUnary(TheScope(), op, Code(old(code), d, old(freereg), old(constants), old(maxstack)));
        w.Done? ==> maxstack == w.value.high
    {
      if Folds(op, d) {
        return Done(Constant(Negated(d.k)));
      }
      var o := Discharge(d);
      if o.Fail? {
        return Fail(o.reason);
      }
      var dest := NewReg();
      if dest.Fail? {
        return Fail(dest.reason);
      }
      var _ := Emit(Unary(op, dest.value, o.value));
      FreeReg(o.value);
      r := Done(Temp(dest.value));
    }

    /** Both operands, left first. */
    method Operands2(l: Expr, rhs: Expr) returns (r: Res<(nat, nat)>)
      modifies this`code, this`constants, this`freereg, this`regHwm, this`maxstack
      ensures var w := Pair(TheScope(), old(freereg), old(constants), l, rhs);
        if w.Fail? then r == Fail(w.reason)
        else r == Done((w.value.left, w.value.right)) && code == old(code) + w.value.code && constants == w.value.ks
             && freereg == w.value.free && Raised(old(regHwm), old(maxstack), w.value.high)
      decreases Size(l) + Size(rhs), 2
    {
      hide Lowering.ToReg;
      var a := ToReg(l);
      if a.Fail? {
        return Fail(a.reason);
      }
      var b := ToReg(rhs);
      if b.Fail? {
        return Fail(b.reason);
      }
      r := Done((a.value, b.value));
    }

    method StrictExpr(op: BinOp, l: Expr, rhs: Expr) returns (r: Res<Desc>)
      requires op != And && op != Or
      modifies this`code, this`constants, this`freereg, this`regHwm, this`maxstack
      ensures var w := LowerStrict(TheScope(), old(freereg), old(constants), op, l, rhs);
        if w.Fail? then r == Fail(w.reason)
        else r == Done(w.value.desc) && Emitted(old(code), old(regHwm), old(maxstack), w.value)
      decreases Size(l) + Size(rhs), 3
    {
      hide Pair, LowerStrict;
      StrictUnfold(TheScope(), freereg, constants, op, l, rhs, code);
      var ab := Operands2(l, rhs);
      if ab.Fail? {
        return Fail(ab.reason);
      }
      var (rb, rc) := ab.value;
      var dest: Res<nat>;
      match op {
        case ArithOp(o) => dest := EmitArith(o, rb, rc);
        case ConcatOp => dest := EmitConcat(rb, rc);
        case Rel(rel) => dest := EmitRel(rel, rb, rc);
      }
      if dest.Fail? {
        return Fail(dest.reason);
      }
      freereg := dest.value + 1;
      r := Done(Temp(dest.value));
    }

    /** Arithmetic into a temporary operand if there is one. */
    method EmitArith(op: Bytecode.ArithOp, rb: nat, rc: nat) returns (dest: Res<nat>)
      modifies this`code, this`freereg, this`regHwm, this`maxstack
      ensures rb >= nactvar ==> dest == Done(rb)
      ensures rb < nactvar <= rc ==> dest == Done(rc)
      ensures rb < nactvar && rc < nactvar ==> dest == Lowering.NewReg(old(freereg))
      ensures dest.Done? ==> code == old(code) + [Arith(op, dest.value, rb, rc)]
      ensures dest.Done? ==>
        Raised(old(regHwm), old(maxstack), if rb >= nactvar || rc >= nactvar then 0 else dest.value + 1)
    {
      if rb >= nactvar {
        dest := Done(rb);
      } else if rc >= nactvar {
        dest := Done(rc);
      } else {
        dest := NewReg();
        if dest.Fail? {
          return;
        }
      }
      var _ := Emit(Arith(op, dest.value, rb, rc));
    }

    /** Operands in two consecutive fresh registers, copied unless they are there; the result over the first. */
    method EmitConcat(rb: nat, rc: nat) returns (dest: Res<nat>)
      modifies this`code, this`freereg, this`regHwm, this`maxstack
      ensures dest.Done? <==> Lowering.NewReg(old(freereg)).Done? && Lowering.NewReg(old(freereg) + 1).Done?
      ensures dest.Fail? ==> dest.reason == TooManyRegisters
      ensures dest.Done? ==> dest.value == old(freereg) && Raised(old(regHwm), old(maxstack), dest.value + 2)
      ensures dest.Done? ==> code == old(code) + StrictCode(ConcatOp, dest.value, rb, rc)
    {
      dest := NewReg();
      if dest.Fail? {
        return;
      }
      var next := NewReg();
      if next.Fail? {
        return Fail(next.reason);
      }
      if rb != dest.value {
        var _ := Emit(Move(dest.value, rb));
      }
      if rc != dest.value + 1 {
        var _ := Emit(Move(dest.value + 1, rc));
      }
      var _ := Emit(Concat(dest.value, dest.value, dest.value + 1));
    }

    /** A comparison made into a boolean value. */
    method EmitRel(rel: RelOp, rb: nat, rc: nat) returns (dest: Res<nat>)
      modifies this`code, this`freereg, this`regHwm, this`maxstack
      ensures dest == Lowering.NewReg(old(freereg))
      ensures dest.Done? ==> Raised(old(regHwm), old(maxstack), dest.value + 1)
      ensures dest.Done? ==>
        code == old(code) + [CompareInstr(rel, true, rb, rc), Jmp(Sbx16(1)), LoadBool(dest.value, false, true),
          LoadBool(dest.value, true, false)]
    {
      dest := NewReg();
      if dest.Fail? {
        return;
      }
      var _ := Emit(CompareInstr(rel, true, rb, rc));
      var _ := Emit(Jmp(Sbx16(1)));
      var _ := Emit(LoadBool(dest.value, false, true));
      var _ := Emit(LoadBool(dest.value, true, false));
    }

    method LogicExpr(isOr: bool, l: Expr, rhs: Expr) returns (r: Res<Desc>)
      modifies this`code, this`constants, this`freereg, this`regHwm, this`maxstack
      ensures var w := LowerLogic(TheScope(), old(freereg), old(constants), isOr, l, rhs);
        if w.Fail? then r == Fail(w.reason)
        else r == Done(w.value.desc) && Emitted(old(code), old(regHwm), old(maxstack), w.value)
      decreases Size(l) + Size(rhs), 3
    {
      hide Lowering.ToReg, LowerLogic;
      LogicUnfold(TheScope(), freereg, constants, isOr, l, rhs, code);
      var a := ToReg(l);
      if a.Fail? {
        return Fail(a.reason);
      }
      ghost var left := code;
      var dest := NewReg();
      if dest.Fail? {
        return Fail(dest.reason);
      }
      var _ := Emit(Move(dest.value, a.value));
      var _ := Emit(Test(dest.value, isOr));
      assert code == left + [Move(dest.value, a.value), Test(dest.value, isOr)];
      freereg := dest.value + 1;
      r := LogicRight(dest.value, rhs);
    }

    /** The pending jump, the right operand in `dest`, and the jump patched to go past it. */
    method LogicRight(dest: nat, rhs: Expr) returns (r: Res<Desc>)
      requires freereg == dest + 1
      modifies this`code, this`constants, this`freereg, this`regHwm, this`maxstack
      ensures var b := Lowering.ToReg(TheScope(), dest + 1, old(constants), rhs);
        if b.Fail? then r == Fail(b.reason)
        else
          var rest := b.value.code + (if RegOf(b.value.desc) != dest then [Move(dest, RegOf(b.value.desc))] else []);
          && r == Done(Temp(dest)) && freereg == dest + 1 && constants == b.value.ks
          && Raised(old(regHwm), old(maxstack), b.value.high)
          && code == old(code) + ([Jmp(Sbx16(|rest|))] + rest)
      decreases Size(rhs), 2
    {
      hide Lowering.ToReg;
      var jend := Emit(Jmp(0));
      var b := ToReg(rhs);
      if b.Fail? {
        return Fail(b.reason);
      }
      if b.value != dest {
        var _ := Emit(Move(dest, b.value));
      }
      ghost var rest := code[|old(code)| + 1..];
      Patch(old(code), Jmp(0), rest, Jmp(Sbx16(|rest|)));
      FixJump(jend, |code|);
      freereg := dest + 1;
      r := Done(Temp(dest));
    }

    /** One comparison in jump form; the jump is patched by the caller. */
    method RelFailJump(rel: RelOp, l: Expr, rhs: Expr, floor: nat) returns (r: Res<nat>)
      modifies this`code, this`constants, this`freereg, this`regHwm, this`maxstack
      requires freereg <= floor
      ensures var w := Pair(TheScope(), floor, old(constants), l, rhs);
        if w.Fail? then r == Fail(w.reason)
        else
          && code == old(code) + w.value.code + [CompareInstr(rel, false, w.value.left, w.value.right), Jmp(0)]
          && r == Done(|code| - 1) && constants == w.value.ks && freereg == floor
          && Raised(old(regHwm), old(maxstack), w.value.high)
      decreases Size(l) + Size(rhs), 3
    {
      hide Pair;
      freereg := Max(freereg, floor);
      var ab := Operands2(l, rhs);
      if ab.Fail? {
        return Fail(ab.reason);
      }
      var _ := Emit(CompareInstr(rel, false, ab.value.0, ab.value.1));
      var j := Emit(Jmp(0));
      freereg := floor;
      r := Done(j);
    }

    method TwoTestsExpr(l: Expr, rhs: Expr) returns (r: Res<Desc>)
      requires IsRel(l) && IsRel(rhs)
      modifies this`code, this`constants, this`freereg, this`regHwm, this`maxstack
      ensures var w := LowerTwoTests(TheScope(), old(freereg), old(constants), l, rhs);
        if w.Fail? then r == Fail(w.reason)
        else r == Done(w.value.desc) && Emitted(old(code), old(regHwm), old(maxstack), w.value)
      decreases Size(l) + Size(rhs), 4
    {
      hide Pair, LowerTwoTests, CompareInstr;
      TwoTestsUnfold(TheScope(), freereg, constants, l, rhs, code);
      var floor := freereg;
      ghost var a := Pair(TheScope(), freereg, constants, l.l, l.r);
      var j1 := RelFailJump(l.bop.rel, l.l, l.r, floor);
      if j1.Fail? {
        return Fail(j1.reason);
      }
      ghost var first := code[..j1.value];
      assert first == old(code) + a.value.code + [CompareInstr(l.bop.rel, false, a.value.left, a.value.right)];
      ghost var b := Pair(TheScope(), freereg, constants, rhs.l, rhs.r);
      var j2 := RelFailJump(rhs.bop.rel, rhs.l, rhs.r, floor);
      if j2.Fail? {
        return Fail(j2.reason);
      }
      ghost var second := code[j1.value + 1..j2.value];
      assert second == b.value.code + [CompareInstr(rhs.bop.rel, false, b.value.left, b.value.right)];
      assert code == first + [Jmp(0)] + second + [Jmp(0)];
      var dest := NewReg();
      if dest.Fail? {
        return Fail(dest.reason);
      }
      EmitShared(dest.value, j1.value, j2.value, first, second);
      freereg := dest.value + 1;
      r := Done(Temp(dest.value));
    }

    /** Loads the boolean result and points both pending jumps at the shared `false`. */
    method EmitShared(dest: nat, j1: nat, j2: nat, ghost first: seq<Instr>, ghost second: seq<Instr>)
      requires code == first + [Jmp(0)] + second + [Jmp(0)] && j1 == |first| && j2 == |first| + 1 + |second|
      modifies this`code
      ensures code == first + [Jmp(Sbx16(|second| + 3))] + second + [Jmp(Sbx16(2))]
                    + [LoadBool(dest, true, false), Jmp(Sbx16(1)), LoadBool(dest, false, false)]
    {
      var _ := Emit(LoadBool(dest, true, false));
      var jend := Emit(Jmp(0));
      var flab := |code|;
      FixJump(j1, flab);
      FixJump(j2, flab);
      var _ := Emit(LoadBool(dest, false, false));
      FixJump(jend, |code|);
    }

    // ----- Statements -----

    /** The state is what `f` describes, on top of the given code; registers are free from `nactvar` on. */
    ghost predicate Generated(before: seq<Instr>, mark: nat, f: Frag)
      reads this
    {
      && code == before + f.code && constants == f.ks && regHwm == f.high && TheScope() == f.scope
      && maxstack == Max(mark, f.maxstack)
    }

    /** Values into consecutive registers from `base`. */
    method ValueList(values: seq<Expr>, base: nat) returns (r: Res<()>)
      modifies this`code, this`constants, this`freereg, this`regHwm, this`maxstack
      ensures var w := LowerValues(TheScope(), base, old(constants), old(regHwm), values);
        if w.Fail? then r == Fail(w.reason)
        else r == Done(()) && code == old(code) + w.value.code && constants == w.value.ks && regHwm == w.value.high
             && maxstack == Max(old(maxstack), w.value.maxstack)
    {
      hide Lowering.ToReg;
      ghost var s := TheScope();
      ghost var w := LowerValues(s, base, constants, regHwm, values);
      assert values[0..] == values;
      for i := 0 to |values|
        invariant var rest := LowerValues(s, base + i, constants, regHwm, values[i..]);
          if w.Fail? then rest == Fail(w.reason)
          else
            && rest.Done? && old(code) + w.value.code == code + rest.value.code
            && w.value.ks == rest.value.ks && w.value.high == rest.value.high
            && Max(old(maxstack), w.value.maxstack) == Max(maxstack, rest.value.maxstack)
      {
        assert values[i..][1..] == values[i + 1..];
        freereg := base + i;
        ghost var before := code;
        var er := ToReg(values[i]);
        if er.Fail? {
          return Fail(er.reason);
        }
        if er.value != base + i {
          var _ := Emit(Move(base + i, er.value));
        }
        freereg := base + i + 1;
      }
      r := Done(());
    }

    method Pad(base: nat, from: nat, upTo: nat)
      modifies this`code
      ensures code == old(code) + PadCode(base, from, upTo)
    {
      var i := from;
      while i < upTo
        invariant code + PadCode(base, i, upTo) == old(code) + PadCode(base, from, upTo)
        invariant i >= upTo ==> PadCode(base, i, upTo) == []
      {
        assert PadCode(base, i, upTo) == [LoadNil(base + i, 0)] + PadCode(base, i + 1, upTo);
        var _ := Emit(LoadNil(base + i, 0));
        i := i + 1;
      }
      assert PadCode(base, i, upTo) == [];
    }

    method LookupTargets(vars: seq<string>) returns (r: Res<seq<nat>>)
      ensures r == Targets(TheScope(), vars)
    {
      var found := [];
      assert vars[0..] == vars;
      for i := 0 to |vars|
        invariant var w, rest := Targets(TheScope(), vars), Targets(TheScope(), vars[i..]);
          if w.Fail? then rest == Fail(w.reason) else rest.Done? && w.value == found + rest.value
      {
        assert vars[i..][1..] == vars[i + 1..];
        var k := Find(names, vars[i]);
        if !(0 <= k < |regs|) {
          return Fail(NotInFragment);
        }
        found := found + [regs[k]];
      }
      assert vars[|vars|..] == [] && found + [] == found;
      r := Done(found);
    }

    method StoreAll(targets: seq<nat>, base: nat)
      modifies this`code
      ensures code == old(code) + StoreCode(targets, base)
    {
      assert targets[0..] == targets;
      for i := 0 to |targets|
        invariant code + StoreCode(targets[i..], base + i) == old(code) + StoreCode(targets, base)
      {
        assert targets[i..][1..] == targets[i + 1..];
        var _ := Emit(Move(targets[i], base + i));
      }
    }

    method DeclareLocals(newNames: seq<string>, base: nat) returns (r: Res<()>)
      modifies this`names, this`regs, this`nactvar
      ensures var w := PushLocals(old(TheScope()), newNames, base);
        if w.Fail? then r == Fail(w.reason) else r == Done(()) && TheScope() == w.value
    {
      assert newNames[0..] == newNames;
      for i := 0 to |newNames|
        invariant PushLocals(TheScope(), newNames[i..], base + i) == PushLocals(old(TheScope()), newNames, base)
      {
        assert newNames[i..][1..] == newNames[i + 1..];
        if nactvar + 1 > MAX_VARS {
          return Fail(TooManyLocals);
        }
        names := names + [newNames[i]];
        regs := regs + [base + i];
        nactvar := Max(nactvar, base + i + 1);
      }
      r := Done(());
    }

    /** Drops the locals past the first `n`, clears their registers and frees the temporaries. */
    method LeaveBlock(n: nat, ghost outer: Scope)
      requires n == |outer.regs| == |outer.names| && outer.names <= names && outer.regs <= regs && |names| == |regs|
      requires Snug(outer) && Increasing(regs)
      modifies this
      ensures TheScope() == outer && constants == old(constants)
      ensures code == old(code) + LeaveCode(outer, Frag([], old(TheScope()), [], old(regHwm), true, 0, 0))
      ensures freereg == nactvar && regHwm == Max(old(regHwm), outer.nactvar) && maxstack == old(maxstack)
    {
      if n < |regs| {
        var from, upTo := regs[n], regs[|regs| - 1];
        var clearTo := Max(upTo, if regHwm > 0 then regHwm - 1 else 0);
        if clearTo >= from {
          var _ := Emit(LoadNil(from, clearTo - from));
        }
      }
      names, regs := names[..n], regs[..n];
      nactvar := 0;
      for i := 0 to |regs|
        invariant names == outer.names && regs == outer.regs
        invariant nactvar == if i == 0 then 0 else regs[i - 1] + 1
        invariant constants == old(constants) && regHwm == old(regHwm) && maxstack == old(maxstack)
        invariant code == old(code) + LeaveCode(outer, Frag([], old(TheScope()), [], old(regHwm), true, 0, 0))
      {
        nactvar := Max(nactvar, regs[i] + 1);
      }
      freereg := nactvar;
      regHwm := Max(regHwm, freereg);
    }

    ghost predicate AtStatement()
      reads this`names, this`regs, this`nactvar, this`freereg
    {
      Scoped(TheScope()) && Snug(TheScope()) && freereg == nactvar
    }

    method Statement(st: Stmt) returns (r: Res<()>)
      requires AtStatement()
      modifies this
      ensures var w := LowerStmt(old(TheScope()), old(constants), old(regHwm), st);
        if w.Fail? then r == Fail(w.reason)
        else r == Done(()) && Generated(old(code), old(maxstack), w.value) && AtStatement()
      decreases StmtSize(st), 0
    {
      hide LowerValues, PushLocals, LowerIf, LowerBlock, Lowering.ToReg, Targets, Scoped;
      StmtScope(TheScope(), constants, regHwm, st);
      match st
      case Local(newNames, values) => r := LocalStatement(newNames, values);
      case Assign(vars, values) => r := AssignStatement(vars, values);
      case If(branches, otherwise) => r := IfStatement(branches, otherwise);
      case While(cond, body, marked) => r := WhileStatement(cond, body, marked);
      case Do(body) => r := Block(body);
    }

    method LocalStatement(newNames: seq<string>, values: seq<Expr>) returns (r: Res<()>)
      requires AtStatement()
      modifies this
      ensures var w := LowerStmt(old(TheScope()), old(constants), old(regHwm), Local(newNames, values));
        if w.Fail? then r == Fail(w.reason)
        else r == Done(()) && Generated(old(code), old(maxstack), w.value) && AtStatement()
    {
      hide LowerValues, PushLocals, Scoped, PadCode;
      StmtScope(TheScope(), constants, regHwm, Local(newNames, values));
      freereg := nactvar;
      var base := freereg;
      maxstack := Max(maxstack, base + |newNames|);
      r := ValueList(values, base);
      if r.Fail? {
        return;
      }
      Pad(base, |values|, |newNames|);
      r := DeclareLocals(newNames, base);
      freereg := nactvar;
    }

    method AssignStatement(vars: seq<string>, values: seq<Expr>) returns (r: Res<()>)
      requires AtStatement()
      modifies this
      ensures var w := LowerStmt(old(TheScope()), old(constants), old(regHwm), Assign(vars, values));
        if w.Fail? then r == Fail(w.reason)
        else r == Done(()) && Generated(old(code), old(maxstack), w.value) && AtStatement()
    {
      hide LowerValues, Targets, Scoped, PadCode, StoreCode;
      freereg := nactvar;
      var targets := LookupTargets(vars);
      if targets.Fail? {
        return Fail(targets.reason);
      }
      var base := freereg;
      maxstack := Max(maxstack, base + |vars|);
      r := ValueList(values, base);
      if r.Fail? {
        return;
      }
      Pad(base, |values|, |vars|);
      StoreAll(targets.value, base);
      freereg := nactvar;
    }

    method Block(body: seq<Stmt>) returns (r: Res<()>)
      requires AtStatement()
      modifies this
      ensures var w := LowerBlock(old(TheScope()), old(constants), old(regHwm), body);
        if w.Fail? then r == Fail(w.reason)
        else r == Done(()) && Generated(old(code), old(maxstack), w.value) && AtStatement()
      decreases BodySize(body), 2
    {
      hide LowerStmt, LowerSeq, Scoped;
      ghost var outer := TheScope();
      SeqScope(outer, constants, regHwm, body);
      var saved := |names|;
      r := Statements(body);
      if r.Fail? {
        return;
      }
      ScopedFacts(TheScope());
      ScopedFacts(outer);
      LeaveBlock(saved, outer);
    }

    method Statements(body: seq<Stmt>) returns (r: Res<()>)
      requires AtStatement()
      modifies this
      ensures var w := LowerSeq(old(TheScope()), old(constants), old(regHwm), body);
        if w.Fail? then r == Fail(w.reason)
        else r == Done(()) && Generated(old(code), old(maxstack), w.value) && AtStatement()
      decreases BodySize(body), 1
    {
      hide LowerStmt, Scoped;
      if body == [] {
        r := Done(());
      } else {
        r := Statement(body[0]);
        if r.Done? {
          r := Statements(body[1..]);
        }
      }
    }

    /** A condition, its test and the jump taken when it fails. */
    method Condition(cond: Expr) returns (r: Res<nat>)
      requires AtStatement()
      modifies this`code, this`constants, this`freereg, this`regHwm, this`maxstack
      ensures var c := Lowering.ToReg(TheScope(), nactvar, old(constants), cond);
        if c.Fail? then r == Fail(c.reason)
        else
          && code == old(code) + c.value.code + [Test(RegOf(c.value.desc), false), Jmp(0)] && r == Done(|code| - 1)
          && constants == c.value.ks && Raised(old(regHwm), old(maxstack), c.value.high) && freereg == nactvar
    {
      hide Lowering.ToReg, Scoped;
      var cr := ToReg(cond);
      if cr.Fail? {
        return Fail(cr.reason);
      }
      var _ := Emit(Test(cr.value, false));
      var jf := Emit(Jmp(0));
      freereg := nactvar;
      r := Done(jf);
    }

    method IfStatement(branches: seq<Branch>, otherwise: seq<Stmt>) returns (r: Res<()>)
      requires AtStatement()
      modifies this
      ensures var w := LowerIf(old(TheScope()), old(constants), old(regHwm), branches, otherwise);
        if w.Fail? then r == Fail(w.reason)
        else r == Done(()) && Generated(old(code), old(maxstack), w.value) && AtStatement()
      decreases BranchesSize(branches) + BodySize(otherwise), 3
    {
      hide Lowering.ToReg, LowerBlock, LowerBranch, LowerIf, BranchCode, Scoped;
      if branches == [] {
        IfNone(TheScope(), constants, regHwm, otherwise);
        r := Block(otherwise);
        return;
      }
      IfUnfold(TheScope(), constants, regHwm, branches, otherwise);
      ghost var c := Lowering.ToReg(TheScope(), nactvar, constants, branches[0].cond);
      ghost var b := LowerBranch(TheScope(), constants, regHwm, branches[0]);
      var je := OneBranch(branches[0]);
      if je.Fail? {
        return Fail(je.reason);
      }
      ghost var front := code[..je.value];
      assert code == front + [Jmp(0)];
      ghost var rest := LowerIf(TheScope(), constants, regHwm, branches[1..], otherwise);
      r := IfStatement(branches[1..], otherwise);
      if r.Fail? {
        return;
      }
      Patch(front, Jmp(0), rest.value.code, Jmp(Sbx16(|rest.value.code|)));
      FixJump(je.value, |code|);
      BranchPatched(old(code), front, c.value, b.value, rest.value.code);
    }

    /** One condition and its block, ending in a jump still to be aimed. */
    method OneBranch(branch: Branch) returns (je: Res<nat>)
      requires AtStatement()
      modifies this
      ensures var b := LowerBranch(old(TheScope()), old(constants), old(regHwm), branch);
        if b.Fail? then je == Fail(b.reason)
        else
          && AtStatement() && |code| > 0 && je == Done(|code| - 1) && code[|code| - 1] == Jmp(0)
            && TheScope() == old(TheScope())
          && var c := Lowering.ToReg(old(TheScope()), old(nactvar), old(constants), branch.cond).value;
             Generated(old(code), Max(old(maxstack), c.high), b.value.(code := BranchCode(c, b.value, 0)))
      decreases 1 + BodySize(branch.body), 0
    {
      hide Lowering.ToReg, LowerBlock, Scoped;
      var jf := Condition(branch.cond);
      if jf.Fail? {
        return Fail(jf.reason);
      }
      ghost var b := LowerBlock(TheScope(), constants, regHwm, branch.body);
      BlockScope(TheScope(), constants, regHwm, branch.body);
      ghost var head := code[..jf.value];
      var r := Block(branch.body);
      if r.Fail? {
        return Fail(r.reason);
      }
      var at := Emit(Jmp(0));
      FixJump(jf.value, |code|);
      assert code == head + [Jmp(Sbx16(|b.value.code| + 1))] + b.value.code + [Jmp(0)];
      je := Done(at);
    }

    method WhileStatement(cond: Expr, body: seq<Stmt>, marked: bool) returns (r: Res<()>)
      requires AtStatement()
      modifies this
      ensures var w := LowerStmt(old(TheScope()), old(constants), old(regHwm), While(cond, body, marked));
        if w.Fail? then r == Fail(w.reason)
        else r == Done(()) && Generated(old(code), old(maxstack), w.value) && AtStatement()
      decreases BodySize(body), 3
    {
      hide Lowering.ToReg, LowerBlock, Scoped;
      StmtScope(TheScope(), constants, regHwm, While(cond, body, marked));
      var loop := |code|;
      ghost var c := Lowering.ToReg(TheScope(), nactvar, constants, cond);
      var jf := Condition(cond);
      if jf.Fail? {
        return Fail(jf.reason);
      }
      ghost var b := LowerBlock(TheScope(), constants, regHwm, body);
      BlockScope(TheScope(), constants, regHwm, body);
      ghost var head := code[..jf.value];
      r := Block(body);
      if r.Fail? {
        return;
      }
      var _ := Emit(Jmp(Sbx16(loop - (|code| + 1))));
      var endMarker := |code|;
      FixJump(jf.value, endMarker);
      assert code == old(code) + LoopCode(c.value, b.value);
      if marked {
        r := EndMarker();
      }
    }

    /** The instruction that a loop ending in a line of its own leaves there. */
    method EndMarker() returns (r: Res<()>)
      requires freereg == nactvar
      modifies this`code, this`freereg, this`regHwm, this`maxstack
      ensures var w := Lowering.NewReg(nactvar);
        if w.Fail? then r == Fail(w.reason)
        else
          && r == Done(()) && code == old(code) + [LoadNil(nactvar, 0)] && freereg == nactvar
          && Raised(old(regHwm), old(maxstack), nactvar + 1)
    {
      var reg := NewReg();
      if reg.Fail? {
        return Fail(reg.reason);
      }
      var _ := Emit(LoadNil(reg.value, 0));
      freereg := nactvar;
      r := Done(());
    }
  }

  /** Compiles a whole chunk: its code and constants, and the size of its frame. */
  method CompileChunk(body: seq<Stmt>) returns (r: Res<Program>, frame: nat)
    ensures var w := LowerBlock(NO_LOCALS, [], 0, body);
      if w.Fail? then r == Fail(w.reason) else r == Done(Chunk(body)) && frame == FrameSize(body)
  {
    hide LowerBlock;
    var fs := new FuncState();
    var done := fs.Block(body);
    if done.Fail? {
      return Fail(done.reason), 0;
    }
    ghost var f := LowerBlock(NO_LOCALS, [], 0, body).value;
    assert fs.code == [] + f.code == f.code && fs.constants == f.ks;
    assert Program(fs.code, fs.constants) == Chunk(body);
    r, frame := Done(Program(fs.code, fs.constants)), Max(fs.maxstack, 2);
  }
}
