/**
 Running the code emitted for an expression computes what the expression means:
 the machine ends just past the code with the value (or the error) and with
 every register below the first free one unchanged.
 */
module LoweringProof {
  import opened Bytecode
  import opened Lang
  import opened Lowering

  // ----- The fragment: unary operators on locals and negated literals -----

  predicate IsLocalName(e: Expr)
  {
    match e case Name(_) => true case Paren(e1) => IsLocalName(e1) case _ => false
  }

  predicate IsNumeral(e: Expr)
  {
    match e
    case Const(v) => v.Int? || v.Float?
    case Paren(e1) => IsNumeral(e1)
    case Un(op, e1) => op == Neg && IsNumeral(e1)
    case _ => false
  }

  /** Every unary operator is applied to a local variable or negates a numeral. */
  predicate Safe(e: Expr)
  {
    match e
    case Const(_) => true
    case Name(_) => true
    case Paren(e1) => Safe(e1)
    case Un(op, e1) => IsLocalName(e1) || (op == Neg && IsNumeral(e1))
    case Bin(_, l, r) => Safe(l) && Safe(r)
  }

  // ----- Shape of the result -----

  predicate Scoped(s: Scope)
  {
    && |s.names| == |s.regs| && s.nactvar <= MAX_VARS
    && (forall i :: 0 <= i < |s.regs| ==> s.regs[i] < s.nactvar)
    && (forall i, j :: 0 <= i < j < |s.regs| ==> s.regs[i] < s.regs[j])
  }

  /** A constant or a local costs nothing; a temporary is the last register in use. */
  predicate WellShaped(s: Scope, free: nat, ks: seq<Value>, c: Code)
  {
    && ks <= c.ks
    && match c.desc
       case Constant(_) => c.code == [] && c.free == free && c.ks == ks
       case LocalVar(r) => r < s.nactvar && c.code == [] && c.free == free && c.ks == ks
       case Temp(r) => free <= r && c.free == r + 1 <= MAX_STACK - 1
  }

  lemma DischargeShape(s: Scope, free: nat, ks: seq<Value>, c: Code)
    requires WellShaped(s, free, ks, c) && Discharge(c).Done?
    ensures WellShaped(s, free, ks, Discharge(c).value) && !Discharge(c).value.desc.Constant?
    ensures c.code <= Discharge(c).value.code && c.ks <= Discharge(c).value.ks
  {
  }

  lemma {:induction false} NumeralShape(s: Scope, free: nat, ks: seq<Value>, e: Expr)
    requires IsNumeral(e)
    ensures Lower(s, free, ks, e).Done? && Lower(s, free, ks, e).value.desc.Constant?
    ensures var c := Lower(s, free, ks, e).value; WellShaped(s, free, ks, c) && (c.desc.k.Int? || c.desc.k.Float?)
    decreases e
  {
    match e
    case Const(_) =>
    case Paren(e1) => NumeralShape(s, free, ks, e1);
    case Un(_, e1) => NumeralShape(s, free, ks, e1);
  }

  lemma {:induction false} LocalShape(s: Scope, free: nat, ks: seq<Value>, e: Expr)
    requires IsLocalName(e) && Scoped(s) && Lower(s, free, ks, e).Done?
    ensures Lower(s, free, ks, e).value.desc.LocalVar?
    ensures WellShaped(s, free, ks, Lower(s, free, ks, e).value)
    decreases e
  {
    match e
    case Name(_) =>
    case Paren(e1) => LocalShape(s, free, ks, e1);
  }

  lemma LowerShape(s: Scope, free: nat, ks: seq<Value>, e: Expr)
    requires Scoped(s) && s.nactvar <= free && Safe(e) && Lower(s, free, ks, e).Done?
    ensures WellShaped(s, free, ks, Lower(s, free, ks, e).value)
    decreases Size(e), 0
  {
    hide LowerTwoTests, LowerLogic, Pair;
    match e
    case Const(_) =>
    case Name(_) =>
    case Paren(e1) => LowerShape(s, free, ks, e1);
    case Un(op, e1) =>
      if IsLocalName(e1) {
        LocalShape(s, free, ks, e1);
      } else {
        NumeralShape(s, free, ks, e1);
      }
    case Bin(op, l, r) =>
      if op == And && IsRel(l) && IsRel(r) {
        TwoTestsShape(s, free, ks, l, r);
      } else if op == And || op == Or {
        LogicShape(s, free, ks, op == Or, l, r);
      } else {
        PairShape(s, free, ks, l, r);
      }
  }

  lemma TwoTestsShape(s: Scope, free: nat, ks: seq<Value>, l: Expr, r: Expr)
    requires Scoped(s) && s.nactvar <= free && Safe(l) && Safe(r) && IsRel(l) && IsRel(r)
    requires LowerTwoTests(s, free, ks, l, r).Done?
    ensures WellShaped(s, free, ks, LowerTwoTests(s, free, ks, l, r).value)
    decreases Size(l) + Size(r), 3
  {
    hide Pair;
    PairShape(s, free, ks, l.l, l.r);
    PairShape(s, free, Pair(s, free, ks, l.l, l.r).value.ks, r.l, r.r);
  }

  lemma LogicShape(s: Scope, free: nat, ks: seq<Value>, isOr: bool, l: Expr, r: Expr)
    requires Scoped(s) && s.nactvar <= free && Safe(l) && Safe(r) && LowerLogic(s, free, ks, isOr, l, r).Done?
    ensures WellShaped(s, free, ks, LowerLogic(s, free, ks, isOr, l, r).value)
    decreases Size(l) + Size(r), 3
  {
    hide ToReg;
    ToRegShape(s, free, ks, l);
    var a := ToReg(s, free, ks, l).value;
    ToRegShape(s, a.free + 1, a.ks, r);
  }

  lemma ToRegShape(s: Scope, free: nat, ks: seq<Value>, e: Expr)
    requires Scoped(s) && s.nactvar <= free && Safe(e) && ToReg(s, free, ks, e).Done?
    ensures var c := ToReg(s, free, ks, e).value;
      WellShaped(s, free, ks, c) && !c.desc.Constant? && free <= c.free && RegOf(c.desc) < c.free
    decreases Size(e), 1
  {
    LowerShape(s, free, ks, e);
    DischargeShape(s, free, ks, Lower(s, free, ks, e).value);
  }

  lemma PairShape(s: Scope, free: nat, ks: seq<Value>, l: Expr, r: Expr)
    requires Scoped(s) && s.nactvar <= free && Safe(l) && Safe(r) && Pair(s, free, ks, l, r).Done?
    ensures var p := Pair(s, free, ks, l, r).value;
      && ks <= p.ks && free <= p.free && p.left < p.free && p.right < p.free
      && (p.left < s.nactvar || (free <= p.left && p.left < MAX_STACK - 1))
      && (p.right < s.nactvar || (free <= p.right && p.right < MAX_STACK - 1))
    decreases Size(l) + Size(r), 2
  {
    ToRegShape(s, free, ks, l);
    var a := ToReg(s, free, ks, l).value;
    ToRegShape(s, a.free, a.ks, r);
  }

  // ----- Simulation -----

  /** A program running in a frame whose locals hold the bindings of `env`. */
  datatype Machine = Machine(p: Program, ops: Ops, s: Scope, env: Env)

  /** The bit patterns differ in the top bit alone. */
  predicate SignFlipped(b: Bits64, c: Bits64) { b != c && b % 0x8000_0000_0000_0000 == c % 0x8000_0000_0000_0000 }

  /** The operators negate integers within 64 bits, where the least one has no opposite, and floats by the top bit. */
  ghost predicate NegatesNumbers(ops: Ops)
  {
    && (forall n: Int64 :: n > -0x8000_0000_0000_0000 ==> ops.unary(Neg, Int(n)) == Ok(Int(0 - n)))
    && ops.unary(Neg, Int(-0x8000_0000_0000_0000)) == Ok(Int(-0x8000_0000_0000_0000))
    && (forall b: Bits64, c: Bits64 :: SignFlipped(b, c) ==> ops.unary(Neg, Float(b)) == Ok(Float(c)))
  }

  lemma NegFloatIs(b: Bits64, c: Bits64)
    requires SignFlipped(b, c)
    ensures NegFloat(b) == c
  {
    assert b / 0x8000_0000_0000_0000 != c / 0x8000_0000_0000_0000;
  }

  /** The literal folder does what the operators do. */
  lemma NegatedIsNeg(ops: Ops, k: Value)
    requires NegatesNumbers(ops) && (k.Int? || k.Float?)
    ensures ops.unary(Neg, k) == Ok(Negated(k))
  {
    if k.Float? {
      assert SignFlipped(k.bits, NegFloat(k.bits));
    }
  }

  predicate Agrees(s: Scope, env: Env, regs: Regs)
    requires Scoped(s)
  {
    && NamesOf(env) == s.names
    && forall i :: 0 <= i < |s.regs| ==> regs[s.regs[i]] == env[i].value
  }

  ghost predicate Ready(m: Machine, regs: Regs)
  {
    Scoped(m.s) && |m.p.constants| <= MAX_BX && NegatesNumbers(m.ops) && Agrees(m.s, m.env, regs)
  }

  ghost predicate Loaded(m: Machine, pc: nat, code: seq<Instr>, ks: seq<Value>)
  {
    At(m.p, pc, code) && |code| < 32768 && ks <= m.p.constants
  }

  function ValueOf(d: Desc, regs: Regs): Value
  {
    match d case Constant(k) => k case LocalVar(r) => Get(regs, r) case Temp(r) => Get(regs, r)
  }

  /** The configuration `c` is the outcome `res`, delivered at `pc` in `d` with registers below `free` kept. */
  ghost predicate Delivers(res: Result<Value>, c: Config, pc: int, d: Desc, regs: Regs, free: nat)
  {
    match res
    case Ok(v) => c.Running? && c.pc == pc && ValueOf(d, c.regs) == v && SameBelow(regs, c.regs, free)
    case Error(msg) => c == Failed(msg)
  }

  /** What is delivered from a later configuration is delivered from the start. */
  lemma DeliversLater(m: Machine, res: Result<Value>, c: Config, n: nat, k: nat, pc: int, d: Desc, regs: Regs,
                      free: nat, free': nat)
    requires Run(m.p, m.ops, c, n).Running? && SameBelow(regs, Run(m.p, m.ops, c, n).regs, free) && free <= free'
    requires Delivers(res, Run(m.p, m.ops, Run(m.p, m.ops, c, n), k), pc, d, Run(m.p, m.ops, c, n).regs, free')
    ensures Delivers(res, Run(m.p, m.ops, c, n + k), pc, d, regs, free)
  {
    RunAdds(m.p, m.ops, c, n, k);
  }

  lemma ReadyKept(m: Machine, regs: Regs, regs': Regs, free: nat)
    requires Ready(m, regs) && SameBelow(regs, regs', free) && m.s.nactvar <= free
    ensures Ready(m, regs')
  {
  }

  function Start(pc: int, regs: Regs): Config { Running(pc, regs) }

  lemma {:induction false} NumeralEval(m: Machine, free: nat, ks: seq<Value>, e: Expr)
    requires IsNumeral(e) && NegatesNumbers(m.ops)
    ensures Lower(m.s, free, ks, e).Done? && Lower(m.s, free, ks, e).value.desc.Constant?
    ensures Eval(e, m.env, m.ops) == Ok(Lower(m.s, free, ks, e).value.desc.k)
    decreases e
  {
    hide NegatesNumbers, Negated;
    NumeralShape(m.s, free, ks, e);
    match e
    case Const(_) =>
    case Paren(e1) => NumeralEval(m, free, ks, e1);
    case Un(_, e1) =>
      NumeralEval(m, free, ks, e1);
      NumeralShape(m.s, free, ks, e1);
      NegatedIsNeg(m.ops, Lower(m.s, free, ks, e1).value.desc.k);
  }

  lemma {:induction false} LocalEval(m: Machine, free: nat, ks: seq<Value>, e: Expr, regs: Regs)
    requires IsLocalName(e) && Scoped(m.s) && Agrees(m.s, m.env, regs) && Lower(m.s, free, ks, e).Done?
    ensures var c := Lower(m.s, free, ks, e).value;
      c.desc.LocalVar? && Eval(e, m.env, m.ops) == Ok(ValueOf(c.desc, regs))
    decreases e
  {
    match e
    case Name(_) =>
    case Paren(e1) => LocalEval(m, free, ks, e1, regs);
  }

  lemma UnaryCorrect(m: Machine, free: nat, ks: seq<Value>, op: UnOp, e: Expr, pc: nat, regs: Regs) returns (n: nat)
    requires Ready(m, regs) && m.s.nactvar <= free && Safe(Un(op, e))
    requires Lower(m.s, free, ks, Un(op, e)).Done?
    requires Loaded(m, pc, Lower(m.s, free, ks, Un(op, e)).value.code, Lower(m.s, free, ks, Un(op, e)).value.ks)
    ensures var c := Lower(m.s, free, ks, Un(op, e)).value;
      Delivers(Eval(Un(op, e), m.env, m.ops), Run(m.p, m.ops, Start(pc, regs), n), pc + |c.code|, c.desc, regs, free)
  {
    hide NegatesNumbers, Negated;
    if IsLocalName(e) {
      LocalShape(m.s, free, ks, e);
      LocalEval(m, free, ks, e, regs);
      var c := Lower(m.s, free, ks, Un(op, e)).value;
      AtIndex(m.p, pc, c.code, 0);
      RunFew(m.p, m.ops, Start(pc, regs));
      n := 1;
    } else {
      NumeralShape(m.s, free, ks, e);
      NumeralEval(m, free, ks, e);
      NegatedIsNeg(m.ops, Lower(m.s, free, ks, e).value.desc.k);
      n := 0;
    }
  }

  /** Loading a constant, with the table it is in a prefix of the program's. */
  lemma LoadStep(m: Machine, r: nat, k: Value, ks: seq<Value>, pc: nat, regs: Regs)
    requires At(m.p, pc, [LoadConst(r, k, ks)]) && r < 256 && |m.p.constants| <= MAX_BX
    requires (if NeedsConstant(k) then WithConst(ks, k) else ks) <= m.p.constants
    ensures Run(m.p, m.ops, Start(pc, regs), 1) == Start(pc + 1, regs[r := k])
  {
    hide ConstIndex;
    AtIndex(m.p, pc, [LoadConst(r, k, ks)], 0);
    RunFew(m.p, m.ops, Start(pc, regs));
    assert Reg8(r) == r;
    forall i | 0 <= i < 256 ensures ClearRange(regs, r, 0)[i] == regs[r := Nil][i] {
    }
    assert ClearRange(regs, r, 0) == regs[r := Nil];
  }

  lemma DischargeCorrect(m: Machine, c: Code, v: Value, pc: nat, regs: Regs) returns (n: nat)
    requires |m.p.constants| <= MAX_BX && Discharge(c).Done? && ValueOf(c.desc, regs) == v
    requires At(m.p, pc, Discharge(c).value.code[|c.code|..]) && Discharge(c).value.ks <= m.p.constants
    ensures var d := Discharge(c).value;
      Delivers(Ok(v), Run(m.p, m.ops, Start(pc, regs), n), pc + |d.code| - |c.code|, d.desc, regs, c.free)
  {
    hide LoadConst, Run, WithConst, NeedsConstant;
    if c.desc.Constant? {
      var d := Discharge(c).value;
      assert d.code[|c.code|..] == [LoadConst(RegOf(d.desc), v, c.ks)];
      LoadStep(m, RegOf(d.desc), v, c.ks, pc, regs);
      assert Reg8(c.free) == c.free && |d.code| == |c.code| + 1;
      n := 1;
    } else {
      n := StayPut(m, pc, regs);
    }
  }

  lemma ToRegCorrect(m: Machine, free: nat, ks: seq<Value>, e: Expr, pc: nat, regs: Regs) returns (n: nat)
    requires Ready(m, regs) && m.s.nactvar <= free && Safe(e)
    requires ToReg(m.s, free, ks, e).Done?
    requires Loaded(m, pc, ToReg(m.s, free, ks, e).value.code, ToReg(m.s, free, ks, e).value.ks)
    ensures var c := ToReg(m.s, free, ks, e).value;
      Delivers(Eval(e, m.env, m.ops), Run(m.p, m.ops, Start(pc, regs), n), pc + |c.code|, c.desc, regs, free)
    decreases Size(e), 1
  {
    hide Lower, Eval, Run, At, NegatesNumbers, Agrees, Discharge, Delivers;
    var c, d := Lower(m.s, free, ks, e).value, ToReg(m.s, free, ks, e).value;
    LowerShape(m.s, free, ks, e);
    DischargeShape(m.s, free, ks, c);
    assert d.code == c.code + d.code[|c.code|..];
    AtSplit(m.p, pc, c.code, d.code[|c.code|..]);
    n := LowerCorrect(m, free, ks, e, pc, regs);
    n := FinishToReg(m, free, ks, c, Eval(e, m.env, m.ops), pc, regs, n);
  }

  lemma FinishToReg(m: Machine, free: nat, ks: seq<Value>, c: Code, res: Result<Value>, pc: nat, regs: Regs, n: nat)
    returns (n': nat)
    requires WellShaped(m.s, free, ks, c) && Discharge(c).Done? && |m.p.constants| <= MAX_BX
    requires Delivers(res, Run(m.p, m.ops, Start(pc, regs), n), pc + |c.code|, c.desc, regs, free)
    requires c.code <= Discharge(c).value.code && Discharge(c).value.ks <= m.p.constants
    requires At(m.p, pc + |c.code|, Discharge(c).value.code[|c.code|..])
    ensures var d := Discharge(c).value;
      Delivers(res, Run(m.p, m.ops, Start(pc, regs), n'), pc + |d.code|, d.desc, regs, free)
  {
    hide Run, At;
    var mid := Run(m.p, m.ops, Start(pc, regs), n);
    n' := n;
    if res.Ok? {
      var k := DischargeCorrect(m, c, res.value, pc + |c.code|, mid.regs);
      DeliversLater(m, res, Start(pc, regs), n, k, pc + |Discharge(c).value.code|, Discharge(c).value.desc, regs, free,
                    c.free);
      n' := n + k;
    }
  }

  lemma LowerCorrect(m: Machine, free: nat, ks: seq<Value>, e: Expr, pc: nat, regs: Regs) returns (n: nat)
    requires Ready(m, regs) && m.s.nactvar <= free && Safe(e)
    requires Lower(m.s, free, ks, e).Done?
    requires Loaded(m, pc, Lower(m.s, free, ks, e).value.code, Lower(m.s, free, ks, e).value.ks)
    ensures var c := Lower(m.s, free, ks, e).value;
      Delivers(Eval(e, m.env, m.ops), Run(m.p, m.ops, Start(pc, regs), n), pc + |c.code|, c.desc, regs, free)
    decreases Size(e), 0
  {
    hide LowerTwoTests, LowerLogic, LowerStrict, Run;
    match e
    case Const(_) => n := StayPut(m, pc, regs);
    case Name(_) =>
      LocalEval(m, free, ks, e, regs);
      n := StayPut(m, pc, regs);
    case Paren(e1) => n := LowerCorrect(m, free, ks, e1, pc, regs);
    case Un(op, e1) => n := UnaryCorrect(m, free, ks, op, e1, pc, regs);
    case Bin(op, l, r) =>
      if op == And && IsRel(l) && IsRel(r) {
        n := TwoTestsCorrect(m, free, ks, l, r, pc, regs);
      } else if op == And || op == Or {
        n := LogicCorrect(m, free, ks, op, l, r, pc, regs);
      } else {
        n := StrictCorrect(m, free, ks, op, l, r, pc, regs);
      }
  }

  lemma StayPut(m: Machine, pc: nat, regs: Regs) returns (n: nat)
    ensures Run(m.p, m.ops, Start(pc, regs), n) == Start(pc, regs)
  {
    n := 0;
  }

  // ----- Two operands -----

  /** The outcome of evaluating two operands in order. */
  function EvalPair(l: Expr, r: Expr, env: Env, ops: Ops): Result<(Value, Value)>
  {
    match Eval(l, env, ops)
    case Error(msg) => Error(msg)
    case Ok(a) =>
      match Eval(r, env, ops)
      case Error(msg) => Error(msg)
      case Ok(b) => Ok((a, b))
  }

  ghost predicate DeliversPair(res: Result<(Value, Value)>, c: Config, pc: int, o: Operands, regs: Regs, free: nat)
  {
    match res
    case Ok(ab) =>
      && c.Running? && c.pc == pc && Get(c.regs, o.left) == ab.0 && Get(c.regs, o.right) == ab.1
      && SameBelow(regs, c.regs, free)
    case Error(msg) => c == Failed(msg)
  }

  lemma PairCorrect(m: Machine, free: nat, ks: seq<Value>, l: Expr, r: Expr, pc: nat, regs: Regs) returns (n: nat)
    requires Ready(m, regs) && m.s.nactvar <= free && Safe(l) && Safe(r)
    requires Pair(m.s, free, ks, l, r).Done?
    requires Loaded(m, pc, Pair(m.s, free, ks, l, r).value.code, Pair(m.s, free, ks, l, r).value.ks)
    ensures var o := Pair(m.s, free, ks, l, r).value;
      DeliversPair(EvalPair(l, r, m.env, m.ops), Run(m.p, m.ops, Start(pc, regs), n), pc + |o.code|, o, regs, free)
    decreases Size(l) + Size(r), 2
  {
    hide ToReg, Eval, Run, At, NegatesNumbers, Agrees, SameBelow;
    var a := ToReg(m.s, free, ks, l).value;
    var b := ToReg(m.s, a.free, a.ks, r).value;
    ToRegShape(m.s, free, ks, l);
    ToRegShape(m.s, a.free, a.ks, r);
    AtSplit(m.p, pc, a.code, b.code);
    n := ToRegCorrect(m, free, ks, l, pc, regs);
    if Eval(l, m.env, m.ops).Ok? {
      var mid := Run(m.p, m.ops, Start(pc, regs), n);
      ReadyKept(m, regs, mid.regs, free);
      var k := ToRegCorrect(m, a.free, a.ks, r, pc + |a.code|, mid.regs);
      RunAdds(m.p, m.ops, Start(pc, regs), n, k);
      PairDelivers(Eval(r, m.env, m.ops), Run(m.p, m.ops, Start(pc, regs), n + k), pc + |a.code| + |b.code|,
                   RegOf(a.desc), b, mid.regs, regs, free, a.free);
      n := n + k;
    }
  }

  /** The second operand's code leaves the first operand alone if its register is below the free ones. */
  lemma PairDelivers(res: Result<Value>, c: Config, pc: int, left: nat, b: Code, mid: Regs, regs: Regs, free: nat,
                     free': nat)
    requires Delivers(res, c, pc, b.desc, mid, free') && !b.desc.Constant?
    requires left < free' && left < 256 && free <= free' && SameBelow(regs, mid, free)
    ensures match res
      case Ok(v) =>
        && c.Running? && c.pc == pc && Get(c.regs, left) == Get(mid, left) && Get(c.regs, RegOf(b.desc)) == v
        && SameBelow(regs, c.regs, free)
      case Error(msg) => c == Failed(msg)
  {
  }

  // ----- Operators that need both operands -----

  lemma CompareStep(m: Machine, rel: RelOp, want: bool, rb: nat, rc: nat, pc: nat, regs: Regs)
    requires pc < |m.p.code| && m.p.code[pc] == CompareInstr(rel, want, rb, rc)
    ensures match Relate(m.ops, rel, Get(regs, rb), Get(regs, rc))
      case Ok(t) => Step(m.p, m.ops, Start(pc, regs)) == Start(if t != want then pc + 2 else pc + 1, regs)
      case Error(msg) => Step(m.p, m.ops, Start(pc, regs)) == Failed(msg)
  {
  }

  lemma ArithTail(m: Machine, op: Bytecode.ArithOp, dest: nat, b: nat, c: nat, pc: nat, regs: Regs, free: nat)
    requires At(m.p, pc, [Arith(op, dest, b, c)]) && free <= dest < 256
    ensures Delivers(m.ops.arith(op, Get(regs, b), Get(regs, c)), Run(m.p, m.ops, Start(pc, regs), 1),
                     pc + 1, Temp(dest), regs, free)
  {
    AtIndex(m.p, pc, [Arith(op, dest, b, c)], 0);
    RunFew(m.p, m.ops, Start(pc, regs));
  }

  lemma ConcatTail(m: Machine, dest: nat, b: nat, c: nat, pc: nat, regs: Regs, free: nat) returns (n: nat)
    requires At(m.p, pc, StrictCode(ConcatOp, dest, b, c))
    requires free <= dest < 255 && b < 256 && c < 256 && (c != dest || b == dest)
    ensures Delivers(m.ops.concat(Get(regs, b), Get(regs, c)), Run(m.p, m.ops, Start(pc, regs), n),
                     pc + |StrictCode(ConcatOp, dest, b, c)|, Temp(dest), regs, free)
  {
    hide At, Run, Step, InSlots, StrictCode, Delivers;
    n := ConcatMoves(m, dest, b, c, pc, regs);
    var r := InSlots(regs, dest, b, c);
    ConcatStep(m, dest, pc + n, r);
    RunAdds(m.p, m.ops, Start(pc, regs), n, 1);
    ConcatResult(m, dest, b, c, pc + n + 1, regs, free);
    n := n + 1;
  }

  /** The registers with both operands in their slots. */
  function InSlots(regs: Regs, dest: nat, b: nat, c: nat): Regs
    requires dest < 255 && b < 256 && c < 256
  {
    var r := if b != dest then regs[dest := regs[b]] else regs;
    if c != dest + 1 then r[dest + 1 := r[c]] else r
  }

  lemma ConcatMoves(m: Machine, dest: nat, b: nat, c: nat, pc: nat, regs: Regs) returns (n: nat)
    requires At(m.p, pc, StrictCode(ConcatOp, dest, b, c)) && dest < 255 && b < 256 && c < 256
    ensures |StrictCode(ConcatOp, dest, b, c)| == n + 1 && At(m.p, pc + n, [Concat(dest, dest, dest + 1)])
    ensures Run(m.p, m.ops, Start(pc, regs), n) == Start(pc + n, InSlots(regs, dest, b, c))
  {
    hide At, Run, Step;
    var first := if b != dest then [Move(dest, b)] else [];
    var second := if c != dest + 1 then [Move(dest + 1, c)] else [];
    AtSplit(m.p, pc, first + second, [Concat(dest, dest, dest + 1)]);
    AtSplit(m.p, pc, first, second);
    var r1 := if b != dest then regs[dest := regs[b]] else regs;
    var n1 := MaybeMove(m, dest, b, pc, regs, r1);
    var n2 := MaybeMove(m, dest + 1, c, pc + n1, r1, InSlots(regs, dest, b, c));
    RunAdds(m.p, m.ops, Start(pc, regs), n1, n2);
    n := n1 + n2;
  }

  lemma ConcatResult(m: Machine, dest: nat, b: nat, c: nat, pc: nat, regs: Regs, free: nat)
    requires free <= dest < 255 && b < 256 && c < 256 && (c != dest || b == dest)
    ensures var r := InSlots(regs, dest, b, c);
      Delivers(m.ops.concat(Get(regs, b), Get(regs, c)),
               Store(r, dest, m.ops.concat(Get(r, dest), Get(r, dest + 1)), pc), pc, Temp(dest), regs, free)
  {
    var r := InSlots(regs, dest, b, c);
    assert Get(r, dest) == Get(regs, b) && Get(r, dest + 1) == Get(regs, c);
    assert SameBelow(regs, r, free);
  }

  lemma ConcatStep(m: Machine, dest: nat, pc: nat, regs: Regs)
    requires At(m.p, pc, [Concat(dest, dest, dest + 1)])
    ensures Run(m.p, m.ops, Start(pc, regs), 1) ==
      Store(regs, dest, m.ops.concat(Get(regs, dest), Get(regs, dest + 1)), pc + 1)
  {
    AtIndex(m.p, pc, [Concat(dest, dest, dest + 1)], 0);
    RunFew(m.p, m.ops, Start(pc, regs));
  }

  /** A move that is left out when its operand is in place. */
  lemma MaybeMove(m: Machine, dest: nat, src: nat, pc: nat, regs: Regs, after: Regs) returns (n: nat)
    requires At(m.p, pc, if src != dest then [Move(dest, src)] else []) && dest < 256 && src < 256
    requires after == if src != dest then regs[dest := regs[src]] else regs
    ensures n == (if src != dest then 1 else 0) && Run(m.p, m.ops, Start(pc, regs), n) == Start(pc + n, after)
  {
    n := 0;
    if src != dest {
      n := 1;
      AtIndex(m.p, pc, [Move(dest, src)], 0);
      RunFew(m.p, m.ops, Start(pc, regs));
    }
  }

  lemma RelTail(m: Machine, rel: RelOp, dest: nat, b: nat, c: nat, pc: nat, regs: Regs, free: nat) returns (n: nat)
    requires At(m.p, pc,
      [CompareInstr(rel, true, b, c), Jmp(Sbx16(1)), LoadBool(dest, false, true), LoadBool(dest, true, false)])
    requires free <= dest < 256
    ensures var res :=
        match Relate(m.ops, rel, Get(regs, b), Get(regs, c))
        case Ok(t) => Ok(Bool(t))
        case Error(msg) => Error(msg);
      Delivers(res, Run(m.p, m.ops, Start(pc, regs), n), pc + 4, Temp(dest), regs, free)
  {
    var code :=
      [CompareInstr(rel, true, b, c), Jmp(Sbx16(1)), LoadBool(dest, false, true), LoadBool(dest, true, false)];
    AtIndex(m.p, pc, code, 0);
    AtIndex(m.p, pc, code, 1);
    AtIndex(m.p, pc, code, 2);
    AtIndex(m.p, pc, code, 3);
    RunFew(m.p, m.ops, Start(pc, regs));
    CompareStep(m, rel, true, b, c, pc, regs);
    match Relate(m.ops, rel, Get(regs, b), Get(regs, c))
    case Error(_) => n := 1;
    case Ok(t) => n := if t then 3 else 2;
  }

  function Apply(ops: Ops, op: BinOp, a: Value, b: Value): Result<Value>
  {
    match op
    case ArithOp(o) => ops.arith(o, a, b)
    case ConcatOp => ops.concat(a, b)
    case Rel(rel) => (match Relate(ops, rel, a, b) case Ok(t) => Ok(Bool(t)) case Error(msg) => Error(msg))
    case And => Ok(b)
    case Or => Ok(b)
  }

  lemma {:induction false} StrictMeaning(op: BinOp, l: Expr, r: Expr, env: Env, ops: Ops)
    requires op != And && op != Or
    ensures EvalPair(l, r, env, ops).Error? ==>
      Eval(Bin(op, l, r), env, ops) == Error(EvalPair(l, r, env, ops).message)
    ensures EvalPair(l, r, env, ops).Ok? ==>
      Eval(Bin(op, l, r), env, ops) ==
        Apply(ops, op, EvalPair(l, r, env, ops).value.0, EvalPair(l, r, env, ops).value.1)
  {
  }

  /** From registers that hold both operands, the operator's code delivers its result. */
  lemma StrictFinish(m: Machine, free: nat, op: BinOp, dest: nat, b: nat, c: nat, pc: nat, regs: Regs) returns (n: nat)
    requires op != And && op != Or && At(m.p, pc, StrictCode(op, dest, b, c))
    requires free <= dest < 255 && b < 256 && c < 256 && (op.ConcatOp? ==> c != dest || b == dest)
    ensures Delivers(Apply(m.ops, op, Get(regs, b), Get(regs, c)), Run(m.p, m.ops, Start(pc, regs), n),
                     pc + |StrictCode(op, dest, b, c)|, Temp(dest), regs, free)
  {
    hide Run, At, Step, Relate;
    match op {
      case ArithOp(a) =>
        ArithTail(m, a, dest, b, c, pc, regs, free);
        n := 1;
      case ConcatOp =>
        n := ConcatTail(m, dest, b, c, pc, regs, free);
      case Rel(rel) =>
        n := RelTail(m, rel, dest, b, c, pc, regs, free);
    }
  }

  lemma StrictCorrect(m: Machine, free: nat, ks: seq<Value>, op: BinOp, l: Expr, r: Expr, pc: nat, regs: Regs)
    returns (n: nat)
    requires Ready(m, regs) && m.s.nactvar <= free && Safe(l) && Safe(r) && op != And && op != Or
    requires LowerStrict(m.s, free, ks, op, l, r).Done?
    requires var c := LowerStrict(m.s, free, ks, op, l, r).value; Loaded(m, pc, c.code, c.ks)
    ensures var c := LowerStrict(m.s, free, ks, op, l, r).value;
      Delivers(Eval(Bin(op, l, r), m.env, m.ops), Run(m.p, m.ops, Start(pc, regs), n), pc + |c.code|, c.desc, regs,
               free)
    decreases Size(l) + Size(r), 3
  {
    hide Pair, Run, At, Eval, EvalPair, StrictCode, Apply, NegatesNumbers, Agrees;
    StrictMeaning(op, l, r, m.env, m.ops);
    var o := Pair(m.s, free, ks, l, r).value;
    var dest := StrictDest(m.s, op, o).value;
    PairShape(m.s, free, ks, l, r);
    AtSplit(m.p, pc, o.code, StrictCode(op, dest, o.left, o.right));
    n := PairCorrect(m, free, ks, l, r, pc, regs);
    n := StrictRest(m, free, op, o, dest, EvalPair(l, r, m.env, m.ops), pc, regs, n);
  }

  /** The operator's code after the code of its operands. */
  lemma StrictRest(m: Machine, free: nat, op: BinOp, o: Operands, dest: nat, ab: Result<(Value, Value)>, pc: nat,
                   regs: Regs, n: nat) returns (n': nat)
    requires op != And && op != Or && free <= dest < 255 && o.left < 256 && o.right < 256
    requires op.ConcatOp? ==> o.right != dest || o.left == dest
    requires At(m.p, pc + |o.code|, StrictCode(op, dest, o.left, o.right))
    requires DeliversPair(ab, Run(m.p, m.ops, Start(pc, regs), n), pc + |o.code|, o, regs, free)
    ensures var res := match ab case Ok(v) => Apply(m.ops, op, v.0, v.1) case Error(msg) => Error(msg);
      Delivers(res, Run(m.p, m.ops, Start(pc, regs), n'), pc + |o.code + StrictCode(op, dest, o.left, o.right)|,
               Temp(dest), regs, free)
  {
    hide Run, At, StrictCode, Apply;
    n' := n;
    if ab.Ok? {
      var mid := Run(m.p, m.ops, Start(pc, regs), n);
      var k := StrictFinish(m, free, op, dest, o.left, o.right, pc + |o.code|, mid.regs);
      DeliversLater(m, Apply(m.ops, op, ab.value.0, ab.value.1), Start(pc, regs), n, k,
                    pc + |o.code + StrictCode(op, dest, o.left, o.right)|, Temp(dest), regs, free, free);
      n' := n + k;
    }
  }

  // ----- Short circuits -----

  /** `dest := left; test; jump` lands past the code or just after the jump. */
  lemma LogicHead(m: Machine, isOr: bool, dest: nat, left: nat, skip: int, pc: nat, regs: Regs)
    requires At(m.p, pc, [Move(dest, left), Test(dest, isOr), Jmp(skip)]) && dest < 256
    ensures var regs' := regs[dest := Get(regs, left)];
      && (Truthy(Get(regs, left)) == isOr ==> Run(m.p, m.ops, Start(pc, regs), 3) == Start(pc + 3 + skip, regs'))
      && (Truthy(Get(regs, left)) != isOr ==> Run(m.p, m.ops, Start(pc, regs), 2) == Start(pc + 3, regs'))
  {
    var code := [Move(dest, left), Test(dest, isOr), Jmp(skip)];
    AtIndex(m.p, pc, code, 0);
    AtIndex(m.p, pc, code, 1);
    AtIndex(m.p, pc, code, 2);
    RunFew(m.p, m.ops, Start(pc, regs));
  }

  /** The right operand, moved to `dest` unless it is there. */
  lemma LogicRest(m: Machine, dest: nat, ks: seq<Value>, r: Expr, pc: nat, regs: Regs) returns (n: nat)
    requires Ready(m, regs) && m.s.nactvar <= dest < 256 && Safe(r) && ToReg(m.s, dest + 1, ks, r).Done?
    requires var b := ToReg(m.s, dest + 1, ks, r).value;
      Loaded(m, pc, b.code + (if RegOf(b.desc) != dest then [Move(dest, RegOf(b.desc))] else []), b.ks)
    ensures var b := ToReg(m.s, dest + 1, ks, r).value;
      Delivers(Eval(r, m.env, m.ops), Run(m.p, m.ops, Start(pc, regs), n),
               pc + |b.code + (if RegOf(b.desc) != dest then [Move(dest, RegOf(b.desc))] else [])|, Temp(dest),
               regs, dest)
    decreases Size(r), 2
  {
    hide ToReg, Eval, Run, Step, At, NegatesNumbers, Agrees;
    var b := ToReg(m.s, dest + 1, ks, r).value;
    var move := if RegOf(b.desc) != dest then [Move(dest, RegOf(b.desc))] else [];
    AtSplit(m.p, pc, b.code, move);
    ToRegShape(m.s, dest + 1, ks, r);
    n := ToRegCorrect(m, dest + 1, ks, r, pc, regs);
    if Eval(r, m.env, m.ops).Ok? && move != [] {
      var mid := Run(m.p, m.ops, Start(pc, regs), n);
      MoveStep(m, dest, RegOf(b.desc), pc + |b.code|, mid.regs);
      DeliversLater(m, Eval(r, m.env, m.ops), Start(pc, regs), n, 1, pc + |b.code| + 1, Temp(dest), regs, dest, dest);
      n := n + 1;
    }
  }

  lemma MoveStep(m: Machine, dest: nat, src: nat, pc: nat, regs: Regs)
    requires At(m.p, pc, [Move(dest, src)]) && dest < 256
    ensures Run(m.p, m.ops, Start(pc, regs), 1) == Start(pc + 1, regs[dest := Get(regs, src)])
  {
    AtIndex(m.p, pc, [Move(dest, src)], 0);
    RunFew(m.p, m.ops, Start(pc, regs));
  }

  function LogicRestCode(dest: nat, b: Code): seq<Instr>
  {
    b.code + (if RegOf(b.desc) != dest then [Move(dest, RegOf(b.desc))] else [])
  }

  /** From the left value on: keep it, or go on with the right operand. */
  lemma LogicTail(m: Machine, isOr: bool, dest: nat, left: nat, ks: seq<Value>, r: Expr, pc: nat, regs: Regs)
    returns (n: nat)
    requires Ready(m, regs) && m.s.nactvar <= dest < 256 && Safe(r) && ToReg(m.s, dest + 1, ks, r).Done?
    requires var b := ToReg(m.s, dest + 1, ks, r).value;
      Loaded(m, pc,
             [Move(dest, left), Test(dest, isOr), Jmp(Sbx16(|LogicRestCode(dest, b)|))] + LogicRestCode(dest, b),
             b.ks)
    ensures var b := ToReg(m.s, dest + 1, ks, r).value;
      var res := if Truthy(Get(regs, left)) == isOr then Ok(Get(regs, left)) else Eval(r, m.env, m.ops);
      Delivers(res, Run(m.p, m.ops, Start(pc, regs), n), pc + 3 + |LogicRestCode(dest, b)|, Temp(dest), regs, dest)
    decreases Size(r), 3
  {
    hide ToReg, Eval, Run, Step, At, NegatesNumbers, Agrees;
    var b := ToReg(m.s, dest + 1, ks, r).value;
    var rest := LogicRestCode(dest, b);
    AtSplit(m.p, pc, [Move(dest, left), Test(dest, isOr), Jmp(Sbx16(|rest|))], rest);
    LogicHead(m, isOr, dest, left, |rest|, pc, regs);
    if Truthy(Get(regs, left)) == isOr {
      n := 3;
    } else {
      var regs' := regs[dest := Get(regs, left)];
      ReadyKept(m, regs, regs', dest);
      var k := LogicRest(m, dest, ks, r, pc + 3, regs');
      DeliversLater(m, Eval(r, m.env, m.ops), Start(pc, regs), 2, k, pc + 3 + |rest|, Temp(dest), regs, dest, dest);
      n := 2 + k;
    }
  }

  lemma {:induction false} LogicMeaning(op: BinOp, l: Expr, r: Expr, env: Env, ops: Ops)
    requires op == And || op == Or
    ensures Eval(l, env, ops).Error? ==> Eval(Bin(op, l, r), env, ops) == Eval(l, env, ops)
    ensures Eval(l, env, ops).Ok? ==>
      var v := Eval(l, env, ops).value;
      Eval(Bin(op, l, r), env, ops) == if Truthy(v) == (op == Or) then Ok(v) else Eval(r, env, ops)
  {
  }

  lemma LogicCorrect(m: Machine, free: nat, ks: seq<Value>, op: BinOp, l: Expr, r: Expr, pc: nat, regs: Regs)
    returns (n: nat)
    requires Ready(m, regs) && m.s.nactvar <= free && Safe(l) && Safe(r) && (op == And || op == Or)
    requires LowerLogic(m.s, free, ks, op == Or, l, r).Done?
    requires Loaded(m, pc, LowerLogic(m.s, free, ks, op == Or, l, r).value.code,
                    LowerLogic(m.s, free, ks, op == Or, l, r).value.ks)
    ensures var c := LowerLogic(m.s, free, ks, op == Or, l, r).value;
      Delivers(Eval(Bin(op, l, r), m.env, m.ops), Run(m.p, m.ops, Start(pc, regs), n), pc + |c.code|, c.desc, regs,
               free)
    decreases Size(l) + Size(r), 3
  {
    hide ToReg, Eval, Run, Step, At, NegatesNumbers, Agrees;
    LogicMeaning(op, l, r, m.env, m.ops);
    var a := ToReg(m.s, free, ks, l).value;
    var dest := a.free;
    var b := ToReg(m.s, dest + 1, a.ks, r).value;
    var rest := LogicRestCode(dest, b);
    var tail := [Move(dest, RegOf(a.desc)), Test(dest, op == Or), Jmp(Sbx16(|rest|))] + rest;
    var c := LowerLogic(m.s, free, ks, op == Or, l, r).value;
    assert c.code == a.code + tail;
    ToRegShape(m.s, free, ks, l);
    ToRegShape(m.s, dest + 1, a.ks, r);
    AtSplit(m.p, pc, a.code, tail);
    n := ToRegCorrect(m, free, ks, l, pc, regs);
    if Eval(l, m.env, m.ops).Ok? {
      var mid := Run(m.p, m.ops, Start(pc, regs), n);
      ReadyKept(m, regs, mid.regs, free);
      var k := LogicTail(m, op == Or, dest, RegOf(a.desc), a.ks, r, pc + |a.code|, mid.regs);
      DeliversLater(m, Eval(Bin(op, l, r), m.env, m.ops), Start(pc, regs), n, k, pc + |c.code|, c.desc, regs, free,
                    dest);
      n := n + k;
    }
  }

  // ----- Two comparisons in jump form -----

  function TestCode(o: Operands, rel: RelOp, skip: int): seq<Instr>
  {
    o.code + [CompareInstr(rel, false, o.left, o.right), Jmp(skip)]
  }

  /** A comparison in jump form: falls through when it holds, skips `skip` more instructions when not. */
  ghost predicate Branches(res: Result<Value>, c: Config, pc: int, skip: int, regs: Regs, free: nat)
  {
    match res
    case Ok(v) => c.Running? && c.pc == (if v == Bool(true) then pc else pc + skip) && SameBelow(regs, c.regs, free)
    case Error(msg) => c == Failed(msg)
  }

  lemma {:induction false} RelMeaning(e: Expr, env: Env, ops: Ops)
    requires IsRel(e)
    ensures EvalPair(e.l, e.r, env, ops).Error? ==> Eval(e, env, ops) == Error(EvalPair(e.l, e.r, env, ops).message)
    ensures EvalPair(e.l, e.r, env, ops).Ok? ==>
      Eval(e, env, ops) == Apply(ops, e.bop, EvalPair(e.l, e.r, env, ops).value.0, EvalPair(e.l, e.r, env, ops).value.1)
    ensures Eval(e, env, ops).Ok? ==> Eval(e, env, ops).value.Bool?
  {
  }

  lemma TestTail(m: Machine, rel: RelOp, b: nat, c: nat, skip: int, pc: nat, regs: Regs) returns (n: nat)
    requires At(m.p, pc, [CompareInstr(rel, false, b, c), Jmp(skip)])
    ensures Branches(Apply(m.ops, Rel(rel), Get(regs, b), Get(regs, c)), Run(m.p, m.ops, Start(pc, regs), n), pc + 2,
                     skip, regs, 256)
  {
    AtIndex(m.p, pc, [CompareInstr(rel, false, b, c), Jmp(skip)], 0);
    AtIndex(m.p, pc, [CompareInstr(rel, false, b, c), Jmp(skip)], 1);
    RunFew(m.p, m.ops, Start(pc, regs));
    CompareStep(m, rel, false, b, c, pc, regs);
    n := if Relate(m.ops, rel, Get(regs, b), Get(regs, c)) == Ok(false) then 2 else 1;
  }

  lemma TestCorrect(m: Machine, free: nat, ks: seq<Value>, e: Expr, skip: int, pc: nat, regs: Regs) returns (n: nat)
    requires Ready(m, regs) && m.s.nactvar <= free && Safe(e) && IsRel(e)
    requires Pair(m.s, free, ks, e.l, e.r).Done?
    requires var o := Pair(m.s, free, ks, e.l, e.r).value; Loaded(m, pc, TestCode(o, e.bop.rel, skip), o.ks)
    ensures var o := Pair(m.s, free, ks, e.l, e.r).value;
      Branches(Eval(e, m.env, m.ops), Run(m.p, m.ops, Start(pc, regs), n), pc + |o.code| + 2, skip, regs, free)
    decreases Size(e), 0
  {
    hide Pair, Run, Step, At, Eval, EvalPair, Apply, NegatesNumbers, Agrees;
    RelMeaning(e, m.env, m.ops);
    var o := Pair(m.s, free, ks, e.l, e.r).value;
    AtSplit(m.p, pc, o.code, [CompareInstr(e.bop.rel, false, o.left, o.right), Jmp(skip)]);
    n := PairCorrect(m, free, ks, e.l, e.r, pc, regs);
    if EvalPair(e.l, e.r, m.env, m.ops).Ok? {
      var mid := Run(m.p, m.ops, Start(pc, regs), n);
      var k := TestTail(m, e.bop.rel, o.left, o.right, skip, pc + |o.code|, mid.regs);
      RunAdds(m.p, m.ops, Start(pc, regs), n, k);
      n := n + k;
    }
  }

  lemma BoolTail(m: Machine, dest: nat, pc: nat, regs: Regs)
    requires At(m.p, pc, [LoadBool(dest, true, false), Jmp(Sbx16(1)), LoadBool(dest, false, false)]) && dest < 256
    ensures Run(m.p, m.ops, Start(pc, regs), 2) == Start(pc + 3, regs[dest := Bool(true)])
    ensures Run(m.p, m.ops, Start(pc + 2, regs), 1) == Start(pc + 3, regs[dest := Bool(false)])
  {
    var code := [LoadBool(dest, true, false), Jmp(Sbx16(1)), LoadBool(dest, false, false)];
    AtIndex(m.p, pc, code, 0);
    AtIndex(m.p, pc, code, 1);
    AtIndex(m.p, pc, code, 2);
    RunFew(m.p, m.ops, Start(pc, regs));
    RunFew(m.p, m.ops, Start(pc + 2, regs));
  }

  /** A test followed by the shared boolean tail: `lead` instructions of other tests may stand in between. */
  lemma BranchThenBool(m: Machine, res: Result<Value>, c: Config, n: nat, dest: nat, pc: nat, regs: Regs, free: nat)
    returns (n': nat)
    requires At(m.p, pc, [LoadBool(dest, true, false), Jmp(Sbx16(1)), LoadBool(dest, false, false)])
    requires free <= dest < 256
    requires Branches(res, Run(m.p, m.ops, c, n), pc, 2, regs, free) && (res.Ok? ==> res.value.Bool?)
    ensures Delivers(res, Run(m.p, m.ops, c, n'), pc + 3, Temp(dest), regs, free)
  {
    hide Run, At;
    n' := n;
    if res.Ok? {
      var mid := Run(m.p, m.ops, c, n);
      BoolTail(m, dest, pc, mid.regs);
      var k := if res.value.b then 2 else 1;
      RunAdds(m.p, m.ops, c, n, k);
      n' := n + k;
    }
  }

  /** The parts of the code of `cmp and cmp`. */
  lemma TwoTestsParts(s: Scope, free: nat, ks: seq<Value>, l: Expr, r: Expr)
    requires Scoped(s) && s.nactvar <= free && Safe(l) && Safe(r) && IsRel(l) && IsRel(r)
    requires LowerTwoTests(s, free, ks, l, r).Done?
    ensures Pair(s, free, ks, l.l, l.r).Done? && Pair(s, free, Pair(s, free, ks, l.l, l.r).value.ks, r.l, r.r).Done?
    ensures var a, c := Pair(s, free, ks, l.l, l.r).value, LowerTwoTests(s, free, ks, l, r).value;
      var b := Pair(s, free, a.ks, r.l, r.r).value;
      var second := TestCode(b, r.bop.rel, Sbx16(2));
      var first := TestCode(a, l.bop.rel, Sbx16(|second| + 2));
      && ks <= a.ks <= b.ks == c.ks && c.desc == Temp(free) && free < MAX_STACK
      && c.code == first + second + [LoadBool(free, true, false), Jmp(Sbx16(1)), LoadBool(free, false, false)]
  {
    hide Pair, CompareInstr;
    PairShape(s, free, ks, l.l, l.r);
    PairShape(s, free, Pair(s, free, ks, l.l, l.r).value.ks, r.l, r.r);
  }

  lemma TwoTestsCorrect(m: Machine, free: nat, ks: seq<Value>, l: Expr, r: Expr, pc: nat, regs: Regs) returns (n: nat)
    requires Ready(m, regs) && m.s.nactvar <= free && Safe(l) && Safe(r) && IsRel(l) && IsRel(r)
    requires LowerTwoTests(m.s, free, ks, l, r).Done?
    requires Loaded(m, pc, LowerTwoTests(m.s, free, ks, l, r).value.code, LowerTwoTests(m.s, free, ks, l, r).value.ks)
    ensures var c := LowerTwoTests(m.s, free, ks, l, r).value;
      Delivers(Eval(Bin(And, l, r), m.env, m.ops), Run(m.p, m.ops, Start(pc, regs), n), pc + |c.code|, c.desc, regs,
               free)
    decreases Size(l) + Size(r), 3
  {
    hide Pair, Run, Step, At, Eval, EvalPair, Apply, NegatesNumbers, Agrees, CompareInstr, LowerTwoTests;
    LogicMeaning(And, l, r, m.env, m.ops);
    TwoTestsParts(m.s, free, ks, l, r);
    RelMeaning(l, m.env, m.ops);
    RelMeaning(r, m.env, m.ops);
    var a := Pair(m.s, free, ks, l.l, l.r).value;
    var b := Pair(m.s, free, a.ks, r.l, r.r).value;
    var second := TestCode(b, r.bop.rel, Sbx16(2));
    var first := TestCode(a, l.bop.rel, Sbx16(|second| + 2));
    var c := LowerTwoTests(m.s, free, ks, l, r).value;
    var dest := RegOf(c.desc);
    var tail := [LoadBool(dest, true, false), Jmp(Sbx16(1)), LoadBool(dest, false, false)];
    AtSplit(m.p, pc, first + second, tail);
    AtSplit(m.p, pc, first, second);
    n := TestCorrect(m, free, ks, l, |second| + 2, pc, regs);
    var pc1 := pc + |first|;
    if Eval(l, m.env, m.ops) == Ok(Bool(true)) {
      var mid := Run(m.p, m.ops, Start(pc, regs), n);
      ReadyKept(m, regs, mid.regs, free);
      var k := TestCorrect(m, free, a.ks, r, 2, pc1, mid.regs);
      RunAdds(m.p, m.ops, Start(pc, regs), n, k);
      n := BranchThenBool(m, Eval(r, m.env, m.ops), Start(pc, regs), n + k, dest, pc1 + |second|, regs, free);
    } else {
      n := BranchThenBool(m, Eval(l, m.env, m.ops), Start(pc, regs), n, dest, pc1 + |second|, regs, free);
    }
  }
}
