/**
 What the compiler emits for an expression: code, result descriptor, first free
 register and constant table, as a function of the state it starts from.
 */
module Lowering {
  import opened Common
  import opened Bytecode
  import opened Lang

  const MAX_STACK := 250
  const MAX_VARS := 200

  datatype Reason = TooManyRegisters | TooManyLocals | NotInFragment

  datatype Res<+T> = Fail(reason: Reason) | Done(value: T) {
    predicate IsFailure() { Fail? }

    function PropagateFailure<U>(): Res<U>
      requires Fail?
    {
      Fail(reason)
    }

    function Extract(): T
      requires Done?
    {
      value
    }
  }

  /** Active locals in declaration order with their registers; `nactvar` is past the last of them. */
  datatype Scope = Scope(names: seq<string>, regs: seq<nat>, nactvar: nat)

  /** Where an expression's value is: not loaded yet, in a local, or in a temporary. */
  datatype Desc = Constant(k: Value) | LocalVar(reg: nat) | Temp(reg: nat)

  /** Emitted code, where the value is, the first free register, the constants, and the highest `free` reached. */
  datatype Code = Code(code: seq<Instr>, desc: Desc, free: nat, ks: seq<Value>, high: nat)

  function NewReg(free: nat): Res<nat>
  {
    if free + 1 > MAX_STACK - 1 then Fail(TooManyRegisters) else Done(free)
  }

  /** A function has 249 registers for temporaries and locals together. */
  lemma RegisterLimit(free: nat)
    ensures NewReg(free) == if free < 249 then Done(free) else Fail(TooManyRegisters)
  {
  }

  // ----- Constants -----

  /** Index of the first constant identical to `v`, or the length of the table. */
  function ConstIndex(ks: seq<Value>, v: Value): (i: nat)
    ensures i <= |ks| && (i < |ks| ==> ks[i] == v)
    ensures forall j :: 0 <= j < i ==> ks[j] != v
  {
    if ks == [] then 0 else if ks[0] == v then 0 else 1 + ConstIndex(ks[1..], v)
  }

  function WithConst(ks: seq<Value>, v: Value): (r: seq<Value>)
    ensures ks <= r && ConstIndex(ks, v) < |r| && r[ConstIndex(ks, v)] == v
    ensures r == if v in ks then ks else ks + [v]
  {
    if ConstIndex(ks, v) < |ks| then ks else ks + [v]
  }

  predicate FitsImmediate(k: Value) { k.Int? && -32768 <= k.n <= 32767 }

  predicate NeedsConstant(k: Value) { k != Nil && !k.Bool? && !FitsImmediate(k) }

  function LoadConst(r: nat, k: Value, ks: seq<Value>): Instr
  {
    if k == Nil then LoadNil(r, 0)
    else if k.Bool? then LoadBool(r, k.b, false)
    else if FitsImmediate(k) then LoadInt(r, Sbx16(k.n))
    else LoadK(r, Bx16(ConstIndex(ks, k)))
  }

  /** Small integers are in the instruction, everything but nil and booleans else in the constant table. */
  lemma LoadForms(r: nat, k: Value, ks: seq<Value>)
    ensures k.Int? && -32768 <= k.n <= 32767 ==> LoadConst(r, k, ks) == LoadInt(r, k.n)
    ensures NeedsConstant(k) <==> k.Str? || k.Float? || k.Object? || (k.Int? && !(-32768 <= k.n <= 32767))
    ensures NeedsConstant(k) && |ks| < 65536 && k in ks ==>
      LoadConst(r, k, ks).LoadK? && LoadConst(r, k, ks).bx < |ks| && ks[LoadConst(r, k, ks).bx] == k
    ensures LoadConst(r, Nil, ks) == LoadNil(r, 0) && forall b :: LoadConst(r, Bool(b), ks) == LoadBool(r, b, false)
  {
  }

  /** Puts a value into a register unless it is in one. */
  function Discharge(c: Code): Res<Code>
  {
    match c.desc
    case Constant(k) =>
      var r :- NewReg(c.free);
      Done(Code(c.code + [LoadConst(r, k, c.ks)], Temp(r), r + 1,
                if NeedsConstant(k) then WithConst(c.ks, k) else c.ks, Max(c.high, r + 1)))
    case LocalVar(_) => Done(c)
    case Temp(_) => Done(c)
  }

  function RegOf(d: Desc): nat { match d case Constant(_) => 0 case LocalVar(r) => r case Temp(r) => r }

  // ----- Negated literals -----

  const MIN_INT: Int64 := -0x8000_0000_0000_0000

  function NegInt(n: Int64): Int64 { if n == MIN_INT then n else -n }

  /** Turns the sign bit over. */
  function NegFloat(bits: Bits64): Bits64
  {
    if bits >= 0x8000_0000_0000_0000 then bits - 0x8000_0000_0000_0000 else bits + 0x8000_0000_0000_0000
  }

  function Negated(k: Value): Value
  {
    match k case Int(n) => Int(NegInt(n)) case Float(b) => Float(NegFloat(b)) case _ => k
  }

  predicate Folds(op: UnOp, d: Desc) { op == Neg && d.Constant? && (d.k.Int? || d.k.Float?) }

  // ----- Comparisons -----

  /** The comparison opcode: skips the next instruction when its outcome differs from `want`. */
  function CompareInstr(rel: RelOp, want: bool, rb: nat, rc: nat): Instr
  {
    var flip := rel == Ne;
    var w := if flip then !want else want;
    if rel == Gt || rel == Ge then Compare(CompareOf(rel), w, rc, rb) else Compare(CompareOf(rel), w, rb, rc)
  }

  // ----- Expressions -----

  function Lower(s: Scope, free: nat, ks: seq<Value>, e: Expr): Res<Code>
    decreases Size(e), 0
  {
    match e
    case Const(v) => Done(Code([], Constant(v), free, ks, 0))
    case Name(x) =>
      var i := Find(s.names, x);
      if 0 <= i < |s.regs| then Done(Code([], LocalVar(s.regs[i]), free, ks, 0)) else Fail(NotInFragment)
    case Paren(e1) => Lower(s, free, ks, e1)
    case Un(op, e1) =>
      var c :- Lower(s, free, ks, e1);
      LowerUnary(s, op, c)
    case Bin(op, l, r) =>
      if op == And && IsRel(l) && IsRel(r) then LowerTwoTests(s, free, ks, l, r)
      else if op == And || op == Or then LowerLogic(s, free, ks, op == Or, l, r)
      else LowerStrict(s, free, ks, op, l, r)
  }

  /** A negated numeral is folded; any other operand is loaded, and freed if it is a temporary. */
  function LowerUnary(s: Scope, op: UnOp, c: Code): Res<Code>
  {
    if Folds(op, c.desc) then Done(c.(desc := Constant(Negated(c.desc.k))))
    else
      var o :- Discharge(c);
      var r := RegOf(o.desc);
      var dest :- NewReg(o.free);
      Done(Code(o.code + [Unary(op, dest, r)], Temp(dest), if r >= s.nactvar then r else dest + 1, o.ks,
                Max(o.high, dest + 1)))
  }

  predicate IsRel(e: Expr) { e.Bin? && e.bop.Rel? }

  /** `cmp and cmp`: both comparisons jump to one shared `false`. */
  function LowerTwoTests(s: Scope, free: nat, ks: seq<Value>, l: Expr, r: Expr): Res<Code>
    requires IsRel(l) && IsRel(r)
    decreases Size(l) + Size(r), 3
  {
    var a :- Pair(s, free, ks, l.l, l.r);
    var b :- Pair(s, free, a.ks, r.l, r.r);
    var dest :- NewReg(free);
    var second := b.code + [CompareInstr(r.bop.rel, false, b.left, b.right), Jmp(Sbx16(2))];
    Done(Code(a.code + [CompareInstr(l.bop.rel, false, a.left, a.right), Jmp(Sbx16(|second| + 2))] + second
              + [LoadBool(dest, true, false), Jmp(Sbx16(1)), LoadBool(dest, false, false)],
              Temp(dest), dest + 1, b.ks, Max(Max(a.high, b.high), dest + 1)))
  }

  /** `and` / `or`: the left value in a fresh register, jumped over or replaced by the right one. */
  function LowerLogic(s: Scope, free: nat, ks: seq<Value>, isOr: bool, l: Expr, r: Expr): Res<Code>
    decreases Size(l) + Size(r), 3
  {
    var a :- ToReg(s, free, ks, l);
    var dest :- NewReg(a.free);
    var b :- ToReg(s, dest + 1, a.ks, r);
    var rest := b.code + (if RegOf(b.desc) != dest then [Move(dest, RegOf(b.desc))] else []);
    Done(Code(a.code + [Move(dest, RegOf(a.desc)), Test(dest, isOr), Jmp(Sbx16(|rest|))] + rest,
              Temp(dest), dest + 1, b.ks, Max(Max(a.high, b.high), dest + 1)))
  }

  /** The destination of an operator that needs both operands: arithmetic reuses a temporary operand. */
  function StrictDest(s: Scope, op: BinOp, p: Operands): Res<nat>
  {
    if op == And || op == Or then Fail(NotInFragment)
    else if InPlace(s, op, p) then Done(if p.left >= s.nactvar then p.left else p.right)
    else
      var dest :- NewReg(p.free);
      if op.ConcatOp? && NewReg(dest + 1).Fail? then Fail(TooManyRegisters) else Done(dest)
  }

  /** The code of the operator itself. Concatenation wants its operands in two consecutive registers. */
  function StrictCode(op: BinOp, dest: nat, rb: nat, rc: nat): seq<Instr>
  {
    match op
    case ArithOp(o) => [Arith(o, dest, rb, rc)]
    case ConcatOp =>
      (if rb != dest then [Move(dest, rb)] else []) + (if rc != dest + 1 then [Move(dest + 1, rc)] else [])
      + [Concat(dest, dest, dest + 1)]
    case Rel(rel) =>
      [CompareInstr(rel, true, rb, rc), Jmp(Sbx16(1)), LoadBool(dest, false, true), LoadBool(dest, true, false)]
    case _ => []
  }

  predicate InPlace(s: Scope, op: BinOp, p: Operands)
  {
    op.ArithOp? && (p.left >= s.nactvar || p.right >= s.nactvar)
  }

  function StrictHigh(s: Scope, op: BinOp, p: Operands, dest: nat): nat
  {
    if InPlace(s, op, p) then p.high else Max(p.high, if op.ConcatOp? then dest + 2 else dest + 1)
  }

  /** Operators that need both operands. */
  function LowerStrict(s: Scope, free: nat, ks: seq<Value>, op: BinOp, l: Expr, r: Expr): Res<Code>
    decreases Size(l) + Size(r), 3
  {
    var p :- Pair(s, free, ks, l, r);
    var dest :- StrictDest(s, op, p);
    Done(Code(p.code + StrictCode(op, dest, p.left, p.right), Temp(dest), dest + 1, p.ks, StrictHigh(s, op, p, dest)))
  }

  /** An expression followed by the load of its value, if it needs one. */
  function ToReg(s: Scope, free: nat, ks: seq<Value>, e: Expr): Res<Code>
    decreases Size(e), 1
  {
    var c :- Lower(s, free, ks, e);
    Discharge(c)
  }

  /** Two operands in registers. */
  datatype Operands = Operands(code: seq<Instr>, left: nat, right: nat, free: nat, ks: seq<Value>, high: nat)

  function Pair(s: Scope, free: nat, ks: seq<Value>, l: Expr, r: Expr): Res<Operands>
    decreases Size(l) + Size(r), 2
  {
    var a :- ToReg(s, free, ks, l);
    var b :- ToReg(s, a.free, a.ks, r);
    Done(Operands(a.code + b.code, RegOf(a.desc), RegOf(b.desc), b.free, b.ks, Max(a.high, b.high)))
  }
}
