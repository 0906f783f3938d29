/**
 The register machine: values, the instructions the expression compiler emits,
 and one step of the interpreter loop on them.
 */
module Bytecode {
  import opened Common

  type Int64 = n: int | -0x8000_0000_0000_0000 <= n < 0x8000_0000_0000_0000

  type Bits64 = n: nat | n < 0x1_0000_0000_0000_0000

  /** A tagged value; floats by bit pattern, strings by content, everything else by identity. */
  datatype Value = Nil | Bool(b: bool) | Int(n: Int64) | Float(bits: Bits64) | Str(s: string) | Object(id: nat)

  predicate Truthy(v: Value) { v != Nil && v != Bool(false) }

  /** Of all values, one boolean and one other are false. */
  lemma FalsyValues(v: Value)
    ensures !Truthy(v) <==> v.Nil? || (v.Bool? && !v.b)
  {
  }

  datatype Result<+T> = Ok(value: T) | Error(message: string)

  datatype ArithOp = Add | Sub | Mul | Div | IDiv | Mod | Pow | Band | Bor | Bxor | Shl | Shr

  datatype UnOp = Neg | Not | Len | Bnot

  datatype CmpOp = CmpEq | CmpLt | CmpLe

  /** What the operators compute, metamethods included: each yields a value or raises an error. */
  datatype Ops = Ops(
    arith: (ArithOp, Value, Value) -> Result<Value>,
    unary: (UnOp, Value) -> Result<Value>,
    concat: (Value, Value) -> Result<Value>,
    compare: (CmpOp, Value, Value) -> Result<bool>)

  type Int16 = n: int | -32768 <= n < 32768

  datatype Instr =
    | Move(a: nat, b: nat)
    | LoadNil(a: nat, b: nat)
    | LoadBool(a: nat, value: bool, skip: bool)
    | LoadInt(a: nat, imm: Int16)
    | LoadK(a: nat, bx: nat)
    | Arith(aop: ArithOp, a: nat, b: nat, c: nat)
    | Unary(uop: UnOp, a: nat, b: nat)
    | Concat(a: nat, b: nat, c: nat)
    | Compare(cop: CmpOp, want: bool, b: nat, c: nat)
    | Test(a: nat, want: bool)
    | Jmp(sbx: int)

  // ----- Instruction fields -----

  const MAX_BX := 65536

  /** An 8-bit register field. */
  function Reg8(r: nat): nat { r % 256 }

  /** A 16-bit constant index. */
  function Bx16(k: nat): nat { k % MAX_BX }

  /** A signed 16-bit offset, stored with a bias of 32768. */
  function Sbx16(x: int): Int16 { (x + 32768) % MAX_BX - 32768 }

  // ----- Execution -----

  /** A frame's registers; an 8-bit field always names one of them. */
  type Regs = r: seq<Value> | |r| == 256 witness seq(256, _ => Nil)

  datatype Program = Program(code: seq<Instr>, constants: seq<Value>)

  /** `Running` at or past the end of the code has finished. */
  datatype Config = Running(pc: int, regs: Regs) | Failed(message: string)

  function Store(regs: Regs, a: nat, r: Result<Value>, pc: int): Config
  {
    match r
    case Ok(v) => Running(pc, regs[Reg8(a) := v])
    case Error(m) => Failed(m)
  }

  function Get(regs: Regs, r: nat): Value { regs[Reg8(r)] }

  function ClearRange(regs: Regs, a: nat, b: nat): Regs
  {
    seq(256, i requires 0 <= i < 256 => if Reg8(a) <= i <= Reg8(a) + b then Nil else regs[i])
  }

  /** The effect of one instruction, with `pc` already past it. */
  function Execute(i: Instr, ks: seq<Value>, ops: Ops, pc: int, regs: Regs): Config
  {
    match i
    case Move(a, b) => Store(regs, a, Ok(Get(regs, b)), pc)
    case LoadNil(a, b) => Running(pc, ClearRange(regs, a, b))
    case LoadBool(a, b, c) => Store(regs, a, Ok(Bool(b)), if c then pc + 1 else pc)
    case LoadInt(a, imm) => Store(regs, a, Ok(Int(imm)), pc)
    case LoadK(a, bx) => Store(regs, a, if bx < |ks| then Ok(ks[bx]) else Error("bad constant"), pc)
    case Arith(op, a, b, c) => Store(regs, a, ops.arith(op, Get(regs, b), Get(regs, c)), pc)
    case Unary(op, a, b) => Store(regs, a, ops.unary(op, Get(regs, b)), pc)
    case Concat(a, b, c) => Store(regs, a, ops.concat(Get(regs, b), Get(regs, c)), pc)
    case Compare(op, want, b, c) =>
      (match ops.compare(op, Get(regs, b), Get(regs, c))
       case Ok(holds) => Running(if holds != want then pc + 1 else pc, regs)
       case Error(m) => Failed(m))
    case Test(a, want) => Running(if Truthy(Get(regs, a)) != want then pc + 1 else pc, regs)
    case Jmp(sbx) => Running(pc + sbx, regs)
  }

  function Step(p: Program, ops: Ops, c: Config): Config
  {
    if c.Running? && 0 <= c.pc < |p.code| then Execute(p.code[c.pc], p.constants, ops, c.pc + 1, c.regs) else c
  }

  function Run(p: Program, ops: Ops, c: Config, n: nat): Config
    decreases n
  {
    if n == 0 then c else Run(p, ops, Step(p, ops, c), n - 1)
  }

  lemma {:induction false} RunAdds(p: Program, ops: Ops, c: Config, m: nat, n: nat)
    ensures Run(p, ops, c, m + n) == Run(p, ops, Run(p, ops, c, m), n)
    decreases m
  {
    if m != 0 {
      RunAdds(p, ops, Step(p, ops, c), m - 1, n);
    }
  }

  /** A finished or failed configuration stays as it is. */
  lemma {:induction false} Stuck(p: Program, ops: Ops, c: Config, n: nat)
    requires Step(p, ops, c) == c
    ensures Run(p, ops, c, n) == c
    decreases n
  {
    if n > 0 {
      Stuck(p, ops, c, n - 1);
    }
  }

  // ----- Frames -----

  /** Every register the instruction names is one of the first `size`. */
  predicate Inside(i: Instr, size: nat)
  {
    match i
    case Move(a, b) => Reg8(a) < size && Reg8(b) < size
    case LoadNil(a, b) => Reg8(a) + b < size
    case LoadBool(a, _, _) => Reg8(a) < size
    case LoadInt(a, _) => Reg8(a) < size
    case LoadK(a, _) => Reg8(a) < size
    case Arith(_, a, b, c) => Reg8(a) < size && Reg8(b) < size && Reg8(c) < size
    case Unary(_, a, b) => Reg8(a) < size && Reg8(b) < size
    case Concat(a, b, c) => Reg8(a) < size && Reg8(b) < size && Reg8(c) < size
    case Compare(_, _, b, c) => Reg8(b) < size && Reg8(c) < size
    case Test(a, _) => Reg8(a) < size
    case Jmp(_) => true
  }

  predicate AllInside(code: seq<Instr>, size: nat)
  {
    forall i :: 0 <= i < |code| ==> Inside(code[i], size)
  }

  /** The instruction that comes next, if there is one, names a register past the frame. */
  predicate Strays(p: Program, size: nat, c: Config)
  {
    c.Running? && 0 <= c.pc < |p.code| && !Inside(p.code[c.pc], size)
  }

  /** A run in a frame of `size` registers; None once an instruction has named a register past it. */
  function RunIn(p: Program, ops: Ops, size: nat, c: Config, n: nat): Option<Config>
    decreases n
  {
    if n == 0 then Some(c)
    else if Strays(p, size, c) then None
    else RunIn(p, ops, size, Step(p, ops, c), n - 1)
  }

  /** As long as it stays in its frame, a run does what it does with all registers. */
  lemma {:induction false} RunInIsRun(p: Program, ops: Ops, size: nat, c: Config, n: nat)
    ensures RunIn(p, ops, size, c, n).Some? ==> RunIn(p, ops, size, c, n).value == Run(p, ops, c, n)
    ensures AllInside(p.code, size) ==> RunIn(p, ops, size, c, n).Some?
    decreases n
  {
    if n != 0 {
      RunInIsRun(p, ops, size, Step(p, ops, c), n - 1);
    }
  }

  lemma {:induction false} RunInAdds(p: Program, ops: Ops, size: nat, c: Config, m: nat, n: nat)
    requires RunIn(p, ops, size, c, m).Some?
    ensures RunIn(p, ops, size, c, m + n) == RunIn(p, ops, size, RunIn(p, ops, size, c, m).value, n)
    decreases m
  {
    if m != 0 {
      RunInAdds(p, ops, size, Step(p, ops, c), m - 1, n);
    }
  }

  predicate SameBelow(regs: Regs, regs': Regs, free: nat)
  {
    forall i :: 0 <= i < free && i < 256 ==> regs'[i] == regs[i]
  }

  /** The same outcome, up to the registers at or above `size`, which stay as they were. */
  predicate SameInFrame(size: nat, a: Config, b: Config, a0: Regs)
  {
    a.Running? == b.Running? && (a.Failed? ==> a == b)
    && (a.Running? ==>
          a.pc == b.pc && SameBelow(a.regs, b.regs, size)
          && forall q: nat :: size <= q < 256 ==> a.regs[q] == a0[q])
  }

  /** An instruction inside a frame neither reads nor writes a register past it. */
  lemma InsideIsPrivate(i: Instr, size: nat, ks: seq<Value>, ops: Ops, pc: int, a: Regs, b: Regs)
    requires Inside(i, size) && SameBelow(a, b, size)
    ensures SameInFrame(size, Execute(i, ks, ops, pc, a), Execute(i, ks, ops, pc, b), a)
  {
    if i.LoadNil? {
      assert forall q: nat :: size <= q < 256 ==> ClearRange(a, i.a, i.b)[q] == a[q];
    }
  }

  /** What a run in a frame does depends on the frame's registers alone, and it changes no other. */
  lemma {:induction false} FrameIsPrivate(p: Program, ops: Ops, size: nat, pc: int, a: Regs, b: Regs, n: nat)
    requires SameBelow(a, b, size)
    ensures var x, y := RunIn(p, ops, size, Running(pc, a), n), RunIn(p, ops, size, Running(pc, b), n);
            x.Some? == y.Some? && (x.Some? ==> SameInFrame(size, x.value, y.value, a))
    decreases n
  {
    if n > 0 && !Strays(p, size, Running(pc, a)) {
      var x, y := Step(p, ops, Running(pc, a)), Step(p, ops, Running(pc, b));
      if 0 <= pc < |p.code| {
        InsideIsPrivate(p.code[pc], size, p.constants, ops, pc + 1, a, b);
      }
      if x.Running? {
        FrameIsPrivate(p, ops, size, x.pc, x.regs, y.regs, n - 1);
      } else {
        FailedRunIn(p, ops, size, x.message, n - 1);
      }
    }
  }

  lemma {:induction false} FailedRunIn(p: Program, ops: Ops, size: nat, m: string, n: nat)
    ensures RunIn(p, ops, size, Failed(m), n) == Some(Failed(m))
    decreases n
  {
    if n > 0 {
      FailedRunIn(p, ops, size, m, n - 1);
    }
  }

  /** `code` sits in the program at `pc`. */
  predicate At(p: Program, pc: nat, code: seq<Instr>)
  {
    pc + |code| <= |p.code| && p.code[pc..pc + |code|] == code
  }

  lemma AtSplit(p: Program, pc: nat, a: seq<Instr>, b: seq<Instr>)
    requires At(p, pc, a + b)
    ensures At(p, pc, a) && At(p, pc + |a|, b)
  {
    var s := p.code[pc..pc + |a + b|];
    assert s == a + b;
    assert p.code[pc..pc + |a|] == s[..|a|] == a;
    assert p.code[pc + |a|..pc + |a| + |b|] == s[|a|..] == b;
  }

  lemma AtIndex(p: Program, pc: nat, code: seq<Instr>, i: nat)
    requires At(p, pc, code) && i < |code|
    ensures pc + i < |p.code| && p.code[pc + i] == code[i]
  {
    assert p.code[pc..pc + |code|][i] == code[i];
  }

  lemma RunFew(p: Program, ops: Ops, c: Config)
    ensures Run(p, ops, c, 1) == Step(p, ops, c)
    ensures Run(p, ops, c, 2) == Step(p, ops, Step(p, ops, c))
    ensures Run(p, ops, c, 3) == Step(p, ops, Step(p, ops, Step(p, ops, c)))
  {
    assert Run(p, ops, c, 1) == Run(p, ops, Step(p, ops, c), 0);
    assert Run(p, ops, c, 2) == Run(p, ops, Step(p, ops, c), 1);
    var c1 := Step(p, ops, c);
    assert Run(p, ops, c1, 1) == Run(p, ops, Step(p, ops, c1), 0);
    assert Run(p, ops, c, 3) == Run(p, ops, c1, 2) == Run(p, ops, Step(p, ops, c1), 1);
    var c2 := Step(p, ops, c1);
    assert Run(p, ops, c2, 1) == Run(p, ops, Step(p, ops, c2), 0);
  }
}
