/**
 What the compiler emits for statements: declarations, multiple assignment,
 `if` chains, `while` loops and blocks that clear their registers on exit.
 */
module LoweringStmt {
  import opened Common
  import opened Bytecode
  import opened Lang
  import opened Lowering

  /** Emitted code, and after it the scope, the constants and the register high-water mark; whether every register
      fits a field; how large a frame the compiler asks for, and how many registers the value lists take. */
  datatype Frag = Frag(code: seq<Instr>, scope: Scope, ks: seq<Value>, high: nat, fits: bool, maxstack: nat,
                       reach: nat)

  const NO_LOCALS := Scope([], [], 0)

  /** Evaluates a value list into consecutive registers from `base`. */
  function LowerValues(s: Scope, base: nat, ks: seq<Value>, high: nat, values: seq<Expr>): Res<Frag>
    decreases |values|
  {
    if values == [] then Done(Frag([], s, ks, high, true, 0, base))
    else
      var c :- ToReg(s, base, ks, values[0]);
      var rest :- LowerValues(s, base + 1, c.ks, Max(high, c.high), values[1..]);
      Done(rest.(code := c.code + (if RegOf(c.desc) != base then [Move(base, RegOf(c.desc))] else []) + rest.code,
                 maxstack := Max(c.high, rest.maxstack)))
  }

  /** Nil for the names or variables without a value. */
  function PadCode(base: nat, from: nat, upTo: nat): seq<Instr>
    decreases upTo - from
  {
    if from >= upTo then [] else [LoadNil(base + from, 0)] + PadCode(base, from + 1, upTo)
  }

  /** The registers of the assigned variables. */
  function Targets(s: Scope, vars: seq<string>): Res<seq<nat>>
  {
    if vars == [] then Done([])
    else
      var i := Find(s.names, vars[0]);
      if !(0 <= i < |s.regs|) then Fail(NotInFragment)
      else
        var rest :- Targets(s, vars[1..]);
        Done([s.regs[i]] + rest)
  }

  function StoreCode(targets: seq<nat>, base: nat): seq<Instr>
  {
    if targets == [] then [] else [Move(targets[0], base)] + StoreCode(targets[1..], base + 1)
  }

  /** Registers the declared names one after the other. */
  function PushLocals(s: Scope, names: seq<string>, base: nat): Res<Scope>
    decreases |names|
  {
    if names == [] then Done(s)
    else if s.nactvar + 1 > MAX_VARS then Fail(TooManyLocals)
    else PushLocals(Scope(s.names + [names[0]], s.regs + [base], Max(s.nactvar, base + 1)), names[1..], base + 1)
  }

  function LowerStmt(s: Scope, ks: seq<Value>, high: nat, st: Stmt): Res<Frag>
    decreases StmtSize(st), 0
  {
    var base := s.nactvar;
    match st
    case Local(names, values) =>
      var v :- LowerValues(s, base, ks, high, values);
      var s' :- PushLocals(s, names, base);
      Done(Frag(v.code + PadCode(base, |values|, |names|), s', v.ks, v.high, base + Max(|names|, |values|) <= 256,
                Max(base + |names|, v.maxstack), v.reach))
    case Assign(vars, values) =>
      var targets :- Targets(s, vars);
      var v :- LowerValues(s, base, ks, high, values);
      Done(Frag(v.code + PadCode(base, |values|, |vars|) + StoreCode(targets, base), s, v.ks, v.high,
                base + Max(|vars|, |values|) <= 256, Max(base + |vars|, v.maxstack), v.reach))
    case If(branches, otherwise) => LowerIf(s, ks, high, branches, otherwise)
    case Do(body) => LowerBlock(s, ks, high, body)
    case While(cond, body, marked) =>
      var c :- ToReg(s, base, ks, cond);
      var b :- LowerBlock(s, c.ks, Max(high, c.high), body);
      if marked then
        var r :- NewReg(base);
        Done(b.(code := LoopCode(c, b) + [LoadNil(r, 0)], high := Max(b.high, r + 1),
                maxstack := Max(Max(c.high, b.maxstack), r + 1)))
      else
        Done(b.(code := LoopCode(c, b), maxstack := Max(c.high, b.maxstack)))
  }

  function LoopCode(c: Code, b: Frag): seq<Instr>
  {
    c.code + [Test(RegOf(c.desc), false), Jmp(Sbx16(|b.code| + 1))] + b.code + [Jmp(Sbx16(-(|c.code| + |b.code| + 3)))]
  }

  function LowerIf(s: Scope, ks: seq<Value>, high: nat, branches: seq<Branch>, otherwise: seq<Stmt>): Res<Frag>
    decreases BranchesSize(branches) + BodySize(otherwise), 3
  {
    if branches == [] then LowerBlock(s, ks, high, otherwise)
    else
      var c :- ToReg(s, s.nactvar, ks, branches[0].cond);
      var b :- LowerBlock(s, c.ks, Max(high, c.high), branches[0].body);
      var rest :- LowerIf(s, b.ks, b.high, branches[1..], otherwise);
      Done(rest.(code := BranchCode(c, b, |rest.code|) + rest.code, fits := b.fits && rest.fits,
                 maxstack := Max(Max(c.high, b.maxstack), rest.maxstack), reach := Max(b.reach, rest.reach)))
  }

  function BranchCode(c: Code, b: Frag, skip: nat): seq<Instr>
  {
    c.code + [Test(RegOf(c.desc), false), Jmp(Sbx16(|b.code| + 1))] + b.code + [Jmp(Sbx16(skip))]
  }

  function LowerSeq(s: Scope, ks: seq<Value>, high: nat, body: seq<Stmt>): Res<Frag>
    decreases BodySize(body), 1
  {
    if body == [] then Done(Frag([], s, ks, high, true, 0, 0))
    else
      var a :- LowerStmt(s, ks, high, body[0]);
      var rest :- LowerSeq(a.scope, a.ks, a.high, body[1..]);
      Done(rest.(code := a.code + rest.code, fits := a.fits && rest.fits,
                 maxstack := Max(a.maxstack, rest.maxstack), reach := Max(a.reach, rest.reach)))
  }

  /** On leaving a block its registers, and the temporaries above them, are cleared. */
  function LeaveCode(s: Scope, f: Frag): seq<Instr>
  {
    if |s.regs| < |f.scope.regs| then
      var from := f.scope.regs[|s.regs|];
      var to := Max(f.scope.regs[|f.scope.regs| - 1], if f.high > 0 then f.high - 1 else 0);
      if to >= from then [LoadNil(from, to - from)] else []
    else []
  }

  function LowerBlock(s: Scope, ks: seq<Value>, high: nat, body: seq<Stmt>): Res<Frag>
    decreases BodySize(body), 2
  {
    var f :- LowerSeq(s, ks, high, body);
    Done(f.(code := f.code + LeaveCode(s, f), scope := s, high := Max(f.high, s.nactvar)))
  }
}
