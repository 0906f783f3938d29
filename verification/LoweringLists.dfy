/**
 Value lists compile correctly exactly when their registers fit the 8-bit field
 of an instruction and the frame that the compiler asks for.
 */
module LoweringLists {
  import opened Common
  import opened Bytecode
  import opened Lang
  import opened Lowering
  import opened LoweringProof
  import opened LoweringStmt
  import opened LoweringStmtProof
  import opened LoweringLimits
  import opened LoweringFrames
  import opened LoweringChunk

  /** Locals sit in registers 0, 1, 2 and so on, as the compiler allots them. */
  predicate Dense(s: Scope)
  {
    Scoped(s) && |s.regs| == s.nactvar && forall i :: 0 <= i < |s.regs| ==> s.regs[i] == i
  }

  lemma {:induction false} PushKeepsDense(s: Scope, names: seq<string>)
    requires Dense(s) && PushLocals(s, names, s.nactvar).Done?
    ensures Dense(PushLocals(s, names, s.nactvar).value)
    decreases |names|
  {
    if names != [] {
      PushKeepsDense(Scope(s.names + [names[0]], s.regs + [s.nactvar], s.nactvar + 1), names[1..]);
    }
  }

  /** Every scope of a chunk is of this kind: the empty one is, and statements keep it so. */
  lemma StmtKeepsDense(s: Scope, ks: seq<Value>, high: nat, st: Stmt)
    requires Dense(s) && LowerStmt(s, ks, high, st).Done?
    ensures Dense(NO_LOCALS) && Dense(LowerStmt(s, ks, high, st).value.scope)
  {
    hide LowerSeq, LowerValues, ToReg, Targets;
    if st.Local? { PushKeepsDense(s, st.names); }
    if st.If? { IfKeepsScope(s, ks, high, st.branches, st.otherwise); }
  }

  lemma {:induction false} IfKeepsScope(s: Scope, ks: seq<Value>, high: nat, branches: seq<Branch>,
                                        otherwise: seq<Stmt>)
    requires LowerIf(s, ks, high, branches, otherwise).Done?
    ensures LowerIf(s, ks, high, branches, otherwise).value.scope == s
    decreases |branches|
  {
    hide LowerSeq, ToReg;
    if branches != [] {
      var c := ToReg(s, s.nactvar, ks, branches[0].cond).value;
      var b := LowerBlock(s, c.ks, Max(high, c.high), branches[0].body).value;
      IfKeepsScope(s, b.ks, b.high, branches[1..], otherwise);
    }
  }

  predicate IsList(st: Stmt) { st.Local? || st.Assign? }

  /** How many names or variables a declaration or assignment has, and how many values. */
  function TargetCount(st: Stmt): nat
    requires IsList(st)
  {
    if st.Local? then |st.names| else |st.vars|
  }

  function ValueCount(st: Stmt): nat
    requires IsList(st)
  {
    |st.values|
  }

  /** Some number of steps in a frame of `size` registers follows the evaluator. */
  ghost predicate RunFollows(m: Machine, size: nat, f: Frag, st: Stmt, pc: nat, regs: Regs, fuel: nat)
  {
    exists n: nat ::
      && RunIn(m.p, m.ops, size, Start(pc, regs), n).Some?
      && Follows(Exec(st, m.env, m.ops, fuel), f.scope, RunIn(m.p, m.ops, size, Start(pc, regs), n).value, pc,
                 pc + |f.code|, n, fuel)
  }

  /** The statement's code sits at `pc` of a program whose registers hold the locals. */
  ghost predicate Placed(m: Machine, mark: nat, ks: seq<Value>, high: nat, st: Stmt, pc: nat, regs: Regs)
  {
    && Ready(m, regs) && high <= mark && LowerStmt(m.s, ks, high, st).Done?
    && var f := LowerStmt(m.s, ks, high, st).value; Loaded(m, pc, f.code, f.ks)
  }

  /** Wherever the statement is placed, in a function that has asked for `mark` registers so far and asks for no more
      than the statement does, running it does what it means and stays inside the frame. */
  ghost predicate RunsRight(s: Scope, mark: nat, st: Stmt)
  {
    forall m: Machine, ks: seq<Value>, high: nat, pc: nat, regs: Regs, fuel: nat ::
      m.s == s && Placed(m, mark, ks, high, st, pc, regs)
      ==> var f := LowerStmt(s, ks, high, st).value;
          RunFollows(m, Max(mark, f.maxstack), f, st, pc, regs, fuel)
  }

  /** The registers of k targets and n values fit the field, and the values fit the frame. */
  predicate Fits(s: Scope, mark: nat, k: nat, n: nat)
  {
    s.nactvar + Max(k, n) <= 256 && s.nactvar + n <= Max(mark, s.nactvar + k)
  }

  /** In a scope with at least two locals, every list of n values for k targets compiles correctly if and only if it
      fits. (Longer lists than these have no code within the range of jumps.) */
  lemma ListFitsIff(s: Scope, mark: nat, k: nat, n: nat)
    requires Dense(s) && 2 <= s.nactvar <= mark && Max(k, n) + k < 32768
    ensures (forall st :: IsList(st) && SafeStmt(st) && TargetCount(st) == k && ValueCount(st) == n
                          ==> RunsRight(s, mark, st)) <==> Fits(s, mark, k, n)
  {
    hide RunsRight, SafeStmt;
    if Fits(s, mark, k, n) {
      forall st | IsList(st) && SafeStmt(st) && TargetCount(st) == k && ValueCount(st) == n
        ensures RunsRight(s, mark, st)
      {
        FittingListRuns(s, mark, st);
      }
    } else {
      UnfittingListFails(s, mark, k, n);
    }
  }

  lemma FittingListRuns(s: Scope, mark: nat, st: Stmt)
    requires IsList(st) && SafeStmt(st) && s.nactvar <= mark && Fits(s, mark, TargetCount(st), ValueCount(st))
    ensures RunsRight(s, mark, st)
  {
    hide Ready, Loaded, RunFollows, LowerStmt;
    forall m: Machine, ks: seq<Value>, high: nat, pc: nat, regs: Regs, fuel: nat
      | m.s == s && Placed(m, mark, ks, high, st, pc, regs)
      ensures var f := LowerStmt(s, ks, high, st).value;
        RunFollows(m, Max(mark, f.maxstack), f, st, pc, regs, fuel)
    {
      FittingListFollows(m, mark, ks, high, st, pc, regs, fuel);
    }
  }

  lemma ListMarks(s: Scope, ks: seq<Value>, high: nat, st: Stmt)
    requires IsList(st) && LowerStmt(s, ks, high, st).Done?
    ensures var f := LowerStmt(s, ks, high, st).value;
      && f.fits == (s.nactvar + Max(TargetCount(st), ValueCount(st)) <= 256)
      && f.reach == s.nactvar + ValueCount(st) && s.nactvar + TargetCount(st) <= f.maxstack
  {
    hide LowerValues, Targets, PushLocals;
    ValuesHigh(s, s.nactvar, ks, high, st.values);
  }

  lemma FittingListFollows(m: Machine, mark: nat, ks: seq<Value>, high: nat, st: Stmt, pc: nat, regs: Regs, fuel: nat)
    requires IsList(st) && SafeStmt(st) && m.s.nactvar <= mark && Fits(m.s, mark, TargetCount(st), ValueCount(st))
    requires Placed(m, mark, ks, high, st, pc, regs)
    ensures var f := LowerStmt(m.s, ks, high, st).value;
      RunFollows(m, Max(mark, f.maxstack), f, st, pc, regs, fuel)
  {
    hide LowerStmt, SafeStmt, AllInside, Run, RunIn, NegatesNumbers, Agrees;
    var f := LowerStmt(m.s, ks, high, st).value;
    ListMarks(m.s, ks, high, st);
    StmtInsideIff(m.s, ks, high, st, mark, Max(mark, f.maxstack));
    var alone := m.(p := Program(f.code, m.p.constants));
    assert f.code[0..|f.code|] == f.code;
    var k := StmtCorrect(alone, ks, high, st, fuel, 0, regs);
    var n := RunInside(m.p, m.ops, Max(mark, f.maxstack), pc, f.code, 0, regs, k);
  }

  // ----- Lists that do not fit -----

  function Copies(x: string, n: nat): (es: seq<Expr>)
    ensures |es| == n
  {
    if n == 0 then [] else [Name(x)] + Copies(x, n - 1)
  }

  function Same<T>(x: T, n: nat): (xs: seq<T>)
    ensures |xs| == n && forall i :: 0 <= i < n ==> xs[i] == x
  {
    if n == 0 then [] else [x] + Same(x, n - 1)
  }

  function Moves(base: nat, n: nat, r: nat): (code: seq<Instr>)
    ensures |code| == n && forall i :: 0 <= i < n ==> code[i] == Move(base + i, r)
    decreases n
  {
    if n == 0 then [] else [Move(base, r)] + Moves(base + 1, n - 1, r)
  }

  /** The last local of a scope. */
  function LastName(s: Scope): string
    requires Dense(s) && s.nactvar >= 1
  {
    s.names[s.nactvar - 1]
  }

  /** `x, ..., x = x, ..., x` with k targets and n values, for the last local x. */
  function Repeat(s: Scope, k: nat, n: nat): (st: Stmt)
    requires Dense(s) && s.nactvar >= 1
  {
    Assign(Same(LastName(s), k), Copies(LastName(s), n))
  }

  lemma {:induction false} CopiesSafe(x: string, n: nat)
    ensures SafeList(Copies(x, n))
  {
    if n > 0 { CopiesSafe(x, n - 1); }
  }

  lemma {:induction false} CopiesLower(s: Scope, base: nat, n: nat, ks: seq<Value>, high: nat)
    requires Dense(s) && s.nactvar >= 1 && s.nactvar <= base
    ensures LowerValues(s, base, ks, high, Copies(LastName(s), n)) ==
      Done(Frag(Moves(base, n, s.nactvar - 1), s, ks, high, true, 0, base + n))
    decreases n
  {
    if n > 0 {
      var x, r := LastName(s), s.nactvar - 1;
      assert Copies(x, n)[0] == Name(x) && Copies(x, n)[1..] == Copies(x, n - 1);
      assert ToReg(s, base, ks, Name(x)) == Done(Code([], LocalVar(r), base, ks, 0));
      CopiesLower(s, base + 1, n - 1, ks, high);
      assert [] + [Move(base, r)] + Moves(base + 1, n - 1, r) == Moves(base, n, r);
    }
  }

  lemma {:induction false} SameTargets(s: Scope, k: nat)
    requires Dense(s) && s.nactvar >= 1
    ensures Targets(s, Same(LastName(s), k)) == Done(Same<nat>(s.nactvar - 1, k))
    decreases k
  {
    if k > 0 {
      var x := LastName(s);
      assert Find(s.names, x) == s.nactvar - 1;
      assert Same(x, k)[1..] == Same(x, k - 1);
      SameTargets(s, k - 1);
    }
  }

  function RepeatCode(s: Scope, k: nat, n: nat): seq<Instr>
    requires Dense(s) && s.nactvar >= 1
  {
    Moves(s.nactvar, n, s.nactvar - 1) + PadCode(s.nactvar, n, k) + StoreCode(Same<nat>(s.nactvar - 1, k), s.nactvar)
  }

  /** Its code asks for no registers for its values. */
  lemma RepeatLowers(s: Scope, k: nat, n: nat, ks: seq<Value>, high: nat)
    requires Dense(s) && s.nactvar >= 1
    ensures LowerStmt(s, ks, high, Repeat(s, k, n)) ==
      Done(Frag(RepeatCode(s, k, n), s, ks, high, s.nactvar + Max(k, n) <= 256, s.nactvar + k, s.nactvar + n))
  {
    CopiesLower(s, s.nactvar, n, ks, high);
    SameTargets(s, k);
  }

  lemma {:induction false} PadAt(base: nat, from: nat, upTo: nat)
    ensures |PadCode(base, from, upTo)| == if from < upTo then upTo - from else 0
    ensures forall i :: 0 <= i < |PadCode(base, from, upTo)| ==>
      PadCode(base, from, upTo)[i] == LoadNil(base + from + i, 0)
    decreases upTo - from
  {
    if from < upTo { PadAt(base, from + 1, upTo); }
  }

  lemma {:induction false} StoreAt(r: nat, k: nat, base: nat)
    ensures |StoreCode(Same<nat>(r, k), base)| == k
    ensures forall i :: 0 <= i < k ==> StoreCode(Same<nat>(r, k), base)[i] == Move(r, base + i)
    decreases k
  {
    if k > 0 {
      assert Same<nat>(r, k)[1..] == Same<nat>(r, k - 1);
      StoreAt(r, k - 1, base + 1);
    }
  }

  // ----- What it means -----

  /** The first local is 0, all others are 1. */
  function ZeroAndOnes(s: Scope): (env: Env)
    requires Dense(s)
    ensures |env| == |s.names| && NamesOf(env) == s.names
  {
    seq(|s.names|, i requires 0 <= i < |s.names| => Binding(s.names[i], Int(if i == 0 then 0 else 1)))
  }

  lemma {:induction false} CopiesEval(s: Scope, n: nat, env: Env, ops: Ops)
    requires Dense(s) && s.nactvar >= 1 && NamesOf(env) == s.names
    ensures EvalList(Copies(LastName(s), n), env, ops).Ok?
    decreases n
  {
    if n > 0 {
      var x := LastName(s);
      assert Copies(x, n)[0] == Name(x) && Copies(x, n)[1..] == Copies(x, n - 1);
      assert Find(s.names, x) == s.nactvar - 1;
      CopiesEval(s, n - 1, env, ops);
    }
  }

  /** Assigning to the last local leaves the first alone. */
  lemma {:induction false} UpdateKeepsFirst(s: Scope, env: Env, k: nat, vs: seq<Value>, i: nat)
    requires Dense(s) && s.nactvar >= 2 && NamesOf(env) == s.names && |env| == |s.names| && i <= k
    ensures Update(env, Same(LastName(s), k), vs, i)[0] == env[0]
    decreases k - i
  {
    if i < k {
      var last := s.nactvar - 1;
      assert Find(NamesOf(env), LastName(s)) == last;
      var env' := env[last := env[last].(value := ValueAt(vs, i))];
      assert NamesOf(env') == NamesOf(env);
      UpdateKeepsFirst(s, env', k, vs, i + 1);
    }
  }

  lemma RepeatMeans(s: Scope, k: nat, n: nat, ops: Ops, fuel: nat)
    requires Dense(s) && s.nactvar >= 2
    ensures var o := Exec(Repeat(s, k, n), ZeroAndOnes(s), ops, fuel);
      o.Finished? && |o.env| == |s.names| && o.env[0].value == Int(0)
  {
    var env := ZeroAndOnes(s);
    CopiesEval(s, n, env, ops);
    UpdateKeepsFirst(s, env, k, EvalList(Copies(LastName(s), n), env, ops).value, 0);
  }

  // ----- What it does past the field -----

  /** All registers but the first hold one of the values. */
  ghost predicate Holds(vs: set<Value>, regs: Regs) { forall q :: 1 <= q < 256 ==> regs[q] in vs }

  /** Fills a register with one of the values, given registers that hold them. */
  predicate Fills(vs: set<Value>, i: Instr) { (i.Move? && Reg8(i.b) != 0) || (i.LoadNil? && i.b == 0 && Nil in vs) }

  predicate AllFill(vs: set<Value>, code: seq<Instr>) { forall i :: 0 <= i < |code| ==> Fills(vs, code[i]) }

  /** Moves into registers other than the first. */
  predicate AllStore(code: seq<Instr>) { forall i :: 0 <= i < |code| ==> code[i].Move? && Reg8(code[i].a) != 0 }

  /** Filling registers, the first among them or not. */
  lemma {:induction false} FillRun(p: Program, ops: Ops, vs: set<Value>, code: seq<Instr>, pc: nat, regs: Regs)
    requires At(p, pc, code) && Holds(vs, regs) && AllFill(vs, code)
    ensures var c := Run(p, ops, Start(pc, regs), |code|);
      && c.Running? && c.pc == pc + |code| && Holds(vs, c.regs)
      && (regs[0] in vs || CodeWrites(code, 0) ==> c.regs[0] in vs)
    decreases |code|
  {
    if code != [] {
      hide CodeWrites;
      var head, rest := [code[0]], code[1..];
      assert code == head + rest;
      AtSplit(p, pc, head, rest);
      AtIndex(p, pc, head, 0);
      WritesAppend(head, rest, 0);
      var next := Step(p, ops, Start(pc, regs));
      FillStep(p, ops, vs, head[0], pc, regs);
      FillRun(p, ops, vs, rest, pc + 1, next.regs);
    }
  }

  lemma FillStep(p: Program, ops: Ops, vs: set<Value>, i: Instr, pc: nat, regs: Regs)
    requires pc < |p.code| && p.code[pc] == i && Holds(vs, regs) && Fills(vs, i)
    ensures var c := Step(p, ops, Start(pc, regs));
      && c.Running? && c.pc == pc + 1 && Holds(vs, c.regs)
      && (regs[0] in vs || CodeWrites([i], 0) ==> c.regs[0] in vs)
  {
    if i.Move? { assert 0 < Reg8(i.b) < 256; }
  }

  /** Such stores keep the first register. */
  lemma {:induction false} KeepRun(p: Program, ops: Ops, code: seq<Instr>, pc: nat, regs: Regs)
    requires At(p, pc, code) && AllStore(code)
    ensures var c := Run(p, ops, Start(pc, regs), |code|);
      c.Running? && c.pc == pc + |code| && c.regs[0] == regs[0]
    decreases |code|
  {
    if code != [] {
      var head, rest := [code[0]], code[1..];
      assert code == head + rest;
      AtSplit(p, pc, head, rest);
      AtIndex(p, pc, head, 0);
      KeepRun(p, ops, rest, pc + 1, Step(p, ops, Start(pc, regs)).regs);
    }
  }

  const OPS: Ops := Ops((_, _, _) => Ok(Nil), (_, k) => Ok(Negated(k)), (_, _) => Ok(Nil), (_, _, _) => Ok(false))

  lemma OpsNegate()
    ensures NegatesNumbers(OPS)
  {
    hide NegFloat;
    forall b: Bits64, c: Bits64 | SignFlipped(b, c) ensures NegFloat(b) == c { NegFloatIs(b, c); }
  }

  /** A machine that holds the code of the repeated assignment and nothing else. */
  function RepeatMachine(s: Scope, k: nat, n: nat): Machine
    requires Dense(s) && s.nactvar >= 1
  {
    Machine(Program(RepeatCode(s, k, n), []), OPS, s, ZeroAndOnes(s))
  }

  /** Registers that are 1, except that register 0 is 0. */
  const ZERO_AND_ONES: Regs := seq(256, i => Int(if i == 0 then 0 else 1))

  /** One of the values or of the padding nils goes to register 256, which is register 0. */
  lemma RepeatWraps(s: Scope, k: nat, n: nat)
    requires Dense(s) && s.nactvar >= 2 && s.nactvar + Max(k, n) > 256
    ensures CodeWrites(Moves(s.nactvar, n, s.nactvar - 1) + PadCode(s.nactvar, n, k), 0)
  {
    var moves, pad, i := Moves(s.nactvar, n, s.nactvar - 1), PadCode(s.nactvar, n, k), 256 - s.nactvar;
    PadAt(s.nactvar, n, k);
    assert Writes((moves + pad)[i], 0);
  }

  /** The values and the padding fill registers, with 1 or with nil. */
  lemma RepeatFills(s: Scope, k: nat, n: nat)
    requires Dense(s) && s.nactvar >= 2
    ensures AllFill(FillValues(k, n), Moves(s.nactvar, n, s.nactvar - 1) + PadCode(s.nactvar, n, k))
  {
    PadAt(s.nactvar, n, k);
    assert Reg8(s.nactvar - 1) == s.nactvar - 1;
  }

  function FillValues(k: nat, n: nat): set<Value> { if k <= n then {Int(1)} else {Int(1), Nil} }

  /** The stores go to the last local. */
  lemma RepeatStores(s: Scope, k: nat)
    requires Dense(s) && s.nactvar >= 2
    ensures AllStore(StoreCode(Same<nat>(s.nactvar - 1, k), s.nactvar))
  {
    StoreAt(s.nactvar - 1, k, s.nactvar);
    assert Reg8(s.nactvar - 1) == s.nactvar - 1;
  }

  /** For every scope with two locals and every list past the field, the code of `x, ..., x = x, ..., x` overwrites
      the first local: with 1, or with nil where there are more targets than values. */
  lemma RepeatClobbers(s: Scope, k: nat, n: nat)
    requires Dense(s) && s.nactvar >= 2 && s.nactvar + Max(k, n) > 256
    ensures var m := RepeatMachine(s, k, n);
      var c := Run(m.p, m.ops, Start(0, ZERO_AND_ONES), |m.p.code|);
      && c.Running? && c.pc == |m.p.code| && c.regs[0] != Int(0) && (k <= n ==> c.regs[0] == Int(1))
  {
    hide Run, CodeWrites, AllFill, AllStore;
    var p := RepeatMachine(s, k, n).p;
    var fill := Moves(s.nactvar, n, s.nactvar - 1) + PadCode(s.nactvar, n, k);
    var store := StoreCode(Same<nat>(s.nactvar - 1, k), s.nactvar);
    assert p.code[0..|p.code|] == p.code;
    AtSplit(p, 0, fill, store);
    RepeatWraps(s, k, n);
    RepeatFills(s, k, n);
    RepeatStores(s, k);
    FillRun(p, OPS, FillValues(k, n), fill, 0, ZERO_AND_ONES);
    KeepRun(p, OPS, store, |fill|, Run(p, OPS, Start(0, ZERO_AND_ONES), |fill|).regs);
    RunAdds(p, OPS, Start(0, ZERO_AND_ONES), |fill|, |store|);
  }

  /** All configurations of a run that are at the end of the code are the same. */
  lemma EndIsUnique(p: Program, ops: Ops, c: Config, n: nat, k: nat)
    requires Run(p, ops, c, n).Running? && Run(p, ops, c, n).pc == |p.code|
    requires Run(p, ops, c, k).Running? && Run(p, ops, c, k).pc == |p.code|
    ensures Run(p, ops, c, n) == Run(p, ops, c, k)
  {
    if k <= n {
      RunAdds(p, ops, c, k, n - k);
      Stuck(p, ops, Run(p, ops, c, k), n - k);
    } else {
      RunAdds(p, ops, c, n, k - n);
      Stuck(p, ops, Run(p, ops, c, n), k - n);
    }
  }

  // ----- What it does past the frame -----

  /** Goes on to the next instruction. */
  predicate Plain(i: Instr) { i.Move? || i.LoadNil? || i.LoadInt? }

  /** A run through plain code never gets past an instruction outside the frame. */
  lemma {:induction false} StraightStrays(p: Program, ops: Ops, size: nat, pc: nat, regs: Regs, i: nat, n: nat)
    requires pc <= i < |p.code| && !Inside(p.code[i], size) && forall j :: pc <= j <= i ==> Plain(p.code[j])
    ensures var c := RunIn(p, ops, size, Start(pc, regs), n);
      if n > i - pc then c.None? else c.Some? ==> c.value.Running? && c.value.pc <= i
    decreases n
  {
    hide Inside;
    if n > 0 && !Strays(p, size, Start(pc, regs)) {
      assert Plain(p.code[pc]);
      StraightStrays(p, ops, size, pc + 1, Step(p, ops, Start(pc, regs)).regs, i, n - 1);
    }
  }

  /** Past the frame but within the field, the code of `x, ..., x = x, ..., x` leaves the frame. */
  lemma RepeatStrays(s: Scope, size: nat, k: nat, n: nat, regs: Regs, j: nat)
    requires Dense(s) && 1 <= s.nactvar <= size < s.nactvar + n <= 256
    ensures var m := RepeatMachine(s, k, n);
      var c := RunIn(m.p, m.ops, size, Start(0, regs), j);
      if j >= n then c.None? else c.Some? ==> c.value.Running? && c.value.pc < |m.p.code|
  {
    hide RunIn;
    var p := RepeatMachine(s, k, n).p;
    assert p.code[n - 1] == Move(s.nactvar + n - 1, s.nactvar - 1);
    StraightStrays(p, OPS, size, 0, regs, n - 1, j);
  }

  /** So that list does not compile correctly. */
  lemma UnfittingListFails(s: Scope, mark: nat, k: nat, n: nat)
    requires Dense(s) && 2 <= s.nactvar <= mark && !Fits(s, mark, k, n) && Max(k, n) + k < 32768
    ensures var st := Repeat(s, k, n);
      IsList(st) && SafeStmt(st) && TargetCount(st) == k && ValueCount(st) == n && !RunsRight(s, mark, st)
  {
    hide LowerStmt, Exec, Run, RunIn, RunFollows;
    CopiesSafe(LastName(s), n);
    RepeatPlaced(s, mark, k, n);
    RepeatDoesNotFollow(s, mark, k, n);
  }

  lemma RepeatPlaced(s: Scope, mark: nat, k: nat, n: nat)
    requires Dense(s) && 2 <= s.nactvar <= mark && Max(k, n) + k < 32768
    ensures Placed(RepeatMachine(s, k, n), mark, [], 0, Repeat(s, k, n), 0, ZERO_AND_ONES)
  {
    hide LowerStmt, Moves, PadCode, StoreCode, NegatesNumbers;
    var m := RepeatMachine(s, k, n);
    OpsNegate();
    RepeatLowers(s, k, n, [], 0);
    PadAt(s.nactvar, n, k);
    StoreAt(s.nactvar - 1, k, s.nactvar);
    assert |m.p.code| == Max(k, n) + k;
    assert m.p.code[0..|m.p.code|] == m.p.code;
  }

  lemma RepeatDoesNotFollow(s: Scope, mark: nat, k: nat, n: nat)
    requires Dense(s) && 2 <= s.nactvar <= mark && !Fits(s, mark, k, n)
    ensures LowerStmt(s, [], 0, Repeat(s, k, n)).Done?
    ensures var f := LowerStmt(s, [], 0, Repeat(s, k, n)).value;
      !RunFollows(RepeatMachine(s, k, n), Max(mark, f.maxstack), f, Repeat(s, k, n), 0, ZERO_AND_ONES, 0)
  {
    hide LowerStmt, Exec, Run, RunIn;
    var m, st, regs := RepeatMachine(s, k, n), Repeat(s, k, n), ZERO_AND_ONES;
    RepeatLowers(s, k, n, [], 0);
    RepeatMeans(s, k, n, OPS, 0);
    var f := LowerStmt(s, [], 0, st).value;
    var size := Max(mark, f.maxstack);
    if RunFollows(m, size, f, st, 0, regs, 0) {
      var j: nat :| RunIn(m.p, m.ops, size, Start(0, regs), j).Some?
        && Follows(Exec(st, m.env, m.ops, 0), f.scope, RunIn(m.p, m.ops, size, Start(0, regs), j).value, 0, |f.code|, j,
                   0);
      if s.nactvar + Max(k, n) > 256 {
        RunInIsRun(m.p, m.ops, size, Start(0, regs), j);
        RepeatClobbers(s, k, n);
        EndIsUnique(m.p, m.ops, Start(0, regs), |m.p.code|, j);
      } else {
        RepeatStrays(s, size, k, n, regs, j);
      }
    }
  }

  // ----- Examples -----

  const TWO_LOCALS: Scope := Scope(["y", "x"], [0, 1], 2)

  /** With locals y = 0 and x = 1, `x = x, ..., x` with 255 values leaves y at 0 in the evaluator; its code sets it
      to 1. */
  lemma WrappedAssignmentExample()
    ensures var st, env := Repeat(TWO_LOCALS, 1, 255), [Binding("y", Int(0)), Binding("x", Int(1))];
      && (var o := Exec(st, env, OPS, 0); o.Finished? && |o.env| == 2 && o.env[0].value == Int(0))
      && LowerStmt(TWO_LOCALS, [], 0, st).Done?
      && var p := Program(LowerStmt(TWO_LOCALS, [], 0, st).value.code, []);
         var c := Run(p, OPS, Start(0, ZERO_AND_ONES), |p.code|);
         c.Running? && c.pc == |p.code| && c.regs[0] == Int(1)
  {
    hide Exec, LowerStmt, Run, Moves, Copies;
    RepeatLowers(TWO_LOCALS, 1, 255, [], 0);
    RepeatMeans(TWO_LOCALS, 1, 255, OPS, 0);
    RepeatClobbers(TWO_LOCALS, 1, 255);
    assert ZeroAndOnes(TWO_LOCALS) == [Binding("y", Int(0)), Binding("x", Int(1))];
  }

  /** `local y, x = 0, 1; x = x, ..., x` with 200 values. */
  const OVERRUN: seq<Stmt> := [Local(["y", "x"], [Const(Int(0)), Const(Int(1))]), Repeat(TWO_LOCALS, 1, 200)]

  const LOADS: seq<Instr> := [LoadInt(0, 0), LoadInt(1, 1)]

  lemma LoadsLower()
    ensures LowerValues(NO_LOCALS, 0, [], 0, OVERRUN[0].values) == Done(Frag(LOADS, NO_LOCALS, [], 2, true, 2, 2))
  {
    var zero, one := Const(Int(0)), Const(Int(1));
    LoadSmall(0, 0);
    LoadSmall(1, 1);
    assert ToReg(NO_LOCALS, 0, [], zero) == Done(Code([LoadInt(0, 0)], Temp(0), 1, [], 1));
    assert ToReg(NO_LOCALS, 1, [], one) == Done(Code([LoadInt(1, 1)], Temp(1), 2, [], 2));
    assert LowerValues(NO_LOCALS, 2, [], 2, []) == Done(Frag([], NO_LOCALS, [], 2, true, 0, 2));
    assert [zero, one][1..] == [one] && [one][1..] == [];
    assert [LoadInt(1, 1)] + [] + [] == [LoadInt(1, 1)] && [LoadInt(0, 0)] + [] + [LoadInt(1, 1)] == LOADS;
    assert LowerValues(NO_LOCALS, 1, [], 1, [one]) == Done(Frag([LoadInt(1, 1)], NO_LOCALS, [], 2, true, 2, 2));
  }

  lemma NamesLower()
    ensures PushLocals(NO_LOCALS, OVERRUN[0].names, 0) == Done(TWO_LOCALS)
  {
    assert ["y", "x"][1..] == ["x"] && ["x"][1..] == [];
    assert ["y"] + ["x"] == ["y", "x"] && [0] + [1] == [0, 1] && [] + ["y"] == ["y"] && [] + [0] == [0];
    assert PushLocals(TWO_LOCALS, [], 2) == Done(TWO_LOCALS);
    assert PushLocals(Scope(["y"], [0], 1), ["x"], 1) == Done(TWO_LOCALS);
  }

  lemma DeclarationLowers()
    ensures LowerStmt(NO_LOCALS, [], 0, OVERRUN[0]) == Done(Frag(LOADS, TWO_LOCALS, [], 2, true, 2, 2))
  {
    hide LowerValues, PushLocals, Copies;
    LoadsLower();
    NamesLower();
    assert LOADS + PadCode(0, 2, 2) == LOADS;
  }

  lemma OverrunLowers()
    ensures LowerBlock(NO_LOCALS, [], 0, OVERRUN) ==
      Done(Frag(LOADS + RepeatCode(TWO_LOCALS, 1, 200) + [LoadNil(0, 1)], NO_LOCALS, [], 2, true, 3, 202))
  {
    hide LowerStmt, RepeatCode, Copies;
    DeclarationLowers();
    RepeatLowers(TWO_LOCALS, 1, 200, [], 2);
    var code := RepeatCode(TWO_LOCALS, 1, 200);
    assert OVERRUN[1..][0] == OVERRUN[1] && OVERRUN[1..][1..] == [];
    assert LowerSeq(TWO_LOCALS, [], 2, []) == Done(Frag([], TWO_LOCALS, [], 2, true, 0, 0));
    assert code + [] == code;
    assert LowerSeq(TWO_LOCALS, [], 2, OVERRUN[1..]) == Done(Frag(code, TWO_LOCALS, [], 2, true, 3, 202));
    assert LowerSeq(NO_LOCALS, [], 0, OVERRUN) == Done(Frag(LOADS + code, TWO_LOCALS, [], 2, true, 3, 202));
    assert LeaveCode(NO_LOCALS, Frag(LOADS + code, TWO_LOCALS, [], 2, true, 3, 202)) == [LoadNil(0, 1)];
  }

  /** This chunk is in the fragment and within the instruction fields. It asks for a frame of 3 registers, and its
      runs leave every frame below 202. */
  lemma OverrunExample(size: nat, ops: Ops, regs: Regs, n: nat)
    requires size < 202 <= n
    ensures SafeBody(OVERRUN) && LowerBlock(NO_LOCALS, [], 0, OVERRUN).Done?
    ensures LowerBlock(NO_LOCALS, [], 0, OVERRUN).value.fits && FrameSize(OVERRUN) == 3
    ensures RunIn(Chunk(OVERRUN), ops, size, Start(0, regs), n) == None
  {
    hide LowerBlock, RunIn, Copies, RepeatCode;
    OverrunLowers();
    OverrunSafe();
    var p := Chunk(OVERRUN);
    OverrunCode(p.code);
    StraightStrays(p, ops, size, 0, regs, 201, n);
  }

  lemma OverrunCode(code: seq<Instr>)
    requires code == LOADS + RepeatCode(TWO_LOCALS, 1, 200) + [LoadNil(0, 1)]
    ensures |code| > 201 && code[201] == Move(201, 1) && forall j :: 0 <= j <= 201 ==> Plain(code[j])
  {
    hide Moves;
    var moves := Moves(2, 200, 1);
    assert forall j :: 2 <= j < 202 ==> code[j] == moves[j - 2];
  }

  lemma OverrunSafe()
    ensures SafeBody(OVERRUN)
  {
    hide Copies;
    CopiesSafe("x", 200);
    assert OVERRUN[1..] == [OVERRUN[1]] && OVERRUN[1..][1..] == [];
    assert SafeBody([]) && SafeBody(OVERRUN[1..]);
  }
}
