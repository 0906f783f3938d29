/**
 Running the code emitted for statements does what the statements do: finished
 runs end just past the code with the locals updated, errors are the same
 errors, and a loop that never ends keeps the machine running.
 */
module LoweringStmtProof {
  import opened Common
  import opened Bytecode
  import opened Lang
  import opened Lowering
  import opened LoweringProof
  import opened LoweringStmt

  // ----- Value lists -----

  predicate SafeList(es: seq<Expr>) { forall i :: 0 <= i < |es| ==> Safe(es[i]) }

  ghost predicate DeliversList(res: Result<seq<Value>>, c: Config, pc: int, base: nat, regs: Regs)
  {
    match res
    case Ok(vs) =>
      && c.Running? && c.pc == pc && SameBelow(regs, c.regs, base)
      && forall i :: 0 <= i < |vs| && base + i < 256 ==> c.regs[base + i] == vs[i]
    case Error(msg) => c == Failed(msg)
  }

  lemma {:induction false} ValuesShape(s: Scope, base: nat, ks: seq<Value>, high: nat, values: seq<Expr>)
    requires Scoped(s) && s.nactvar <= base && SafeList(values) && LowerValues(s, base, ks, high, values).Done?
    ensures var v := LowerValues(s, base, ks, high, values).value; ks <= v.ks && v.scope == s
    decreases |values|
  {
    if values != [] {
      ToRegShape(s, base, ks, values[0]);
      var c := ToReg(s, base, ks, values[0]).value;
      ValuesShape(s, base + 1, c.ks, Max(high, c.high), values[1..]);
    }
  }

  function IntoCode(base: nat, c: Code): seq<Instr>
  {
    c.code + (if RegOf(c.desc) != base then [Move(base, RegOf(c.desc))] else [])
  }

  /** One value into register `base`. */
  lemma IntoCorrect(m: Machine, base: nat, ks: seq<Value>, e: Expr, pc: nat, regs: Regs) returns (n: nat)
    requires Ready(m, regs) && m.s.nactvar <= base < 256 && Safe(e) && ToReg(m.s, base, ks, e).Done?
    requires var c := ToReg(m.s, base, ks, e).value; Loaded(m, pc, IntoCode(base, c), c.ks)
    ensures var c := ToReg(m.s, base, ks, e).value;
      Delivers(Eval(e, m.env, m.ops), Run(m.p, m.ops, Start(pc, regs), n), pc + |IntoCode(base, c)|, Temp(base), regs,
               base)
  {
    hide ToReg, Eval, Run, Step, At, NegatesNumbers, Agrees;
    var c := ToReg(m.s, base, ks, e).value;
    var move := if RegOf(c.desc) != base then [Move(base, RegOf(c.desc))] else [];
    AtSplit(m.p, pc, c.code, move);
    ToRegShape(m.s, base, ks, e);
    n := ToRegCorrect(m, base, ks, e, pc, regs);
    if Eval(e, m.env, m.ops).Ok? && move != [] {
      var mid := Run(m.p, m.ops, Start(pc, regs), n);
      MoveStep(m, base, RegOf(c.desc), pc + |c.code|, mid.regs);
      DeliversLater(m, Eval(e, m.env, m.ops), Start(pc, regs), n, 1, pc + |c.code| + 1, Temp(base), regs, base, base);
      n := n + 1;
    }
  }

  lemma {:induction false} ValuesCorrect(m: Machine, base: nat, ks: seq<Value>, high: nat, values: seq<Expr>, pc: nat,
                                         regs: Regs)
    returns (n: nat)
    requires Ready(m, regs) && m.s.nactvar <= base && base + |values| <= 256 && SafeList(values)
    requires LowerValues(m.s, base, ks, high, values).Done?
    requires var v := LowerValues(m.s, base, ks, high, values).value; Loaded(m, pc, v.code, v.ks)
    ensures var v := LowerValues(m.s, base, ks, high, values).value;
      DeliversList(EvalList(values, m.env, m.ops), Run(m.p, m.ops, Start(pc, regs), n), pc + |v.code|, base, regs)
    decreases |values|
  {
    hide ToReg, Eval, Run, Step, At, NegatesNumbers, Agrees, DeliversList, EvalList;
    if values == [] {
      n := ValuesNil(m, base, pc, regs);
    } else {
      var c := ToReg(m.s, base, ks, values[0]).value;
      var v := LowerValues(m.s, base, ks, high, values).value;
      var rest := LowerValues(m.s, base + 1, c.ks, Max(high, c.high), values[1..]).value;
      assert v.code == IntoCode(base, c) + rest.code;
      ToRegShape(m.s, base, ks, values[0]);
      ValuesShape(m.s, base + 1, c.ks, Max(high, c.high), values[1..]);
      AtSplit(m.p, pc, IntoCode(base, c), rest.code);
      n := IntoCorrect(m, base, ks, values[0], pc, regs);
      var k := 0;
      if Eval(values[0], m.env, m.ops).Ok? {
        var mid := Run(m.p, m.ops, Start(pc, regs), n);
        ReadyKept(m, regs, mid.regs, base);
        k := ValuesCorrect(m, base + 1, c.ks, Max(high, c.high), values[1..], pc + |IntoCode(base, c)|, mid.regs);
      }
      n := DeliversCons(m, values, pc, pc + |IntoCode(base, c)|, pc + |v.code|, base, regs, n, k);
    }
  }

  lemma ValuesNil(m: Machine, base: nat, pc: nat, regs: Regs) returns (n: nat)
    ensures DeliversList(EvalList([], m.env, m.ops), Run(m.p, m.ops, Start(pc, regs), n), pc, base, regs)
  {
    n := StayPut(m, pc, regs);
  }

  lemma {:induction false} DeliversCons(m: Machine, values: seq<Expr>, pc: nat, pc1: int, pc2: int, base: nat,
                                        regs: Regs, n: nat, k: nat)
    returns (n': nat)
    requires values != [] && base < 256
    requires Delivers(Eval(values[0], m.env, m.ops), Run(m.p, m.ops, Start(pc, regs), n), pc1, Temp(base), regs, base)
    requires Eval(values[0], m.env, m.ops).Ok? ==>
      var mid := Run(m.p, m.ops, Start(pc, regs), n);
      DeliversList(EvalList(values[1..], m.env, m.ops), Run(m.p, m.ops, Start(mid.pc, mid.regs), k), pc2, base + 1,
                   mid.regs)
    ensures DeliversList(EvalList(values, m.env, m.ops), Run(m.p, m.ops, Start(pc, regs), n'), pc2, base, regs)
  {
    hide Eval, Run;
    n' := n;
    if Eval(values[0], m.env, m.ops).Ok? {
      RunAdds(m.p, m.ops, Start(pc, regs), n, k);
      n' := n + k;
    }
  }

  // ----- Padding with nil -----

  ghost predicate Padded(regs: Regs, regs': Regs, base: nat, from: nat, upTo: nat)
  {
    forall i :: 0 <= i < 256 ==> regs'[i] == if base + from <= i < base + upTo then Nil else regs[i]
  }

  lemma {:induction false} PadCorrect(m: Machine, base: nat, from: nat, upTo: nat, pc: nat, regs: Regs) returns (n: nat)
    requires At(m.p, pc, PadCode(base, from, upTo)) && base + upTo <= 256
    ensures var c := Run(m.p, m.ops, Start(pc, regs), n);
      c.Running? && c.pc == pc + |PadCode(base, from, upTo)| && Padded(regs, c.regs, base, from, upTo)
    decreases upTo - from
  {
    if from >= upTo {
      n := StayPut(m, pc, regs);
    } else {
      hide Run, Step;
      AtSplit(m.p, pc, [LoadNil(base + from, 0)], PadCode(base, from + 1, upTo));
      NilStep(m, base + from, 0, pc, regs);
      var regs1 := ClearRange(regs, base + from, 0);
      assert Reg8(base + from) == base + from;
      assert Padded(regs, regs1, base, from, from + 1);
      var k := PadCorrect(m, base, from + 1, upTo, pc + 1, regs1);
      RunAdds(m.p, m.ops, Start(pc, regs), 1, k);
      n := 1 + k;
    }
  }

  lemma NilStep(m: Machine, a: nat, b: nat, pc: nat, regs: Regs)
    requires At(m.p, pc, [LoadNil(a, b)])
    ensures Run(m.p, m.ops, Start(pc, regs), 1) == Start(pc + 1, ClearRange(regs, a, b))
  {
    AtIndex(m.p, pc, [LoadNil(a, b)], 0);
    RunFew(m.p, m.ops, Start(pc, regs));
  }

  // ----- Stores -----

  lemma {:induction false} FindInPrefix(names: seq<string>, x: string, i: int)
    requires Find(names, x) == i
    ensures i < 0 ==> x !in names
    ensures forall j :: i < j < |names| ==> names[j] != x
    decreases |names|
  {
    if names != [] && names[|names| - 1] != x {
      FindInPrefix(names[..|names| - 1], x, i);
    }
  }

  lemma {:induction false} TargetsShape(s: Scope, vars: seq<string>)
    requires Scoped(s) && Targets(s, vars).Done?
    ensures |Targets(s, vars).value| == |vars|
    ensures forall i :: 0 <= i < |vars| ==>
      var k := Find(s.names, vars[i]); k >= 0 && Targets(s, vars).value[i] == s.regs[k]
  {
    if vars != [] {
      TargetsShape(s, vars[1..]);
    }
  }

  /** Storing one value updates the innermost binding and nothing else. */
  lemma StoreAgrees(s: Scope, env: Env, regs: Regs, x: string, v: Value)
    requires Scoped(s) && Agrees(s, env, regs) && Find(s.names, x) >= 0
    ensures var k := Find(s.names, x);
      Find(NamesOf(env), x) == k && Agrees(s, env[k := env[k].(value := v)], regs[s.regs[k] := v])
  {
    var k := Find(s.names, x);
    var env' := env[k := env[k].(value := v)];
    assert NamesOf(env') == NamesOf(env);
  }

  /** The variables from the `i`th on have yet to be stored from their temporaries. */
  ghost predicate StoresPending(m: Machine, vars: seq<string>, targets: seq<nat>, vs: seq<Value>, i: nat, base: nat,
                                regs: Regs)
  {
    && Scoped(m.s) && Agrees(m.s, m.env, regs) && i <= |vars| == |targets|
    && m.s.nactvar <= base && base + |vars| <= 256
    && (forall j :: i <= j < |vars| ==> regs[base + j] == ValueAt(vs, j))
    && (forall j :: 0 <= j < |vars| ==> var k := Find(m.s.names, vars[j]); k >= 0 && targets[j] == m.s.regs[k])
  }

  lemma StoreStep(m: Machine, vars: seq<string>, targets: seq<nat>, vs: seq<Value>, i: nat, base: nat, regs: Regs)
    returns (env': Env)
    requires StoresPending(m, vars, targets, vs, i, base, regs) && i < |vars|
    ensures targets[i] < 256
    ensures StoresPending(m.(env := env'), vars, targets, vs, i + 1, base, regs[targets[i] := regs[base + i]])
    ensures Update(m.env, vars, vs, i) == Update(env', vars, vs, i + 1)
  {
    hide Find;
    StoreAgrees(m.s, m.env, regs, vars[i], ValueAt(vs, i));
    var k := Find(m.s.names, vars[i]);
    env' := m.env[k := m.env[k].(value := ValueAt(vs, i))];
  }

  lemma StoresBounds(m: Machine, vars: seq<string>, targets: seq<nat>, vs: seq<Value>, i: nat, base: nat, regs: Regs)
    requires StoresPending(m, vars, targets, vs, i, base, regs)
    ensures i <= |vars| == |targets| && base + |vars| <= 256 && Agrees(m.s, m.env, regs)
    ensures i == |vars| ==> Update(m.env, vars, vs, i) == m.env && StoreCode(targets[i..], base + i) == []
    ensures forall r: nat :: r < 256 ==> Get(regs, r) == regs[r]
  {
    if i == |vars| {
      assert targets[i..] == [];
    }
  }

  lemma StoreCodeUnfold(targets: seq<nat>, i: nat, base: nat)
    requires i < |targets|
    ensures StoreCode(targets[i..], base + i) ==
      [Move(targets[i], base + i)] + StoreCode(targets[i + 1..], base + i + 1)
  {
    assert targets[i..][1..] == targets[i + 1..];
  }

  lemma {:induction false} StoresCorrect(m: Machine, vars: seq<string>, targets: seq<nat>, vs: seq<Value>, i: nat,
                                         base: nat, pc: nat, regs: Regs)
    returns (n: nat)
    requires StoresPending(m, vars, targets, vs, i, base, regs) && Scoped(m.s) && i <= |targets| && i <= |vars|
    requires At(m.p, pc, StoreCode(targets[i..], base + i))
    ensures var c := Run(m.p, m.ops, Start(pc, regs), n);
      && c.Running? && c.pc == pc + |StoreCode(targets[i..], base + i)|
      && Agrees(m.s, Update(m.env, vars, vs, i), c.regs)
    decreases |vars| - i
  {
    hide Run, At, Agrees, Update, Scoped, StoresPending, StoreCode;
    StoresBounds(m, vars, targets, vs, i, base, regs);
    if i == |vars| {
      n := StayPut(m, pc, regs);
    } else {
      StoreCodeUnfold(targets, i, base);
      var rest := StoreCode(targets[i + 1..], base + i + 1);
      AtSplit(m.p, pc, [Move(targets[i], base + i)], rest);
      var env' := StoreStep(m, vars, targets, vs, i, base, regs);
      MoveStep(m, targets[i], base + i, pc, regs);
      var j := StoresCorrect(m.(env := env'), vars, targets, vs, i + 1, base, pc + 1,
                             regs[targets[i] := regs[base + i]]);
      RunAdds(m.p, m.ops, Start(pc, regs), 1, j);
      n := 1 + j;
    }
  }

  // ----- Declarations -----

  lemma {:induction false} PushShape(s: Scope, names: seq<string>, base: nat)
    requires Scoped(s) && base == s.nactvar && PushLocals(s, names, base).Done?
    ensures var s' := PushLocals(s, names, base).value;
      && Scoped(s') && s'.names == s.names + names && s'.nactvar == base + |names|
      && |s'.regs| == |s.regs| + |names| && s.regs <= s'.regs
      && forall j :: |s.regs| <= j < |s'.regs| ==> s'.regs[j] == base + (j - |s.regs|)
    decreases |names|
  {
    if names != [] {
      var s1 := Scope(s.names + [names[0]], s.regs + [base], Max(s.nactvar, base + 1));
      PushShape(s1, names[1..], base + 1);
      assert s1.names + names[1..] == s.names + names;
    }
  }

  /** Declarations fail exactly when more than 200 locals would be active. */
  lemma {:induction false} PushFailsIff(s: Scope, names: seq<string>)
    ensures PushLocals(s, names, s.nactvar).Fail? <==> names != [] && s.nactvar + |names| > 200
    decreases |names|
  {
    if names != [] && s.nactvar + 1 <= MAX_VARS {
      var base := s.nactvar;
      PushFailsIff(Scope(s.names + [names[0]], s.regs + [base], Max(s.nactvar, base + 1)), names[1..]);
    }
  }

  lemma DeclareAgrees(s: Scope, env: Env, names: seq<string>, vs: seq<Value>, regs: Regs)
    requires Scoped(s) && Agrees(s, env, regs) && PushLocals(s, names, s.nactvar).Done?
    requires forall i :: 0 <= i < |names| && s.nactvar + i < 256 ==> regs[s.nactvar + i] == ValueAt(vs, i)
    ensures Scoped(PushLocals(s, names, s.nactvar).value)
    ensures Agrees(PushLocals(s, names, s.nactvar).value, Declare(env, names, vs), regs)
  {
    hide PushLocals;
    var s', env' := PushLocals(s, names, s.nactvar).value, Declare(env, names, vs);
    PushShape(s, names, s.nactvar);
    assert NamesOf(env') == s'.names;
    forall i | 0 <= i < |s'.regs|
      ensures regs[s'.regs[i]] == env'[i].value
    {
      if i >= |s.regs| {
        assert regs[s.nactvar + (i - |s.regs|)] == ValueAt(vs, i - |s.regs|);
      }
    }
  }

  // ----- Safe statements -----

  predicate SafeStmt(st: Stmt)
    decreases StmtSize(st), 0
  {
    match st
    case Local(_, values) => SafeList(values)
    case Assign(_, values) => SafeList(values)
    case If(branches, otherwise) => SafeBranches(branches) && SafeBody(otherwise)
    case While(cond, body, _) => Safe(cond) && SafeBody(body)
    case Do(body) => SafeBody(body)
  }

  predicate SafeBody(body: seq<Stmt>)
    decreases BodySize(body), 1
  {
    body == [] || (SafeStmt(body[0]) && SafeBody(body[1..]))
  }

  predicate SafeBranches(branches: seq<Branch>)
    decreases BranchesSize(branches), 2
  {
    branches == [] || (Safe(branches[0].cond) && SafeBody(branches[0].body) && SafeBranches(branches[1..]))
  }

  // ----- Scopes and constants only grow -----

  predicate Extends(s: Scope, ks: seq<Value>, f: Frag)
  {
    && Scoped(f.scope) && s.names <= f.scope.names && s.regs <= f.scope.regs && s.nactvar <= f.scope.nactvar
      && ks <= f.ks
    && forall j :: |s.regs| <= j < |f.scope.regs| ==> s.nactvar <= f.scope.regs[j]
  }

  lemma {:induction false} StmtShape(s: Scope, ks: seq<Value>, high: nat, st: Stmt)
    requires Scoped(s) && SafeStmt(st) && LowerStmt(s, ks, high, st).Done?
    ensures Extends(s, ks, LowerStmt(s, ks, high, st).value)
    ensures !st.Local? ==> LowerStmt(s, ks, high, st).value.scope == s
    decreases StmtSize(st), 0
  {
    hide ToReg, LowerValues, PushLocals, LowerIf, LowerBlock, Targets;
    match st
    case Local(names, values) =>
      ValuesShape(s, s.nactvar, ks, high, values);
      PushShape(s, names, s.nactvar);
    case Assign(vars, values) =>
      ValuesShape(s, s.nactvar, ks, high, values);
    case If(branches, otherwise) => IfShape(s, ks, high, branches, otherwise);
    case Do(body) => BlockShape(s, ks, high, body);
    case While(cond, body, marked) =>
      ToRegShape(s, s.nactvar, ks, cond);
      var c := ToReg(s, s.nactvar, ks, cond).value;
      BlockShape(s, c.ks, Max(high, c.high), body);
  }

  lemma {:induction false} IfShape(s: Scope, ks: seq<Value>, high: nat, branches: seq<Branch>, otherwise: seq<Stmt>)
    requires Scoped(s) && SafeBranches(branches) && SafeBody(otherwise)
    requires LowerIf(s, ks, high, branches, otherwise).Done?
    ensures Extends(s, ks, LowerIf(s, ks, high, branches, otherwise).value)
    ensures LowerIf(s, ks, high, branches, otherwise).value.scope == s
    decreases BranchesSize(branches) + BodySize(otherwise), 3
  {
    hide ToReg, LowerBlock;
    if branches == [] {
      BlockShape(s, ks, high, otherwise);
    } else {
      ToRegShape(s, s.nactvar, ks, branches[0].cond);
      var c := ToReg(s, s.nactvar, ks, branches[0].cond).value;
      BlockShape(s, c.ks, Max(high, c.high), branches[0].body);
      var b := LowerBlock(s, c.ks, Max(high, c.high), branches[0].body).value;
      IfShape(s, b.ks, b.high, branches[1..], otherwise);
    }
  }

  lemma {:induction false} SeqShape(s: Scope, ks: seq<Value>, high: nat, body: seq<Stmt>)
    requires Scoped(s) && SafeBody(body) && LowerSeq(s, ks, high, body).Done?
    ensures Extends(s, ks, LowerSeq(s, ks, high, body).value)
    decreases BodySize(body), 1
  {
    hide LowerStmt;
    if body != [] {
      StmtShape(s, ks, high, body[0]);
      var a := LowerStmt(s, ks, high, body[0]).value;
      SeqShape(a.scope, a.ks, a.high, body[1..]);
    }
  }

  lemma BlockShape(s: Scope, ks: seq<Value>, high: nat, body: seq<Stmt>)
    requires Scoped(s) && SafeBody(body) && LowerBlock(s, ks, high, body).Done?
    ensures Extends(s, ks, LowerBlock(s, ks, high, body).value)
    ensures LowerBlock(s, ks, high, body).value.scope == s
    decreases BodySize(body), 2
  {
    hide LowerSeq;
    SeqShape(s, ks, high, body);
  }

  // ----- Simulation of statements -----

  /** The configuration after `n` steps follows the outcome of a statement whose code is `lo..hi`. */
  ghost predicate Follows(o: Outcome, s: Scope, c: Config, lo: int, hi: int, n: nat, fuel: nat)
  {
    match o
    case Finished(env) => Scoped(s) && c.Running? && c.pc == hi && Agrees(s, env, c.regs)
    case Raised(msg) => c == Failed(msg)
    case OutOfFuel => c.Running? && lo <= c.pc < hi && n >= fuel
  }

  lemma FollowsLater(m: Machine, o: Outcome, s: Scope, c: Config, n: nat, k: nat, lo: int, lo': int, hi: int,
                     fuel: nat, fuel': nat)
    requires Follows(o, s, Run(m.p, m.ops, Run(m.p, m.ops, c, n), k), lo', hi, k, fuel')
    requires lo <= lo' && fuel <= fuel' + n
    ensures Follows(o, s, Run(m.p, m.ops, c, n + k), lo, hi, n + k, fuel)
  {
    RunAdds(m.p, m.ops, c, n, k);
  }

  lemma LocalCorrect(m: Machine, ks: seq<Value>, high: nat, names: seq<string>, values: seq<Expr>, fuel: nat, pc: nat,
                     regs: Regs)
    returns (n: nat)
    requires Ready(m, regs) && SafeList(values) && LowerStmt(m.s, ks, high, Local(names, values)).Done?
    requires var f := LowerStmt(m.s, ks, high, Local(names, values)).value; Loaded(m, pc, f.code, f.ks) && f.fits
    ensures var f := LowerStmt(m.s, ks, high, Local(names, values)).value;
      Follows(Exec(Local(names, values), m.env, m.ops, fuel), f.scope, Run(m.p, m.ops, Start(pc, regs), n), pc,
              pc + |f.code|, n, fuel)
  {
    hide LowerValues, EvalList, Run, Step, At, NegatesNumbers, Agrees, PushLocals;
    var base := m.s.nactvar;
    var v := LowerValues(m.s, base, ks, high, values).value;
    var pad := PadCode(base, |values|, |names|);
    ValuesShape(m.s, base, ks, high, values);
    AtSplit(m.p, pc, v.code, pad);
    n := ValuesCorrect(m, base, ks, high, values, pc, regs);
    if EvalList(values, m.env, m.ops).Ok? {
      var vs := EvalList(values, m.env, m.ops).value;
      var mid := Run(m.p, m.ops, Start(pc, regs), n);
      var k := PadCorrect(m, base, |values|, |names|, pc + |v.code|, mid.regs);
      RunAdds(m.p, m.ops, Start(pc, regs), n, k);
      n := n + k;
      var end := Run(m.p, m.ops, Start(pc, regs), n);
      assert SameBelow(regs, end.regs, base);
      ReadyKept(m, regs, end.regs, base);
      DeclareAgrees(m.s, m.env, names, vs, end.regs);
    }
  }

  lemma AssignCorrect(m: Machine, ks: seq<Value>, high: nat, vars: seq<string>, values: seq<Expr>, fuel: nat, pc: nat,
                      regs: Regs)
    returns (n: nat)
    requires Ready(m, regs) && SafeList(values) && LowerStmt(m.s, ks, high, Assign(vars, values)).Done?
    requires var f := LowerStmt(m.s, ks, high, Assign(vars, values)).value; Loaded(m, pc, f.code, f.ks) && f.fits
    ensures var f := LowerStmt(m.s, ks, high, Assign(vars, values)).value;
      Follows(Exec(Assign(vars, values), m.env, m.ops, fuel), f.scope, Run(m.p, m.ops, Start(pc, regs), n), pc,
              pc + |f.code|, n, fuel)
  {
    hide LowerValues, EvalList, Run, Step, At, NegatesNumbers, Agrees, Targets;
    var base := m.s.nactvar;
    var v := LowerValues(m.s, base, ks, high, values).value;
    var targets := Targets(m.s, vars).value;
    var pad, store := PadCode(base, |values|, |vars|), StoreCode(targets, base);
    ValuesShape(m.s, base, ks, high, values);
    TargetsShape(m.s, vars);
    AtSplit(m.p, pc, v.code + pad, store);
    AtSplit(m.p, pc, v.code, pad);
    n := ValuesCorrect(m, base, ks, high, values, pc, regs);
    if EvalList(values, m.env, m.ops).Ok? {
      var vs := EvalList(values, m.env, m.ops).value;
      var mid := Run(m.p, m.ops, Start(pc, regs), n);
      var k := PadCorrect(m, base, |values|, |vars|, pc + |v.code|, mid.regs);
      RunAdds(m.p, m.ops, Start(pc, regs), n, k);
      n := n + k;
      var full := Run(m.p, m.ops, Start(pc, regs), n);
      assert SameBelow(regs, full.regs, base);
      ReadyKept(m, regs, full.regs, base);
      assert targets[0..] == targets;
      var j := StoresCorrect(m, vars, targets, vs, 0, base, pc + |v.code| + |pad|, full.regs);
      RunAdds(m.p, m.ops, Start(pc, regs), n, j);
      n := n + j;
    }
  }

  // ----- Conditions, blocks and loops -----

  /** A condition and its jump: on to the next instruction when truthy, past `skip` more when not. */
  lemma ConditionCorrect(m: Machine, ks: seq<Value>, cond: Expr, skip: nat, pc: nat, regs: Regs) returns (n: nat)
    requires Ready(m, regs) && Safe(cond) && skip < 32768 && ToReg(m.s, m.s.nactvar, ks, cond).Done?
    requires var c := ToReg(m.s, m.s.nactvar, ks, cond).value;
      Loaded(m, pc, c.code + [Test(RegOf(c.desc), false), Jmp(Sbx16(skip))], c.ks)
    ensures var c := ToReg(m.s, m.s.nactvar, ks, cond).value;
      var end := Run(m.p, m.ops, Start(pc, regs), n);
      match Eval(cond, m.env, m.ops)
      case Error(msg) => end == Failed(msg)
      case Ok(v) => end.Running? && end.pc == (if Truthy(v) then pc + |c.code| + 2 else pc + |c.code| + 2 + skip)
                    && Ready(m, end.regs) && n >= 1
  {
    hide ToReg, Eval, Run, Step, At, NegatesNumbers, Agrees;
    var base := m.s.nactvar;
    var c := ToReg(m.s, base, ks, cond).value;
    var tail := [Test(RegOf(c.desc), false), Jmp(Sbx16(skip))];
    ToRegShape(m.s, base, ks, cond);
    AtSplit(m.p, pc, c.code, tail);
    n := ToRegCorrect(m, base, ks, cond, pc, regs);
    if Eval(cond, m.env, m.ops).Ok? {
      var mid := Run(m.p, m.ops, Start(pc, regs), n);
      ReadyKept(m, regs, mid.regs, base);
      var k := TestStep(m, RegOf(c.desc), skip, pc + |c.code|, mid.regs);
      RunAdds(m.p, m.ops, Start(pc, regs), n, k);
      n := n + k;
    }
  }

  lemma TestStep(m: Machine, r: nat, skip: nat, pc: nat, regs: Regs) returns (n: nat)
    requires At(m.p, pc, [Test(r, false), Jmp(Sbx16(skip))]) && skip < 32768
    ensures n >= 1
    ensures Run(m.p, m.ops, Start(pc, regs), n) == Start(if Truthy(Get(regs, r)) then pc + 2 else pc + 2 + skip, regs)
  {
    AtIndex(m.p, pc, [Test(r, false), Jmp(Sbx16(skip))], 0);
    AtIndex(m.p, pc, [Test(r, false), Jmp(Sbx16(skip))], 1);
    RunFew(m.p, m.ops, Start(pc, regs));
    n := if Truthy(Get(regs, r)) then 1 else 2;
  }

  lemma JumpStep(m: Machine, offset: int, pc: nat, regs: Regs)
    requires At(m.p, pc, [Jmp(Sbx16(offset))]) && -32768 <= offset < 32768
    ensures Run(m.p, m.ops, Start(pc, regs), 1) == Start(pc + 1 + offset, regs)
  {
    AtIndex(m.p, pc, [Jmp(Sbx16(offset))], 0);
    RunFew(m.p, m.ops, Start(pc, regs));
  }

  /** Clearing registers past the locals of a scope is invisible in it. */
  lemma LeaveAgrees(s: Scope, f: Frag, env: Env, env': Env, regs: Regs, from: nat, count: nat)
    requires Scoped(s) && Extends(s, f.ks, f) && Agrees(f.scope, env', regs) && |env| == |s.names|
    requires s.nactvar <= from < 256
    ensures |env| <= |env'| && Agrees(s, env'[..|env|], regs) && Agrees(s, env'[..|env|], ClearRange(regs, from, count))
  {
    var short := env'[..|env|];
    assert NamesOf(env') == f.scope.names;
    assert NamesOf(short) == s.names;
    forall i | 0 <= i < |s.regs|
      ensures regs[s.regs[i]] == short[i].value
    {
      assert f.scope.regs[i] == s.regs[i];
    }
    assert Reg8(from) == from;
    forall i | 0 <= i < |s.regs|
      ensures ClearRange(regs, from, count)[s.regs[i]] == short[i].value
    {
      assert s.regs[i] < from && regs[s.regs[i]] == short[i].value;
    }
  }

  /** On leaving a block, the registers of its locals and of its temporaries above them become nil, no other. */
  lemma LeaveClears(m: Machine, s: Scope, f: Frag, pc: nat, regs: Regs)
    requires Scoped(f.scope) && |s.regs| < |f.scope.regs| && f.high <= 256 && At(m.p, pc, LeaveCode(s, f))
    ensures var from, last := f.scope.regs[|s.regs|], f.scope.regs[|f.scope.regs| - 1];
      var c := Run(m.p, m.ops, Start(pc, regs), 1);
      && c.Running? && c.pc == pc + 1
      && forall i :: 0 <= i < 256 ==>
           c.regs[i] == if from <= i && (i <= last || i < f.high) then Nil else regs[i]
  {
    var from, last := f.scope.regs[|s.regs|], f.scope.regs[|f.scope.regs| - 1];
    assert from <= last < 256 && Reg8(from) == from;
    NilStep(m, LeaveCode(s, f)[0].a, LeaveCode(s, f)[0].b, pc, regs);
  }

  lemma BlockCorrect(m: Machine, ks: seq<Value>, high: nat, body: seq<Stmt>, fuel: nat, pc: nat, regs: Regs)
    returns (n: nat)
    requires Ready(m, regs) && SafeBody(body) && LowerBlock(m.s, ks, high, body).Done?
    requires var f := LowerBlock(m.s, ks, high, body).value; Loaded(m, pc, f.code, f.ks) && f.fits
    ensures var f := LowerBlock(m.s, ks, high, body).value;
      Follows(ExecBlock(body, m.env, m.ops, fuel), m.s, Run(m.p, m.ops, Start(pc, regs), n), pc, pc + |f.code|, n, fuel)
    decreases fuel, BodySize(body), 3
  {
    hide LowerSeq, ExecSeq, Run, Step, At, NegatesNumbers;
    var f := LowerSeq(m.s, ks, high, body).value;
    var leave := LeaveCode(m.s, f);
    SeqShape(m.s, ks, high, body);
    AtSplit(m.p, pc, f.code, leave);
    n := SeqCorrect(m, ks, high, body, fuel, pc, regs);
    if ExecSeq(body, m.env, m.ops, fuel).Finished? {
      var mid := Run(m.p, m.ops, Start(pc, regs), n);
      var env' := ExecSeq(body, m.env, m.ops, fuel).env;
      if leave == [] {
        LeaveAgrees(m.s, f, m.env, env', mid.regs, m.s.nactvar, 0);
      } else {
        LeaveAgrees(m.s, f, m.env, env', mid.regs, leave[0].a, leave[0].b);
        NilStep(m, leave[0].a, leave[0].b, pc + |f.code|, mid.regs);
        RunAdds(m.p, m.ops, Start(pc, regs), n, 1);
        n := n + 1;
      }
    }
  }

  lemma SeqCorrect(m: Machine, ks: seq<Value>, high: nat, body: seq<Stmt>, fuel: nat, pc: nat, regs: Regs)
    returns (n: nat)
    requires Ready(m, regs) && SafeBody(body) && LowerSeq(m.s, ks, high, body).Done?
    requires var f := LowerSeq(m.s, ks, high, body).value; Loaded(m, pc, f.code, f.ks) && f.fits
    ensures var f := LowerSeq(m.s, ks, high, body).value;
      Follows(ExecSeq(body, m.env, m.ops, fuel), f.scope, Run(m.p, m.ops, Start(pc, regs), n), pc, pc + |f.code|, n,
              fuel)
    decreases fuel, BodySize(body), 2
  {
    hide LowerStmt, Exec, Run, Step, At, NegatesNumbers, Agrees;
    if body == [] {
      n := StayPut(m, pc, regs);
    } else {
      var a := LowerStmt(m.s, ks, high, body[0]).value;
      var rest := LowerSeq(a.scope, a.ks, a.high, body[1..]).value;
      StmtShape(m.s, ks, high, body[0]);
      SeqShape(a.scope, a.ks, a.high, body[1..]);
      AtSplit(m.p, pc, a.code, rest.code);
      n := StmtCorrect(m, ks, high, body[0], fuel, pc, regs);
      if Exec(body[0], m.env, m.ops, fuel).Finished? {
        var mid := Run(m.p, m.ops, Start(pc, regs), n);
        var m' := m.(s := a.scope, env := Exec(body[0], m.env, m.ops, fuel).env);
        var k := SeqCorrect(m', a.ks, a.high, body[1..], fuel, pc + |a.code|, mid.regs);
        FollowsLater(m, ExecSeq(body, m.env, m.ops, fuel), rest.scope, Start(pc, regs), n, k, pc, pc + |a.code|,
                     pc + |a.code| + |rest.code|, fuel, fuel);
        n := n + k;
      }
    }
  }

  lemma StmtCorrect(m: Machine, ks: seq<Value>, high: nat, st: Stmt, fuel: nat, pc: nat, regs: Regs) returns (n: nat)
    requires Ready(m, regs) && SafeStmt(st) && LowerStmt(m.s, ks, high, st).Done?
    requires var f := LowerStmt(m.s, ks, high, st).value; Loaded(m, pc, f.code, f.ks) && f.fits
    ensures var f := LowerStmt(m.s, ks, high, st).value;
      Follows(Exec(st, m.env, m.ops, fuel), f.scope, Run(m.p, m.ops, Start(pc, regs), n), pc, pc + |f.code|, n, fuel)
    decreases fuel, StmtSize(st), 1
  {
    hide LowerIf, LowerBlock, ExecIf, ExecBlock, Run, Step, At, NegatesNumbers, Agrees, LowerValues, EvalList,
      Targets, PushLocals, ToReg, Eval;
    match st
    case Local(names, values) => n := LocalCorrect(m, ks, high, names, values, fuel, pc, regs);
    case Assign(vars, values) => n := AssignCorrect(m, ks, high, vars, values, fuel, pc, regs);
    case If(branches, otherwise) =>
      IfShape(m.s, ks, high, branches, otherwise);
      n := IfCorrect(m, ks, high, branches, otherwise, fuel, pc, regs);
    case Do(body) =>
      BlockShape(m.s, ks, high, body);
      n := BlockCorrect(m, ks, high, body, fuel, pc, regs);
    case While(cond, body, marked) => n := WhileCorrect(m, ks, high, st, fuel, pc, regs);
  }

  lemma IfCorrect(m: Machine, ks: seq<Value>, high: nat, branches: seq<Branch>, otherwise: seq<Stmt>, fuel: nat,
                  pc: nat, regs: Regs)
    returns (n: nat)
    requires Ready(m, regs) && SafeBranches(branches) && SafeBody(otherwise)
    requires LowerIf(m.s, ks, high, branches, otherwise).Done?
    requires var f := LowerIf(m.s, ks, high, branches, otherwise).value; Loaded(m, pc, f.code, f.ks) && f.fits
    ensures var f := LowerIf(m.s, ks, high, branches, otherwise).value;
      Follows(ExecIf(branches, otherwise, m.env, m.ops, fuel), m.s, Run(m.p, m.ops, Start(pc, regs), n), pc,
              pc + |f.code|, n, fuel)
    decreases fuel, BranchesSize(branches) + BodySize(otherwise), 4
  {
    hide ToReg, LowerBlock, ExecBlock, Eval, Run, Step, At, NegatesNumbers, Agrees;
    if branches == [] {
      n := BlockCorrect(m, ks, high, otherwise, fuel, pc, regs);
    } else {
      var cond, body := branches[0].cond, branches[0].body;
      var c := ToReg(m.s, m.s.nactvar, ks, cond).value;
      var b := LowerBlock(m.s, c.ks, Max(high, c.high), body).value;
      var rest := LowerIf(m.s, b.ks, b.high, branches[1..], otherwise).value;
      ToRegShape(m.s, m.s.nactvar, ks, cond);
      BlockShape(m.s, c.ks, Max(high, c.high), body);
      IfShape(m.s, b.ks, b.high, branches[1..], otherwise);
      var head, jump := c.code + [Test(RegOf(c.desc), false), Jmp(Sbx16(|b.code| + 1))], [Jmp(Sbx16(|rest.code|))];
      AtSplit(m.p, pc, head + b.code + jump, rest.code);
      AtSplit(m.p, pc, head + b.code, jump);
      AtSplit(m.p, pc, head, b.code);
      n := ConditionCorrect(m, ks, cond, |b.code| + 1, pc, regs);
      if Eval(cond, m.env, m.ops).Ok? {
        var mid := Run(m.p, m.ops, Start(pc, regs), n);
        if Truthy(Eval(cond, m.env, m.ops).value) {
          var k := BlockCorrect(m, c.ks, Max(high, c.high), body, fuel, pc + |head|, mid.regs);
          FollowsLater(m, ExecBlock(body, m.env, m.ops, fuel), m.s, Start(pc, regs), n, k, pc, pc + |head|,
                       pc + |head| + |b.code|, fuel, fuel);
          n := SkipRest(m, ExecBlock(body, m.env, m.ops, fuel), n + k, pc, pc + |head| + |b.code|, |rest.code|, fuel,
                        regs);
        } else {
          var k := IfCorrect(m, b.ks, b.high, branches[1..], otherwise, fuel, pc + |head| + |b.code| + 1, mid.regs);
          FollowsLater(m, ExecIf(branches[1..], otherwise, m.env, m.ops, fuel), m.s, Start(pc, regs), n, k, pc,
                       pc + |head| + |b.code| + 1, pc + |head| + |b.code| + 1 + |rest.code|, fuel, fuel);
          n := n + k;
        }
      }
    }
  }

  /** After a taken branch, its closing jump skips the branches that follow. */
  lemma SkipRest(m: Machine, o: Outcome, n: nat, pc: nat, at: nat, skip: nat, fuel: nat, regs: Regs) returns (n': nat)
    requires Follows(o, m.s, Run(m.p, m.ops, Start(pc, regs), n), pc, at, n, fuel)
    requires At(m.p, at, [Jmp(Sbx16(skip))]) && skip < 32768
    ensures Follows(o, m.s, Run(m.p, m.ops, Start(pc, regs), n'), pc, at + 1 + skip, n', fuel)
  {
    hide Run, At;
    n' := n;
    if o.Finished? {
      var mid := Run(m.p, m.ops, Start(pc, regs), n);
      JumpStep(m, skip, at, mid.regs);
      RunAdds(m.p, m.ops, Start(pc, regs), n, 1);
      n' := n + 1;
    }
  }

  /** The parts of a loop's code. */
  lemma WhileUnfold(s: Scope, ks: seq<Value>, high: nat, st: Stmt)
    requires st.While? && LowerStmt(s, ks, high, st).Done?
    ensures ToReg(s, s.nactvar, ks, st.cond).Done?
    ensures var c := ToReg(s, s.nactvar, ks, st.cond).value; LowerBlock(s, c.ks, Max(high, c.high), st.body).Done?
    ensures var f := LowerStmt(s, ks, high, st).value;
      var c := ToReg(s, s.nactvar, ks, st.cond).value;
      var b := LowerBlock(s, c.ks, Max(high, c.high), st.body).value;
      var head := c.code + [Test(RegOf(c.desc), false), Jmp(Sbx16(|b.code| + 1))];
      && f.code == head + b.code + [Jmp(Sbx16(-(|head| + |b.code| + 1)))]
                   + (if st.marked then [LoadNil(s.nactvar, 0)] else [])
      && f.ks == b.ks && f.fits == b.fits && f.scope == b.scope
  {
    hide ToReg, LowerBlock;
  }

  lemma WhileCorrect(m: Machine, ks: seq<Value>, high: nat, st: Stmt, fuel: nat, pc: nat, regs: Regs) returns (n: nat)
    requires Ready(m, regs) && st.While? && SafeStmt(st) && LowerStmt(m.s, ks, high, st).Done?
    requires var f := LowerStmt(m.s, ks, high, st).value; Loaded(m, pc, f.code, f.ks) && f.fits
    ensures var f := LowerStmt(m.s, ks, high, st).value;
      Follows(Exec(st, m.env, m.ops, fuel), f.scope, Run(m.p, m.ops, Start(pc, regs), n), pc, pc + |f.code|, n, fuel)
    decreases fuel, StmtSize(st), 0
  {
    hide ToReg, LowerBlock, LowerStmt, LoopCode, ExecBlock, Eval, Run, Step, At, NegatesNumbers, Agrees;
    var cond, body := st.cond, st.body;
    WhileUnfold(m.s, ks, high, st);
    var c := ToReg(m.s, m.s.nactvar, ks, cond).value;
    var b := LowerBlock(m.s, c.ks, Max(high, c.high), body).value;
    var f := LowerStmt(m.s, ks, high, st).value;
    ToRegShape(m.s, m.s.nactvar, ks, cond);
    BlockShape(m.s, c.ks, Max(high, c.high), body);
    var head := c.code + [Test(RegOf(c.desc), false), Jmp(Sbx16(|b.code| + 1))];
    var back := [Jmp(Sbx16(-(|head| + |b.code| + 1)))];
    var marker := if st.marked then [LoadNil(m.s.nactvar, 0)] else [];
    AtSplit(m.p, pc, head + b.code + back, marker);
    AtSplit(m.p, pc, head + b.code, back);
    AtSplit(m.p, pc, head, b.code);
    n := ConditionCorrect(m, ks, cond, |b.code| + 1, pc, regs);
    if Eval(cond, m.env, m.ops).Ok? {
      var mid := Run(m.p, m.ops, Start(pc, regs), n);
      if !Truthy(Eval(cond, m.env, m.ops).value) {
        n := EndLoop(m, st.marked, n, pc, pc + |head| + |b.code| + 1, fuel, regs);
      } else if fuel > 0 {
        var k := BlockCorrect(m, c.ks, Max(high, c.high), body, fuel, pc + |head|, mid.regs);
        var o := ExecBlock(body, m.env, m.ops, fuel);
        FollowsLater(m, o, m.s, Start(pc, regs), n, k, pc, pc + |head|, pc + |head| + |b.code|, fuel, fuel);
        n := n + k;
        if o.Finished? {
          n := WhileAgain(m, ks, high, st, fuel, pc, regs, n, o.env, pc + |head| + |b.code|);
        }
      }
    }
  }

  /** After a round, the jump back and the rest of the loop. */
  lemma WhileAgain(m: Machine, ks: seq<Value>, high: nat, st: Stmt, fuel: nat, pc: nat, regs: Regs, n: nat, env: Env,
                   at: nat)
    returns (n': nat)
    requires fuel > 0 && st.While? && SafeStmt(st) && LowerStmt(m.s, ks, high, st).Done?
    requires var f := LowerStmt(m.s, ks, high, st).value; Loaded(m, pc, f.code, f.ks) && f.fits && f.scope == m.s
    requires var c := Run(m.p, m.ops, Start(pc, regs), n);
      c.Running? && c.pc == at && Ready(m.(env := env), c.regs)
    requires pc <= at < pc + 32767 && At(m.p, at, [Jmp(Sbx16(pc - (at + 1)))])
    ensures var f := LowerStmt(m.s, ks, high, st).value;
      Follows(Exec(st, env, m.ops, fuel - 1), m.s, Run(m.p, m.ops, Start(pc, regs), n'), pc, pc + |f.code|, n', fuel)
    decreases fuel - 1, StmtSize(st), 2
  {
    hide LowerStmt, Exec, Run, Step, At, NegatesNumbers, Agrees, Follows;
    var after := Run(m.p, m.ops, Start(pc, regs), n);
    JumpStep(m, pc - (at + 1), at, after.regs);
    RunAdds(m.p, m.ops, Start(pc, regs), n, 1);
    var j := WhileCorrect(m.(env := env), ks, high, st, fuel - 1, pc, after.regs);
    FollowsLater(m, Exec(st, env, m.ops, fuel - 1), m.s, Start(pc, regs), n + 1, j, pc, pc,
                 pc + |LowerStmt(m.s, ks, high, st).value.code|, fuel, fuel - 1);
    n' := n + 1 + j;
  }

  /** Leaving a loop runs its end marker, if it has one. */
  lemma EndLoop(m: Machine, marked: bool, n: nat, pc: nat, at: nat, fuel: nat, regs: Regs) returns (n': nat)
    requires var c := Run(m.p, m.ops, Start(pc, regs), n); c.Running? && c.pc == at && Ready(m, c.regs)
    requires At(m.p, at, if marked then [LoadNil(m.s.nactvar, 0)] else [])
    ensures Follows(Finished(m.env), m.s, Run(m.p, m.ops, Start(pc, regs), n'), pc, at + (if marked then 1 else 0), n',
                    fuel)
  {
    hide Run, At;
    n' := n;
    if marked {
      var mid := Run(m.p, m.ops, Start(pc, regs), n);
      NilStep(m, m.s.nactvar, 0, at, mid.regs);
      RunAdds(m.p, m.ops, Start(pc, regs), n, 1);
      n' := n + 1;
      assert Reg8(m.s.nactvar) == m.s.nactvar;
      assert SameBelow(mid.regs, ClearRange(mid.regs, m.s.nactvar, 0), m.s.nactvar);
      ReadyKept(m, mid.regs, ClearRange(mid.regs, m.s.nactvar, 0), m.s.nactvar);
    }
  }
}
