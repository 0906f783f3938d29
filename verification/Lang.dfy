/**
 The compiled fragment of the language and its meaning: expressions over local
 variables, assignments, blocks, `if` and `while`.
 */
module Lang {
  import opened Bytecode

  datatype RelOp = Eq | Ne | Lt | Le | Gt | Ge

  datatype BinOp = ArithOp(op: Bytecode.ArithOp) | ConcatOp | Rel(rel: RelOp) | And | Or

  datatype Expr =
    | Const(v: Value)
    | Name(x: string)
    | Paren(e: Expr)
    | Un(uop: UnOp, e: Expr)
    | Bin(bop: BinOp, l: Expr, r: Expr)

  datatype Branch = Branch(cond: Expr, body: seq<Stmt>)

  /** `marked` says whether the loop ends in a line of its own, which costs it a marker instruction. */
  datatype Stmt =
    | Local(names: seq<string>, values: seq<Expr>)
    | Assign(vars: seq<string>, values: seq<Expr>)
    | If(branches: seq<Branch>, otherwise: seq<Stmt>)
    | While(cond: Expr, body: seq<Stmt>, marked: bool)
    | Do(body: seq<Stmt>)

  // ----- Environments: bindings in declaration order, the innermost last -----

  datatype Binding = Binding(name: string, value: Value)

  type Env = seq<Binding>

  /** Index of the innermost binding of `x`, or -1. */
  function Find(names: seq<string>, x: string): int
    ensures -1 <= Find(names, x) < |names|
    ensures Find(names, x) >= 0 ==> names[Find(names, x)] == x
    decreases |names|
  {
    if names == [] then -1
    else if names[|names| - 1] == x then |names| - 1
    else Find(names[..|names| - 1], x)
  }

  /** The binding found is the one that no later one of the same name hides. */
  lemma {:induction false} FindIff(names: seq<string>, x: string, i: nat)
    ensures Find(names, x) == i <==> i < |names| && names[i] == x && forall j :: i < j < |names| ==> names[j] != x
    ensures Find(names, x) == -1 <==> x !in names
    decreases |names|
  {
    if names != [] {
      var rest := names[..|names| - 1];
      assert names == rest + [names[|names| - 1]];
      FindIff(rest, x, i);
      if names[|names| - 1] != x && i < |rest| { assert rest[i] == names[i]; }
    }
  }

  function NamesOf(env: Env): seq<string>
  {
    seq(|env|, i requires 0 <= i < |env| => env[i].name)
  }

  // ----- Expressions -----

  /** Number of nodes. */
  function Size(e: Expr): (n: nat)
    ensures n >= 1
  {
    match e
    case Const(_) => 1
    case Name(_) => 1
    case Paren(e1) => 1 + Size(e1)
    case Un(_, e1) => 1 + Size(e1)
    case Bin(_, l, r) => 1 + Size(l) + Size(r)
  }

  function CompareOf(rel: RelOp): CmpOp
  {
    match rel case Eq => CmpEq case Ne => CmpEq case Lt => CmpLt case Gt => CmpLt case Le => CmpLe case Ge => CmpLe
  }

  function Relate(ops: Ops, rel: RelOp, a: Value, b: Value): Result<bool>
  {
    match rel
    case Eq => ops.compare(CmpEq, a, b)
    case Ne => (match ops.compare(CmpEq, a, b) case Ok(t) => Ok(!t) case Error(m) => Error(m))
    case Lt => ops.compare(CmpLt, a, b)
    case Le => ops.compare(CmpLe, a, b)
    case Gt => ops.compare(CmpLt, b, a)
    case Ge => ops.compare(CmpLe, b, a)
  }

  /** `~=` is the negation of `==`, `>` and `>=` turn the operands of `<` and `<=` round. */
  lemma RelateLaws(ops: Ops, a: Value, b: Value)
    ensures Relate(ops, Eq, a, b) == ops.compare(CmpEq, a, b)
    ensures forall t :: Relate(ops, Ne, a, b) == Ok(t) <==> Relate(ops, Eq, a, b) == Ok(!t)
    ensures Relate(ops, Gt, a, b) == Relate(ops, Lt, b, a) == ops.compare(CmpLt, b, a)
    ensures Relate(ops, Ge, a, b) == Relate(ops, Le, b, a) == ops.compare(CmpLe, b, a)
    ensures !Relate(ops, Eq, a, b).Ok? ==> Relate(ops, Ne, a, b) == Relate(ops, Eq, a, b)
  {
  }

  /** Operands left to right, `and`/`or` by need; the first error is the outcome. */
  function Eval(e: Expr, env: Env, ops: Ops): Result<Value>
  {
    match e
    case Const(v) => Ok(v)
    case Name(x) =>
      var i := Find(NamesOf(env), x);
      if i >= 0 then Ok(env[i].value) else Error("not a local variable")
    case Paren(e1) => Eval(e1, env, ops)
    case Un(op, e1) =>
      (match Eval(e1, env, ops)
       case Ok(v) => ops.unary(op, v)
       case Error(m) => Error(m))
    case Bin(op, l, r) =>
      match Eval(l, env, ops)
      case Error(m) => Error(m)
      case Ok(a) =>
        if op == And && !Truthy(a) then Ok(a)
        else if op == Or && Truthy(a) then Ok(a)
        else
          match Eval(r, env, ops)
          case Error(m) => Error(m)
          case Ok(b) =>
            match op
            case ArithOp(o) => ops.arith(o, a, b)
            case ConcatOp => ops.concat(a, b)
            case Rel(rel) => (match Relate(ops, rel, a, b) case Ok(t) => Ok(Bool(t)) case Error(m) => Error(m))
            case And => Ok(b)
            case Or => Ok(b)
  }

  // ----- Statements -----

  datatype Outcome = Finished(env: Env) | Raised(message: string) | OutOfFuel

  /** The values of a list, left to right. */
  function EvalList(es: seq<Expr>, env: Env, ops: Ops): (r: Result<seq<Value>>)
    ensures r.Ok? ==> |r.value| == |es|
  {
    if es == [] then Ok([])
    else
      match Eval(es[0], env, ops)
      case Error(m) => Error(m)
      case Ok(v) =>
        match EvalList(es[1..], env, ops)
        case Error(m) => Error(m)
        case Ok(vs) => Ok([v] + vs)
  }

  function ValueAt(vs: seq<Value>, i: nat): Value { if i < |vs| then vs[i] else Nil }

  /** New innermost bindings; missing values are nil. */
  function Declare(env: Env, names: seq<string>, vs: seq<Value>): Env
  {
    env + seq(|names|, i requires 0 <= i < |names| => Binding(names[i], ValueAt(vs, i)))
  }

  /** Assigns to the innermost binding of each variable, in order; missing values are nil. */
  function Update(env: Env, vars: seq<string>, vs: seq<Value>, i: nat): (r: Env)
    requires i <= |vars|
    ensures |r| == |env|
    decreases |vars| - i
  {
    if i == |vars| then env
    else
      var k := Find(NamesOf(env), vars[i]);
      Update(if k >= 0 then env[k := env[k].(value := ValueAt(vs, i))] else env, vars, vs, i + 1)
  }

  /** Where a variable is assigned twice, the last value stays. */
  lemma LastTargetWins(x: string, u: Value, v: Value, w: Value)
    ensures Update([Binding(x, u)], [x, x], [v, w], 0) == [Binding(x, w)]
  {
    assert NamesOf([Binding(x, u)]) == [x] && NamesOf([Binding(x, v)]) == [x];
    assert Find([x], x) == 0;
    assert [Binding(x, u)][0 := Binding(x, v)] == [Binding(x, v)];
    assert [Binding(x, v)][0 := Binding(x, w)] == [Binding(x, w)];
    assert Update([Binding(x, v)], [x, x], [v, w], 1) == Update([Binding(x, w)], [x, x], [v, w], 2);
  }

  /** Number of statements, for termination. */
  function StmtSize(st: Stmt): (n: nat)
    ensures n >= 1
    decreases st
  {
    match st
    case Local(_, _) => 1
    case Assign(_, _) => 1
    case If(branches, otherwise) => 1 + BranchesSize(branches) + BodySize(otherwise)
    case While(_, body, _) => 1 + BodySize(body)
    case Do(body) => 1 + BodySize(body)
  }

  function BodySize(body: seq<Stmt>): nat
    decreases body
  {
    if body == [] then 0 else StmtSize(body[0]) + BodySize(body[1..])
  }

  function BranchesSize(branches: seq<Branch>): nat
    decreases branches
  {
    if branches == [] then 0 else 1 + BodySize(branches[0].body) + BranchesSize(branches[1..])
  }

  /** Runs a statement; `fuel` bounds how often loops go round. */
  function Exec(st: Stmt, env: Env, ops: Ops, fuel: nat): Outcome
    decreases fuel, StmtSize(st), 0
  {
    match st
    case Local(names, values) =>
      (match EvalList(values, env, ops)
       case Error(m) => Raised(m)
       case Ok(vs) => Finished(Declare(env, names, vs)))
    case Assign(vars, values) =>
      (match EvalList(values, env, ops)
       case Error(m) => Raised(m)
       case Ok(vs) => Finished(Update(env, vars, vs, 0)))
    case If(branches, otherwise) => ExecIf(branches, otherwise, env, ops, fuel)
    case Do(body) => ExecBlock(body, env, ops, fuel)
    case While(cond, body, _) =>
      match Eval(cond, env, ops)
      case Error(m) => Raised(m)
      case Ok(v) =>
        if !Truthy(v) then Finished(env)
        else if fuel == 0 then OutOfFuel
        else
          match ExecBlock(body, env, ops, fuel)
          case Raised(m) => Raised(m)
          case OutOfFuel => OutOfFuel
          case Finished(env') => Exec(st, env', ops, fuel - 1)
  }

  function ExecIf(branches: seq<Branch>, otherwise: seq<Stmt>, env: Env, ops: Ops, fuel: nat): Outcome
    decreases fuel, BranchesSize(branches) + BodySize(otherwise), 3
  {
    if branches == [] then ExecBlock(otherwise, env, ops, fuel)
    else
      match Eval(branches[0].cond, env, ops)
      case Error(m) => Raised(m)
      case Ok(v) =>
        if Truthy(v) then ExecBlock(branches[0].body, env, ops, fuel)
        else ExecIf(branches[1..], otherwise, env, ops, fuel)
  }

  function ExecSeq(body: seq<Stmt>, env: Env, ops: Ops, fuel: nat): Outcome
    decreases fuel, BodySize(body), 1
  {
    if body == [] then Finished(env)
    else
      match Exec(body[0], env, ops, fuel)
      case Raised(m) => Raised(m)
      case OutOfFuel => OutOfFuel
      case Finished(env') => ExecSeq(body[1..], env', ops, fuel)
  }

  /** Runs a body in a scope of its own. */
  function ExecBlock(body: seq<Stmt>, env: Env, ops: Ops, fuel: nat): Outcome
    decreases fuel, BodySize(body), 2
  {
    match ExecSeq(body, env, ops, fuel)
    case Finished(env') => Finished(if |env| <= |env'| then env'[..|env|] else env')
    case o => o
  }
}
