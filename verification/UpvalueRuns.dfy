/** Whole runs over upvalues: every upvalue reads, after any sequence of
    operations, what its own writes and closings say. */
module UpvalueRuns {
  import opened Common
  import opened Upvalues

  datatype Op =
    | SetUpval(u: nat, v: Value)
    | SetRegister(t: nat, i: nat, v: Value)
    | Find(t: nat, slot: nat)
    | Close(t: nat, level: int)
    | Make(p: nat, descs: seq<UpvalDesc>, t: nat, base: nat, parent: seq<Option<nat>>)
    | GrowStack(t: nat, n: nat)
    | StartThread(t: nat, stack: seq<Value>)

  /** The variable behind an upvalue: where it lives while open, and its value. */
  datatype Cell = Cell(open: bool, thread: nat, index: int, value: Value)

  function CellOf(m: map<nat, UpVal>, threads: map<nat, Thread>, u: nat): Cell
    requires u in m
  {
    Cell(m[u].open, m[u].thread, m[u].index, Seen(m, threads, u))
  }

  /** The variable of upvalue u after one operation. */
  function After(u: nat, c: Cell, op: Op): Cell {
    match op
    case SetUpval(w, v) => if w == u then c.(value := v) else c
    case SetRegister(t, i, v) => if c.open && c.thread == t && c.index == i then c.(value := v) else c
    case Close(t, level) => if c.open && c.thread == t && c.index >= level then Cell(false, 0, -1, c.value) else c
    case _ => c
  }

  function Story(u: nat, c: Cell, ops: seq<Op>): Cell {
    if ops == [] then c else After(u, Story(u, c, ops[..|ops| - 1]), ops[|ops| - 1])
  }

  /** One operation; those on upvalues, threads or registers that do not exist do nothing. */
  method RunOp(s: State, op: Op)
    requires s.Valid()
    modifies s
    ensures s.Valid()
    ensures forall u :: u in old(s.upvals) ==>
      u in s.upvals && CellOf(s.upvals, s.threads, u) == After(u, old(CellOf(s.upvals, s.threads, u)), op)
  {
    hide s.Valid, Seen, Closing;
    OpenInside(s);
    match op {
      case SetUpval(u, v) =>
        if u in s.upvals { s.Set(u, v); }
      case SetRegister(t, i, v) =>
        if t in s.threads && i < |s.threads[t].stack| { s.WriteSlot(t, i, v); }
      case Find(t, slot) =>
        if t in s.threads && slot < |s.threads[t].stack| { var _ := s.FindUpval(t, slot); }
      case Close(t, level) =>
        if t in s.threads {
          s.CloseUpvals(t, level);
          ClosedCores(old(s.upvals), old(s.threads), s.upvals, t, level);
        }
      case Make(p, descs, t, base, parent) =>
        if t in s.threads && forall i :: 0 <= i < |descs| && descs[i].instack ==>
          base + descs[i].idx < |s.threads[t].stack|
        {
          var _ := s.MakeClosure(p, descs, t, base, parent);
        }
      case GrowStack(t, n) =>
        if t in s.threads { s.Grow(t, n); }
      case StartThread(t, stack) =>
        if t !in s.threads { s.NewThread(t, stack); }
    }
  }

  lemma OpenInside(s: State)
    requires s.Valid()
    ensures forall u :: u in s.upvals && s.upvals[u].open ==>
      s.upvals[u].thread in s.threads && 0 <= s.upvals[u].index < |s.threads[s.upvals[u].thread].stack|
  {
    forall u | u in s.upvals
      ensures s.upvals[u].open ==>
        s.upvals[u].thread in s.threads && 0 <= s.upvals[u].index < |s.threads[s.upvals[u].thread].stack|
    {
      s.InsideStackIfOpen(u);
    }
  }

  lemma ClosedCores(m0: map<nat, UpVal>, threads0: map<nat, Thread>, m: map<nat, UpVal>, t: nat, level: int)
    requires m.Keys == m0.Keys && forall u :: u in m ==>
      Core(m[u]) == if Closing(m0[u], t, level) then Core(Shut(m0[u], Seen(m0, threads0, u))) else Core(m0[u])
    ensures forall u :: u in m ==>
      if m0[u].open && m0[u].thread == t && m0[u].index >= level then
        !m[u].open && m[u].thread == 0 && m[u].index == -1
      else
        m[u].open == m0[u].open && m[u].thread == m0[u].thread && m[u].index == m0[u].index
  {
    forall u | u in m ensures m[u].open == Core(m[u]).open && m[u].thread == Core(m[u]).thread
      && m[u].index == Core(m[u]).index {
    }
  }

  /** Every run keeps the lists sound, and every upvalue reads what its story says: writes through it, register
      writes while it is open, and nothing else. */
  method Run(s: State, ops: seq<Op>)
    requires s.Valid()
    modifies s
    ensures s.Valid()
    ensures forall u :: u in old(s.upvals) ==>
      u in s.upvals && CellOf(s.upvals, s.threads, u) == Story(u, old(CellOf(s.upvals, s.threads, u)), ops)
  {
    hide Sound, Seen, After;
    for i := 0 to |ops|
      invariant s.Valid()
      invariant forall u :: u in old(s.upvals) ==>
        u in s.upvals && CellOf(s.upvals, s.threads, u) == Story(u, old(CellOf(s.upvals, s.threads, u)), ops[..i])
    {
      assert ops[..i + 1][..i] == ops[..i];
      RunOp(s, ops[i]);
    }
    assert ops[..|ops|] == ops;
  }

  /** The operation writes the variable of upvalue u, which is c so far. */
  predicate Touches(u: nat, c: Cell, op: Op) {
    || (op.SetUpval? && op.u == u)
    || (op.SetRegister? && c.open && op.t == c.thread && op.i == c.index)
  }

  /** A write through an upvalue is read from then on, however often stacks grow and functions return, until the same
      variable is written again. */
  lemma {:induction false} LastWriteIsRead(u: nat, c: Cell, before: seq<Op>, v: Value, after: seq<Op>)
    requires forall op :: op in after ==> !Touches(u, Story(u, c, before), op)
    ensures var d, e := Story(u, c, before), Story(u, c, before + [SetUpval(u, v)] + after);
      e.value == v && (e.open ==> e == d.(value := v))
    decreases |after|
  {
    var start := before + [SetUpval(u, v)];
    if after == [] {
      assert start + after == start && start[..|start| - 1] == before;
    } else {
      var ops, short := start + after, after[..|after| - 1];
      assert ops[..|ops| - 1] == start + short && ops[|ops| - 1] == after[|after| - 1];
      LastWriteIsRead(u, c, before, v, short);
      assert after[|after| - 1] in after;
    }
  }
}
