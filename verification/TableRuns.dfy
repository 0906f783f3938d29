/** Whole runs over one table: every sequence of operations is observed
    exactly as on a finite map. */
module TableRuns {
  import opened TableLayout
  import opened TableObject

  datatype Op =
    | Assign(key: Value, value: Value)
    | AssignInt(i: int, value: Value)
    | Read(key: Value)
    | ReadInt(i: int)
    | ReadTm(event: nat)
    | Resize(arrayHint: nat, hashHint: nat)
    | Clear(white: Value -> bool, clearKeys: bool, clearValues: bool)

  datatype Seen = Wrote(outcome: Outcome) | Got(value: Value) | Quiet

  /** Which entries a collection may drop: the table's weak mode. */
  datatype Mode = Mode(weakKeys: bool, weakValues: bool)

  /** The finite map after one operation. */
  ghost function After(mode: Mode, m: map<Value, Value>, op: Op): map<Value, Value> {
    match op
    case Assign(k, v) => if Check(k) == Done then Put(m, Norm(k), v) else m
    case AssignInt(i, v) => Put(m, Int(i), v)
    case Clear(white, ks, vs) => Strong(white, mode.weakKeys && ks, mode.weakValues && vs, m)
    case _ => m
  }

  /** What the program sees of one operation on a finite map. */
  ghost function Observed(m: map<Value, Value>, op: Op): Seen {
    match op
    case Assign(k, _) => Wrote(Check(k))
    case AssignInt(_, _) => Wrote(Done)
    case Read(k) => Got(Lookup(m, Norm(k)))
    case ReadInt(i) => Got(Lookup(m, Int(i)))
    case ReadTm(e) => Got(if e < |TM_NAMES| then Lookup(m, Str(TM_NAMES[e])) else Nil)
    case _ => Quiet
  }

  ghost function AfterAll(mode: Mode, m: map<Value, Value>, ops: seq<Op>): map<Value, Value> {
    if ops == [] then m else After(mode, AfterAll(mode, m, ops[..|ops| - 1]), ops[|ops| - 1])
  }

  ghost function ObservedAll(mode: Mode, m: map<Value, Value>, ops: seq<Op>): seq<Seen> {
    if ops == [] then []
    else ObservedAll(mode, m, ops[..|ops| - 1]) + [Observed(AfterAll(mode, m, ops[..|ops| - 1]), ops[|ops| - 1])]
  }

  method RunOp(t: Table, op: Op) returns (seen: Seen)
    requires t.Valid()
    modifies t
    ensures t.Valid() && t.weakKeys == old(t.weakKeys) && t.weakValues == old(t.weakValues)
    ensures t.Map() == After(Mode(t.weakKeys, t.weakValues), old(t.Map()), op)
    ensures seen == Observed(old(t.Map()), op)
  {
    hide Sound, CacheSound, Contents, Strong;
    seen := Quiet;
    match op {
      case Assign(k, v) =>
        var r, _ := t.Set(k, v);
        seen := Wrote(r);
      case AssignInt(i, v) =>
        var r, _ := t.SetInt(i, v);
        seen := Wrote(r);
      case Read(k) =>
        var v := t.Get(k);
        seen := Got(v);
      case ReadInt(i) =>
        var v := t.GetInt(i);
        seen := Got(v);
      case ReadTm(e) =>
        var v := Nil;
        if e < |TM_NAMES| { v := t.GetTm(e); }
        seen := Got(v);
      case Resize(a, h) =>
        if a >= |t.items| {
          NothingReserved(t.hasher, t.items, t.hash);
          var _ := t.Rehash(a, h);
          PointwiseSame(old(t.items), old(t.hash), t.items, t.hash);
        }
      case Clear(white, ks, vs) =>
        t.ClearWeakEntries(white, ks, vs);
    }
  }

  /** Every run of operations shows what the finite map would show, and ends
      in a table that stands for the finite map's last state. */
  method Run(t: Table, ops: seq<Op>) returns (seen: seq<Seen>)
    requires t.Valid()
    modifies t
    ensures t.Valid() && t.weakKeys == old(t.weakKeys) && t.weakValues == old(t.weakValues)
    ensures t.Map() == AfterAll(Mode(t.weakKeys, t.weakValues), old(t.Map()), ops)
    ensures seen == ObservedAll(Mode(t.weakKeys, t.weakValues), old(t.Map()), ops)
  {
    hide Sound, CacheSound, Contents, Strong, After, Observed;
    seen := [];
    ghost var mode := Mode(t.weakKeys, t.weakValues);
    for i := 0 to |ops|
      invariant t.Valid() && mode == Mode(t.weakKeys, t.weakValues)
      invariant t.Map() == AfterAll(mode, old(t.Map()), ops[..i])
      invariant seen == ObservedAll(mode, old(t.Map()), ops[..i])
    {
      assert ops[..i + 1][..i] == ops[..i];
      var s := RunOp(t, ops[i]);
      seen := seen + [s];
    }
    assert ops[..|ops|] == ops;
  }

  // --------------------------------------------------- integral float keys

  /** The operation with the integer in place of an integral float key. */
  function WithIntKey(op: Op): Op {
    match op
    case Assign(Float(Integral(i)), v) => AssignInt(i, v)
    case Read(Float(Integral(i))) => ReadInt(i)
    case _ => op
  }

  function WithIntKeys(ops: seq<Op>): (r: seq<Op>)
    ensures |r| == |ops|
  {
    if ops == [] then [] else WithIntKeys(ops[..|ops| - 1]) + [WithIntKey(ops[|ops| - 1])]
  }

  lemma IntKeyStep(mode: Mode, m: map<Value, Value>, op: Op)
    ensures After(mode, m, WithIntKey(op)) == After(mode, m, op) && Observed(m, WithIntKey(op)) == Observed(m, op)
  {
    hide Strong;
  }

  /** No program can tell an integral float key from the integer: replacing them everywhere, at every size and sign,
      changes nothing that is observed. */
  lemma {:induction false} IntKeysUnobserved(mode: Mode, m: map<Value, Value>, ops: seq<Op>)
    ensures AfterAll(mode, m, WithIntKeys(ops)) == AfterAll(mode, m, ops)
    ensures ObservedAll(mode, m, WithIntKeys(ops)) == ObservedAll(mode, m, ops)
  {
    hide After, Observed, WithIntKey;
    if ops != [] {
      var n := |ops| - 1;
      var r := WithIntKeys(ops);
      IntKeyStep(mode, AfterAll(mode, m, ops[..n]), ops[n]);
      IntKeysUnobserved(mode, m, ops[..n]);
      assert r[..n] == WithIntKeys(ops[..n]) && r[n] == WithIntKey(ops[n]);
    }
  }

  // ----------------------------------------------- the story of a single key

  /** The operation assigns to key k. */
  predicate Writes(op: Op, k: Value) {
    || (op.Assign? && Check(op.key) == Done && Norm(op.key) == k)
    || (op.AssignInt? && Int(op.i) == k)
  }

  /** What a key reads after an operation depends on what it read before and
      on nothing else in the table. */
  function Story(mode: Mode, v: Value, op: Op, k: Value): Value {
    if Writes(op, k) then op.value else if Drops(mode, op, k, v) then Nil else v
  }

  lemma StoryOfOne(mode: Mode, m: map<Value, Value>, op: Op, k: Value)
    requires forall x :: x in m ==> m[x] != Nil
    ensures Lookup(After(mode, m, op), k) == Story(mode, Lookup(m, k), op, k)
    ensures forall x :: x in After(mode, m, op) ==> After(mode, m, op)[x] != Nil
  {
  }

  /** The story of one key through a whole run. */
  function StoryOf(mode: Mode, v: Value, ops: seq<Op>, k: Value): Value {
    if ops == [] then v
    else Story(mode, StoryOf(mode, v, ops[..|ops| - 1], k), ops[|ops| - 1], k)
  }

  /** After every run, collections included, a key reads what its own story
      says: no other key's assignments matter. */
  lemma {:induction false} RunIsStories(mode: Mode, m: map<Value, Value>, ops: seq<Op>, k: Value)
    requires forall x :: x in m ==> m[x] != Nil
    ensures Lookup(AfterAll(mode, m, ops), k) == StoryOf(mode, Lookup(m, k), ops, k)
  {
    if ops != [] {
      var n := |ops| - 1;
      NoNilStored(mode, m, ops[..n]);
      StoryOfOne(mode, AfterAll(mode, m, ops[..n]), ops[n], k);
      RunIsStories(mode, m, ops[..n], k);
    }
  }

  /** The operation drops an entry with key k and value v. */
  predicate Drops(mode: Mode, op: Op, k: Value, v: Value) {
    op.Clear? && ((mode.weakKeys && op.clearKeys && Dead(op.white, k)) || (mode.weakValues && op.clearValues
      && Dead(op.white, v)))
  }

  /** A read returns the last value written: if ops[j] is the last assignment
      to k and no later collection drops that entry, k reads that value. */
  lemma {:induction false} LastWriteIsRead(mode: Mode, m: map<Value, Value>, ops: seq<Op>, j: nat, k: Value)
    requires forall x :: x in m ==> m[x] != Nil
    requires j < |ops| && Writes(ops[j], k)
    requires forall i :: j < i < |ops| ==> !Writes(ops[i], k) && !Drops(mode, ops[i], k, ops[j].value)
    ensures Lookup(AfterAll(mode, m, ops), k) == ops[j].value
  {
    RunIsStories(mode, m, ops, k);
    StoryEndsWith(mode, Lookup(m, k), ops, j, k);
  }

  lemma {:induction false} StoryEndsWith(mode: Mode, v: Value, ops: seq<Op>, j: nat, k: Value)
    requires j < |ops| && Writes(ops[j], k)
    requires forall i :: j < i < |ops| ==> !Writes(ops[i], k) && !Drops(mode, ops[i], k, ops[j].value)
    ensures StoryOf(mode, v, ops, k) == ops[j].value
  {
    if j < |ops| - 1 { StoryEndsWith(mode, v, ops[..|ops| - 1], j, k); }
  }

  /** A key that no operation assigns and no collection drops keeps its value. */
  lemma {:induction false} UnwrittenIsKept(mode: Mode, m: map<Value, Value>, ops: seq<Op>, k: Value)
    requires forall x :: x in m ==> m[x] != Nil
    requires forall i :: 0 <= i < |ops| ==> !Writes(ops[i], k) && !Drops(mode, ops[i], k, Lookup(m, k))
    ensures Lookup(AfterAll(mode, m, ops), k) == Lookup(m, k)
  {
    if ops != [] {
      var n := |ops| - 1;
      NoNilStored(mode, m, ops[..n]);
      StoryOfOne(mode, AfterAll(mode, m, ops[..n]), ops[n], k);
      UnwrittenIsKept(mode, m, ops[..n], k);
    }
  }

  lemma {:induction false} NoNilStored(mode: Mode, m: map<Value, Value>, ops: seq<Op>)
    requires forall x :: x in m ==> m[x] != Nil
    ensures forall x :: x in AfterAll(mode, m, ops) ==> AfterAll(mode, m, ops)[x] != Nil
  {
    if ops != [] {
      var n := |ops| - 1;
      NoNilStored(mode, m, ops[..n]);
      StoryOfOne(mode, AfterAll(mode, m, ops[..n]), ops[n], Nil);
    }
  }
}
