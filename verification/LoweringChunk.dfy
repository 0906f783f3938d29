/**
 Whole chunks: in the frame that a call allocates for it, the code of a chunk
 halts exactly when the chunk finishes and fails exactly when it raises.
 */
module LoweringChunk {
  import opened Common
  import opened Bytecode
  import opened Lang
  import opened Lowering
  import opened LoweringProof
  import opened LoweringStmt
  import opened LoweringStmtProof
  import opened LoweringFrames

  function Chunk(body: seq<Stmt>): Program
    requires LowerBlock(NO_LOCALS, [], 0, body).Done?
  {
    var f := LowerBlock(NO_LOCALS, [], 0, body).value;
    Program(f.code, f.ks)
  }

  /** The registers that a call of the chunk has. */
  function FrameSize(body: seq<Stmt>): (size: nat)
    requires LowerBlock(NO_LOCALS, [], 0, body).Done?
    ensures var m := LowerBlock(NO_LOCALS, [], 0, body).value.maxstack; size >= 2 && size >= m && size in {2, m}
  {
    Max(LowerBlock(NO_LOCALS, [], 0, body).value.maxstack, 2)
  }

  /** The chunk is in the fragment, its code and constants stay within the instruction fields, and its value lists
      within its frame. */
  ghost predicate Compiles(body: seq<Stmt>)
  {
    && SafeBody(body) && LowerBlock(NO_LOCALS, [], 0, body).Done?
    && var f := LowerBlock(NO_LOCALS, [], 0, body).value;
       f.fits && f.reach <= FrameSize(body) && |f.code| < 32768 && |f.ks| <= MAX_BX
  }

  /** The code of a chunk names only registers of its frame if and only if its value lists end inside it. */
  lemma ChunkInsideIff(body: seq<Stmt>)
    requires SafeBody(body) && LowerBlock(NO_LOCALS, [], 0, body).Done?
    requires LowerBlock(NO_LOCALS, [], 0, body).value.fits
    ensures AllInside(Chunk(body).code, FrameSize(body)) <==>
      LowerBlock(NO_LOCALS, [], 0, body).value.reach <= FrameSize(body)
  {
    BlockInsideIff(NO_LOCALS, [], 0, body, 0, FrameSize(body));
  }

  lemma ChunkFollows(body: seq<Stmt>, ops: Ops, fuel: nat, regs: Regs) returns (n: nat)
    requires Compiles(body) && NegatesNumbers(ops)
    ensures var p := Chunk(body);
      Follows(ExecBlock(body, [], ops, fuel), NO_LOCALS, Run(p, ops, Start(0, regs), n), 0, |p.code|, n, fuel)
  {
    hide LowerBlock, ExecBlock, Run, SafeBody;
    var p := Chunk(body);
    var m := Machine(p, ops, NO_LOCALS, []);
    assert NamesOf([]) == [];
    assert p.code[0..|p.code|] == p.code;
    n := BlockCorrect(m, [], 0, body, fuel, 0, regs);
  }

  /** No run of the chunk ever leaves its frame, so the frame is as good as all registers. */
  lemma ChunkStaysInside(body: seq<Stmt>, ops: Ops, regs: Regs, n: nat)
    requires Compiles(body)
    ensures RunIn(Chunk(body), ops, FrameSize(body), Start(0, regs), n) ==
      Some(Run(Chunk(body), ops, Start(0, regs), n))
  {
    hide LowerBlock, SafeBody, AllInside;
    ChunkInsideIff(body);
    RunInIsRun(Chunk(body), ops, FrameSize(body), Start(0, regs), n);
  }

  ghost predicate Halts(p: Program, size: nat, ops: Ops, regs: Regs)
  {
    exists n: nat :: var c := RunIn(p, ops, size, Start(0, regs), n);
      c.Some? && c.value.Running? && c.value.pc == |p.code|
  }

  ghost predicate Fails(p: Program, size: nat, ops: Ops, regs: Regs, msg: string)
  {
    exists n: nat :: RunIn(p, ops, size, Start(0, regs), n) == Some(Failed(msg))
  }

  /** In its frame, a chunk's code halts exactly when the chunk finishes. */
  lemma ChunkHalts(body: seq<Stmt>, ops: Ops, regs: Regs)
    requires Compiles(body) && NegatesNumbers(ops)
    ensures Halts(Chunk(body), FrameSize(body), ops, regs) <==>
      exists fuel: nat :: ExecBlock(body, [], ops, fuel).Finished?
  {
    hide LowerBlock, ExecBlock, SafeBody, Run, RunIn;
    var p, size := Chunk(body), FrameSize(body);
    if fuel: nat :| ExecBlock(body, [], ops, fuel).Finished? {
      var n := ChunkFollows(body, ops, fuel, regs);
      ChunkStaysInside(body, ops, regs, n);
    }
    if Halts(p, size, ops, regs) {
      var n: nat :| var c := RunIn(p, ops, size, Start(0, regs), n);
        c.Some? && c.value.Running? && c.value.pc == |p.code|;
      ChunkStaysInside(body, ops, regs, n);
      StuckOutcome(body, ops, regs, n);
    }
  }

  /** In its frame, a chunk's code fails exactly when the chunk raises, and with the same error. */
  lemma ChunkFails(body: seq<Stmt>, ops: Ops, regs: Regs, msg: string)
    requires Compiles(body) && NegatesNumbers(ops)
    ensures Fails(Chunk(body), FrameSize(body), ops, regs, msg) <==>
      exists fuel: nat :: ExecBlock(body, [], ops, fuel) == Raised(msg)
  {
    hide LowerBlock, ExecBlock, SafeBody, Run, RunIn;
    var p, size := Chunk(body), FrameSize(body);
    if fuel: nat :| ExecBlock(body, [], ops, fuel) == Raised(msg) {
      var n := ChunkFollows(body, ops, fuel, regs);
      ChunkStaysInside(body, ops, regs, n);
    }
    if Fails(p, size, ops, regs, msg) {
      var n: nat :| RunIn(p, ops, size, Start(0, regs), n) == Some(Failed(msg));
      ChunkStaysInside(body, ops, regs, n);
      StuckOutcome(body, ops, regs, n);
    }
  }

  /** If the machine has stopped after `n` steps, the chunk's outcome with fuel past `n` is the same stop. */
  lemma StuckOutcome(body: seq<Stmt>, ops: Ops, regs: Regs, n: nat)
    requires Compiles(body) && NegatesNumbers(ops)
    requires var c := Run(Chunk(body), ops, Start(0, regs), n); c.Failed? || c.pc == |Chunk(body).code|
    ensures var c := Run(Chunk(body), ops, Start(0, regs), n);
      match ExecBlock(body, [], ops, n + 1)
      case Finished(_) => c.Running?
      case Raised(msg) => c == Failed(msg)
      case OutOfFuel => false
  {
    hide LowerBlock, ExecBlock, SafeBody, Run;
    var p, c := Chunk(body), Run(Chunk(body), ops, Start(0, regs), n);
    var k := ChunkFollows(body, ops, n + 1, regs);
    var d := Run(p, ops, Start(0, regs), k);
    assert Step(p, ops, c) == c && (d.Failed? || d.pc == |p.code| ==> Step(p, ops, d) == d);
    if k >= n {
      RunAdds(p, ops, Start(0, regs), n, k - n);
      Stuck(p, ops, c, k - n);
    } else {
      RunAdds(p, ops, Start(0, regs), k, n - k);
      Stuck(p, ops, d, n - k);
    }
  }
}
