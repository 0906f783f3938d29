/** Coroutines: create, resume, yield, return and error as steps of one state
    machine, with the nesting count that bounds resume chains. */
module Coroutines {

  const MAX_C_CALLS: nat := 200

  datatype Status = Fresh | Running | Suspended | Dead

  /** A thread: its status, its nesting count, and how many C calls are
      pending in it. */
  datatype Thread = Thread(status: Status, nCcalls: nat, pending: nat)

  /** `froms` holds the resumers that the pending resume calls will return to. */
  datatype State = State(threads: map<nat, Thread>, main: nat, current: nat, froms: seq<nat>)

  datatype Event =
    | Create(id: nat)
    | EnterC
    | LeaveC
    | Resume(co: nat)
    | Yield(yieldable: bool)
    | Finish
    | Fail

  datatype Answer =
    | Done
    | Entered
    | DeadCoroutine
    | NotSuspended
    | COverflow
    | NotInCoroutine
    | AcrossCCall

  // ------------------------------------------------------------------- steps

  function Initial(main: nat): State {
    State(map[main := Thread(Running, 0, 0)], main, main, [])
  }

  /** Which events make sense: names that exist, resume from inside a C call,
      returns only where there is something to return from. */
  predicate Enabled(s: State, ev: Event) {
    s.current in s.threads &&
    match ev
    case Create(id) => id !in s.threads
    case EnterC => true
    case LeaveC => s.threads[s.current].pending > 0
    case Resume(co) => co in s.threads && s.threads[s.current].pending > 0
    case Yield(_) => s.threads[s.current].pending > 0
    case Finish => s.froms != []
    case Fail => s.froms != []
  }

  function Decrement(n: nat): nat { if n > 0 then n - 1 else 0 }

  /** All pending C calls of a thread return. */
  function Unwound(t: Thread): Thread
    decreases t.pending
  {
    if t.pending == 0 then t else Unwound(t.(nCcalls := Decrement(t.nCcalls), pending := t.pending - 1))
  }

  /** Entering a C function counts it; at the limit and well beyond it the call
      is refused, and the count stays raised. */
  function Entering(t: Thread): (r: (Thread, Answer)) {
    var n := t.nCcalls + 1;
    if n == MAX_C_CALLS || n >= MAX_C_CALLS + MAX_C_CALLS / 8 then (t.(nCcalls := n), COverflow)
    else (t.(nCcalls := n, pending := t.pending + 1), Done)
  }

  function TryResume(s: State, co: nat): (r: (State, Answer))
    requires s.current in s.threads && co in s.threads
  {
    var status := s.threads[co].status;
    if status == Dead then (s, DeadCoroutine)
    else if status != Fresh && status != Suspended then (s, NotSuspended)
    else
      var ncc := s.threads[s.current].nCcalls + 1;
      if ncc >= MAX_C_CALLS then (s, COverflow)
      else
        (State(s.threads[co := Thread(Running, ncc, 0)], s.main, co, s.froms + [s.current]), Entered)
  }

  /** The innermost resume returns: the coroutine gets its new status, its own
      calls are unwound, and the resumer is current again. */
  function LeaveResume(s: State, status: Status): State
    requires s.current in s.threads && s.froms != []
  {
    var co := s.current;
    var t := Unwound(s.threads[co]);
    State(s.threads[co := t.(status := status, nCcalls := Decrement(t.nCcalls))], s.main, s.froms[|s.froms| - 1],
          s.froms[..|s.froms| - 1])
  }

  function Step(s: State, ev: Event): (r: (State, Answer))
    requires Enabled(s, ev)
  {
    match ev
    case Create(id) => (s.(threads := s.threads[id := Thread(Fresh, 0, 0)]), Done)
    case EnterC =>
      var e := Entering(s.threads[s.current]);
      (s.(threads := s.threads[s.current := e.0]), e.1)
    case LeaveC =>
      var t := s.threads[s.current];
      (s.(threads := s.threads[s.current := t.(nCcalls := Decrement(t.nCcalls), pending := t.pending - 1)]), Done)
    case Resume(co) => TryResume(s, co)
    case Yield(yieldable) =>
      if s.current == s.main then (s, NotInCoroutine)
      else if !yieldable then (s, AcrossCCall)
      else if s.froms == [] then (s, NotInCoroutine)
      else (LeaveResume(s, Suspended), Done)
    case Finish => (LeaveResume(s, Dead), Done)
    case Fail => (LeaveResume(s, Dead), Done)
  }

  // --------------------------------------------------------------- invariant

  /** The resume chain: from the main thread to the current one. */
  function Chain(s: State): seq<nat> { s.froms + [s.current] }

  ghost predicate Distinct(c: seq<nat>) {
    forall i, j :: 0 <= i < j < |c| ==> c[i] != c[j]
  }

  ghost predicate InChain(c: seq<nat>, id: nat) {
    exists i :: 0 <= i < |c| && c[i] == id
  }

  ghost predicate Known(s: State) {
    s.main in s.threads && s.current in s.threads && forall i :: 0 <= i < |s.froms| ==> s.froms[i] in s.threads
  }

  /** The running threads are exactly the chain, which starts at main and
      repeats no thread. */
  ghost predicate ChainRuns(s: State) {
    && Chain(s)[0] == s.main
    && Distinct(Chain(s))
    && (forall id :: id in s.threads ==> (s.threads[id].status == Running <==> InChain(Chain(s), id)))
  }

  /** Nesting counts along the chain: each pending call is counted, and each
      resume started from inside a C call. */
  ghost predicate Counted(s: State)
    requires Known(s)
  {
    && (forall i :: 0 <= i < |s.froms| ==>
      s.threads[s.froms[i]].nCcalls >= 2 * i + s.threads[s.froms[i]].pending)
    && (forall i :: 0 <= i < |s.froms| ==> s.threads[s.froms[i]].pending >= 1)
    && s.threads[s.current].nCcalls >= 2 * |s.froms| + s.threads[s.current].pending
    && 2 * |s.froms| < MAX_C_CALLS
  }

  ghost predicate Inv(s: State) { Known(s) && ChainRuns(s) && Counted(s) }

  lemma InitialInv(main: nat)
    ensures Inv(Initial(main))
  {
    assert Chain(Initial(main)) == [main];
  }

  lemma {:induction false} UnwoundIs(t: Thread)
    ensures Unwound(t).pending == 0 && Unwound(t).status == t.status
    decreases t.pending
  {
    if t.pending > 0 { UnwoundIs(t.(nCcalls := Decrement(t.nCcalls), pending := t.pending - 1)); }
  }

  /** Changing only the counters of the current thread. */
  lemma CurrentCounts(s: State, t: Thread)
    requires Inv(s) && t.status == Running && t.nCcalls >= 2 * |s.froms| + t.pending
    ensures Inv(s.(threads := s.threads[s.current := t]))
  {
    var n := s.(threads := s.threads[s.current := t]);
    var c := Chain(s);
    assert Chain(n) == c && c[|s.froms|] == s.current;
    assert InChain(c, s.current);
    forall i | 0 <= i < |s.froms| ensures s.froms[i] != s.current {
      assert c[i] == s.froms[i];
    }
  }

  lemma ResumeInv(s: State, co: nat)
    requires Inv(s) && co in s.threads && s.threads[s.current].pending > 0
    ensures Inv(TryResume(s, co).0)
  {
    var n, a := TryResume(s, co).0, TryResume(s, co).1;
    if a == Entered {
      var c := Chain(s);
      assert c[|s.froms|] == s.current;
      assert Chain(n) == c + [co];
      forall i | 0 <= i < |c| ensures c[i] != co {
        assert InChain(c, c[i]);
      }
      forall id | id in n.threads ensures n.threads[id].status == Running <==> InChain(Chain(n), id) {
        if id == co {
          assert Chain(n)[|c|] == co;
        } else {
          ChainGrows(c, co, id);
        }
      }
      forall i | 0 <= i < |n.froms| ensures n.froms[i] == c[i] && n.froms[i] != co {
      }
    }
  }

  lemma ChainGrows(c: seq<nat>, co: nat, id: nat)
    requires id != co
    ensures InChain(c + [co], id) <==> InChain(c, id)
  {
    if InChain(c, id) {
      var i :| 0 <= i < |c| && c[i] == id;
      assert (c + [co])[i] == id;
    }
  }

  lemma LeaveInv(s: State, status: Status)
    requires Inv(s) && s.froms != [] && status != Running
    ensures Inv(LeaveResume(s, status)) && Chain(s) == Chain(LeaveResume(s, status)) + [s.current]
  {
    var n := LeaveResume(s, status);
    var c := Chain(n);
    assert Chain(s) == c + [s.current];
    forall i | 0 <= i < |c| ensures c[i] == Chain(s)[i] && c[i] != s.current {
      assert Chain(s)[|c|] == s.current;
    }
    forall id | id in n.threads ensures n.threads[id].status == Running <==> InChain(c, id) {
      if id != s.current { ChainGrows(c, s.current, id); }
    }
    forall i | 0 <= i < |n.froms| ensures n.froms[i] == s.froms[i] && n.froms[i] != s.current {
      assert c[i] == n.froms[i];
    }
    assert c[|n.froms|] == n.current;
  }

  /** Every step keeps the invariant. */
  lemma StepInv(s: State, ev: Event)
    requires Inv(s) && Enabled(s, ev)
    ensures Inv(Step(s, ev).0)
  {
    hide Inv;
    CurrentRuns(s);
    match ev {
      case Create(id) => CreateInv(s, id);
      case EnterC => CurrentCounts(s, Entering(s.threads[s.current]).0);
      case LeaveC =>
        var t := s.threads[s.current];
        CurrentCounts(s, t.(nCcalls := Decrement(t.nCcalls), pending := t.pending - 1));
      case Resume(co) => ResumeInv(s, co);
      case Yield(_) => if s.froms != [] { LeaveInv(s, Suspended); }
      case Finish => LeaveInv(s, Dead);
      case Fail => LeaveInv(s, Dead);
    }
  }

  lemma CurrentRuns(s: State)
    requires Inv(s)
    ensures s.current in s.threads && s.threads[s.current].status == Running
    ensures s.threads[s.current].nCcalls >= 2 * |s.froms| + s.threads[s.current].pending
  {
    assert Chain(s)[|s.froms|] == s.current;
    assert InChain(Chain(s), s.current);
  }

  lemma CreateInv(s: State, id: nat)
    requires Inv(s) && id !in s.threads
    ensures Inv(s.(threads := s.threads[id := Thread(Fresh, 0, 0)]))
  {
    var n := s.(threads := s.threads[id := Thread(Fresh, 0, 0)]);
    assert Chain(n) == Chain(s);
  }

  // -------------------------------------------------------------- whole runs

  ghost predicate Legal(s: State, es: seq<Event>)
    decreases |es|
  {
    es == [] || (Enabled(s, es[0]) && Legal(Step(s, es[0]).0, es[1..]))
  }

  ghost function After(s: State, es: seq<Event>): State
    requires Legal(s, es)
    decreases |es|
  {
    if es == [] then s else After(Step(s, es[0]).0, es[1..])
  }

  /** Every state of every run satisfies the invariant, and its resume chain
      is far shorter than the C-call limit. */
  lemma {:induction false} RunInv(s: State, es: seq<Event>)
    requires Inv(s) && Legal(s, es)
    ensures Inv(After(s, es)) && |Chain(After(s, es))| <= 100
    decreases |es|
  {
    if es != [] {
      StepInv(s, es[0]);
      RunInv(Step(s, es[0]).0, es[1..]);
    }
  }

  lemma DeadStays(s: State, ev: Event, id: nat)
    requires Inv(s) && Enabled(s, ev) && id in s.threads && s.threads[id].status == Dead
    ensures id in Step(s, ev).0.threads && Step(s, ev).0.threads[id].status == Dead
  {
    hide Inv;
    CurrentRuns(s);
  }

  /** Dead is absorbing. */
  lemma {:induction false} DeadForever(s: State, es: seq<Event>, id: nat)
    requires Inv(s) && Legal(s, es) && id in s.threads && s.threads[id].status == Dead
    ensures id in After(s, es).threads && After(s, es).threads[id].status == Dead
    decreases |es|
  {
    hide Inv, Step;
    if es != [] {
      DeadStays(s, es[0], id);
      StepInv(s, es[0]);
      DeadForever(Step(s, es[0]).0, es[1..], id);
    }
  }

  /** The run never returns from the outermost n resumes pending at its start. */
  ghost predicate StaysInside(s: State, es: seq<Event>, n: nat)
    requires Legal(s, es)
    decreases |es|
  {
    |s.froms| >= n && (es == [] || StaysInside(Step(s, es[0]).0, es[1..], n))
  }

  lemma {:induction false} FromsKept(s: State, es: seq<Event>, n: nat)
    requires Legal(s, es) && StaysInside(s, es, n)
    ensures |After(s, es).froms| >= n && After(s, es).froms[..n] == s.froms[..n]
    decreases |es|
  {
    if es != [] {
      var t := Step(s, es[0]).0;
      assert t.froms[..n] == s.froms[..n];
      FromsKept(t, es[1..], n);
    }
  }

  /** However a resumed coroutine leaves, after whatever nested resumes, the
      thread that resumed it is current again and the chain is as before. */
  lemma ResumerIsBack(s: State, co: nat, body: seq<Event>, exit: Event)
    requires Inv(s) && Enabled(s, Resume(co)) && Step(s, Resume(co)).1 == Entered
    requires var t := Step(s, Resume(co)).0; Legal(t, body) && StaysInside(t, body, |s.froms| + 1)
    requires var u := After(Step(s, Resume(co)).0, body); Enabled(u, exit) && |Step(u, exit).0.froms| == |s.froms|
    ensures var v := Step(After(Step(s, Resume(co)).0, body), exit).0; v.current == s.current && Chain(v) == Chain(s)
  {
    var t := Step(s, Resume(co)).0;
    var n := |s.froms| + 1;
    FromsKept(t, body, n);
    var u := After(t, body);
    assert u.froms[..n] == t.froms == s.froms + [s.current];
    var v := Step(u, exit).0;
    assert |u.froms| == n && u.froms[..n] == u.froms;
    assert v.froms == u.froms[..n - 1] == s.froms;
  }

  // ------------------------------------------------------------ status names

  function CoStatus(s: State, id: nat): string
    requires id in s.threads
  {
    match s.threads[id].status
    case Fresh => "suspended"
    case Suspended => "suspended"
    case Running => if id == s.current then "running" else "normal"
    case Dead => "dead"
  }

  /** "normal" names exactly the threads that wait for one they resumed; the rest are over or not. */
  lemma StatusNames(s: State, id: nat)
    requires Inv(s) && id in s.threads
    ensures CoStatus(s, id) == "running" <==> id == s.current
    ensures CoStatus(s, id) == "normal" <==> InChain(s.froms, id)
    ensures CoStatus(s, id) == "dead" <==> s.threads[id].status == Dead
    ensures CoStatus(s, id) == "suspended" <==> !InChain(Chain(s), id) && s.threads[id].status != Dead
  {
    CurrentRuns(s);
    if id != s.current { ChainGrows(s.froms, s.current, id); }
    forall i | 0 <= i < |s.froms| ensures s.froms[i] != s.current {
      assert Chain(s)[i] == s.froms[i] && Chain(s)[|s.froms|] == s.current;
    }
  }

  /** How an event changes what the status function says of the threads it concerns, and that it changes nothing else:
      a new thread is suspended; one that is resumed runs while its resumer is normal; one that yields is suspended
      again, one that returns or fails is dead, and its resumer runs. */
  lemma StatusAfter(s: State, ev: Event, id: nat)
    requires Inv(s) && Enabled(s, ev) && id in Step(s, ev).0.threads
    ensures var t, a := Step(s, ev).0, Step(s, ev).1;
      CoStatus(t, id) ==
        if ev.Create? && id == ev.id then "suspended"
        else if ev.Resume? && a == Entered && id == ev.co then "running"
        else if ev.Resume? && a == Entered && id == s.current then "normal"
        else if ev.Yield? && a == Done && id == s.current then "suspended"
        else if (ev.Finish? || ev.Fail?) && id == s.current then "dead"
        else if ((ev.Yield? && a == Done) || ev.Finish? || ev.Fail?) && id == s.froms[|s.froms| - 1] then "running"
        else CoStatus(s, id)
  {
    hide Inv;
    CurrentRuns(s);
    StepInv(s, ev);
    CurrentRuns(Step(s, ev).0);
    if s.froms != [] { LastWaits(s); }
    if s.current in s.threads { UnwoundIs(s.threads[s.current]); }
  }

  lemma LastWaits(s: State)
    requires Inv(s) && s.froms != []
    ensures var r := s.froms[|s.froms| - 1]; r in s.threads && r != s.current && s.threads[r].status == Running
  {
    var k := |s.froms| - 1;
    assert Chain(s)[k] == s.froms[k] && Chain(s)[|s.froms|] == s.current;
    assert InChain(Chain(s), s.froms[k]);
  }

  /** Resume starts exactly the suspended coroutines, as long as the caller's count stays below 200; the others are
      refused by name, and a refusal changes nothing. */
  lemma ResumeAnswers(s: State, co: nat)
    requires Inv(s) && Enabled(s, Resume(co))
    ensures var t, a := Step(s, Resume(co)).0, Step(s, Resume(co)).1;
      && (a == DeadCoroutine <==> CoStatus(s, co) == "dead")
      && (a == NotSuspended <==> CoStatus(s, co) == "running" || CoStatus(s, co) == "normal")
      && (a == COverflow <==> CoStatus(s, co) == "suspended" && s.threads[s.current].nCcalls + 1 >= 200)
      && (a != Entered ==> t == s)
      && (a == Entered ==> t.threads[co].nCcalls == s.threads[s.current].nCcalls + 1 && t.threads[co].pending == 0)
  {
  }

  /** Yield leaves the main thread and calls that cannot be yielded across alone. */
  lemma YieldAnswers(s: State, yieldable: bool)
    requires Inv(s) && Enabled(s, Yield(yieldable))
    ensures var t, a := Step(s, Yield(yieldable)).0, Step(s, Yield(yieldable)).1;
      && (a == NotInCoroutine <==> s.current == s.main)
      && (a == AcrossCCall <==> s.current != s.main && !yieldable)
      && (a != Done ==> t == s)
  {
    if s.froms == [] { assert Chain(s) == [s.current]; }
  }

  /** However a coroutine leaves, its pending calls and the resume itself are no longer counted. */
  lemma LeavingUncounts(s: State, ev: Event)
    requires Inv(s) && Enabled(s, ev) && (ev.Yield? || ev.Finish? || ev.Fail?)
    ensures Step(s, ev).1 == Done ==>
      var t, was := Step(s, ev).0.threads[s.current], s.threads[s.current];
      t.pending == 0 && t.nCcalls + was.pending + 1 == was.nCcalls
  {
    UnwoundCount(s.threads[s.current]);
    UnwoundIs(s.threads[s.current]);
    if s.froms != [] { LastWaits(s); }
  }

  /** A C call is refused exactly at 200 and from 225 on; it counts all the same. */
  lemma CallAnswers(s: State)
    requires Inv(s) && Enabled(s, EnterC)
    ensures var t, a, n := Step(s, EnterC).0, Step(s, EnterC).1, s.threads[s.current].nCcalls + 1;
      && (a == COverflow <==> n == 200 || n >= 225)
      && t.threads[s.current].nCcalls == n
      && t.threads[s.current].pending == s.threads[s.current].pending + if a == COverflow then 0 else 1
  {
  }

  // ----------------------------------------------------------- refused calls

  /** The call after which the count stands at n is refused. */
  predicate Refused(n: nat) { n == 200 || n >= 225 }

  /** A C call is counted for no longer than it is pending if and only if it is
      not refused: a refused call leaves the count raised. */
  lemma RefusalRaisesCount(t: Thread)
    requires t.pending <= t.nCcalls
    ensures Unwound(Entering(t).0).nCcalls == Unwound(t).nCcalls <==> !Refused(t.nCcalls + 1)
  {
    UnwoundCount(t);
    UnwoundCount(Entering(t).0);
  }

  /** How far the count of thread id exceeds its pending calls. */
  function Excess(s: State, id: nat): int
    requires id in s.threads
  {
    s.threads[id].nCcalls - s.threads[id].pending
  }

  /** The event is a call by thread id that is refused. */
  predicate Refuses(s: State, ev: Event, id: nat)
    requires s.current in s.threads
  {
    ev == EnterC && s.current == id && Refused(s.threads[id].nCcalls + 1)
  }

  /** Refused calls of thread id in a run. */
  ghost function Refusals(s: State, es: seq<Event>, id: nat): nat
    requires Legal(s, es)
    decreases |es|
  {
    if es == [] then 0 else (if Refuses(s, es[0], id) then 1 else 0) + Refusals(Step(s, es[0]).0, es[1..], id)
  }

  /** One step, as long as the k-th thread of the chain stays in it. */
  lemma ExcessStep(s: State, ev: Event, k: nat)
    requires Inv(s) && Enabled(s, ev) && k <= |s.froms| && k <= |Step(s, ev).0.froms|
    ensures var id, t := Chain(s)[k], Step(s, ev).0;
      && Chain(t)[k] == id && id in s.threads && id in t.threads
      && Excess(t, id) == Excess(s, id) + (if Refuses(s, ev, id) then 1 else 0)
  {
    var c, id := Chain(s), Chain(s)[k];
    assert c[|s.froms|] == s.current;
    assert InChain(c, id);
    CurrentRuns(s);
    if k < |s.froms| { assert c[k] != c[|s.froms|]; }
  }

  /** Over every run in which a running thread stays in the chain, however deep
      it resumes others, its excess grows by exactly its refused calls. */
  lemma {:induction false} ExcessCountsRefusals(s: State, es: seq<Event>, k: nat)
    requires Inv(s) && Legal(s, es) && k <= |s.froms| && StaysInside(s, es, k)
    ensures var id, t := Chain(s)[k], After(s, es);
      && id in s.threads && id in t.threads && Excess(t, id) == Excess(s, id) + Refusals(s, es, id)
    decreases |es|
  {
    hide Inv, Step, Enabled, Refuses;
    CurrentRuns(s);
    if es == [] {
      ChainKnown(s, k);
    } else {
      StepInv(s, es[0]);
      ExcessStep(s, es[0], k);
      ExcessCountsRefusals(Step(s, es[0]).0, es[1..], k);
    }
  }

  lemma ChainKnown(s: State, k: nat)
    requires Inv(s) && k <= |s.froms|
    ensures Chain(s)[k] in s.threads
  {
  }

  lemma {:induction false} UnwoundCount(t: Thread)
    ensures Unwound(t).nCcalls == if t.pending <= t.nCcalls then t.nCcalls - t.pending else 0
    decreases t.pending
  {
    if t.pending > 0 { UnwoundCount(t.(nCcalls := Decrement(t.nCcalls), pending := t.pending - 1)); }
  }

  // ------------------------------------------------------------- the machine

  /** The interpreter's thread fields, updated in place. */
  class Machine {
    var threads: map<nat, Thread>
    const main: nat
    var current: nat
    var froms: seq<nat>

    constructor (main: nat)
      ensures View() == Initial(main)
    {
      this.main, current, froms := main, main, [];
      threads := map[main := Thread(Running, 0, 0)];
    }

    ghost function View(): State
      reads this
    {
      State(threads, main, current, froms)
    }

    method CoResume(co: nat) returns (a: Answer)
      requires Enabled(View(), Resume(co))
      modifies this
      ensures (View(), a) == old(Step(View(), Resume(co)))
    {
      if threads[co].status == Dead { return DeadCoroutine; }
      if threads[co].status != Fresh && threads[co].status != Suspended { return NotSuspended; }
      var ncc := threads[current].nCcalls + 1;
      if ncc >= MAX_C_CALLS { return COverflow; }
      threads := threads[co := Thread(Running, ncc, 0)];
      froms := froms + [current];
      current := co;
      return Entered;
    }

    /** The way out of a resume: guards of the coroutine's C calls run first. */
    method ReturnFromResume(status: Status)
      requires current in threads && froms != []
      modifies this
      ensures View() == old(LeaveResume(View(), status))
    {
      var t := threads[current];
      while t.pending > 0
        invariant Unwound(t) == Unwound(threads[current])
        decreases t.pending
      {
        t := t.(nCcalls := Decrement(t.nCcalls), pending := t.pending - 1);
      }
      threads := threads[current := t.(status := status, nCcalls := Decrement(t.nCcalls))];
      current, froms := froms[|froms| - 1], froms[..|froms| - 1];
    }

    method CoroYield(yieldable: bool) returns (a: Answer)
      requires Enabled(View(), Yield(yieldable))
      modifies this
      ensures (View(), a) == old(Step(View(), Yield(yieldable)))
    {
      if current == main { return NotInCoroutine; }
      if !yieldable { return AcrossCCall; }
      if froms == [] { return NotInCoroutine; }
      ReturnFromResume(Suspended);
      return Done;
    }

    method Perform(ev: Event) returns (a: Answer)
      requires Enabled(View(), ev)
      modifies this
      ensures (View(), a) == old(Step(View(), ev))
    {
      a := Done;
      match ev {
        case Create(id) =>
          threads := threads[id := Thread(Fresh, 0, 0)];
        case EnterC =>
          var e := Entering(threads[current]);
          threads := threads[current := e.0];
          a := e.1;
        case LeaveC =>
          var t := threads[current];
          threads := threads[current := t.(nCcalls := Decrement(t.nCcalls), pending := t.pending - 1)];
        case Resume(co) =>
          a := CoResume(co);
        case Yield(yieldable) =>
          a := CoroYield(yieldable);
        case Finish =>
          ReturnFromResume(Dead);
        case Fail =>
          ReturnFromResume(Dead);
      }
    }

    /** A run of the machine, with the invariant at every step. */
    method Run(es: seq<Event>)
      requires Inv(View()) && Legal(View(), es)
      modifies this
      ensures View() == old(After(View(), es)) && Inv(View())
    {
      hide Inv, Enabled, Step;
      for i := 0 to |es|
        invariant Inv(View()) && Legal(View(), es[i..]) && After(View(), es[i..]) == old(After(View(), es))
      {
        assert es[i..][0] == es[i] && es[i..][1..] == es[i + 1..];
        StepInv(View(), es[i]);
        var _ := Perform(es[i]);
      }
    }
  }
}
