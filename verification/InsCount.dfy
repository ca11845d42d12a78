/** The counting tools pin/inscount0.cpp, pin/inscount1.cpp and pin/inscount_tls.cpp.

    A program gives, for every thread, the sizes of the basic blocks it executes, in
    order. `_count += c` and `icount += c` are a load step and a store step; a schedule
    is any sequence of thread numbers, and every thread may be preempted between any
    two steps. A thread that cannot move (it waits for the lock, or has finished) lets
    the step pass. */
module InsCount {
  import opened Options
  import opened Sums

  type Program = seq<seq<nat>>
  type Schedule = seq<nat>

  function Total(p: Program): int {
    Sum(seq(|p|, t requires 0 <= t < |p| => Sum(p[t])))
  }

  // ---------------------------------------------------------------- the thread-local tool

  /** Where a thread stands: in ThreadStart (waiting for the lock, holding it, with numThreads
      loaded, with it stored, after ReleaseLock), or in its k-th call of docount. */
  datatype Pc =
    | Waiting
    | Locked
    | Loaded(n: int)
    | Stored
    | Released
    | Running(k: nat)
    | Adding(k: nat, reg: int)

  datatype State = State(lock: Option<nat>, numThreads: int, tls: seq<Option<int>>, pcs: seq<Pc>)

  function Initial(n: nat): State {
    State(None, 0, seq(n, _ => None), seq(n, _ => Waiting))
  }

  ghost predicate Shaped(p: Program, s: State) {
    |s.tls| == |s.pcs| == |p| &&
    forall t :: 0 <= t < |p| ==> (s.pcs[t].Running? || s.pcs[t].Adding? ==> s.pcs[t].k <= |p[t]| && s.tls[t].Some?)
  }

  /** One step of thread t. */
  function Step(p: Program, s: State, t: nat): State
    requires t < |p| && Shaped(p, s)
  {
    match s.pcs[t]
    case Waiting => if s.lock.None? then s.(lock := Some(t), pcs := s.pcs[t := Locked]) else s
    case Locked => s.(pcs := s.pcs[t := Loaded(s.numThreads)])
    case Loaded(n) => s.(numThreads := n + 1, pcs := s.pcs[t := Stored])
    case Stored => s.(lock := None, pcs := s.pcs[t := Released])
    case Released => s.(tls := s.tls[t := Some(0)], pcs := s.pcs[t := Running(0)])
    case Running(k) => if k < |p[t]| then s.(pcs := s.pcs[t := Adding(k, s.tls[t].value)]) else s
    case Adding(k, reg) =>
      if k < |p[t]| then s.(tls := s.tls[t := Some(reg + p[t][k])], pcs := s.pcs[t := Running(k + 1)]) else s
  }

  ghost predicate InSection(pc: Pc) {
    pc.Locked? || pc.Loaded? || pc.Stored?
  }

  /** 1 for a thread whose increment of numThreads is done. */
  function Counted(pc: Pc): int {
    if pc.Waiting? || pc.Locked? || pc.Loaded? then 0 else 1
  }

  function Tally(pcs: seq<Pc>): seq<int> {
    seq(|pcs|, t requires 0 <= t < |pcs| => Counted(pcs[t]))
  }

  /** Blocks of thread t that docount has been entered for. */
  function Entered(pc: Pc): nat {
    match pc
    case Running(k) => k
    case Adding(k, _) => k + 1
    case _ => 0
  }

  ghost predicate ThreadInv(p: Program, s: State, t: nat)
    requires t < |p| && |s.tls| == |s.pcs| == |p|
  {
    match s.pcs[t]
    case Running(k) => k <= |p[t]| && s.tls[t] == Some(Sum(p[t][..k]))
    case Adding(k, reg) => k < |p[t]| && s.tls[t] == Some(reg) && reg == Sum(p[t][..k])
    case Loaded(n) => n == s.numThreads && s.tls[t] == None
    case _ => s.tls[t] == None
  }

  ghost predicate Inv(p: Program, s: State) {
    && |s.tls| == |s.pcs| == |p|
    && (forall t :: 0 <= t < |p| ==> ThreadInv(p, s, t))
    && (forall t :: 0 <= t < |p| ==> (InSection(s.pcs[t]) <==> s.lock == Some(t)))
    && (s.lock.Some? ==> s.lock.value < |p|)
    && s.numThreads == Sum(Tally(s.pcs))
  }

  lemma InitialInv(p: Program)
    ensures Inv(p, Initial(|p|))
  {
    SumZero(Tally(Initial(|p|).pcs));
  }

  lemma TallyStep(pcs: seq<Pc>, t: nat, pc: Pc)
    requires t < |pcs|
    ensures Sum(Tally(pcs[t := pc])) == Sum(Tally(pcs)) - Counted(pcs[t]) + Counted(pc)
  {
    assert Tally(pcs[t := pc]) == Tally(pcs)[t := Counted(pc)];
    SumUpdate(Tally(pcs), t, Counted(pc));
  }

  lemma InvShaped(p: Program, s: State)
    requires Inv(p, s)
    ensures Shaped(p, s)
  {
    forall t | 0 <= t < |p|
      ensures s.pcs[t].Running? || s.pcs[t].Adding? ==> s.pcs[t].k <= |p[t]| && s.tls[t].Some?
    {
      assert ThreadInv(p, s, t);
    }
  }

  lemma NextPrefix(s: seq<nat>, k: nat)
    requires k < |s|
    ensures Sum(s[..k + 1]) == Sum(s[..k]) + s[k]
  {
    assert s[..k + 1][..k] == s[..k];
  }

  /** Every step of every thread keeps the invariant: the lock protects numThreads, and nobody
      else writes a thread's count. */
  lemma StepInv(p: Program, s: State, t: nat)
    requires t < |p| && Inv(p, s)
    ensures Shaped(p, s) && Inv(p, Step(p, s, t))
  {
    hide Sum, Tally;
    InvShaped(p, s);
    assert ThreadInv(p, s, t);
    var s' := Step(p, s, t);
    TallyStep(s.pcs, t, s'.pcs[t]);
    assert s'.pcs == s.pcs[t := s'.pcs[t]];
    if s.pcs[t].Adding? {
      NextPrefix(p[t], s.pcs[t].k);
    }
    if s.pcs[t].Released? {
      SumZero(p[t][..0]);
    }
    forall u | 0 <= u < |p| ensures ThreadInv(p, s', u) {
      assert ThreadInv(p, s, u);
    }
  }

  /** The schedule names threads of the program only. */
  predicate Legal(p: Program, sched: Schedule) {
    forall i :: 0 <= i < |sched| ==> sched[i] < |p|
  }

  /** The state after a schedule. */
  function Run(p: Program, sched: Schedule): (s: State)
    requires Legal(p, sched)
    ensures Inv(p, s) && Shaped(p, s)
  {
    if sched == [] then
      InitialInv(p); InvShaped(p, Initial(|p|)); Initial(|p|)
    else
      var s := Run(p, sched[..|sched| - 1]);
      var t := sched[|sched| - 1];
      StepInv(p, s, t); InvShaped(p, Step(p, s, t)); Step(p, s, t)
  }

  ghost predicate Done(p: Program, s: State) {
    |s.pcs| == |p| && forall t :: 0 <= t < |p| ==> s.pcs[t] == Running(|p[t]|)
  }

  // ---------------------------------------------------------------- the run a schedule produces

  /** A block executed by a thread, with its number of instructions. */
  datatype Event = Event(thread: nat, size: nat)

  /** The blocks in the order their docount calls were entered. */
  function Trace(p: Program, sched: Schedule): seq<Event>
    requires Legal(p, sched)
  {
    if sched == [] then []
    else
      Trace(p, sched[..|sched| - 1]) + Entry(p, Run(p, sched[..|sched| - 1]), sched[|sched| - 1])
  }

  /** The block whose docount call thread t enters in state s, if it enters one. */
  function Entry(p: Program, s: State, t: nat): seq<Event>
    requires t < |p| == |s.pcs|
  {
    if s.pcs[t].Running? && s.pcs[t].k < |p[t]| then [Event(t, p[t][s.pcs[t].k])] else []
  }

  /** Blocks of one thread in a run. */
  function Of(run: seq<Event>, t: nat): seq<nat> {
    if run == [] then []
    else
      var e := run[|run| - 1];
      Of(run[..|run| - 1], t) + (if e.thread == t then [e.size] else [])
  }

  /** The run instruction by instruction: the thread executing each one. */
  function Flatten(run: seq<Event>): seq<nat> {
    if run == [] then []
    else
      var e := run[|run| - 1];
      Flatten(run[..|run| - 1]) + seq(e.size, _ => e.thread)
  }

  lemma {:induction false} OfConcat(a: seq<Event>, b: seq<Event>, t: nat)
    ensures Of(a + b, t) == Of(a, t) + Of(b, t)
  {
    if b == [] {
      assert a + b == a;
    } else {
      OfConcat(a, b[..|b| - 1], t);
      assert (a + b)[..|a + b| - 1] == a + b[..|b| - 1];
    }
  }

  lemma EntryOf(p: Program, s: State, u: nat, t: nat)
    requires u < |p| && t < |p| && Inv(p, s) && Shaped(p, s)
    ensures var k, k' := Entered(s.pcs[t]), Entered(Step(p, s, u).pcs[t]);
            k <= k' <= |p[t]| && Of(Entry(p, s, u), t) == p[t][k..k']
  {
    hide Sum, Tally, Of;
    assert ThreadInv(p, s, t);
    var e := Entry(p, s, u);
    assert Of([], t) == [] by { OfNone(t); }
    if e != [] {
      OfOne(e[0], t);
    }
  }

  lemma OfNone(t: nat)
    ensures Of([], t) == []
  {
  }

  lemma OfOne(e: Event, t: nat)
    ensures Of([e], t) == if e.thread == t then [e.size] else []
  {
    assert [e][..0] == [];
  }

  /** Each thread's share of the run is what it has executed of its program. */
  lemma {:induction false} TraceOf(p: Program, sched: Schedule, t: nat)
    requires t < |p| && Legal(p, sched)
    ensures var k := Entered(Run(p, sched).pcs[t]);
            k <= |p[t]| && Of(Trace(p, sched), t) == p[t][..k]
  {
    hide Of, Entry, Step, Inv;
    if sched == [] {
      OfNone(t);
    } else {
      var before := sched[..|sched| - 1];
      var s, u := Run(p, before), sched[|sched| - 1];
      TraceOf(p, before, t);
      EntryOf(p, s, u, t);
      OfConcat(Trace(p, before), Entry(p, s, u), t);
    }
  }

  lemma RepeatCounts(x: nat, n: nat, t: nat)
    ensures multiset(seq(n, _ => x))[t] == if x == t then n else 0
  {
    var r := seq(n, _ => x);
    if n > 0 {
      RepeatCounts(x, n - 1, t);
      assert r == seq(n - 1, _ => x) + [x];
    }
  }

  lemma AddedShare(run: seq<Event>, t: nat)
    requires run != []
    ensures var e := run[|run| - 1];
            Sum(Of(run, t)) == Sum(Of(run[..|run| - 1], t)) + if e.thread == t then e.size else 0
  {
    var e := run[|run| - 1];
    var before := Of(run[..|run| - 1], t);
    if e.thread == t {
      SumOne(e.size);
      SumConcat(before, [e.size]);
    } else {
      assert Of(run, t) == before;
    }
  }

  /** Counting instruction by instruction gives each thread the sum of its blocks. */
  lemma {:induction false} FlattenCounts(run: seq<Event>, t: nat)
    ensures multiset(Flatten(run))[t] == Sum(Of(run, t))
  {
    if run != [] {
      var e := run[|run| - 1];
      FlattenCounts(run[..|run| - 1], t);
      RepeatCounts(e.thread, e.size, t);
      assert Flatten(run) == Flatten(run[..|run| - 1]) + seq(e.size, _ => e.thread);
      AddedShare(run, t);
    }
  }

  function Shares(run: seq<Event>, n: nat): seq<int> {
    seq(n, t requires 0 <= t < n => Sum(Of(run, t)))
  }

  lemma {:induction false} FlattenTotal(run: seq<Event>, n: nat)
    requires forall i :: 0 <= i < |run| ==> run[i].thread < n
    ensures |Flatten(run)| == Sum(Shares(run, n))
  {
    if run == [] {
      SumZero(Shares(run, n));
    } else {
      var e := run[|run| - 1];
      var before := run[..|run| - 1];
      FlattenTotal(before, n);
      forall t | 0 <= t < n
        ensures Shares(run, n)[t] == Shares(before, n)[t] + if e.thread == t then e.size else 0
      {
        AddedShare(run, t);
      }
      assert Shares(run, n) == Shares(before, n)[e.thread := Shares(before, n)[e.thread] + e.size];
      SumUpdate(Shares(before, n), e.thread, Shares(before, n)[e.thread] + e.size);
    }
  }

  lemma {:induction false} TraceThreads(p: Program, sched: Schedule)
    requires Legal(p, sched)
    ensures forall i :: 0 <= i < |Trace(p, sched)| ==> Trace(p, sched)[i].thread < |p|
  {
    if sched != [] {
      TraceThreads(p, sched[..|sched| - 1]);
    }
  }

  /** In every interleaving that lets all threads finish, all threads are counted, every
      printed count is the number of instructions that thread executed, and together
      they are what counting every instruction of the run gives. */
  lemma TlsExact(p: Program, sched: Schedule)
    requires Legal(p, sched) && Done(p, Run(p, sched))
    ensures Run(p, sched).numThreads == |p|
    ensures forall t :: 0 <= t < |p| ==>
              && Run(p, sched).tls[t] == Some(Sum(p[t]))
              && Sum(p[t]) == multiset(Flatten(Trace(p, sched)))[t]
    ensures |Flatten(Trace(p, sched))| == Total(p)
  {
    hide Sum, Flatten, Of, Trace, Run;
    var s, run := Run(p, sched), Trace(p, sched);
    forall t | 0 <= t < |p|
      ensures s.tls[t] == Some(Sum(p[t])) && Of(run, t) == p[t] && Sum(p[t]) == multiset(Flatten(run))[t]
    {
      assert ThreadInv(p, s, t);
      assert p[t][..|p[t]|] == p[t];
      TraceOf(p, sched, t);
      FlattenCounts(run, t);
    }
    AllOnes(Tally(s.pcs));
    TraceThreads(p, sched);
    FlattenTotal(run, |p|);
    assert Shares(run, |p|) == seq(|p|, t requires 0 <= t < |p| => Sum(p[t]));
  }

  lemma {:induction false} AllOnes(s: seq<int>)
    requires forall i :: 0 <= i < |s| ==> s[i] == 1
    ensures Sum(s) == |s|
  {
    if s != [] {
      AllOnes(s[..|s| - 1]);
    }
  }

  /** Steps thread t still has to make. */
  function Work(pc: Pc, blocks: nat): int {
    match pc
    case Waiting => 2 * blocks + 5
    case Locked => 2 * blocks + 4
    case Loaded(_) => 2 * blocks + 3
    case Stored => 2 * blocks + 2
    case Released => 2 * blocks + 1
    case Running(k) => 2 * (blocks - k)
    case Adding(k, _) => 2 * (blocks - k) - 1
  }

  function Works(p: Program, pcs: seq<Pc>): seq<int>
    requires |pcs| == |p|
  {
    seq(|p|, t requires 0 <= t < |p| => Work(pcs[t], |p[t]|))
  }

  /** A thread that can move: the one holding the lock, or any unfinished one when nobody does. */
  lemma Mover(p: Program, s: State) returns (t: nat)
    requires Inv(p, s) && !Done(p, s)
    ensures t < |p| && Shaped(p, s) && Work(Step(p, s, t).pcs[t], |p[t]|) == Work(s.pcs[t], |p[t]|) - 1
  {
    hide Sum, Tally;
    InvShaped(p, s);
    if s.lock.Some? {
      t := s.lock.value;
    } else {
      t :| 0 <= t < |p| && s.pcs[t] != Running(|p[t]|);
    }
    assert ThreadInv(p, s, t);
  }

  lemma WorkStep(p: Program, s: State, t: nat)
    requires Inv(p, s) && t < |p| && Shaped(p, s)
    requires Work(Step(p, s, t).pcs[t], |p[t]|) == Work(s.pcs[t], |p[t]|) - 1
    ensures |s.pcs| == |Step(p, s, t).pcs| == |p|
    ensures Sum(Works(p, Step(p, s, t).pcs)) == Sum(Works(p, s.pcs)) - 1
  {
    hide Sum, Tally, Work;
    var w := Works(p, s.pcs);
    var pcs' := Step(p, s, t).pcs;
    assert pcs' == s.pcs[t := pcs'[t]];
    assert Works(p, pcs') == w[t := w[t] - 1];
    SumUpdate(w, t, w[t] - 1);
  }

  lemma WorkLeft(p: Program, s: State)
    requires Inv(p, s)
    ensures Sum(Works(p, s.pcs)) >= 0
  {
    hide Sum, Tally;
    forall t | 0 <= t < |p| ensures Works(p, s.pcs)[t] >= 0 {
      assert ThreadInv(p, s, t);
    }
    SumBound(Works(p, s.pcs));
  }

  /** No interleaving runs into a dead end: whatever has been scheduled, all threads can still finish. */
  lemma {:induction false} CanFinish(p: Program, sched: Schedule) returns (tail: Schedule)
    requires Legal(p, sched)
    ensures Legal(p, sched + tail) && Done(p, Run(p, sched + tail))
    decreases Sum(Works(p, Run(p, sched).pcs))
  {
    hide Sum, Works, Inv, Shaped, Step, Done;
    var s := Run(p, sched);
    if Done(p, s) {
      tail := [];
      assert sched + [] == sched;
    } else {
      var t := Mover(p, s);
      WorkStep(p, s, t);
      var next := sched + [t];
      assert next[..|sched|] == sched;
      WorkLeft(p, Run(p, next));
      var rest := CanFinish(p, next);
      tail := [t] + rest;
      assert sched + tail == next + rest;
    }
  }

  /** A thread that has been counted but not yet given its data: thread 0, preempted after it has
      released the lock. `Fini` at this point follows a null pointer. */
  lemma CountedWithoutData(p: Program) returns (sched: Schedule)
    requires p != []
    ensures Legal(p, sched) && Run(p, sched).numThreads == 1 && Run(p, sched).tls[0] == None
  {
    hide Inv, Shaped, Tally, Sum;
    sched := [0, 0, 0, 0];
    var s := Initial(|p|);
    assert sched[..3] == [0, 0, 0] && [0, 0, 0][..2] == [0, 0] && [0, 0][..1] == [0] && [0][..0] == [];
    assert Run(p, []) == s;
    assert Run(p, [0]) == s.(lock := Some(0), pcs := s.pcs[0 := Locked]);
    assert Run(p, [0, 0]).pcs[0] == Loaded(0) && Run(p, [0, 0]).tls == s.tls;
    assert Run(p, [0, 0, 0]).pcs[0] == Stored && Run(p, [0, 0, 0]).numThreads == 1;
    assert Run(p, sched).pcs[0] == Released;
  }

  // ---------------------------------------------------------------- the single-thread tools

  /** inscount0: one increment before every instruction. */
  method CountInstructions(run: seq<Event>) returns (icount: int)
    ensures icount == |Flatten(run)|
  {
    icount := 0;
    for i := 0 to |run|
      invariant icount == |Flatten(run[..i])|
    {
      assert run[..i + 1][..i] == run[..i];
      for j := 0 to run[i].size
        invariant icount == |Flatten(run[..i])| + j
      {
        icount := icount + 1;
      }
    }
    assert run[..|run|] == run;
  }

  /** inscount1 run by one thread: one addition before every block gives the same count. */
  method CountBlocks(run: seq<Event>) returns (icount: int)
    ensures icount == |Flatten(run)|
  {
    icount := 0;
    for i := 0 to |run|
      invariant icount == |Flatten(run[..i])|
    {
      assert run[..i + 1][..i] == run[..i];
      icount := icount + run[i].size;
    }
    assert run[..|run|] == run;
  }

  // ---------------------------------------------------------------- the thread-local tool, in place

  class InscountTls {
    const program: Program
    var lock: Option<nat>
    var numThreads: int
    var tls: seq<Option<int>>
    var pcs: seq<Pc>

    ghost predicate Valid()
      reads this
    {
      Inv(program, View())
    }

    ghost function View(): State
      reads this
    {
      State(lock, numThreads, tls, pcs)
    }

    constructor (program: Program)
      ensures Valid() && this.program == program && View() == Run(program, [])
    {
      this.program := program;
      lock, numThreads := None, 0;
      tls := seq(|program|, _ => None);
      pcs := seq(|program|, _ => Waiting);
      new;
      InitialInv(program);
    }

    /** One step of ThreadStart or docount by thread t. */
    method Advance(t: nat)
      requires Valid() && t < |program|
      modifies this
      ensures Valid() && Shaped(program, old(View())) && View() == Step(program, old(View()), t)
    {
      InvShaped(program, View());
      StepInv(program, View(), t);
      match pcs[t] {
        case Waiting =>
          if lock.None? {
            lock := Some(t);
            pcs := pcs[t := Locked];
          }
        case Locked =>
          pcs := pcs[t := Loaded(numThreads)];
        case Loaded(n) =>
          numThreads := n + 1;
          pcs := pcs[t := Stored];
        case Stored =>
          lock := None;
          pcs := pcs[t := Released];
        case Released =>
          tls := tls[t := Some(0)];
          pcs := pcs[t := Running(0)];
        case Running(k) =>
          if k < |program[t]| {
            pcs := pcs[t := Adding(k, tls[t].value)];
          }
        case Adding(k, reg) =>
          if k < |program[t]| {
            tls := tls[t := Some(reg + program[t][k])];
            pcs := pcs[t := Running(k + 1)];
          }
      }
    }

    /** Fini: the printed counts, or None when a counted thread has no data yet and
        the null pointer is followed. */
    method Fini() returns (r: Option<seq<int>>)
      requires Valid()
      ensures numThreads <= |tls|
      ensures r.None? <==> exists t :: 0 <= t < numThreads && tls[t].None?
      ensures r.Some? ==> |r.value| == numThreads &&
                          forall t :: 0 <= t < numThreads ==> tls[t] == Some(r.value[t])
    {
      TallyBounds(pcs);
      var counts := [];
      var t := 0;
      while t < numThreads
        invariant 0 <= t <= numThreads <= |tls|
        invariant |counts| == t
        invariant forall u :: 0 <= u < t ==> tls[u] == Some(counts[u])
      {
        if tls[t].None? {
          return None;
        }
        counts := counts + [tls[t].value];
        t := t + 1;
      }
      return Some(counts);
    }
  }

  lemma TallyBounds(pcs: seq<Pc>)
    ensures 0 <= Sum(Tally(pcs)) <= |pcs|
  {
    if pcs != [] {
      var n := |pcs| - 1;
      TallyBounds(pcs[..n]);
      assert Tally(pcs)[..n] == Tally(pcs[..n]);
    } else {
      SumZero(Tally(pcs));
    }
  }

  /** The tool driven by any schedule, and Fini at that moment: one count for every thread counted so
      far, or a failure exactly when one of them has no data yet. */
  method ReportAt(p: Program, sched: Schedule) returns (report: Option<seq<int>>)
    requires Legal(p, sched)
    ensures Run(p, sched).numThreads <= |p|
    ensures report.None? <==> exists t :: 0 <= t < Run(p, sched).numThreads && Run(p, sched).tls[t].None?
    ensures report.Some? ==>
              && |report.value| == Run(p, sched).numThreads
              && forall t :: 0 <= t < |report.value| ==> Run(p, sched).tls[t] == Some(report.value[t])
  {
    hide Inv, Step;
    var tool := new InscountTls(p);
    for i := 0 to |sched|
      invariant tool.Valid() && fresh(tool) && tool.program == p && tool.View() == Run(p, sched[..i])
    {
      assert sched[..i + 1][..i] == sched[..i];
      tool.Advance(sched[i]);
    }
    assert sched[..|sched|] == sched;
    assert tool.tls == Run(p, sched).tls && tool.numThreads == Run(p, sched).numThreads;
    RunSize(p, sched);
    report := tool.Fini();
  }

  lemma RunSize(p: Program, sched: Schedule)
    requires Legal(p, sched)
    ensures |Run(p, sched).tls| == |p|
  {
    hide Run;
  }

  /** When all threads have finished, it prints one count per thread, and each is the number of
      instructions the thread executed. */
  method Profile(p: Program, sched: Schedule) returns (report: Option<seq<int>>)
    requires Legal(p, sched) && Done(p, Run(p, sched))
    ensures report.Some? && |report.value| == |p|
    ensures forall t :: 0 <= t < |p| ==> report.value[t] == multiset(Flatten(Trace(p, sched)))[t]
    ensures Sum(report.value) == |Flatten(Trace(p, sched))|
  {
    hide Inv, Sum, Flatten, Trace, Step, Run, Done;
    TlsExact(p, sched);
    report := ReportAt(p, sched);
    assert report.value == seq(|p|, t requires 0 <= t < |p| => Sum(p[t]));
  }
}
