/** The shared counter of pin/inscount1.cpp under several threads: when `icount += c` is a load and a
    store, which interleavings count right. */
module SharedCounter {
  import opened Sums
  import opened InsCount

  /** In inscount1 a thread is before its k-th docount call, or in it with icount loaded. */
  datatype SharedPc = Before(k: nat) | Holding(k: nat, reg: int)

  datatype Shared = Shared(icount: int, pcs: seq<SharedPc>)

  function SharedStep(p: Program, s: Shared, t: nat): (s': Shared)
    requires t < |p| == |s.pcs|
    ensures |s'.pcs| == |p|
  {
    match s.pcs[t]
    case Before(k) => if k < |p[t]| then s.(pcs := s.pcs[t := Holding(k, s.icount)]) else s
    case Holding(k, reg) =>
      if k < |p[t]| then Shared(reg + p[t][k], s.pcs[t := Before(k + 1)]) else s
  }

  function SharedFrom(p: Program, s: Shared, sched: Schedule): (s': Shared)
    requires |s.pcs| == |p| && Legal(p, sched)
    ensures |s'.pcs| == |p|
  {
    if sched == [] then s
    else SharedStep(p, SharedFrom(p, s, sched[..|sched| - 1]), sched[|sched| - 1])
  }

  function SharedRun(p: Program, sched: Schedule): (s: Shared)
    requires Legal(p, sched)
    ensures |s.pcs| == |p|
  {
    SharedFrom(p, Shared(0, seq(|p|, _ => Before(0))), sched)
  }

  ghost predicate SharedDone(p: Program, s: Shared) {
    |s.pcs| == |p| && forall t :: 0 <= t < |p| ==> s.pcs[t] == Before(|p[t]|)
  }

  ghost predicate SharedShaped(p: Program, pcs: seq<SharedPc>) {
    |pcs| == |p| && forall t :: 0 <= t < |p| ==>
      pcs[t].k <= |p[t]| && (pcs[t].Holding? ==> pcs[t].k < |p[t]|)
  }

  /** Instructions of the blocks whose docount call is complete, thread by thread. */
  function Complete(p: Program, pcs: seq<SharedPc>): seq<int>
    requires SharedShaped(p, pcs)
  {
    seq(|p|, t requires 0 <= t < |p| => Sum(p[t][..pcs[t].k]))
  }

  /** The counter, and every stale copy of it, is at most what has been executed. */
  ghost predicate NotAbove(p: Program, s: Shared) {
    && SharedShaped(p, s.pcs)
    && s.icount <= Sum(Complete(p, s.pcs))
    && forall t :: 0 <= t < |p| && s.pcs[t].Holding? ==> s.pcs[t].reg <= Sum(Complete(p, s.pcs))
  }

  lemma CompleteStep(p: Program, s: Shared, t: nat)
    requires t < |p| && SharedShaped(p, s.pcs)
    ensures var s' := SharedStep(p, s, t);
            SharedShaped(p, s'.pcs) &&
            Sum(Complete(p, s'.pcs)) == Sum(Complete(p, s.pcs)) +
              if s.pcs[t].Holding? then p[t][s.pcs[t].k] else 0
  {
    hide Sum;
    var s' := SharedStep(p, s, t);
    var c := Complete(p, s.pcs);
    if s.pcs[t].Holding? {
      NextPrefix(p[t], s.pcs[t].k);
      assert Complete(p, s'.pcs) == c[t := c[t] + p[t][s.pcs[t].k]];
      SumUpdate(c, t, c[t] + p[t][s.pcs[t].k]);
    } else {
      assert Complete(p, s'.pcs) == c;
    }
  }

  lemma CompleteInitial(p: Program)
    ensures SharedShaped(p, seq(|p|, _ => Before(0)))
    ensures Sum(Complete(p, seq(|p|, _ => Before(0)))) == 0
  {
    var pcs := seq(|p|, _ => Before(0));
    assert forall t :: 0 <= t < |p| ==> Complete(p, pcs)[t] == Sum([]);
    SumZero(Complete(p, pcs));
  }

  lemma CompleteDone(p: Program, s: Shared)
    requires SharedDone(p, s)
    ensures SharedShaped(p, s.pcs) && Sum(Complete(p, s.pcs)) == Total(p)
  {
    forall t | 0 <= t < |p| ensures p[t][..s.pcs[t].k] == p[t] {}
    assert Complete(p, s.pcs) == seq(|p|, t requires 0 <= t < |p| => Sum(p[t]));
  }

  /** No interleaving makes the shared counter exceed the instructions counted so far. */
  lemma {:induction false} SharedNeverOver(p: Program, sched: Schedule)
    requires Legal(p, sched)
    ensures NotAbove(p, SharedRun(p, sched))
  {
    if sched == [] {
      CompleteInitial(p);
    } else {
      var before, t := sched[..|sched| - 1], sched[|sched| - 1];
      SharedNeverOver(p, before);
      hide Sum, Complete;
      CompleteStep(p, SharedRun(p, before), t);
    }
  }

  /** All blocks belong to one thread. */
  ghost predicate OneBusyThread(p: Program) {
    forall t, u :: 0 <= t < u < |p| ==> p[t] == [] || p[u] == []
  }

  ghost predicate Exact(p: Program, s: Shared) {
    && SharedShaped(p, s.pcs)
    && s.icount == Sum(Complete(p, s.pcs))
    && forall t :: 0 <= t < |p| && s.pcs[t].Holding? ==> s.pcs[t].reg == s.icount
  }

  lemma {:induction false} AloneIsExact(p: Program, sched: Schedule)
    requires Legal(p, sched) && OneBusyThread(p)
    ensures Exact(p, SharedRun(p, sched))
  {
    if sched == [] {
      CompleteInitial(p);
    } else {
      var before, t := sched[..|sched| - 1], sched[|sched| - 1];
      AloneIsExact(p, before);
      hide Sum, Complete;
      CompleteStep(p, SharedRun(p, before), t);
    }
  }

  lemma {:induction false} SharedCompose(p: Program, s: Shared, a: Schedule, b: Schedule)
    requires |s.pcs| == |p| && Legal(p, a) && Legal(p, b)
    ensures Legal(p, a + b)
    ensures SharedFrom(p, s, a + b) == SharedFrom(p, SharedFrom(p, s, a), b)
  {
    if b == [] {
      assert a + b == a;
    } else {
      SharedCompose(p, s, a, b[..|b| - 1]);
      assert (a + b)[..|a + b| - 1] == a + b[..|b| - 1];
    }
  }

  lemma TwoSteps(p: Program, s: Shared, t: nat, u: nat)
    requires t < |p| == |s.pcs| && u < |p|
    ensures Legal(p, [t, u])
    ensures SharedFrom(p, s, [t, u]) == SharedStep(p, SharedStep(p, s, t), u)
  {
    assert [t, u][..1] == [t] && [t][..0] == [];
    assert SharedFrom(p, s, [t]) == SharedStep(p, SharedFrom(p, s, []), t);
  }

  ghost predicate Idle(p: Program, s: Shared) {
    SharedShaped(p, s.pcs) && forall t :: 0 <= t < |p| ==> s.pcs[t].Before?
  }

  function Remaining(p: Program, pcs: seq<SharedPc>): seq<int>
    requires SharedShaped(p, pcs)
  {
    seq(|p|, t requires 0 <= t < |p| => |p[t]| - pcs[t].k)
  }

  lemma OneBlock(p: Program, s: Shared, t: nat) returns (s': Shared)
    requires t < |p| && Idle(p, s) && s.pcs[t].k < |p[t]|
    ensures Legal(p, [t, t]) && s' == SharedFrom(p, s, [t, t]) && Idle(p, s')
    ensures s'.icount - Sum(Complete(p, s'.pcs)) == s.icount - Sum(Complete(p, s.pcs))
    ensures 0 <= Sum(Remaining(p, s'.pcs)) == Sum(Remaining(p, s.pcs)) - 1
  {
    hide Sum, Complete, SharedFrom;
    var s1 := SharedStep(p, s, t);
    s' := SharedStep(p, s1, t);
    TwoSteps(p, s, t, t);
    CompleteStep(p, s, t);
    CompleteStep(p, s1, t);
    var r := Remaining(p, s.pcs);
    assert Remaining(p, s'.pcs) == r[t := r[t] - 1];
    SumUpdate(r, t, r[t] - 1);
    SumBound(Remaining(p, s'.pcs));
  }

  /** From a state in which nobody is inside docount, running the remaining blocks one after
      the other adds exactly their instructions. */
  lemma {:induction false} Finish(p: Program, s: Shared) returns (sched: Schedule)
    requires Idle(p, s)
    ensures Legal(p, sched)
    ensures SharedDone(p, SharedFrom(p, s, sched))
    ensures SharedFrom(p, s, sched).icount == s.icount + Total(p) - Sum(Complete(p, s.pcs))
    decreases Sum(Remaining(p, s.pcs))
  {
    hide Sum, Complete, Remaining, Total;
    if forall t :: 0 <= t < |p| ==> s.pcs[t].k == |p[t]| {
      sched := [];
      CompleteDone(p, s);
    } else {
      var t :| 0 <= t < |p| && s.pcs[t].k < |p[t]|;
      var s' := OneBlock(p, s, t);
      var tail := Finish(p, s');
      sched := [t, t] + tail;
      SharedCompose(p, s, [t, t], tail);
    }
  }

  /** Two threads that load the counter before either stores lose one of their blocks. */
  lemma LostUpdate(p: Program, t: nat, u: nat) returns (sched: Schedule)
    requires t < u < |p| && p[t] != [] && p[u] != []
    ensures Legal(p, sched)
    ensures SharedDone(p, SharedRun(p, sched))
    ensures SharedRun(p, sched).icount == Total(p) - p[t][0]
  {
    var s0 := Shared(0, seq(|p|, _ => Before(0)));
    hide Sum, Complete, SharedFrom;
    CompleteInitial(p);
    var s1 := SharedStep(p, s0, t);
    var s2 := SharedStep(p, s1, u);
    var s3 := SharedStep(p, s2, t);
    var s4 := SharedStep(p, s3, u);
    TwoSteps(p, s0, t, u);
    TwoSteps(p, s2, t, u);
    CompleteStep(p, s0, t);
    CompleteStep(p, s1, u);
    CompleteStep(p, s2, t);
    CompleteStep(p, s3, u);
    SharedCompose(p, s0, [t, u], [t, u]);
    var tail := Finish(p, s4);
    sched := ([t, u] + [t, u]) + tail;
    SharedCompose(p, s0, [t, u] + [t, u], tail);
    assert SharedRun(p, sched) == SharedFrom(p, s0, sched);
  }

  /** The block-level shared counter is right in every interleaving exactly when all blocks
      belong to one thread (blocks are never empty). */
  lemma SharedExactExactly(p: Program)
    requires forall t, k :: 0 <= t < |p| && 0 <= k < |p[t]| ==> p[t][k] > 0
    ensures (forall sched :: Legal(p, sched) && SharedDone(p, SharedRun(p, sched)) ==>
               SharedRun(p, sched).icount == Total(p)) <==> OneBusyThread(p)
  {
    hide Sum, SharedRun;
    if OneBusyThread(p) {
      forall sched | Legal(p, sched) && SharedDone(p, SharedRun(p, sched))
        ensures SharedRun(p, sched).icount == Total(p)
      {
        AloneIsExact(p, sched);
        CompleteDone(p, SharedRun(p, sched));
      }
    } else {
      var t, u :| 0 <= t < u < |p| && p[t] != [] && p[u] != [];
      var sched := LostUpdate(p, t, u);
      assert p[t][0] > 0;
    }
  }
}
