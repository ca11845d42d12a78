/** The four profilers looking at one run: threads executing basic blocks. */
module Agreement {
  import opened Options
  import opened Sums
  import InsCount
  import IndexStrings
  import InsmixReport
  import Insmix
  import BlockTrace

  /** A thread executes a block: what the block tracer sees of it, and its instructions. */
  datatype Exec = Exec(thread: nat, bbl: BlockTrace.Bbl, body: IndexStrings.Block)

  type Run = seq<Exec>

  /** The tracer's instruction counts are numbers of instructions. */
  ghost predicate Consistent(run: Run) {
    forall i :: 0 <= i < |run| ==> run[i].thread < BlockTrace.MAX_THREADS && run[i].bbl.numIns == |run[i].body|
  }

  function Counted(run: Run): seq<InsCount.Event> {
    seq(|run|, i requires 0 <= i < |run| => InsCount.Event(run[i].thread, |run[i].body|))
  }

  function Traced(run: Run): seq<BlockTrace.Execution> {
    seq(|run|, i requires 0 <= i < |run| => BlockTrace.Execution(run[i].thread, run[i].bbl))
  }

  function Bodies(run: Run): seq<IndexStrings.Block> {
    seq(|run|, i requires 0 <= i < |run| => run[i].body)
  }

  lemma {:induction false} MixCounts(run: Run)
    ensures Insmix.InstructionsIn(Bodies(run)) == |InsCount.Flatten(Counted(run))|
  {
    if run != [] {
      var n := |run| - 1;
      MixCounts(run[..n]);
      assert Bodies(run)[..n] == Bodies(run[..n]);
      assert Counted(run)[..n] == Counted(run[..n]);
    }
  }

  lemma {:induction false} TraceCounts(run: Run, t: nat)
    requires forall i :: 0 <= i < |run| ==> run[i].bbl.numIns == |run[i].body|
    ensures BlockTrace.Instructions(Traced(run), t) == Sum(InsCount.Of(Counted(run), t))
  {
    hide Sum;
    if run == [] {
      SumZero([]);
    } else {
      var n := |run| - 1;
      TraceCounts(run[..n], t);
      assert Traced(run)[..n] == Traced(run[..n]);
      assert Counted(run)[..n] == Counted(run[..n]);
      InsCount.AddedShare(Counted(run), t);
    }
  }

  /** The events the block tracer gets execute the blocks of the run, and code is not changed. */
  ghost predicate Traces(events: seq<BlockTrace.Event>, run: Run) {
    && BlockTrace.LegalRun(events) && BlockTrace.Unmodified(BlockTrace.Sites(events))
    && BlockTrace.Executions(events) == Traced(run)
  }

  /** The dynamic instruction counts of the block tracer, by thread. */
  function Dynamics(events: seq<BlockTrace.Event>): seq<int> {
    seq(BlockTrace.MAX_THREADS, t requires 0 <= t < BlockTrace.MAX_THREADS => BlockTrace.Dynamic(events, t))
  }

  /** One run, four tools. Instruction by instruction counting, the *total of the instruction mix,
      and the block tracer's summaries agree, in total and thread by thread, for all sequences of
      instrumentation, control, execution and thread events that count just the blocks of the run. */
  lemma ToolsAgree(run: Run, mixed: seq<Insmix.Event>, traced: seq<BlockTrace.Event>)
    requires Consistent(run) && Traces(traced, run)
    requires Insmix.LegalRun(mixed) && Insmix.Executed(mixed) == Bodies(run)
    ensures var icount := |InsCount.Flatten(Counted(run))|;
            && InsmixReport.Report(Insmix.Run(mixed).records)[IndexStrings.INDEX_TOTAL] == icount
            && Sum(Dynamics(traced)) == icount
    ensures forall t :: 0 <= t < BlockTrace.MAX_THREADS ==>
              BlockTrace.Dynamic(traced, t) == multiset(InsCount.Flatten(Counted(run)))[t]
    ensures forall t, c :: (t, c) in BlockTrace.Prints(traced) ==> c == multiset(InsCount.Flatten(Counted(run)))[t]
  {
    hide Sum, InsCount.Of, InsCount.Flatten, BlockTrace.Dynamic, BlockTrace.Instructions, BlockTrace.Unmodified,
      BlockTrace.Prints, BlockTrace.LegalRun, InsmixReport.Report, Insmix.InstructionsIn, Insmix.Executed, Insmix.Run;
    Insmix.RunTotal(mixed);
    MixCounts(run);
    forall t: nat
      ensures BlockTrace.Dynamic(traced, t) == Sum(InsCount.Of(Counted(run), t))
      ensures BlockTrace.Dynamic(traced, t) == multiset(InsCount.Flatten(Counted(run)))[t]
    {
      ThreadCounts(run, traced, t);
    }
    forall t, c | (t, c) in BlockTrace.Prints(traced)
      ensures c == multiset(InsCount.Flatten(Counted(run)))[t]
    {
      BlockTrace.PrintsAreInstructions(traced, t, c);
      BlockTrace.DynamicIsInstructions(traced, t);
    }
    InsCount.FlattenTotal(Counted(run), BlockTrace.MAX_THREADS);
    assert Dynamics(traced) == InsCount.Shares(Counted(run), BlockTrace.MAX_THREADS);
  }

  lemma ThreadCounts(run: Run, traced: seq<BlockTrace.Event>, t: nat)
    requires Consistent(run) && Traces(traced, run)
    ensures BlockTrace.Dynamic(traced, t) == Sum(InsCount.Of(Counted(run), t))
    ensures BlockTrace.Dynamic(traced, t) == multiset(InsCount.Flatten(Counted(run)))[t]
  {
    hide Sum, InsCount.Of, InsCount.Flatten, BlockTrace.Dynamic, BlockTrace.Instructions, BlockTrace.Unmodified;
    TraceCounts(run, t);
    BlockTrace.DynamicIsInstructions(traced, t);
    InsCount.FlattenCounts(Counted(run), t);
  }

  /** The thread-local counters too: in every interleaving of their steps that ends, and enters the
      blocks in the order of the run, each thread prints what the block tracer prints for it. */
  lemma ThreadLocalAgrees(run: Run, traced: seq<BlockTrace.Event>, p: InsCount.Program, sched: InsCount.Schedule, t: nat)
    requires Consistent(run) && Traces(traced, run) && t < |p|
    requires InsCount.Legal(p, sched) && InsCount.Done(p, InsCount.Run(p, sched))
    requires InsCount.Trace(p, sched) == Counted(run)
    ensures InsCount.Run(p, sched).tls[t] == Some(BlockTrace.Dynamic(traced, t))
  {
    hide InsCount.Run, InsCount.Of, InsCount.Flatten, BlockTrace.Dynamic, Traces;
    InsCount.TlsExact(p, sched);
    ThreadCounts(run, traced, t);
  }
}
