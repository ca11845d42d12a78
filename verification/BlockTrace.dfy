/** The block tracer pin/bbtrace.cpp: find-or-create block lookup, per-thread counts,
    the log of executed block ids, and the summary printed when a thread ends. */
module BlockTrace {
  import opened Options
  import opened BlockKeys

  const MAX_THREADS := 8

  /** A basic block as Pin presents it. */
  datatype Bbl = Bbl(head: nat, tail: nat, size: nat, numIns: nat)

  function KeyOf(b: Bbl): Key {
    Key(b.head, b.tail, b.size)
  }

  /** Instruction addresses inside a block ascend, and no block spans the whole address space. */
  predicate Legal(b: Bbl) {
    b.head <= b.tail < WORD && b.tail - b.head < WORD - 1
  }

  /** The only block whose key is a point would span the whole address space. */
  lemma PointKeyExactly(b: Bbl)
    requires b.head <= b.tail < WORD
    ensures IsPoint(KeyOf(b)) <==> b.tail - b.head == WORD - 1
  {
    var d := b.head - b.tail;
    assert d % WORD == if d == 0 then 0 else d + WORD;
  }

  lemma LegalIsNoPoint(b: Bbl)
    requires Legal(b)
    ensures !IsPoint(KeyOf(b))
  {
    PointKeyExactly(b);
  }

  // ---------------------------------------------------------------- counting a log

  /** A block of the summary: id, static instruction count, and address range with size. */
  datatype Rec = Rec(id: nat, ins: nat, key: Key)

  /** A line of the summary: the block, and how often the thread executed it. */
  datatype Line = Line(block: Rec, count: nat)

  ghost predicate DistinctIds(recs: seq<Rec>) {
    forall i, j :: 0 <= i < j < |recs| ==> recs[i].id != recs[j].id
  }

  /** Static count of the block with this id. */
  function InsOf(recs: seq<Rec>, id: nat): nat {
    if recs == [] then 0
    else if recs[|recs| - 1].id == id then recs[|recs| - 1].ins
    else InsOf(recs[..|recs| - 1], id)
  }

  /** The instructions of a log: the static sizes of the blocks it names, entry by entry. */
  function LogSum(recs: seq<Rec>, log: seq<nat>): nat {
    if log == [] then 0 else LogSum(recs, log[..|log| - 1]) + InsOf(recs, log[|log| - 1])
  }

  /** The summary: over all blocks, times logged times static count. */
  function Summary(recs: seq<Rec>, log: seq<nat>): nat {
    if recs == [] then 0
    else Summary(recs[..|recs| - 1], log) + Times(log, recs[|recs| - 1].id) * recs[|recs| - 1].ins
  }

  lemma {:induction false} SummaryStep(recs: seq<Rec>, log: seq<nat>, id: nat)
    requires DistinctIds(recs)
    ensures Summary(recs, log + [id]) == Summary(recs, log) + InsOf(recs, id)
  {
    if recs != [] {
      var r := recs[|recs| - 1];
      SummaryStep(recs[..|recs| - 1], log, id);
      assert multiset(log + [id])[r.id] == multiset(log)[r.id] + if id == r.id then 1 else 0;
      MultiplyStep(multiset(log)[r.id], if id == r.id then 1 else 0, r.ins);
      if r.id == id {
        OtherIds(recs[..|recs| - 1], id);
      }
    }
  }

  lemma MultiplyStep(m: nat, d: nat, x: nat)
    requires d <= 1
    ensures (m + d) * x == m * x + if d == 1 then x else 0
  {
  }

  lemma {:induction false} OtherIds(recs: seq<Rec>, id: nat)
    requires forall i :: 0 <= i < |recs| ==> recs[i].id != id
    ensures InsOf(recs, id) == 0
  {
    if recs != [] {
      OtherIds(recs[..|recs| - 1], id);
    }
  }

  lemma {:induction false} SummaryOfNothing(recs: seq<Rec>)
    ensures Summary(recs, []) == 0
  {
    if recs != [] {
      SummaryOfNothing(recs[..|recs| - 1]);
    }
  }

  /** Summing over blocks and summing over the log agree. */
  lemma {:induction false} SummaryIsLogSum(recs: seq<Rec>, log: seq<nat>)
    requires DistinctIds(recs)
    ensures Summary(recs, log) == LogSum(recs, log)
  {
    if log == [] {
      SummaryOfNothing(recs);
    } else {
      SummaryIsLogSum(recs, log[..|log| - 1]);
      SummaryStep(recs, log[..|log| - 1], log[|log| - 1]);
      assert log[..|log| - 1] + [log[|log| - 1]] == log;
    }
  }

  // ---------------------------------------------------------------- the tool

  class Block {
    const staticInstructionCount: nat
    const id: nat
    const key: Key
    const globalBlockCount: array<nat>

    constructor (key: Key, instructionCount: nat, id: nat)
      ensures this.key == key && this.staticInstructionCount == instructionCount && this.id == id
      ensures fresh(globalBlockCount) && globalBlockCount.Length == MAX_THREADS
      ensures forall t :: 0 <= t < MAX_THREADS ==> globalBlockCount[t] == 0
    {
      this.key, this.staticInstructionCount, this.id := key, instructionCount, id;
      globalBlockCount := new nat[MAX_THREADS](_ => 0);
    }

    ghost function View(): Rec {
      Rec(id, staticInstructionCount, key)
    }

    /** BLOCK::Execute */
    method Execute(tid: nat)
      requires tid < globalBlockCount.Length
      modifies globalBlockCount
      ensures forall t :: 0 <= t < globalBlockCount.Length ==>
                globalBlockCount[t] == old(globalBlockCount[t]) + if t == tid then 1 else 0
    {
      globalBlockCount[tid] := globalBlockCount[tid] + 1;
    }

    /** BLOCK::EmitProgramEnd: blocks the thread never executed are passed over. */
    method EmitProgramEnd(p: Profile, tid: nat)
      requires tid < globalBlockCount.Length
      modifies p`globalInstructionCount, p`summary
      ensures p.globalInstructionCount ==
              old(p.globalInstructionCount) + globalBlockCount[tid] * staticInstructionCount
      ensures p.summary ==
              old(p.summary) + if globalBlockCount[tid] == 0 then [] else [Line(View(), globalBlockCount[tid])]
    {
      if globalBlockCount[tid] == 0 {
        return;
      }
      p.globalInstructionCount := p.globalInstructionCount + globalBlockCount[tid] * staticInstructionCount;
      p.summary := p.summary + [Line(Rec(id, staticInstructionCount, key), globalBlockCount[tid])];
    }
  }

  class Profile {
    var log: seq<nat>
    var summary: seq<Line>
    var globalInstructionCount: nat

    constructor ()
      ensures log == [] && summary == [] && globalInstructionCount == 0
    {
      log, summary, globalInstructionCount := [], [], 0;
    }
  }

  function Keys(blocks: seq<Block>): seq<Key> {
    seq(|blocks|, i requires 0 <= i < |blocks| => blocks[i].key)
  }

  ghost function Recs(blocks: seq<Block>): seq<Rec> {
    seq(|blocks|, i requires 0 <= i < |blocks| => blocks[i].View())
  }

  /** How often a log names an id. */
  function Times(log: seq<nat>, id: nat): nat {
    multiset(log)[id]
  }

  ghost predicate Below(log: seq<nat>, id: nat) {
    forall k :: 0 <= k < |log| ==> log[k] < id
  }

  lemma LogEntry(log: seq<nat>, id: nat, bound: nat)
    ensures forall x :: Times(log + [id], x) == Times(log, x) + if x == id then 1 else 0
    ensures Below(log, bound) && id < bound ==> Below(log + [id], bound)
  {
  }

  lemma NeverLogged(log: seq<nat>, id: nat)
    requires Below(log, id)
    ensures Times(log, id) == 0 && Below(log, id + 1)
  {
  }

  /** Keys in order, no two equivalent, different ids from 1 up to the number of blocks, and a column of counts for
      every thread that no two blocks share. */
  ghost predicate WellKept(blocks: seq<Block>, nextId: nat) {
    && (forall i :: 0 <= i < |blocks| ==>
          !IsPoint(blocks[i].key) && 0 < blocks[i].id < nextId && blocks[i].globalBlockCount.Length == MAX_THREADS)
    && nextId == |blocks| + 1
    && Sorted(Keys(blocks))
    && DistinctIds(Recs(blocks))
    && (forall i, j :: 0 <= i < j < |blocks| ==> blocks[i].globalBlockCount != blocks[j].globalBlockCount)
  }

  lemma KeptApart(blocks: seq<Block>, nextId: nat, k: nat)
    requires WellKept(blocks, nextId) && k < |blocks|
    ensures blocks[k].id < nextId
    ensures forall i :: 0 <= i < |blocks| ==> blocks[i].globalBlockCount.Length == MAX_THREADS
    ensures forall i :: 0 <= i < |blocks| && i != k ==>
              blocks[i].id != blocks[k].id && blocks[i].globalBlockCount != blocks[k].globalBlockCount
  {
    hide Sorted, IsPoint, Keys;
    forall i | 0 <= i < |blocks| && i != k ensures blocks[i].id != blocks[k].id {
      assert Recs(blocks)[i].id != Recs(blocks)[k].id;
    }
  }

  /** A new block goes where ordered search puts its key. */
  lemma KeptInserted(blocks: seq<Block>, b: Block, i: nat, nextId: nat)
    requires WellKept(blocks, nextId) && i <= |blocks| && !IsPoint(b.key)
    requires b.id == nextId && b.globalBlockCount.Length == MAX_THREADS
    requires forall k :: 0 <= k < |blocks| ==> blocks[k].globalBlockCount != b.globalBlockCount
    requires forall k :: 0 <= k < |blocks| ==> !Equivalent(blocks[k].key, b.key)
    requires forall k :: 0 <= k < i ==> Less(blocks[k].key, b.key)
    requires forall k :: i <= k < |blocks| ==> !Less(blocks[k].key, b.key)
    ensures WellKept(blocks[..i] + [b] + blocks[i..], nextId + 1)
  {
    hide Less, Equivalent, IsPoint;
    var all := blocks[..i] + [b] + blocks[i..];
    Inserted(Keys(blocks), b.key, i);
    InsertedIds(blocks, b, i);
    assert Keys(all) == Keys(blocks)[..i] + [b.key] + Keys(blocks)[i..];
    hide Sorted, DistinctIds, Keys, Recs;
    forall k | 0 <= k < |all|
      ensures all[k] == if k < i then blocks[k] else if k == i then b else blocks[k - 1]
    {
    }
  }

  /** A block's column of counts: how often each thread's log names it. */
  ghost predicate Tallied(b: Block, ps: seq<Profile>)
    reads b.globalBlockCount, ps
  {
    b.globalBlockCount.Length == |ps| &&
    forall t :: 0 <= t < |ps| ==> b.globalBlockCount[t] == Times(ps[t].log, b.id)
  }

  class BbTrace {
    /** block_map, in key order; every block carries its key. */
    var blockMap: seq<Block>
    var currentId: nat
    const profiles: seq<Profile>

    /** One block per (start, end), unique ids, and in every thread's column of counts, how often that
        thread logged the block. */
    ghost predicate Valid()
      reads this, profiles, set b: Block | b in blockMap :: b.globalBlockCount
    {
      && |profiles| == MAX_THREADS
      && (forall t, u :: 0 <= t < u < MAX_THREADS ==> profiles[t] != profiles[u])
      && WellKept(blockMap, currentId)
      && (forall i :: 0 <= i < |blockMap| ==> Tallied(blockMap[i], profiles))
      && (forall t :: 0 <= t < MAX_THREADS ==> Below(profiles[t].log, currentId))
    }

    constructor ()
      ensures Valid() && blockMap == []
      ensures forall t :: 0 <= t < MAX_THREADS ==>
                && fresh(profiles[t]) && profiles[t].log == [] && profiles[t].summary == []
                && profiles[t].globalInstructionCount == 0
    {
      blockMap, currentId := [], 1;
      var ps: seq<Profile> := [];
      for t := 0 to MAX_THREADS
        invariant |ps| == t
        invariant forall i :: 0 <= i < t ==>
                    fresh(ps[i]) && ps[i].log == [] && ps[i].summary == [] && ps[i].globalInstructionCount == 0
        invariant forall i, j :: 0 <= i < j < t ==> ps[i] != ps[j]
      {
        var p := new Profile();
        ps := ps + [p];
      }
      profiles := ps;
    }

    /** The new-block branch of LookupBlock. */
    method AddBlock(bbl: Bbl) returns (b: Block, ghost i: nat)
      requires Valid() && Legal(bbl)
      requires forall k :: 0 <= k < |blockMap| ==> !Equivalent(blockMap[k].key, KeyOf(bbl))
      modifies this`blockMap, this`currentId
      ensures Valid()
      ensures fresh(b) && fresh(b.globalBlockCount)
      ensures b.key == KeyOf(bbl) && b.staticInstructionCount == bbl.numIns && b.id == old(currentId)
      ensures currentId == b.id + 1
      ensures i <= |old(blockMap)| && blockMap == old(blockMap)[..i] + [b] + old(blockMap)[i..]
    {
      var key := KeyOf(bbl);
      LegalIsNoPoint(bbl);
      var keys := Keys(blockMap);
      BlockKeyPartitions(keys, key);
      hide Less, Equivalent, IsPoint, Sorted, DistinctIds, Recs;
      b := new Block(key, bbl.numIns, currentId);
      var at := LowerBound(keys, key);
      i := at;
      assert forall k :: 0 <= k < |blockMap| ==> keys[k] == blockMap[k].key;
      KeptInserted(blockMap, b, at, currentId);
      hide WellKept, Keys, Times, Below, KeyOf;
      forall t | 0 <= t < MAX_THREADS ensures Times(profiles[t].log, b.id) == 0 && Below(profiles[t].log, b.id + 1) {
        NeverLogged(profiles[t].log, b.id);
      }
      var all := blockMap[..at] + [b] + blockMap[at..];
      forall k | 0 <= k < |all| ensures Tallied(all[k], profiles) {
        if k != at {
          assert old(Tallied(all[k], profiles));
        }
      }
      hide Tallied;
      blockMap, currentId := all, currentId + 1;
    }

    /** LookupBlock: the block with the key's address range, created on first sight. */
    method LookupBlock(bbl: Bbl) returns (b: Block, ghost at: Option<nat>)
      requires Valid() && Legal(bbl)
      modifies this`blockMap, this`currentId
      ensures Valid() && b in blockMap
      ensures b.key.start == bbl.head && b.key.end == bbl.tail
      ensures at.None? <==> exists k :: 0 <= k < |old(blockMap)| && Equivalent(old(blockMap)[k].key, KeyOf(bbl))
      ensures at.None? ==> blockMap == old(blockMap) && currentId == old(currentId)
      ensures at.Some? ==>
                && fresh(b) && fresh(b.globalBlockCount)
                && b.key == KeyOf(bbl) && b.staticInstructionCount == bbl.numIns
                && b.id == old(currentId) && currentId == b.id + 1
                && at.value <= |old(blockMap)|
                && blockMap == old(blockMap)[..at.value] + [b] + old(blockMap)[at.value..]
    {
      var key := KeyOf(bbl);
      LegalIsNoPoint(bbl);
      var keys := Keys(blockMap);
      BlockKeyPartitions(keys, key);
      var found := Find(keys, key);
      if found.Some? {
        b := blockMap[found.value];
        at := None;
        BlockKeysAreOrdered(b.key, key, key);
      } else {
        assert forall k :: 0 <= k < |blockMap| ==> blockMap[k].key == keys[k];
        ghost var i;
        b, i := AddBlock(bbl);
        at := Some(i);
      }
    }

    /** CountBlock */
    method CountBlock(block: Block, tid: nat)
      requires Valid() && block in blockMap && tid < MAX_THREADS
      modifies block.globalBlockCount, profiles[tid]
      ensures Valid()
      ensures profiles[tid].log == old(profiles[tid].log) + [block.id]
      ensures profiles[tid].globalInstructionCount == old(profiles[tid].globalInstructionCount)
      ensures profiles[tid].summary == old(profiles[tid].summary)
    {
      ghost var k :| 0 <= k < |blockMap| && blockMap[k] == block;
      hide WellKept, Times, Below, IsPoint, Less, Sorted, Keys, DistinctIds, Recs;
      KeptApart(blockMap, currentId, k);
      LogEntry(profiles[tid].log, block.id, currentId);
      block.Execute(tid);
      profiles[tid].log := profiles[tid].log + [block.id];
      forall i | 0 <= i < |blockMap| ensures Tallied(blockMap[i], profiles) {
        assert old(Tallied(blockMap[i], profiles));
        assert i != k ==> blockMap[i].globalBlockCount != block.globalBlockCount && blockMap[i].id != block.id;
      }
    }

    /** ThreadFini: the summary lines and the dynamic instruction count of one thread. The count
        starts from what an earlier call may have left there. */
    method ThreadFini(tid: nat) returns (printed: nat)
      requires Valid() && tid < MAX_THREADS
      modifies profiles[tid]
      ensures Valid() && profiles[tid].log == old(profiles[tid].log)
      ensures printed == old(profiles[tid].globalInstructionCount) + LogSum(Recs(blockMap), profiles[tid].log)
      ensures profiles[tid].summary ==
              old(profiles[tid].summary) + SummaryLines(Recs(blockMap), profiles[tid].log)
      ensures printed == old(profiles[tid].globalInstructionCount) + LineSum(SummaryLines(Recs(blockMap), profiles[tid].log))
      ensures profiles[tid].globalInstructionCount == printed
    {
      var p: Profile := profiles[tid];
      EmitBlocks(blockMap, p, tid);
      SummaryIsLogSum(Recs(blockMap), p.log);
      LinesAddUp(Recs(blockMap), p.log);
      hide LineSum, WellKept, Summary, SummaryLines, LogSum, Recs;
      assert Valid();
      printed := p.globalInstructionCount;
    }
  }

  /** The block's count for this thread is how often the log names it. */
  ghost predicate Counts(b: Block, tid: nat, log: seq<nat>)
    reads b.globalBlockCount
  {
    tid < b.globalBlockCount.Length && b.globalBlockCount[tid] == Times(log, b.id)
  }

  ghost function Amount(r: Rec, log: seq<nat>): nat {
    Times(log, r.id) * r.ins
  }

  ghost function LineOf(r: Rec, log: seq<nat>): seq<Line> {
    if Times(log, r.id) == 0 then [] else [Line(r, Times(log, r.id))]
  }

  method EmitOne(b: Block, p: Profile, tid: nat, ghost log: seq<nat>)
    requires Counts(b, tid, log)
    modifies p`globalInstructionCount, p`summary
    ensures p.globalInstructionCount == old(p.globalInstructionCount) + Amount(b.View(), log)
    ensures p.summary == old(p.summary) + LineOf(b.View(), log)
  {
    hide Times;
    b.EmitProgramEnd(p, tid);
  }

  /** The loop of EmitProgramEnd over all blocks. */
  method EmitBlocks(blocks: seq<Block>, p: Profile, tid: nat)
    requires forall i :: 0 <= i < |blocks| ==> Counts(blocks[i], tid, p.log)
    modifies p`globalInstructionCount, p`summary
    ensures p.globalInstructionCount == old(p.globalInstructionCount) + Summary(Recs(blocks), p.log)
    ensures p.summary == old(p.summary) + SummaryLines(Recs(blocks), p.log)
  {
    ghost var recs, log, before, lines := Recs(blocks), p.log, p.globalInstructionCount, p.summary;
    NoSummary(log);
    assert forall i :: 0 <= i < |blocks| ==> recs[i] == blocks[i].View();
    hide *;
    for i := 0 to |blocks|
      invariant forall k :: 0 <= k < |blocks| ==> Counts(blocks[k], tid, log)
      invariant p.globalInstructionCount == before + Summary(recs[..i], log)
      invariant p.summary == lines + SummaryLines(recs[..i], log)
      modifies p`globalInstructionCount, p`summary
    {
      SummaryPrefix(recs, i, log);
      EmitOne(blocks[i], p, tid, log);
    }
    assert recs[..|blocks|] == recs;
  }

  lemma NoSummary(log: seq<nat>)
    ensures Summary([], log) == 0 && SummaryLines([], log) == []
  {
  }

  lemma SummaryPrefix(recs: seq<Rec>, i: nat, log: seq<nat>)
    requires i < |recs|
    ensures Summary(recs[..i + 1], log) == Summary(recs[..i], log) + Amount(recs[i], log)
    ensures SummaryLines(recs[..i + 1], log) == SummaryLines(recs[..i], log) + LineOf(recs[i], log)
  {
    assert recs[..i + 1][..i] == recs[..i];
  }

  /** One line for every block the log names, with its number of entries. */
  function SummaryLines(recs: seq<Rec>, log: seq<nat>): seq<Line> {
    if recs == [] then []
    else
      var r := recs[|recs| - 1];
      SummaryLines(recs[..|recs| - 1], log) +
      (if Times(log, r.id) == 0 then [] else [Line(r, Times(log, r.id))])
  }

  /** A block has its one line, with the number of log entries that name it, exactly when there are any;
      the lines are in the order of the blocks. */
  lemma {:induction false} LinesExactly(recs: seq<Rec>, log: seq<nat>)
    ensures forall l :: l in SummaryLines(recs, log) <==>
              l.block in recs && l.count == multiset(log)[l.block.id] && l.count > 0
    ensures forall i, j :: 0 <= i < j < |SummaryLines(recs, log)| ==>
              InOrder(recs, SummaryLines(recs, log)[i].block, SummaryLines(recs, log)[j].block)
  {
    if recs != [] {
      var n, lines := |recs| - 1, SummaryLines(recs, log);
      LinesExactly(recs[..n], log);
      var before := SummaryLines(recs[..n], log);
      assert forall r :: r in recs <==> r in recs[..n] || r == recs[n];
      forall i, j | 0 <= i < j < |lines| ensures InOrder(recs, lines[i].block, lines[j].block) {
        if j < |before| {
          assert InOrder(recs[..n], before[i].block, before[j].block);
          var a, b :| 0 <= a < b < n && recs[..n][a] == before[i].block && recs[..n][b] == before[j].block;
          assert recs[a] == lines[i].block && recs[b] == lines[j].block;
        } else {
          assert before[i] in before && before[i].block in recs[..n];
          var a :| 0 <= a < n && recs[a] == lines[i].block;
          assert recs[n] == lines[j].block;
        }
      }
    }
  }

  ghost predicate InOrder(recs: seq<Rec>, r: Rec, s: Rec) {
    exists a, b :: 0 <= a < b < |recs| && recs[a] == r && recs[b] == s
  }

  /** What the lines say was executed. */
  function LineSum(lines: seq<Line>): nat {
    if lines == [] then 0
    else LineSum(lines[..|lines| - 1]) + lines[|lines| - 1].count * lines[|lines| - 1].block.ins
  }

  /** The lines account for the whole log, instruction for instruction. */
  lemma {:induction false} LinesAddUp(recs: seq<Rec>, log: seq<nat>)
    requires DistinctIds(recs)
    ensures LineSum(SummaryLines(recs, log)) == LogSum(recs, log)
  {
    SummaryIsLogSum(recs, log);
    LinesAreSummary(recs, log);
  }

  lemma {:induction false} LinesAreSummary(recs: seq<Rec>, log: seq<nat>)
    ensures LineSum(SummaryLines(recs, log)) == Summary(recs, log)
  {
    if recs != [] {
      LinesAreSummary(recs[..|recs| - 1], log);
      var before, r := SummaryLines(recs[..|recs| - 1], log), recs[|recs| - 1];
      if Times(log, r.id) == 0 {
        assert SummaryLines(recs, log) == before;
      } else {
        assert SummaryLines(recs, log)[..|before|] == before;
      }
    }
  }

  lemma InsertedIds(blocks: seq<Block>, b: Block, i: nat)
    requires i <= |blocks| && DistinctIds(Recs(blocks))
    requires forall k :: 0 <= k < |blocks| ==> blocks[k].id < b.id
    ensures DistinctIds(Recs(blocks[..i] + [b] + blocks[i..]))
  {
    assert Recs(blocks[..i] + [b] + blocks[i..]) == Recs(blocks)[..i] + [b.View()] + Recs(blocks)[i..];
  }

  lemma Inserted(keys: seq<Key>, key: Key, i: nat)
    requires Sorted(keys) && i <= |keys| && !IsPoint(key)
    requires forall j :: 0 <= j < |keys| ==> !IsPoint(keys[j]) && !Equivalent(keys[j], key)
    requires forall j :: 0 <= j < i ==> Less(keys[j], key)
    requires forall j :: i <= j < |keys| ==> !Less(keys[j], key)
    ensures Sorted(keys[..i] + [key] + keys[i..])
  {
  }

  // ---------------------------------------------------------------- whole runs

  /** What Pin calls the tool for: a block of a new trace, the execution of a block by a thread,
      through the call inserted when the block was instrumented as the site-th one, and the end of a
      thread. */
  datatype Event =
    | Instrument(bbl: Bbl)
    | Execute(tid: nat, site: nat)
    | ThreadEnd(tid: nat)

  datatype Execution = Execution(tid: nat, bbl: Bbl)

  /** Blocks instrumented by the events, in order. */
  function Sites(run: seq<Event>): seq<Bbl> {
    if run == [] then []
    else
      var e := run[|run| - 1];
      Sites(run[..|run| - 1]) + (if e.Instrument? then [e.bbl] else [])
  }

  predicate Ended(run: seq<Event>, t: nat) {
    ThreadEnd(t) in run
  }

  /** Only instrumented blocks are executed, and only by threads that have not ended. */
  predicate LegalEvent(before: seq<Event>, e: Event) {
    match e
    case Instrument(bbl) => Legal(bbl)
    case Execute(tid, site) => tid < MAX_THREADS && site < |Sites(before)| && !Ended(before, tid)
    case ThreadEnd(tid) => tid < MAX_THREADS && !Ended(before, tid)
  }

  predicate LegalRun(run: seq<Event>) {
    run == [] || (LegalRun(run[..|run| - 1]) && LegalEvent(run[..|run| - 1], run[|run| - 1]))
  }

  /** The block executions of a run. */
  function Executions(run: seq<Event>): seq<Execution> {
    if run == [] then [] else Executions(run[..|run| - 1]) + Executed(run[..|run| - 1], run[|run| - 1])
  }

  function Executed(before: seq<Event>, e: Event): seq<Execution> {
    if e.Execute? && e.site < |Sites(before)| then [Execution(e.tid, Sites(before)[e.site])] else []
  }

  predicate HasRange(b: Bbl, head: nat, tail: nat) {
    b.head == head && b.tail == tail
  }

  predicate Seen(sites: seq<Bbl>, head: nat, tail: nat) {
    exists i :: 0 <= i < |sites| && HasRange(sites[i], head, tail)
  }

  /** Instruction count of the first instrumented block with this address range. */
  function FirstNumIns(sites: seq<Bbl>, head: nat, tail: nat): nat {
    if sites == [] then 0
    else
      var n := |sites| - 1;
      if Seen(sites[..n], head, tail) || !HasRange(sites[n], head, tail) then FirstNumIns(sites[..n], head, tail)
      else sites[n].numIns
  }

  /** What thread t's dynamic instruction count must be: each block execution counts with the size
      seen when its address range was first met. */
  function Dynamic(run: seq<Event>, t: nat): nat {
    if run == [] then 0
    else Dynamic(run[..|run| - 1], t) + Added(run[..|run| - 1], run[|run| - 1], t)
  }

  function Added(before: seq<Event>, e: Event, t: nat): nat {
    if e.Execute? && e.tid == t && e.site < |Sites(before)| then
      var b := Sites(before)[e.site];
      FirstNumIns(Sites(before), b.head, b.tail)
    else 0
  }

  /** What is printed: thread and dynamic instruction count, when the thread ends. */
  function Prints(run: seq<Event>): seq<(nat, nat)> {
    if run == [] then []
    else
      var before, e := run[..|run| - 1], run[|run| - 1];
      Prints(before) + if e.ThreadEnd? then [(e.tid, Dynamic(before, e.tid))] else []
  }

  /** Instructions thread t executed. */
  function Instructions(xs: seq<Execution>, t: nat): nat {
    if xs == [] then 0
    else
      var x := xs[|xs| - 1];
      Instructions(xs[..|xs| - 1], t) + if x.tid == t then x.bbl.numIns else 0
  }

  /** Code is not changed under the tool: equal address ranges hold equally many instructions. */
  ghost predicate Unmodified(sites: seq<Bbl>) {
    forall i, j :: 0 <= i < |sites| && 0 <= j < |sites| && HasRange(sites[i], sites[j].head, sites[j].tail) ==>
      sites[i].numIns == sites[j].numIns
  }

  lemma {:induction false} FirstIsOneOf(sites: seq<Bbl>, head: nat, tail: nat)
    requires Seen(sites, head, tail)
    ensures exists i :: 0 <= i < |sites| && HasRange(sites[i], head, tail) && sites[i].numIns == FirstNumIns(sites, head, tail)
  {
    var n := |sites| - 1;
    assert forall k :: 0 <= k < n ==> sites[..n][k] == sites[k];
    if Seen(sites[..n], head, tail) {
      FirstIsOneOf(sites[..n], head, tail);
    }
  }

  lemma UnmodifiedBefore(sites: seq<Bbl>, more: seq<Bbl>)
    requires Unmodified(sites + more)
    ensures Unmodified(sites)
  {
    var all := sites + more;
    assert forall k :: 0 <= k < |sites| ==> sites[k] == all[k];
  }

  lemma SameSize(sites: seq<Bbl>, k: nat)
    requires Unmodified(sites) && k < |sites|
    ensures FirstNumIns(sites, sites[k].head, sites[k].tail) == sites[k].numIns
  {
    hide FirstNumIns;
    assert HasRange(sites[k], sites[k].head, sites[k].tail);
    FirstIsOneOf(sites, sites[k].head, sites[k].tail);
  }

  lemma InstructionsAppend(xs: seq<Execution>, ys: seq<Execution>, t: nat)
    requires |ys| <= 1
    ensures Instructions(xs + ys, t) == Instructions(xs, t) + if ys != [] && ys[0].tid == t then ys[0].bbl.numIns else 0
  {
    if ys == [] {
      assert xs + ys == xs;
    } else {
      assert (xs + ys)[..|xs|] == xs;
    }
  }

  /** On unmodified code the count is the number of instructions executed. */
  lemma {:induction false} DynamicIsInstructions(run: seq<Event>, t: nat)
    requires Unmodified(Sites(run))
    ensures Dynamic(run, t) == Instructions(Executions(run), t)
  {
    hide Unmodified, FirstNumIns, Instructions;
    if run == [] {
      NoInstructions(t);
    } else {
      var before, e := run[..|run| - 1], run[|run| - 1];
      UnmodifiedBefore(Sites(before), if e.Instrument? then [e.bbl] else []);
      DynamicIsInstructions(before, t);
      InstructionsAppend(Executions(before), Executed(before, e), t);
      if e.Execute? && e.site < |Sites(before)| {
        SameSize(Sites(before), e.site);
      }
    }
  }

  lemma NoInstructions(t: nat)
    ensures Instructions([], t) == 0
  {
  }

  /** A block's size is that of the first instrumented one with its address range. */
  lemma {:induction false} FirstExactly(sites: seq<Bbl>, i: nat)
    requires i < |sites| && !Seen(sites[..i], sites[i].head, sites[i].tail)
    ensures FirstNumIns(sites, sites[i].head, sites[i].tail) == sites[i].numIns
  {
    var n, b := |sites| - 1, sites[i];
    if i < n {
      assert sites[..n][..i] == sites[..i];
      FirstExactly(sites[..n], i);
      assert HasRange(sites[..n][i], b.head, b.tail);
    }
  }

  /** Thread t's executions, each with the size of the first block of the whole run with its range. */
  function FirstSizes(xs: seq<Execution>, sites: seq<Bbl>, t: nat): nat {
    if xs == [] then 0
    else
      var x := xs[|xs| - 1];
      FirstSizes(xs[..|xs| - 1], sites, t) + if x.tid == t then FirstNumIns(sites, x.bbl.head, x.bbl.tail) else 0
  }

  ghost predicate AllSeen(xs: seq<Execution>, sites: seq<Bbl>) {
    forall i :: 0 <= i < |xs| ==> Seen(sites, xs[i].bbl.head, xs[i].bbl.tail)
  }

  lemma {:induction false} FirstSizesStay(xs: seq<Execution>, sites: seq<Bbl>, b: Bbl, t: nat)
    requires AllSeen(xs, sites)
    ensures FirstSizes(xs, sites + [b], t) == FirstSizes(xs, sites, t)
  {
    hide FirstNumIns, Seen;
    if xs != [] {
      var x := xs[|xs| - 1];
      FirstSizesStay(xs[..|xs| - 1], sites, b, t);
      FirstStays(sites, b, x.bbl.head, x.bbl.tail);
    }
  }

  lemma {:induction false} ExecutionsSeen(run: seq<Event>)
    ensures AllSeen(Executions(run), Sites(run))
  {
    hide Seen, Executed, FirstNumIns;
    if run != [] {
      var before, e := run[..|run| - 1], run[|run| - 1];
      ExecutionsSeen(before);
      ExecutedSeen(before, e);
      assert Sites(before) + [] == Sites(before);
      if e.Instrument? {
        forall head, tail | Seen(Sites(before), head, tail) ensures Seen(Sites(before) + [e.bbl], head, tail) {
          FirstStays(Sites(before), e.bbl, head, tail);
        }
      }
    }
  }

  lemma ExecutedSeen(before: seq<Event>, e: Event)
    ensures AllSeen(Executed(before, e), Sites(before)) && |Executed(before, e)| <= 1
    ensures e.Instrument? ==> Executed(before, e) == []
  {
    if e.Execute? && e.site < |Sites(before)| {
      var b := Sites(before)[e.site];
      assert HasRange(b, b.head, b.tail);
    }
  }

  lemma FirstSizesAppend(xs: seq<Execution>, ys: seq<Execution>, sites: seq<Bbl>, t: nat)
    requires |ys| <= 1
    ensures FirstSizes(xs + ys, sites, t) == FirstSizes(xs, sites, t) +
              if ys != [] && ys[0].tid == t then FirstNumIns(sites, ys[0].bbl.head, ys[0].bbl.tail) else 0
  {
    if ys == [] {
      assert xs + ys == xs;
    } else {
      assert (xs + ys)[..|xs|] == xs;
    }
  }

  /** A thread's count is made of its executions alone: each counts with the size first seen for its
      address range anywhere in the run. */
  lemma {:induction false} DynamicIsFirstSizes(run: seq<Event>, t: nat)
    ensures Dynamic(run, t) == FirstSizes(Executions(run), Sites(run), t)
  {
    hide FirstNumIns, FirstSizes;
    if run == [] {
      NoSizes(t);
    } else {
      var before, e := run[..|run| - 1], run[|run| - 1];
      DynamicIsFirstSizes(before, t);
      ExecutionsSeen(before);
      ExecutedSeen(before, e);
      FirstSizesAppend(Executions(before), Executed(before, e), Sites(run), t);
      assert Sites(before) + [] == Sites(before);
      if e.Instrument? {
        FirstSizesStay(Executions(before), Sites(before), e.bbl, t);
      }
    }
  }

  lemma NoSizes(t: nat)
    ensures FirstSizes([], [], t) == 0
  {
  }

  /** The end of thread t comes before that of thread u. */
  ghost predicate EndsBefore(run: seq<Event>, t: nat, u: nat) {
    exists a, b :: 0 <= a < b < |run| && run[a] == ThreadEnd(t) && run[b] == ThreadEnd(u)
  }

  lemma EndsBeforeStays(run: seq<Event>, t: nat, u: nat)
    requires run != [] && EndsBefore(run[..|run| - 1], t, u)
    ensures EndsBefore(run, t, u)
  {
    var before := run[..|run| - 1];
    var a, b :| 0 <= a < b < |before| && before[a] == ThreadEnd(t) && before[b] == ThreadEnd(u);
    assert run[a] == ThreadEnd(t) && run[b] == ThreadEnd(u);
  }

  lemma EndedExactly(run: seq<Event>, t: nat)
    requires run != []
    ensures Ended(run, t) <==> Ended(run[..|run| - 1], t) || run[|run| - 1] == ThreadEnd(t)
  {
    assert run == run[..|run| - 1] + [run[|run| - 1]];
  }

  ghost predicate Printed(ps: seq<(nat, nat)>, t: nat) {
    exists i :: 0 <= i < |ps| && ps[i].0 == t
  }

  /** Every thread that ends prints just one count, and nobody else prints any, in the order in which the
      threads end. */
  lemma {:induction false} PrintsOnce(run: seq<Event>)
    requires LegalRun(run)
    ensures forall t :: Ended(run, t) <==> Printed(Prints(run), t)
    ensures forall i, j :: 0 <= i < j < |Prints(run)| ==>
              Prints(run)[i].0 != Prints(run)[j].0 && EndsBefore(run, Prints(run)[i].0, Prints(run)[j].0)
  {
    hide Dynamic, Ended, EndsBefore, Printed;
    if run == [] {
      NoneEnded();
    } else {
      var before, e := run[..|run| - 1], run[|run| - 1];
      var ps, qs := Prints(before), Prints(run);
      PrintsOnce(before);
      forall t ensures Ended(run, t) <==> Printed(qs, t) {
        EndedExactly(run, t);
        PrintedMore(ps, qs[|ps|..], t);
        assert qs == ps + qs[|ps|..];
      }
      forall i, j | 0 <= i < j < |qs| ensures qs[i].0 != qs[j].0 && EndsBefore(run, qs[i].0, qs[j].0) {
        PrintedAt(ps, i);
        if j < |ps| {
          EndsBeforeStays(run, ps[i].0, ps[j].0);
        } else {
          LastEnds(run, ps[i].0);
        }
      }
    }
  }

  lemma PrintedAt(ps: seq<(nat, nat)>, i: nat)
    requires i < |ps|
    ensures Printed(ps, ps[i].0)
  {
  }

  /** What a thread prints is its count over the whole run. */
  lemma {:induction false} PrintedDynamic(run: seq<Event>)
    requires LegalRun(run)
    ensures forall i :: 0 <= i < |Prints(run)| ==> Prints(run)[i].1 == Dynamic(run, Prints(run)[i].0)
  {
    hide Dynamic, Ended, Printed, LegalEvent;
    if run != [] {
      var before, e := run[..|run| - 1], run[|run| - 1];
      PrintedDynamic(before);
      PrintsOnce(before);
      forall i | 0 <= i < |Prints(run)| ensures Prints(run)[i].1 == Dynamic(run, Prints(run)[i].0) {
        if i < |Prints(before)| {
          PrintedAt(Prints(before), i);
        }
        DynamicLast(run, Prints(run)[i].0);
      }
    }
  }

  lemma NoneEnded()
    ensures forall t :: !Ended([], t) && !Printed([], t)
  {
  }

  lemma PrintedMore(ps: seq<(nat, nat)>, more: seq<(nat, nat)>, t: nat)
    requires |more| <= 1
    ensures Printed(ps + more, t) <==> Printed(ps, t) || (more != [] && more[0].0 == t)
  {
    var all := ps + more;
    assert forall i :: 0 <= i < |ps| ==> all[i] == ps[i];
    assert more != [] ==> all[|ps|] == more[0];
  }

  lemma LastEnds(run: seq<Event>, t: nat)
    requires run != [] && Ended(run[..|run| - 1], t) && run[|run| - 1].ThreadEnd?
    ensures EndsBefore(run, t, run[|run| - 1].tid)
  {
    var n := |run| - 1;
    var a :| 0 <= a < n && run[..n][a] == ThreadEnd(t);
    assert run[a] == ThreadEnd(t) && run[n] == ThreadEnd(run[n].tid);
  }

  /** A thread that has ended, or that ends now, executes nothing any more. */
  lemma DynamicLast(run: seq<Event>, t: nat)
    requires LegalRun(run) && run != []
    ensures var before, e := run[..|run| - 1], run[|run| - 1];
            Ended(before, t) || e == ThreadEnd(t) ==> Dynamic(run, t) == Dynamic(before, t)
  {
    hide Ended;
  }

  lemma {:induction false} PrintedHasEnded(run: seq<Event>, t: nat, c: nat)
    requires (t, c) in Prints(run)
    ensures Ended(run, t)
  {
    hide Dynamic;
    var n := |run| - 1;
    if (t, c) in Prints(run[..n]) {
      PrintedHasEnded(run[..n], t, c);
      assert run == run[..n] + [run[n]];
    }
  }

  /** On unmodified code each thread prints the number of instructions it executes in the whole run. */
  lemma {:induction false} PrintsAreInstructions(run: seq<Event>, t: nat, c: nat)
    requires LegalRun(run) && Unmodified(Sites(run)) && (t, c) in Prints(run)
    ensures c == Instructions(Executions(run), t)
  {
    hide Unmodified, Instructions, Dynamic;
    var n := |run| - 1;
    var before, e := run[..n], run[n];
    UnmodifiedBefore(Sites(before), if e.Instrument? then [e.bbl] else []);
    InstructionsAppend(Executions(before), Executed(before, e), t);
    if (t, c) in Prints(before) {
      PrintsAreInstructions(before, t, c);
      PrintedHasEnded(before, t, c);
    } else {
      DynamicIsInstructions(before, t);
    }
  }

  // ---------------------------------------------------------------- the tool over a run

  ghost predicate InMap(blocks: seq<Block>, head: nat, tail: nat) {
    exists i :: 0 <= i < |blocks| && blocks[i].key.start == head && blocks[i].key.end == tail
  }

  /** Every block in the map has the size first seen for its range, and no range is missing. */
  ghost predicate Faithful(blocks: seq<Block>, sites: seq<Bbl>) {
    && (forall i :: 0 <= i < |blocks| ==>
          var k := blocks[i].key;
          Seen(sites, k.start, k.end) && blocks[i].staticInstructionCount == FirstNumIns(sites, k.start, k.end))
    && (forall head, tail :: Seen(sites, head, tail) ==> InMap(blocks, head, tail))
  }

  lemma FirstStays(sites: seq<Bbl>, b: Bbl, head: nat, tail: nat)
    ensures Seen(sites + [b], head, tail) <==> Seen(sites, head, tail) || HasRange(b, head, tail)
    ensures FirstNumIns(sites + [b], head, tail) ==
            if Seen(sites, head, tail) || !HasRange(b, head, tail) then FirstNumIns(sites, head, tail) else b.numIns
  {
    var all := sites + [b];
    assert all[..|sites|] == sites;
    assert forall k :: 0 <= k < |sites| ==> all[k] == sites[k];
    assert all[|sites|] == b;
  }

  lemma FaithfulKept(blocks: seq<Block>, sites: seq<Bbl>, b: Bbl)
    requires Faithful(blocks, sites) && Seen(sites, b.head, b.tail)
    ensures Faithful(blocks, sites + [b])
  {
    hide FirstNumIns, Seen;
    forall head, tail
      ensures Seen(sites + [b], head, tail) <==> Seen(sites, head, tail)
      ensures Seen(sites, head, tail) ==> FirstNumIns(sites + [b], head, tail) == FirstNumIns(sites, head, tail)
    {
      FirstStays(sites, b, head, tail);
    }
  }

  lemma FaithfulAdded(blocks: seq<Block>, block: Block, i: nat, sites: seq<Bbl>, b: Bbl)
    requires i <= |blocks| && Faithful(blocks, sites) && !Seen(sites, b.head, b.tail)
    requires block.key == KeyOf(b) && block.staticInstructionCount == b.numIns
    ensures Faithful(blocks[..i] + [block] + blocks[i..], sites + [b])
  {
    hide FirstNumIns, Seen;
    var all := blocks[..i] + [block] + blocks[i..];
    forall k | 0 <= k < |all|
      ensures Seen(sites + [b], all[k].key.start, all[k].key.end)
      ensures all[k].staticInstructionCount == FirstNumIns(sites + [b], all[k].key.start, all[k].key.end)
    {
      FirstStays(sites, b, all[k].key.start, all[k].key.end);
      assert k < i ==> all[k] == blocks[k];
      assert k > i ==> all[k] == blocks[k - 1];
    }
    forall head, tail | Seen(sites + [b], head, tail) ensures InMap(all, head, tail) {
      FirstStays(sites, b, head, tail);
      if Seen(sites, head, tail) {
        var k :| 0 <= k < |blocks| && blocks[k].key.start == head && blocks[k].key.end == tail;
        assert all[if k < i then k else k + 1] == blocks[k];
      } else {
        assert all[i] == block;
      }
    }
  }

  lemma {:induction false} InsOfMember(recs: seq<Rec>, i: nat)
    requires i < |recs| && DistinctIds(recs)
    ensures InsOf(recs, recs[i].id) == recs[i].ins
  {
    if i < |recs| - 1 {
      InsOfMember(recs[..|recs| - 1], i);
    }
  }

  lemma {:induction false} InsOfInserted(a: seq<Rec>, r: Rec, b: seq<Rec>, id: nat)
    requires id != r.id
    ensures InsOf(a + [r] + b, id) == InsOf(a + b, id)
  {
    if b == [] {
      assert (a + [r] + b)[..|a|] == a && a + b == a;
    } else {
      InsOfInserted(a, r, b[..|b| - 1], id);
      assert (a + [r] + b)[..|a| + |b|] == a + [r] + b[..|b| - 1];
      assert (a + b)[..|a| + |b| - 1] == a + b[..|b| - 1];
    }
  }

  lemma {:induction false} LogSumInserted(a: seq<Rec>, r: Rec, b: seq<Rec>, log: seq<nat>)
    requires forall k :: 0 <= k < |log| ==> log[k] != r.id
    ensures LogSum(a + [r] + b, log) == LogSum(a + b, log)
  {
    if log != [] {
      LogSumInserted(a, r, b, log[..|log| - 1]);
      InsOfInserted(a, r, b, log[|log| - 1]);
    }
  }

  lemma LogSumAppend(recs: seq<Rec>, log: seq<nat>, id: nat)
    ensures LogSum(recs, log + [id]) == LogSum(recs, log) + InsOf(recs, id)
  {
    assert (log + [id])[..|log|] == log;
  }

  lemma RecsInserted(blocks: seq<Block>, b: Block, i: nat)
    requires i <= |blocks|
    ensures Recs(blocks[..i] + [b] + blocks[i..]) == Recs(blocks)[..i] + [b.View()] + Recs(blocks)[i..]
    ensures Recs(blocks)[..i] + Recs(blocks)[i..] == Recs(blocks)
  {
  }

  lemma InsOfBlock(blocks: seq<Block>, b: Block)
    requires DistinctIds(Recs(blocks)) && b in blocks
    ensures InsOf(Recs(blocks), b.id) == b.staticInstructionCount
  {
    var i :| 0 <= i < |blocks| && blocks[i] == b;
    InsOfMember(Recs(blocks), i);
  }

  /** The map knows a block's range exactly when one with that range has been instrumented. */
  lemma KnownMeansSeen(blocks: seq<Block>, sites: seq<Bbl>, bbl: Bbl)
    requires Faithful(blocks, sites) && Legal(bbl) && forall k :: 0 <= k < |blocks| ==> !IsPoint(blocks[k].key)
    ensures (exists k :: 0 <= k < |blocks| && Equivalent(blocks[k].key, KeyOf(bbl))) <==>
            Seen(sites, bbl.head, bbl.tail)
  {
    hide FirstNumIns;
    LegalIsNoPoint(bbl);
    forall k | 0 <= k < |blocks|
      ensures Equivalent(blocks[k].key, KeyOf(bbl)) <==>
              blocks[k].key.start == bbl.head && blocks[k].key.end == bbl.tail
    {
      BlockKeysAreOrdered(blocks[k].key, KeyOf(bbl), KeyOf(bbl));
    }
    hide Equivalent, IsPoint, Less;
    if Seen(sites, bbl.head, bbl.tail) {
      assert InMap(blocks, bbl.head, bbl.tail);
    }
  }

  lemma FaithfulMember(blocks: seq<Block>, sites: seq<Bbl>, b: Block)
    requires Faithful(blocks, sites) && b in blocks
    ensures b.staticInstructionCount == FirstNumIns(sites, b.key.start, b.key.end)
  {
    var i :| 0 <= i < |blocks| && blocks[i] == b;
  }

  /** Thread t's executions, in order. */
  function ExecutionsOf(xs: seq<Execution>, t: nat): seq<Execution> {
    if xs == [] then []
    else ExecutionsOf(xs[..|xs| - 1], t) + if xs[|xs| - 1].tid == t then [xs[|xs| - 1]] else []
  }

  lemma ExecutionsOfAppend(xs: seq<Execution>, ys: seq<Execution>, t: nat)
    requires |ys| <= 1
    ensures ExecutionsOf(xs + ys, t) == ExecutionsOf(xs, t) + if ys != [] && ys[0].tid == t then ys else []
  {
    if ys == [] {
      assert xs + ys == xs && ExecutionsOf(xs, t) + [] == ExecutionsOf(xs, t);
    } else {
      assert (xs + ys)[..|xs|] == xs && ys == [ys[0]];
    }
  }

  /** This is the id of the block with that address range. */
  ghost predicate Names(recs: seq<Rec>, id: nat, x: Execution) {
    exists i :: 0 <= i < |recs| && recs[i].id == id && HasRange(x.bbl, recs[i].key.start, recs[i].key.end)
  }

  /** The log names, execution by execution, the block with the executed address range. */
  ghost predicate LogNames(recs: seq<Rec>, log: seq<nat>, xs: seq<Execution>) {
    |log| == |xs| && forall k :: 0 <= k < |xs| ==> Names(recs, log[k], xs[k])
  }

  lemma LogNamesInserted(a: seq<Rec>, r: Rec, b: seq<Rec>, log: seq<nat>, xs: seq<Execution>)
    requires LogNames(a + b, log, xs)
    ensures LogNames(a + [r] + b, log, xs)
  {
    var all, old_ := a + [r] + b, a + b;
    forall k | 0 <= k < |xs| ensures Names(all, log[k], xs[k]) {
      assert Names(old_, log[k], xs[k]);
      var i :| 0 <= i < |old_| && old_[i].id == log[k] && HasRange(xs[k].bbl, old_[i].key.start, old_[i].key.end);
      assert all[if i < |a| then i else i + 1] == old_[i];
    }
  }

  lemma LogNamesAppend(recs: seq<Rec>, log: seq<nat>, xs: seq<Execution>, id: nat, x: Execution)
    requires LogNames(recs, log, xs) && Names(recs, id, x)
    ensures LogNames(recs, log + [id], xs + [x])
  {
  }

  /** A block that is not in the log adds no line. */
  lemma {:induction false} LinesInserted(a: seq<Rec>, r: Rec, b: seq<Rec>, log: seq<nat>)
    requires Times(log, r.id) == 0
    ensures SummaryLines(a + [r] + b, log) == SummaryLines(a + b, log)
  {
    if b == [] {
      assert (a + [r] + b)[..|a|] == a && a + b == a;
    } else {
      LinesInserted(a, r, b[..|b| - 1], log);
      assert (a + [r] + b)[..|a| + |b|] == a + [r] + b[..|b| - 1];
      assert (a + b)[..|a| + |b| - 1] == a + b[..|b| - 1];
    }
  }

  /** A block was added that the log does not name, or none. */
  ghost predicate Extends(recs: seq<Rec>, recs': seq<Rec>, log: seq<nat>) {
    recs' == recs ||
    exists i: nat, r :: i <= |recs| && recs' == recs[..i] + [r] + recs[i..] && Times(log, r.id) == 0
  }

  /** What thread t's file has after the run: an id for each of its executions, in order, and, once the
      thread has ended, the summary of them. */
  ghost predicate Tracked(recs: seq<Rec>, log: seq<nat>, summary: seq<Line>, run: seq<Event>, t: nat) {
    && LogNames(recs, log, ExecutionsOf(Executions(run), t))
    && summary == if Ended(run, t) then SummaryLines(recs, log) else []
  }

  lemma ExecutionsStep(run: seq<Event>, e: Event, t: nat)
    ensures Executions(run + [e]) == Executions(run) + Executed(run, e)
    ensures ExecutionsOf(Executions(run + [e]), t) ==
            ExecutionsOf(Executions(run), t) + if e.Execute? && e.tid == t then Executed(run, e) else []
    ensures Ended(run + [e], t) <==> Ended(run, t) || e == ThreadEnd(t)
  {
    assert (run + [e])[..|run|] == run;
    ExecutionsOfAppend(Executions(run), Executed(run, e), t);
  }

  /** Events that are not about thread t leave its file as it is. */
  lemma TrackedOther(recs: seq<Rec>, log: seq<nat>, summary: seq<Line>, run: seq<Event>, e: Event, t: nat)
    requires Tracked(recs, log, summary, run, t) && (e.Execute? ==> e.tid != t) && e != ThreadEnd(t)
    ensures Tracked(recs, log, summary, run + [e], t)
  {
    hide ExecutionsOf, Executions, Ended, LogNames, SummaryLines;
    ExecutionsStep(run, e, t);
    assert ExecutionsOf(Executions(run), t) + [] == ExecutionsOf(Executions(run), t);
  }

  lemma TrackedExtends(recs: seq<Rec>, recs': seq<Rec>, log: seq<nat>, summary: seq<Line>, run: seq<Event>, t: nat)
    requires Tracked(recs, log, summary, run, t) && Extends(recs, recs', log)
    ensures Tracked(recs', log, summary, run, t)
  {
    hide ExecutionsOf, Executions, Ended, LogNames, SummaryLines, Times;
    if recs' != recs {
      var i: nat, r :| i <= |recs| && recs' == recs[..i] + [r] + recs[i..] && Times(log, r.id) == 0;
      assert recs == recs[..i] + recs[i..];
      LogNamesInserted(recs[..i], r, recs[i..], log, ExecutionsOf(Executions(run), t));
      LinesInserted(recs[..i], r, recs[i..], log);
    }
  }

  lemma TrackedExecute(recs: seq<Rec>, log: seq<nat>, summary: seq<Line>, run: seq<Event>, e: Event, id: nat)
    requires e.Execute? && LegalEvent(run, e) && Tracked(recs, log, summary, run, e.tid)
    requires Names(recs, id, Execution(e.tid, Sites(run)[e.site]))
    ensures Tracked(recs, log + [id], summary, run + [e], e.tid)
  {
    hide ExecutionsOf, Executions, Ended, LogNames, SummaryLines, Names;
    ExecutionsStep(run, e, e.tid);
    LogNamesAppend(recs, log, ExecutionsOf(Executions(run), e.tid), id, Execution(e.tid, Sites(run)[e.site]));
  }

  lemma TrackedEnd(recs: seq<Rec>, log: seq<nat>, summary: seq<Line>, run: seq<Event>, t: nat)
    requires LegalEvent(run, ThreadEnd(t)) && Tracked(recs, log, summary, run, t)
    ensures Tracked(recs, log, summary + SummaryLines(recs, log), run + [ThreadEnd(t)], t)
  {
    hide ExecutionsOf, Executions, Ended, LogNames, SummaryLines;
    ExecutionsStep(run, ThreadEnd(t), t);
    assert [] + SummaryLines(recs, log) == SummaryLines(recs, log);
    assert ExecutionsOf(Executions(run), t) + [] == ExecutionsOf(Executions(run), t);
  }

  lemma TrackedNothing(t: nat)
    ensures Tracked([], [], [], [], t)
  {
  }

  /** The blocks the inserted calls carry are those of the map with the instrumented ranges. */
  ghost predicate Calls(calls: seq<Block>, blocks: seq<Block>, sites: seq<Bbl>) {
    |calls| == |sites| &&
    forall i :: 0 <= i < |calls| ==> calls[i] in blocks && HasRange(sites[i], calls[i].key.start, calls[i].key.end)
  }

  /** Instrumentation of one block. */
  method InstrumentBlock(tool: BbTrace, ghost sites: seq<Bbl>, bbl: Bbl, calls: seq<Block>) returns (calls': seq<Block>)
    requires tool.Valid() && Legal(bbl) && Faithful(tool.blockMap, sites) && Calls(calls, tool.blockMap, sites)
    modifies tool`blockMap, tool`currentId
    ensures tool.Valid() && Faithful(tool.blockMap, sites + [bbl]) && Calls(calls', tool.blockMap, sites + [bbl])
    ensures forall c: Block :: c in tool.blockMap ==> c in old(tool.blockMap) || fresh(c.globalBlockCount)
    ensures forall t :: 0 <= t < MAX_THREADS ==>
              LogSum(Recs(tool.blockMap), tool.profiles[t].log) == LogSum(old(Recs(tool.blockMap)), tool.profiles[t].log)
    ensures forall t :: 0 <= t < MAX_THREADS ==>
              Extends(old(Recs(tool.blockMap)), Recs(tool.blockMap), tool.profiles[t].log)
  {
    hide Extends, Times, LogSum, Less, Equivalent, IsPoint, Sorted, DistinctIds, FirstNumIns, Faithful, Seen;
    ghost var blocks := tool.blockMap;
    ghost var at;
    KnownMeansSeen(blocks, sites, bbl);
    var b;
    b, at := tool.LookupBlock(bbl);
    if at.None? {
      FaithfulKept(blocks, sites, bbl);
    } else {
      ghost var i := at.value;
      FaithfulAdded(blocks, b, i, sites, bbl);
      RecsInserted(blocks, b, i);
      forall t | 0 <= t < MAX_THREADS
        ensures LogSum(Recs(tool.blockMap), tool.profiles[t].log) == LogSum(Recs(blocks), tool.profiles[t].log)
      {
        LogSumInserted(Recs(blocks)[..i], b.View(), Recs(blocks)[i..], tool.profiles[t].log);
      }
      forall t | 0 <= t < MAX_THREADS
        ensures Extends(Recs(blocks), Recs(tool.blockMap), tool.profiles[t].log)
      {
        NeverLogged(tool.profiles[t].log, b.id);
        ExtendsAt(Recs(blocks), i, b.View(), tool.profiles[t].log);
      }
    }
    forall t | 0 <= t < MAX_THREADS && tool.blockMap == blocks
      ensures Extends(Recs(blocks), Recs(tool.blockMap), tool.profiles[t].log)
    {
      ExtendsSame(Recs(blocks), tool.profiles[t].log);
    }
    calls' := calls + [b];
  }

  lemma ExtendsAt(recs: seq<Rec>, i: nat, r: Rec, log: seq<nat>)
    requires i <= |recs| && Times(log, r.id) == 0
    ensures Extends(recs, recs[..i] + [r] + recs[i..], log)
  {
  }

  lemma ExtendsSame(recs: seq<Rec>, log: seq<nat>)
    ensures Extends(recs, recs, log)
  {
  }

  /** Execution of a block: its inserted call counts it. */
  method ExecuteBlock(tool: BbTrace, ghost sites: seq<Bbl>, site: nat, calls: seq<Block>, tid: nat)
    returns (ghost id: nat)
    requires tool.Valid() && Faithful(tool.blockMap, sites) && Calls(calls, tool.blockMap, sites)
    requires site < |sites| && tid < MAX_THREADS
    modifies tool.profiles[tid], set b: Block | b in tool.blockMap :: b.globalBlockCount
    ensures tool.Valid()
    ensures tool.profiles[tid].globalInstructionCount == old(tool.profiles[tid].globalInstructionCount)
    ensures LogSum(Recs(tool.blockMap), tool.profiles[tid].log) ==
            LogSum(Recs(tool.blockMap), old(tool.profiles[tid].log)) + FirstNumIns(sites, sites[site].head, sites[site].tail)
    ensures tool.profiles[tid].log == old(tool.profiles[tid].log) + [id]
    ensures tool.profiles[tid].summary == old(tool.profiles[tid].summary)
    ensures Names(Recs(tool.blockMap), id, Execution(tid, sites[site]))
  {
    hide Names, LogSum, Less, Equivalent, IsPoint, Sorted, FirstNumIns, Faithful, InsOf, Recs, Seen;
    var b := calls[site];
    ghost var log := tool.profiles[tid].log;
    tool.CountBlock(b, tid);
    FaithfulMember(tool.blockMap, sites, b);
    InsOfBlock(tool.blockMap, b);
    LogSumAppend(Recs(tool.blockMap), log, b.id);
    id := b.id;
    NamesBlock(tool.blockMap, b, Execution(tid, sites[site]));
  }

  lemma NamesBlock(blocks: seq<Block>, b: Block, x: Execution)
    requires b in blocks && HasRange(x.bbl, b.key.start, b.key.end)
    ensures Names(Recs(blocks), b.id, x)
  {
    var i :| 0 <= i < |blocks| && blocks[i] == b;
    assert Recs(blocks)[i] == b.View();
  }

  lemma DynamicStep(run: seq<Event>, e: Event, t: nat)
    ensures Dynamic(run + [e], t) == Dynamic(run, t) + Added(run, e, t)
    ensures Sites(run + [e]) == Sites(run) + (if e.Instrument? then [e.bbl] else [])
    ensures Prints(run + [e]) == Prints(run) + if e.ThreadEnd? then [(e.tid, Dynamic(run, e.tid))] else []
    ensures Ended(run + [e], t) <==> Ended(run, t) || e == ThreadEnd(t)
  {
    hide Added;
    assert (run + [e])[..|run|] == run;
  }

  /** The tool after the events of a run: the map is faithful, and every thread that still runs has
      logged what its dynamic count is made of. */
  ghost predicate Following(tool: BbTrace, calls: seq<Block>, run: seq<Event>)
    reads tool, tool.profiles
    requires |tool.profiles| == MAX_THREADS
  {
    && Faithful(tool.blockMap, Sites(run)) && Calls(calls, tool.blockMap, Sites(run))
    && forall t :: 0 <= t < MAX_THREADS && !Ended(run, t) ==>
         tool.profiles[t].globalInstructionCount == 0 &&
         LogSum(Recs(tool.blockMap), tool.profiles[t].log) == Dynamic(run, t)
  }

  /** Every thread's file is as the run demands. */
  ghost predicate AllTracked(tool: BbTrace, run: seq<Event>)
    reads tool, tool.profiles
    requires |tool.profiles| == MAX_THREADS
  {
    forall t :: 0 <= t < MAX_THREADS ==>
      Tracked(Recs(tool.blockMap), tool.profiles[t].log, tool.profiles[t].summary, run, t)
  }

  ghost function Logs(ps: seq<Profile>): seq<seq<nat>>
    reads ps
  {
    seq(|ps|, t requires 0 <= t < |ps| reads ps => ps[t].log)
  }

  ghost function Summaries(ps: seq<Profile>): seq<seq<Line>>
    reads ps
  {
    seq(|ps|, t requires 0 <= t < |ps| reads ps => ps[t].summary)
  }

  /** One event; what is printed is added to the output. */
  method Take(tool: BbTrace, ghost run: seq<Event>, e: Event, calls: seq<Block>, out: seq<(nat, nat)>)
    returns (calls': seq<Block>, out': seq<(nat, nat)>)
    requires tool.Valid() && LegalEvent(run, e) && Following(tool, calls, run) && AllTracked(tool, run)
    modifies tool, tool.profiles, set b: Block | b in tool.blockMap :: b.globalBlockCount
    ensures tool.Valid() && Following(tool, calls', run + [e]) && AllTracked(tool, run + [e])
    ensures out' == out + if e.ThreadEnd? then [(e.tid, Dynamic(run, e.tid))] else []
    ensures forall b: Block :: b in tool.blockMap ==> b in old(tool.blockMap) || fresh(b.globalBlockCount)
  {
    hide LogSum, Dynamic, Faithful, Calls, Sites, Recs, FirstNumIns, Ended, Sorted, Less, IsPoint, Prints, LineSum,
      SummaryLines, DistinctIds, Keys, Below, Times, WellKept, Legal, Tracked, Extends, Names;
    ghost var recs := Recs(tool.blockMap);
    ghost var logs, summaries := Logs(tool.profiles), Summaries(tool.profiles);
    forall t ensures Dynamic(run + [e], t) == Dynamic(run, t) + Added(run, e, t)
             ensures Ended(run + [e], t) <==> Ended(run, t) || e == ThreadEnd(t)
    {
      DynamicStep(run, e, t);
    }
    calls', out' := calls, out;
    DynamicStep(run, e, 0);
    assert Sites(run) + [] == Sites(run);
    match e {
      case Instrument(bbl) =>
        calls' := InstrumentBlock(tool, Sites(run), bbl, calls);
        forall t | 0 <= t < MAX_THREADS
          ensures Tracked(Recs(tool.blockMap), tool.profiles[t].log, tool.profiles[t].summary, run + [e], t)
        {
          TrackedExtends(recs, Recs(tool.blockMap), logs[t], summaries[t], run, t);
          TrackedOther(Recs(tool.blockMap), logs[t], summaries[t], run, e, t);
        }
      case Execute(tid, site) =>
        ghost var id := ExecuteBlock(tool, Sites(run), site, calls, tid);
        forall t | 0 <= t < MAX_THREADS
          ensures Tracked(Recs(tool.blockMap), tool.profiles[t].log, tool.profiles[t].summary, run + [e], t)
        {
          if t == tid {
            TrackedExecute(recs, logs[t], summaries[t], run, e, id);
          } else {
            TrackedOther(recs, logs[t], summaries[t], run, e, t);
          }
        }
      case ThreadEnd(tid) =>
        var count := tool.ThreadFini(tid);
        out' := out' + [(tid, count)];
        forall t | 0 <= t < MAX_THREADS
          ensures Tracked(Recs(tool.blockMap), tool.profiles[t].log, tool.profiles[t].summary, run + [e], t)
        {
          if t == tid {
            TrackedEnd(recs, logs[t], summaries[t], run, t);
          } else {
            TrackedOther(recs, logs[t], summaries[t], run, e, t);
          }
        }
    }
  }

  /** The tool over a whole run, instrumentation, executions and ends of threads in any order: when it
      ends, each thread prints what its executions add up to, each with the size first seen for its
      address range; on unmodified code, the instructions it executes. */
  method ProfileRun(run: seq<Event>) returns (printed: seq<(nat, nat)>, tool: BbTrace)
    requires LegalRun(run)
    ensures tool.Valid() && AllTracked(tool, run) && Faithful(tool.blockMap, Sites(run))
    ensures printed == Prints(run)
    ensures forall t :: Ended(run, t) <==> Printed(printed, t)
    ensures forall i, j :: 0 <= i < j < |printed| ==>
              printed[i].0 != printed[j].0 && EndsBefore(run, printed[i].0, printed[j].0)
    ensures forall i :: 0 <= i < |printed| ==>
              printed[i].1 == FirstSizes(Executions(run), Sites(run), printed[i].0)
    ensures Unmodified(Sites(run)) ==> forall t, c :: (t, c) in printed ==> c == Instructions(Executions(run), t)
  {
    hide LogSum, Dynamic, Faithful, Unmodified, Sites, Prints, Instructions, Executions, LegalEvent, Ended, Printed,
      EndsBefore, FirstSizes, Tracked;
    tool := new BbTrace();
    var calls: seq<Block> := [];
    printed := [];
    assert run[..0] == [];
    NothingYet(tool.blockMap);
    forall t | 0 <= t < MAX_THREADS ensures Tracked(Recs(tool.blockMap), [], [], [], t) {
      assert Recs(tool.blockMap) == [];
      TrackedNothing(t);
    }
    for i := 0 to |run|
      invariant tool.Valid() && fresh(tool)
      invariant forall t :: 0 <= t < MAX_THREADS ==> fresh(tool.profiles[t])
      invariant forall b: Block :: b in tool.blockMap ==> fresh(b.globalBlockCount)
      invariant Following(tool, calls, run[..i]) && AllTracked(tool, run[..i])
      invariant printed == Prints(run[..i])
    {
      LegalPrefix(run, i);
      assert run[..i + 1] == run[..i] + [run[i]];
      DynamicStep(run[..i], run[i], 0);
      calls, printed := Take(tool, run[..i], run[i], calls, printed);
    }
    assert run[..|run|] == run;
    PrintsOnce(run);
    PrintedDynamic(run);
    forall i | 0 <= i < |printed| ensures printed[i].1 == FirstSizes(Executions(run), Sites(run), printed[i].0) {
      DynamicIsFirstSizes(run, printed[i].0);
    }
    if Unmodified(Sites(run)) {
      forall t, c | (t, c) in printed ensures c == Instructions(Executions(run), t) {
        PrintsAreInstructions(run, t, c);
      }
    }
  }

  lemma NothingYet(blocks: seq<Block>)
    requires blocks == []
    ensures Faithful(blocks, Sites([])) && Calls([], blocks, Sites([])) && Prints([]) == []
    ensures LogSum(Recs(blocks), []) == 0 && forall t :: Dynamic([], t) == 0
  {
  }

  lemma {:induction false} LegalPrefix(run: seq<Event>, i: nat)
    requires LegalRun(run) && i < |run|
    ensures LegalEvent(run[..i], run[i])
    decreases |run|
  {
    hide LegalEvent;
    if i < |run| - 1 {
      LegalPrefix(run[..|run| - 1], i);
      assert run[..|run| - 1][..i] == run[..i];
    }
  }
}
