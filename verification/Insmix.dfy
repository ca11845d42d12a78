/** pin/insmix.cpp at work: instrumentation, the START/STOP gate, execution counts,
    and `Fini`. */
module Insmix {
  import opened IndexStrings
  import opened InsmixReport
  import opened Permutations

  // ---------------------------------------------------------------- runs

  datatype Routine = Unknown | Known(id: nat, address: nat)

  /** What Pin calls the tool for: a new trace with its blocks, a control event, or the
      execution of the n-th block instrumented so far. */
  datatype Event =
    | Instrument(rtn: Routine, bbls: seq<Block>)
    | Start
    | Stop
    | Execute(n: nat)

  datatype State = State(enabled: nat, records: seq<Record>, table: Table)

  const INITIAL := State(0, [], map[])

  function RtnNum(rtn: Routine): nat {
    if rtn.Unknown? then 0 else rtn.id
  }

  function NewRecords(rtn: Routine, bbls: seq<Block>): seq<Record> {
    seq(|bbls|, i requires 0 <= i < |bbls| => Record(RtnNum(rtn), bbls[i], 0))
  }

  function NewTable(table: Table, rtn: Routine): Table {
    if RtnNum(rtn) in table then table
    else table[RtnNum(rtn) := if rtn.Unknown? then 0 else rtn.address]
  }

  function Step(s: State, e: Event): State {
    match e
    case Instrument(rtn, bbls) => s.(records := s.records + NewRecords(rtn, bbls), table := NewTable(s.table, rtn))
    case Start => s.(enabled := 1)
    case Stop => s.(enabled := 0)
    case Execute(n) =>
      if n < |s.records| then
        s.(records := s.records[n := s.records[n].(counter := s.records[n].counter + s.enabled)])
      else s
  }

  function Run(events: seq<Event>): State {
    if events == [] then INITIAL else Step(Run(events[..|events| - 1]), events[|events| - 1])
  }

  /** Blocks instrumented by the events, in order. */
  function Instrumented(events: seq<Event>): seq<Block> {
    if events == [] then []
    else
      var e := events[|events| - 1];
      Instrumented(events[..|events| - 1]) + (if e.Instrument? then e.bbls else [])
  }

  /** The last control event was START. */
  predicate Enabled(events: seq<Event>) {
    events != [] &&
    var e := events[|events| - 1];
    e.Start? || (!e.Stop? && Enabled(events[..|events| - 1]))
  }

  /** Blocks executed while counting was enabled, in order. */
  function Executed(events: seq<Event>): seq<Block> {
    if events == [] then []
    else
      Executed(events[..|events| - 1]) + Counted(events[..|events| - 1], events[|events| - 1])
  }

  /** The block an event after the others counts, if it counts one. */
  function Counted(before: seq<Event>, e: Event): seq<Block> {
    if e.Execute? && e.n < |Instrumented(before)| && Enabled(before) then [Instrumented(before)[e.n]] else []
  }

  /** How often index k describes an instruction of these block executions. */
  function DescribedIn(blocks: seq<Block>, k: int): int {
    if blocks == [] then 0
    else DescribedIn(blocks[..|blocks| - 1], k) + Described(blocks[|blocks| - 1], k)
  }

  function InstructionsIn(blocks: seq<Block>): int {
    if blocks == [] then 0 else InstructionsIn(blocks[..|blocks| - 1]) + |blocks[|blocks| - 1]|
  }

  ghost predicate LegalRun(events: seq<Event>) {
    forall i :: 0 <= i < |Instrumented(events)| ==> LegalBlock(Instrumented(events)[i])
  }

  lemma {:induction false} RunShape(events: seq<Event>)
    ensures var s := Run(events);
            && s.enabled == (if Enabled(events) then 1 else 0)
            && |s.records| == |Instrumented(events)|
            && (forall i :: 0 <= i < |s.records| ==> s.records[i].body == Instrumented(events)[i])
            && InTable(s.records, s.table)
  {
    if events != [] {
      RunShape(events[..|events| - 1]);
    }
  }

  lemma TallyBump(rs: seq<Record>, n: nat, c: nat, k: int)
    requires n < |rs|
    ensures Tally(rs[n := rs[n].(counter := rs[n].counter + c)], k) ==
            Tally(rs, k) + c * Occurrences(IndexString(rs[n].body), k)
  {
    hide Tally, Weight, Occurrences, IndexString;
    var r := rs[n].(counter := rs[n].counter + c);
    assert rs == rs[..n] + ([rs[n]] + rs[n + 1..]);
    assert rs[n := r] == rs[..n] + ([r] + rs[n + 1..]);
    TallyMiddle(rs[..n], rs[n], rs[n + 1..], k);
    TallyMiddle(rs[..n], r, rs[n + 1..], k);
    WeightBump(rs[n], c, k);
  }

  lemma WeightBump(r: Record, c: nat, k: int)
    ensures Weight(r.(counter := r.counter + c), k) == Weight(r, k) + c * Occurrences(IndexString(r.body), k)
  {
    hide Occurrences, IndexString;
  }

  lemma {:induction false} TallyZero(rs: seq<Record>, k: int)
    requires forall i :: 0 <= i < |rs| ==> rs[i].counter == 0
    ensures Tally(rs, k) == 0
  {
    hide Occurrences, IndexString;
    if rs != [] {
      TallyZero(rs[..|rs| - 1], k);
    }
  }

  lemma LegalBefore(events: seq<Event>)
    requires events != [] && LegalRun(events)
    ensures LegalRun(events[..|events| - 1])
  {
    var before := events[..|events| - 1];
    forall i | 0 <= i < |Instrumented(before)| ensures LegalBlock(Instrumented(before)[i]) {
      assert Instrumented(events)[i] == Instrumented(before)[i];
    }
  }

  lemma StepTally(before: seq<Event>, e: Event, k: int)
    requires LegalRun(before)
    ensures Tally(Step(Run(before), e).records, k) ==
            Tally(Run(before).records, k) + DescribedIn(Counted(before, e), k)
  {
    hide Tally, Occurrences, IndexString, LegalBlock, InTable, NewTable, DescribedIn, Run, Instrumented, Enabled;
    var s := Run(before);
    RunShape(before);
    DescribedNone(k);
    match e {
      case Instrument(rtn, bbls) =>
        TallyConcat(s.records, NewRecords(rtn, bbls), k);
        TallyZero(NewRecords(rtn, bbls), k);
      case Execute(n) =>
        if n < |s.records| {
          TallyBump(s.records, n, s.enabled, k);
          DescribedOne(s.records[n].body, k);
        }
      case _ =>
    }
  }

  lemma DescribedNone(k: int)
    ensures DescribedIn([], k) == 0
  {
  }

  lemma DescribedOne(bbl: Block, k: int)
    requires LegalBlock(bbl)
    ensures DescribedIn([bbl], k) == Occurrences(IndexString(bbl), k)
  {
    hide Described, Occurrences, IndexString, LegalBlock;
    StringMeaning(bbl, k);
    assert [bbl][..0] == [];
  }

  lemma DescribedAppend(a: seq<Block>, b: seq<Block>, k: int)
    requires |b| <= 1
    ensures DescribedIn(a + b, k) == DescribedIn(a, k) + DescribedIn(b, k)
  {
    hide Described;
    if b == [] {
      assert a + b == a;
    } else {
      assert (a + b)[..|a|] == a && b[..0] == [];
    }
  }

  /** For every run, the counts hold each index once for every instruction it describes, over
      the blocks executed between START and STOP. */
  lemma {:induction false} RunTally(events: seq<Event>, k: int)
    requires LegalRun(events)
    ensures Tally(Run(events).records, k) == DescribedIn(Executed(events), k)
  {
    hide Tally, DescribedIn, LegalRun, Counted, Step;
    if events == [] {
      EmptyTally(k);
      DescribedNone(k);
    } else {
      var before, e := events[..|events| - 1], events[|events| - 1];
      LegalBefore(events);
      RunTally(before, k);
      StepTally(before, e, k);
      assert |Counted(before, e)| <= 1 by { AtMostOne(before, e); }
      DescribedAppend(Executed(before), Counted(before, e), k);
    }
  }

  lemma AtMostOne(before: seq<Event>, e: Event)
    ensures |Counted(before, e)| <= 1
  {
  }

  /** The executed blocks as records of one execution each. */
  function Once(blocks: seq<Block>): seq<Record> {
    seq(|blocks|, i requires 0 <= i < |blocks| => Record(0, blocks[i], 1))
  }

  lemma {:induction false} OnceTally(blocks: seq<Block>, k: int)
    requires forall i :: 0 <= i < |blocks| ==> LegalBlock(blocks[i])
    ensures Tally(Once(blocks), k) == DescribedIn(blocks, k)
  {
    hide Tally, Described, Occurrences, IndexString;
    if blocks == [] {
      EmptyTally(k);
    } else {
      var n := |blocks| - 1;
      OnceTally(blocks[..n], k);
      assert Once(blocks)[..n] == Once(blocks[..n]);
      TallyLast(Once(blocks), k);
      StringMeaning(blocks[n], k);
    }
  }

  lemma {:induction false} OnceInstructions(blocks: seq<Block>)
    ensures Instructions(Once(blocks)) == InstructionsIn(blocks)
  {
    if blocks != [] {
      OnceInstructions(blocks[..|blocks| - 1]);
      assert Once(blocks)[..|blocks| - 1] == Once(blocks[..|blocks| - 1]);
    }
  }

  lemma {:induction false} ExecutedLegal(events: seq<Event>)
    requires LegalRun(events)
    ensures forall i :: 0 <= i < |Executed(events)| ==> LegalBlock(Executed(events)[i])
  {
    if events != [] {
      LegalBefore(events);
      ExecutedLegal(events[..|events| - 1]);
    }
  }

  /** The *total of every run is the number of instructions executed while enabled. */
  lemma RunTotal(events: seq<Event>)
    requires LegalRun(events)
    ensures LegalRecords(Run(events).records)
    ensures Report(Run(events).records)[INDEX_TOTAL] == InstructionsIn(Executed(events))
  {
    hide Tally, BelowSpecial, Instructions, InstructionsIn, DescribedIn, Report;
    var rs, once := Run(events).records, Once(Executed(events));
    RunShape(events);
    ExecutedLegal(events);
    OnceInstructions(Executed(events));
    forall k ensures Tally(rs, k) == Tally(once, k) {
      OnceTally(Executed(events), k);
      RunTally(events, k);
    }
    assert LegalRecords(rs) && LegalRecords(once);
    SameBelow(rs, once, INDEX_SPECIAL);
    BelowSpecialIsInstructions(rs);
    BelowSpecialIsInstructions(once);
    TotalIsInstructions(rs);
  }

  /** The whole run: whatever order the sort leaves the records in, the dumped global table
      holds for every index the number of executed instructions it describes, and as *total
      the number of instructions executed while enabled; the sections are good when no
      routine with several blocks shares its address. */
  lemma WholeRun(events: seq<Event>, sorted: seq<Record>, table: Table)
    requires LegalRun(events)
    requires multiset(sorted) == multiset(Run(events).records) && table == Run(events).table
    requires InTable(sorted, table) && SortedByAddress(sorted, table)
    ensures InTable(Run(events).records, table)
    ensures forall k :: 0 <= k < MAX_INDEX ==>
              Report(sorted)[k] ==
              if k == INDEX_TOTAL then InstructionsIn(Executed(events)) else DescribedIn(Executed(events), k)
    ensures NoSplit(Run(events).records, table) ==>
              GoodReport(Sections(Runs(sorted)), Run(events).records)
  {
    hide Tally, BelowSpecial, Runs, Sections, GoodReport, NoSplit, SortedByAddress;
    var rs := Run(events).records;
    RunShape(events);
    RunTotal(events);
    SameReport(sorted, rs);
    forall k | 0 <= k < MAX_INDEX && k != INDEX_TOTAL ensures Report(sorted)[k] == DescribedIn(Executed(events), k) {
      RunTally(events, k);
      assert Report(rs)[k] == Tally(rs, k);
    }
    if NoSplit(rs, table) {
      GoodOrder(rs, sorted, table);
    }
  }

  /** Over all orders the sort may choose: after this run the sections are right if and only if no
      routine with several blocks shares its address with another one. */
  lemma WholeRunExactly(events: seq<Event>)
    ensures InTable(Run(events).records, Run(events).table)
    ensures (forall sorted :: multiset(sorted) == multiset(Run(events).records) && InTable(sorted, Run(events).table) &&
                              SortedByAddress(sorted, Run(events).table) ==>
               GoodReport(Sections(Runs(sorted)), Run(events).records)) <==>
            NoSplit(Run(events).records, Run(events).table)
  {
    hide Run, Runs, Sections, GoodReport, NoSplit, SortedByAddress;
    RunShape(events);
    ReportGoodExactly(Run(events).records, Run(events).table);
  }

  /** Two routines that Pin places at one address, one of them with two blocks, make such a run. */
  lemma SharedAddressRun(r1: nat, r2: nat, address: nat, a: Block, b: Block, c: Block) returns (events: seq<Event>)
    requires r1 != r2 && r1 > 0 && LegalBlock(a) && LegalBlock(b) && LegalBlock(c)
    ensures events == [Instrument(Known(r1, address), [a, b]), Instrument(Known(r2, address), [c])]
    ensures LegalRun(events) && InTable(Run(events).records, Run(events).table)
    ensures !NoSplit(Run(events).records, Run(events).table)
    ensures exists sorted :: multiset(sorted) == multiset(Run(events).records) && InTable(sorted, Run(events).table) &&
              SortedByAddress(sorted, Run(events).table) && !GoodReport(Sections(Runs(sorted)), Run(events).records)
  {
    hide *;
    events := [Instrument(Known(r1, address), [a, b]), Instrument(Known(r2, address), [c])];
    TwoTraces(r1, r2, address, a, b, c);
    WholeRunExactly(events);
    ClashFirst(Run(events).records, Run(events).table, address);
  }

  lemma ClashFirst(rs: seq<Record>, table: Table, address: nat)
    requires |rs| == 3 && rs[0].rtn == rs[1].rtn > 0 && rs[2].rtn != rs[0].rtn && InTable(rs, table)
    requires table[rs[0].rtn] == address && table[rs[2].rtn] == address
    ensures !NoSplit(rs, table)
  {
    assert Clash(rs, 0, 1, 2);
  }

  lemma TwoTraces(r1: nat, r2: nat, address: nat, a: Block, b: Block, c: Block)
    requires r1 != r2 && r1 > 0 && LegalBlock(a) && LegalBlock(b) && LegalBlock(c)
    ensures var events := [Instrument(Known(r1, address), [a, b]), Instrument(Known(r2, address), [c])];
            var rs, table := Run(events).records, Run(events).table;
            && rs == [Record(r1, a, 0), Record(r1, b, 0), Record(r2, c, 0)]
            && r1 in table && r2 in table && table[r1] == address && table[r2] == address
            && LegalRun(events) && InTable(rs, table)
  {
    hide LegalBlock;
    var e, f := Instrument(Known(r1, address), [a, b]), Instrument(Known(r2, address), [c]);
    assert [e, f][..1] == [e] && [e][..0] == [];
    assert Run([e]) == Step(INITIAL, e) && Run([e, f]) == Step(Run([e]), f);
    assert Instrumented([e]) == [a, b] && Instrumented([e, f]) == [a, b] + [c];
  }

  // ---------------------------------------------------------------- which routine a block came with

  /** The routine every instrumented block came with, in the order of the blocks. */
  function Origins(events: seq<Event>): seq<Routine> {
    if events == [] then []
    else
      var e := events[|events| - 1];
      Origins(events[..|events| - 1]) + (if e.Instrument? then seq(|e.bbls|, _ => e.rtn) else [])
  }

  /** Blocks executed while counting was enabled that were instrumented under a routine with this id. */
  function ExecutedUnder(events: seq<Event>, id: nat): seq<Block> {
    if events == [] then []
    else
      var before, e := events[..|events| - 1], events[|events| - 1];
      ExecutedUnder(before, id) + (if CameUnder(before, e, id) then Counted(before, e) else [])
  }

  predicate CameUnder(before: seq<Event>, e: Event, id: nat) {
    e.Execute? && e.n < |Origins(before)| && Origins(before)[e.n].Known? && Origins(before)[e.n].id == id
  }

  /** Some block was instrumented under a routine with this id. */
  ghost predicate InstrumentedUnder(events: seq<Event>, id: nat) {
    exists i :: 0 <= i < |Origins(events)| && Origins(events)[i].Known? && Origins(events)[i].id == id
  }

  /** The records carry, in order, 0 for a block that came with no routine, and the routine's id
      otherwise. */
  lemma {:induction false} RecordOrigins(events: seq<Event>)
    ensures var rs, origins := Run(events).records, Origins(events);
            |rs| == |origins| == |Instrumented(events)| &&
            forall i :: 0 <= i < |rs| ==>
              rs[i].rtn == match origins[i] case Unknown => 0 case Known(id, _) => id
  {
    if events != [] {
      RecordOrigins(events[..|events| - 1]);
    }
  }

  /** Event j instruments a trace that came with this id, 0 standing for no routine. */
  predicate Carries(events: seq<Event>, j: nat, id: nat) {
    j < |events| && events[j].Instrument? &&
    match events[j].rtn case Unknown => id == 0 case Known(n, _) => n == id
  }

  /** Event j is the first one to bring this id. */
  ghost predicate FirstWith(events: seq<Event>, j: nat, id: nat) {
    Carries(events, j, id) && forall i: nat :: i < j ==> !Carries(events, i, id)
  }

  /** The table has the ids seen so far, each with the address it came with first, and no routine
      with address 0. */
  lemma {:induction false} TableOrigins(events: seq<Event>, id: nat)
    ensures id in Run(events).table <==> exists j: nat :: FirstWith(events, j, id)
    ensures forall j: nat :: FirstWith(events, j, id) ==>
              Run(events).table[id] == match events[j].rtn case Unknown => 0 case Known(_, address) => address
  {
    hide FirstWith;
    if events == [] {
      NothingFirst(id);
    } else {
      var n := |events| - 1;
      var before := events[..n];
      TableOrigins(before, id);
      FirstSplits(events, id);
      TableStep(Run(before), events[n], id);
      LastCarries(events, id);
    }
  }

  lemma NothingFirst(id: nat)
    ensures forall j: nat :: !FirstWith([], j, id)
  {
  }

  lemma TableStep(s: State, e: Event, id: nat)
    ensures var t := Step(s, e).table;
            && (id in t <==> id in s.table || Carries([e], 0, id))
            && (id in s.table ==> t[id] == s.table[id])
            && (id in t && id !in s.table ==>
                 t[id] == match e.rtn case Unknown => 0 case Known(_, address) => address)
  {
  }

  lemma LastCarries(events: seq<Event>, id: nat)
    requires events != []
    ensures Carries(events, |events| - 1, id) == Carries([events[|events| - 1]], 0, id)
  {
  }

  /** The first event to bring an id is the first one before the last event or, if there is none and
      the last event brings it, that one. */
  lemma FirstSplits(events: seq<Event>, id: nat)
    requires events != []
    ensures var n, before := |events| - 1, events[..|events| - 1];
            && (forall j: nat :: j < n ==> (FirstWith(events, j, id) <==> FirstWith(before, j, id)))
            && (forall j: nat :: j >= n ==> !FirstWith(before, j, id))
            && (forall j: nat :: j > n ==> !FirstWith(events, j, id))
            && (FirstWith(events, n, id) <==> Carries(events, n, id) && forall j: nat :: !FirstWith(before, j, id))
  {
    var n, before := |events| - 1, events[..|events| - 1];
    assert forall i: nat :: i < n ==> Carries(before, i, id) == Carries(events, i, id);
    if i: nat :| i < n && Carries(before, i, id) {
      FirstExists(before, i, id);
    }
  }

  lemma {:induction false} FirstExists(events: seq<Event>, i: nat, id: nat)
    requires Carries(events, i, id)
    ensures exists j: nat :: FirstWith(events, j, id)
    decreases i
  {
    if j: nat :| j < i && Carries(events, j, id) {
      FirstExists(events, j, id);
    } else {
      assert FirstWith(events, i, id);
    }
  }

  lemma FilterMiddle(a: seq<Record>, r: Record, b: seq<Record>, rtn: nat, k: int)
    ensures Tally(Filter(a + ([r] + b), rtn), k) ==
            Tally(Filter(a + b, rtn), k) + if r.rtn == rtn then Weight(r, k) else 0
  {
    hide Tally, Weight;
    FilterConcat(a, [r] + b, rtn);
    FilterConcat([r], b, rtn);
    FilterConcat(a, b, rtn);
    assert [r][..0] == [];
    if r.rtn == rtn {
      assert Filter([r], rtn) == [r];
      TallyMiddle(Filter(a, rtn), r, Filter(b, rtn), k);
    } else {
      assert Filter([r], rtn) == [];
      assert Filter([r] + b, rtn) == Filter(b, rtn);
    }
  }

  lemma FilterBump(rs: seq<Record>, n: nat, c: nat, rtn: nat, k: int)
    requires n < |rs|
    ensures Tally(Filter(rs[n := rs[n].(counter := rs[n].counter + c)], rtn), k) ==
            Tally(Filter(rs, rtn), k) + if rs[n].rtn == rtn then c * Occurrences(IndexString(rs[n].body), k) else 0
  {
    hide Tally, Filter, Weight, Occurrences, IndexString;
    var r := rs[n].(counter := rs[n].counter + c);
    assert rs == rs[..n] + ([rs[n]] + rs[n + 1..]);
    assert rs[n := r] == rs[..n] + ([r] + rs[n + 1..]);
    FilterMiddle(rs[..n], rs[n], rs[n + 1..], rtn, k);
    FilterMiddle(rs[..n], r, rs[n + 1..], rtn, k);
    WeightBump(rs[n], c, k);
  }

  lemma {:induction false} FilterZero(rs: seq<Record>, rtn: nat, k: int)
    requires forall i :: 0 <= i < |rs| ==> rs[i].counter == 0
    ensures Tally(Filter(rs, rtn), k) == 0
  {
    hide Tally, Weight;
    EmptyTally(k);
    if rs != [] {
      var r := rs[|rs| - 1];
      var before := Filter(rs[..|rs| - 1], rtn);
      FilterZero(rs[..|rs| - 1], rtn, k);
      assert before + [] == before;
      TallyConcat(before, [r], k);
      TallyOne(r, k);
      NoWeight(r, k);
    }
  }

  lemma NoWeight(r: Record, k: int)
    requires r.counter == 0
    ensures Weight(r, k) == 0
  {
    hide Occurrences, IndexString;
  }

  lemma StepUnder(before: seq<Event>, e: Event, id: nat, k: int)
    requires LegalRun(before) && id > 0
    ensures Tally(Filter(Step(Run(before), e).records, id), k) ==
            Tally(Filter(Run(before).records, id), k) +
            DescribedIn(if CameUnder(before, e, id) then Counted(before, e) else [], k)
  {
    hide Tally, Filter, Occurrences, IndexString, LegalBlock, InTable, NewTable, DescribedIn, Run, Instrumented, Enabled,
      Origins;
    var s := Run(before);
    RunShape(before);
    RecordOrigins(before);
    DescribedNone(k);
    match e {
      case Instrument(rtn, bbls) =>
        FilterConcat(s.records, NewRecords(rtn, bbls), id);
        TallyConcat(Filter(s.records, id), Filter(NewRecords(rtn, bbls), id), k);
        FilterZero(NewRecords(rtn, bbls), id, k);
      case Execute(n) =>
        if n < |s.records| {
          FilterBump(s.records, n, s.enabled, id, k);
          DescribedOne(s.records[n].body, k);
        }
      case _ =>
    }
  }

  /** For every run, the records of a routine count exactly the executed blocks that were instrumented
      under it. */
  lemma {:induction false} RunTallyUnder(events: seq<Event>, id: nat, k: int)
    requires LegalRun(events) && id > 0
    ensures Tally(Filter(Run(events).records, id), k) == DescribedIn(ExecutedUnder(events, id), k)
  {
    hide Tally, DescribedIn, LegalRun, Counted, Step, CameUnder;
    if events == [] {
      EmptyTally(k);
      DescribedNone(k);
    } else {
      var before, e := events[..|events| - 1], events[|events| - 1];
      LegalBefore(events);
      RunTallyUnder(before, id, k);
      StepUnder(before, e, id, k);
      assert |Counted(before, e)| <= 1 by { AtMostOne(before, e); }
      DescribedAppend(ExecutedUnder(before, id), if CameUnder(before, e, id) then Counted(before, e) else [], k);
    }
  }

  lemma {:induction false} ExecutedUnderLegal(events: seq<Event>, id: nat)
    requires LegalRun(events)
    ensures forall i :: 0 <= i < |ExecutedUnder(events, id)| ==> LegalBlock(ExecutedUnder(events, id)[i])
  {
    if events != [] {
      LegalBefore(events);
      ExecutedUnderLegal(events[..|events| - 1], id);
    }
  }

  /** A dumped table with the counts of these executed blocks: at every index the number of their
      instructions it describes, and as *total the number of their instructions. */
  ghost predicate CountsOf(c: seq<int>, blocks: seq<Block>) {
    |c| == MAX_INDEX &&
    forall k :: 0 <= k < MAX_INDEX ==>
      c[k] == if k == INDEX_TOTAL then InstructionsIn(blocks) else DescribedIn(blocks, k)
  }

  /** Records with the tallies of some executed blocks are dumped with their counts. */
  lemma DumpedCounts(rs: seq<Record>, blocks: seq<Block>)
    requires LegalRecords(rs) && forall i :: 0 <= i < |blocks| ==> LegalBlock(blocks[i])
    requires forall k: int :: Tally(rs, k) == DescribedIn(blocks, k)
    ensures CountsOf(Report(rs), blocks)
  {
    hide Tally, BelowSpecial, Instructions, InstructionsIn, DescribedIn, LegalBlock;
    var once := Once(blocks);
    OnceInstructions(blocks);
    forall k ensures Tally(rs, k) == Tally(once, k) {
      OnceTally(blocks, k);
    }
    assert LegalRecords(once);
    SameBelow(rs, once, INDEX_SPECIAL);
    BelowSpecialIsInstructions(rs);
    BelowSpecialIsInstructions(once);
    hide Report;
    TotalIsInstructions(rs);
    ReportedTally(rs);
  }

  lemma ReportedTally(rs: seq<Record>)
    ensures |Report(rs)| == MAX_INDEX
    ensures forall k :: 0 <= k < MAX_INDEX && k != INDEX_TOTAL ==> Report(rs)[k] == Tally(rs, k)
  {
    hide Tally, BelowSpecial;
  }

  lemma {:induction false} FilteredLegal(rs: seq<Record>, rtn: nat)
    requires LegalRecords(rs)
    ensures LegalRecords(Filter(rs, rtn))
  {
    hide LegalBlock;
    if rs != [] {
      FilteredLegal(rs[..|rs| - 1], rtn);
    }
  }

  /** Dumping the records of a routine prints the counts of the blocks executed under it. */
  lemma DumpedUnder(events: seq<Event>, id: nat)
    requires LegalRun(events) && id > 0
    ensures CountsOf(Report(Filter(Run(events).records, id)), ExecutedUnder(events, id))
  {
    hide Tally, Filter, Report, DescribedIn, ExecutedUnder, LegalBlock, CountsOf;
    RunShape(events);
    ExecutedUnderLegal(events, id);
    FilteredLegal(Run(events).records, id);
    forall k ensures Tally(Filter(Run(events).records, id), k) == DescribedIn(ExecutedUnder(events, id), k) {
      RunTallyUnder(events, id, k);
    }
    DumpedCounts(Filter(Run(events).records, id), ExecutedUnder(events, id));
  }

  lemma FilteredUnder(events: seq<Event>, id: nat)
    requires id > 0
    ensures Filter(Run(events).records, id) != [] <==> InstrumentedUnder(events, id)
  {
    hide Run, Origins, Instrumented;
    RecordOrigins(events);
    NoneFiltered(Run(events).records, id);
  }

  /** The sections a user expects after a run: one for every routine under which a block was
      instrumented, with the counts of the blocks executed under it, and no other. */
  ghost predicate RightSections(events: seq<Event>, ss: seq<Section>) {
    && (forall i, j :: 0 <= i < j < |ss| ==> ss[i].rtn != ss[j].rtn)
    && (forall i :: 0 <= i < |ss| ==> ss[i].rtn > 0 && InstrumentedUnder(events, ss[i].rtn) &&
                                      CountsOf(ss[i].counts, ExecutedUnder(events, ss[i].rtn)))
    && (forall id: nat :: id > 0 && InstrumentedUnder(events, id) ==> Shown(ss, id))
  }

  ghost predicate Shown(ss: seq<Section>, id: nat) {
    exists i :: 0 <= i < |ss| && ss[i].rtn == id
  }

  lemma {:induction false} SectionsForMeaning(ss: seq<Section>, id: nat)
    ensures SectionsFor(ss, id) == [] <==> !Shown(ss, id)
    ensures |SectionsFor(ss, id)| == 1 ==>
              forall i, j :: 0 <= i < |ss| && 0 <= j < |ss| && ss[i].rtn == id && ss[j].rtn == id ==>
                i == j && ss[i] == SectionsFor(ss, id)[0]
  {
    if ss != [] {
      var n := |ss| - 1;
      SectionsForMeaning(ss[..n], id);
      assert Shown(ss[..n], id) ==> Shown(ss, id);
    }
  }

  lemma RightExactly(events: seq<Event>, ss: seq<Section>)
    requires LegalRun(events) && GoodReport(ss, Run(events).records)
    ensures RightSections(events, ss)
  {
    hide Run, Origins, LegalRun, Report, Filter, SectionsFor, CountsOf, InstrumentedUnder, ExecutedUnder;
    var rs := Run(events).records;
    forall id: nat ensures SectionsFor(ss, id) == ExpectedSections(rs, id) {
    }
    forall i | 0 <= i < |ss|
      ensures ss[i].rtn > 0 && InstrumentedUnder(events, ss[i].rtn)
      ensures CountsOf(ss[i].counts, ExecutedUnder(events, ss[i].rtn))
      ensures forall j :: 0 <= j < |ss| && ss[j].rtn == ss[i].rtn ==> i == j
    {
      var id := ss[i].rtn;
      assert Shown(ss, id);
      SectionsForMeaning(ss, id);
      FilteredUnder(events, id);
      DumpedUnder(events, id);
    }
    forall id: nat | id > 0 && InstrumentedUnder(events, id) ensures Shown(ss, id) {
      SectionsForMeaning(ss, id);
      FilteredUnder(events, id);
    }
  }

  /** The sections of every routine, be it one or several, add up to the counts of the blocks executed
      under it, and none belongs to blocks that came with no routine. */
  ghost predicate RightSums(events: seq<Event>, ss: seq<Section>) {
    && (forall i :: 0 <= i < |ss| ==> |ss[i].counts| == MAX_INDEX && ss[i].rtn > 0)
    && (forall id: nat :: id > 0 ==> CountsOf(RoutineSums(ss, id), ExecutedUnder(events, id)))
  }

  function RoutineSums(ss: seq<Section>, id: nat): seq<int>
    requires forall i :: 0 <= i < |ss| ==> |ss[i].counts| == MAX_INDEX
  {
    seq(MAX_INDEX, k requires 0 <= k < MAX_INDEX => RoutineSum(ss, id, k))
  }

  /** In whatever order the sort leaves the records, the routines' sections add up to what was executed
      under them; there is one right section for each when no address is shared. */
  lemma SectionsUnder(events: seq<Event>, sorted: seq<Record>)
    requires LegalRun(events) && multiset(sorted) == multiset(Run(events).records)
    ensures RightSums(events, Sections(Runs(sorted)))
    ensures GoodReport(Sections(Runs(sorted)), Run(events).records) ==>
              RightSections(events, Sections(Runs(sorted)))
  {
    hide Run, LegalRun, Report, Sections, Runs, Filter, RoutineSum, CountsOf, ExecutedUnder, GoodReport, RightSections;
    var rs, ss := Run(events).records, Sections(Runs(sorted));
    SectionsConserveEach(sorted, 1, 0);
    forall id: nat | id > 0 ensures CountsOf(RoutineSums(ss, id), ExecutedUnder(events, id)) {
      FilterPermutes(sorted, rs, id);
      SameReport(Filter(sorted, id), Filter(rs, id));
      DumpedUnder(events, id);
      ReportedTally(Filter(rs, id));
      forall k: nat | k < MAX_INDEX ensures RoutineSum(ss, id, k) == Report(Filter(rs, id))[k] {
        SectionsConserveEach(sorted, id, k);
      }
      assert RoutineSums(ss, id) == Report(Filter(rs, id));
    }
    if GoodReport(ss, rs) {
      RightExactly(events, ss);
    }
  }

  // ---------------------------------------------------------------- tables of counters

  function SumBelow(c: seq<int>, n: nat): int
    requires n <= |c|
  {
    if n == 0 then 0 else SumBelow(c, n - 1) + c[n - 1]
  }

  lemma {:induction false} SumBelowIs(c: seq<int>, rs: seq<Record>, n: nat)
    requires n <= |c| && forall k :: 0 <= k < n ==> c[k] == Tally(rs, k)
    ensures SumBelow(c, n) == BelowSpecial(rs, n)
  {
    hide Tally;
    if n > 0 {
      SumBelowIs(c, rs, n - 1);
    }
  }

  /** The table holds exactly the counts of these records. */
  ghost predicate Holds(c: seq<int>, rs: seq<Record>) {
    |c| == MAX_INDEX && forall k :: 0 <= k < MAX_INDEX ==> c[k] == Tally(rs, k)
  }

  /** DumpStats: the total is added up in the table itself, then the table is printed. */
  method DumpStats(stats: array<int>, ghost rs: seq<Record>)
    requires Holds(stats[..], rs)
    modifies stats
    ensures stats[..] == Report(rs)
  {
    hide Tally;
    ghost var c := stats[..];
    for i := 0 to INDEX_SPECIAL
      invariant stats[..] == c[INDEX_TOTAL := c[INDEX_TOTAL] + SumBelow(c, i)]
    {
      stats[INDEX_TOTAL] := stats[INDEX_TOTAL] + stats[i];
    }
    SumBelowIs(c, rs, INDEX_SPECIAL);
  }

  method Clear(stats: array<int>)
    modifies stats
    ensures forall k :: 0 <= k < stats.Length ==> stats[k] == 0
  {
    for i := 0 to stats.Length
      invariant forall k :: 0 <= k < i ==> stats[k] == 0
    {
      stats[i] := 0;
    }
  }

  // ---------------------------------------------------------------- the tool

  /** BBLSTATS: a counter, and the 0-terminated index string built at instrumentation time. */
  class BblStats {
    var counter: nat
    const stats: array<int>
    const rtn: nat
    const numins: nat
    ghost const body: Block

    constructor (stats: array<int>, rtn: nat, numins: nat, ghost body: Block)
      ensures counter == 0 && this.stats == stats && this.rtn == rtn && this.numins == numins && this.body == body
    {
      counter := 0;
      this.stats, this.rtn, this.numins, this.body := stats, rtn, numins, body;
    }

    ghost predicate Valid()
      reads stats
    {
      LegalBlock(body) && stats[..] == IndexString(body) + [0] && numins == |body|
    }

    ghost function View(): Record
      reads this
    {
      Record(rtn, body, counter)
    }
  }

  ghost function Views(list: seq<BblStats>): seq<Record>
    reads list
  {
    seq(|list|, i requires 0 <= i < |list| reads list => list[i].View())
  }

  lemma {:induction false} ViewsPermute(a: seq<BblStats>, b: seq<BblStats>)
    requires multiset(a) == multiset(b)
    ensures multiset(Views(a)) == multiset(Views(b))
    decreases |a|
  {
    if a == [] {
      assert |multiset(b)| == 0;
    } else {
      hide Views, Skip;
      var n, i := SameLast(a, b);
      ViewsPermute(Skip(a, n), Skip(b, i));
      ViewsSkip(a, n);
      ViewsSkip(b, i);
    }
  }

  lemma ViewsSkip(a: seq<BblStats>, i: nat)
    requires i < |a|
    ensures multiset(Views(a)) == multiset(Views(Skip(a, i))) + multiset{a[i].View()}
  {
    assert Views(Skip(a, i)) == Skip(Views(a), i);
    WithoutOne(Views(a), i);
    assert a[i].View() in multiset(Views(a));
  }

  /** The inner loop of Fini: add a block's counter at every index of its string. */
  method Accumulate(b: BblStats, local: array<int>, global: array<int>, ghost open: seq<Record>, ghost all: seq<Record>)
    requires b.Valid() && local != global && b.stats != local && b.stats != global
    requires local.Length == global.Length == MAX_INDEX
    requires Holds(global[..], all)
    modifies local, global
    ensures old(Holds(local[..], open)) ==> Holds(local[..], open + [b.View()])
    ensures Holds(global[..], all + [b.View()])
  {
    hide Tally, IndexString;
    ghost var s := IndexString(b.body);
    ghost var l0, g0 := local[..], global[..];
    var j := 0;
    while b.stats[j] != 0
      invariant j <= |s| && b.stats[..] == s + [0]
      invariant forall k :: 0 <= k < MAX_INDEX ==>
                  local[k] == l0[k] + b.counter * Occurrences(s[..j], k) &&
                  global[k] == g0[k] + b.counter * Occurrences(s[..j], k)
      decreases |s| - j
    {
      ScanStopsAtTerminator(b.body, b.stats[..], j);
      StringRange(b.body);
      var index := b.stats[j];
      assert index == s[j] && s[j] in s;
      local[index] := local[index] + b.counter;
      global[index] := global[index] + b.counter;
      forall k ensures b.counter * Occurrences(s[..j + 1], k) ==
                       b.counter * Occurrences(s[..j], k) + if k == index then b.counter else 0
      {
        OneMore(b.counter, s, j, k);
      }
      j := j + 1;
    }
    ScanStopsAtTerminator(b.body, b.stats[..], j);
    assert s[..j] == s;
    forall k ensures Tally(open + [b.View()], k) == Tally(open, k) + b.counter * Occurrences(s, k) {
      TallyAppend(open, b.View(), k);
    }
    forall k ensures Tally(all + [b.View()], k) == Tally(all, k) + b.counter * Occurrences(s, k) {
      TallyAppend(all, b.View(), k);
    }
  }

  lemma OneMore(c: nat, s: seq<int>, j: nat, k: int)
    requires j < |s|
    ensures c * Occurrences(s[..j + 1], k) == c * Occurrences(s[..j], k) + if k == s[j] then c else 0
  {
    assert s[..j + 1] == s[..j] + [s[j]];
    assert Occurrences(s[..j + 1], k) == Occurrences(s[..j], k) + if k == s[j] then 1 else 0;
    Distribute(c, Occurrences(s[..j], k), if k == s[j] then 1 else 0);
  }

  lemma TallyAppend(rs: seq<Record>, r: Record, k: int)
    ensures Tally(rs + [r], k) == Tally(rs, k) + r.counter * Occurrences(IndexString(r.body), k)
  {
    hide Tally, IndexString, Occurrences;
    TallyConcat(rs, [r], k);
    TallyOne(r, k);
  }

  // ---------------------------------------------------------------- the scan of Fini

  lemma NoNewRecords(rtn: Routine)
    ensures NewRecords(rtn, []) == []
  {
  }

  lemma NewRecordsPrefix(rtn: Routine, bbls: seq<Block>, i: nat)
    requires i < |bbls|
    ensures NewRecords(rtn, bbls[..i + 1]) == NewRecords(rtn, bbls[..i]) + [Record(RtnNum(rtn), bbls[i], 0)]
  {
  }

  /** Sections printed before the records of `rs` are all seen: the last stretch is still open. */
  function Before(rs: seq<Record>): seq<Section> {
    if rs == [] then [] else Sections(Runs(rs)[..|Runs(rs)| - 1])
  }

  function OpenRun(rs: seq<Record>): seq<Record> {
    if rs == [] then [] else Runs(rs)[|Runs(rs)| - 1]
  }

  lemma Unfold(rs: seq<Record>)
    requires rs != []
    ensures |Runs(rs)| > 0
    ensures Before(rs) == Sections(Runs(rs)[..|Runs(rs)| - 1])
    ensures OpenRun(rs) == Runs(rs)[|Runs(rs)| - 1]
  {
    hide Runs, Sections;
  }

  lemma ScanStep(rs: seq<Record>, r: Record)
    ensures var continues := rs != [] && rs[|rs| - 1].rtn == r.rtn;
            && Before(rs + [r]) == (if continues then Before(rs) else Sections(Runs(rs)))
            && OpenRun(rs + [r]) == (if continues then OpenRun(rs) + [r] else [r])
  {
    hide Report, Runs, Sections, Before, OpenRun;
    RunsAppend(rs, r);
    Unfold(rs + [r]);
    if rs != [] {
      Unfold(rs);
    }
  }

  lemma CloseRun(rs: seq<Record>)
    requires rs != []
    ensures Sections(Runs(rs)) ==
            Before(rs) + if rs[|rs| - 1].rtn > 0 then [Section(rs[|rs| - 1].rtn, Report(OpenRun(rs)))] else []
  {
    hide Report;
    RunRoutine(rs);
  }

  /** The variables of Fini's scan after the records `done`. */
  ghost predicate ScanState(done: seq<Record>, rtnNum: nat, sections: seq<Section>, local: seq<int>, profile: bool) {
    && rtnNum == (if done == [] then 0 else done[|done| - 1].rtn)
    && sections == (if profile then Before(done) else [])
    && (rtnNum > 0 ==> Holds(local, OpenRun(done)))
  }

  lemma ScanStarts(local: seq<int>, profile: bool)
    ensures ScanState([], 0, [], local, profile)
  {
  }

  lemma ScanContinues(done: seq<Record>, r: Record, sections: seq<Section>, local: seq<int>, local': seq<int>, profile: bool)
    requires ScanState(done, r.rtn, sections, local, profile)
    requires Holds(local, OpenRun(done)) ==> Holds(local', OpenRun(done) + [r])
    ensures ScanState(done + [r], r.rtn, sections, local', profile)
  {
    hide Runs, Sections, Report, Before, OpenRun, Holds;
    ScanStep(done, r);
    NoRuns();
  }

  lemma ScanBegins(done: seq<Record>, r: Record, sections: seq<Section>, local: seq<int>, profile: bool)
    requires done != [] ==> done[|done| - 1].rtn != r.rtn
    requires sections == if profile then Sections(Runs(done)) else []
    requires Holds(local, [r])
    ensures ScanState(done + [r], r.rtn, sections, local, profile)
  {
    hide Runs, Sections, Report, Before, OpenRun, Holds, Tally;
    var all := done + [r];
    ScanStep(done, r);
    assert all[|all| - 1] == r;
    assert Before(all) == Sections(Runs(done)) && OpenRun(all) == [r];
  }

  /** The section of the routine just left, printed unless its id is 0. */
  method PrintSection(sections: seq<Section>, rtnNum: nat, local: array<int>, profile: bool, ghost done: seq<Record>)
    returns (r: seq<Section>)
    requires ScanState(done, rtnNum, sections, local[..], profile)
    modifies local
    ensures r == if profile then Sections(Runs(done)) else []
  {
    hide Runs, Sections, Report, Before, OpenRun, Holds;
    r := sections;
    NoRuns();
    if done != [] {
      CloseRun(done);
    }
    if rtnNum > 0 && profile {
      DumpStats(local, OpenRun(done));
      r := r + [Section(rtnNum, local[..])];
    }
  }

  class Insmix {
    var enabled: nat
    var statsList: seq<BblStats>
    var rtnTable: Table
    const globalDynamic: array<int>

    /** The tool between its start and Fini. */
    ghost predicate Valid()
      reads this, globalDynamic, statsList, set b: BblStats | b in statsList :: b.stats
    {
      && globalDynamic.Length == MAX_INDEX
      && (forall k :: 0 <= k < MAX_INDEX ==> globalDynamic[k] == 0)
      && (forall b: BblStats :: b in statsList ==> b.Valid() && b.stats != globalDynamic)
      && (forall i, j :: 0 <= i < j < |statsList| ==> statsList[i] != statsList[j])
    }

    ghost function View(): State
      reads this, statsList
    {
      State(enabled, Views(statsList), rtnTable)
    }

    constructor ()
      ensures Valid() && statsList == [] && View() == Run([]) && fresh(globalDynamic)
    {
      enabled, statsList, rtnTable := 0, [], map[];
      globalDynamic := new int[MAX_INDEX](_ => 0);
    }

    /** Handler */
    method Handler(start: bool)
      requires Valid()
      modifies this`enabled
      ensures Valid() && View() == Step(old(View()), if start then Start else Stop)
    {
      if start {
        enabled := 1;
      } else {
        enabled := 0;
      }
    }

    /** docount on the counter of b, the n-th instrumented block. */
    method DoCount(b: BblStats, ghost n: nat)
      requires Valid() && n < |statsList| && b == statsList[n]
      modifies b`counter
      ensures Valid() && View() == Step(old(View()), Execute(n))
    {
      b.counter := b.counter + enabled;
    }

    /** The body of the loop in Trace: a BBLSTATS for one block. */
    method AddBlock(rtnNum: nat, bbl: Block)
      requires Valid() && LegalBlock(bbl)
      modifies this`statsList
      ensures Valid()
      ensures |statsList| == |old(statsList)| + 1 && statsList[..|old(statsList)|] == old(statsList)
      ensures fresh(statsList[|old(statsList)|]) && fresh(statsList[|old(statsList)|].stats)
      ensures Views(statsList) == old(Views(statsList)) + [Record(rtnNum, bbl, 0)]
    {
      var stats := BuildIndexString(bbl);
      var b := new BblStats(stats, rtnNum, |bbl|, bbl);
      statsList := statsList + [b];
    }

    /** Trace: enter the routine in the table, build a BBLSTATS for every block. */
    method Trace(rtn: Routine, bbls: seq<Block>)
      requires Valid() && forall i :: 0 <= i < |bbls| ==> LegalBlock(bbls[i])
      modifies this`statsList, this`rtnTable
      ensures Valid() && View() == Step(old(View()), Instrument(rtn, bbls))
      ensures |statsList| == |old(statsList)| + |bbls| && statsList[..|old(statsList)|] == old(statsList)
      ensures forall i :: |old(statsList)| <= i < |statsList| ==> fresh(statsList[i]) && fresh(statsList[i].stats)
    {
      var rtnNum, address := 0, 0;
      if rtn.Known? {
        rtnNum, address := rtn.id, rtn.address;
      }
      if rtnNum !in rtnTable {
        rtnTable := rtnTable[rtnNum := address];
      }
      AddBlocks(rtn, rtnNum, bbls);
    }

    /** The loop over the blocks of a trace. */
    method AddBlocks(ghost rtn: Routine, rtnNum: nat, bbls: seq<Block>)
      requires Valid() && rtnNum == RtnNum(rtn) && forall i :: 0 <= i < |bbls| ==> LegalBlock(bbls[i])
      modifies this`statsList
      ensures Valid() && Views(statsList) == old(Views(statsList)) + NewRecords(rtn, bbls)
      ensures |statsList| == |old(statsList)| + |bbls| && statsList[..|old(statsList)|] == old(statsList)
      ensures forall i :: |old(statsList)| <= i < |statsList| ==> fresh(statsList[i]) && fresh(statsList[i].stats)
    {
      hide LegalBlock, IndexString, Views, NewRecords;
      ghost var n := |statsList|;
      ghost var records := Views(statsList);
      NoNewRecords(rtn);
      for i := 0 to |bbls|
        invariant Valid()
        invariant |statsList| == n + i && statsList[..n] == old(statsList)
        invariant Views(statsList) == records + NewRecords(rtn, bbls[..i])
        invariant forall j :: n <= j < |statsList| ==> fresh(statsList[j]) && fresh(statsList[j].stats)
      {
        NewRecordsPrefix(rtn, bbls, i);
        AddBlock(rtnNum, bbls[i]);
      }
      assert bbls[..|bbls|] == bbls;
    }

    /** One event: Pin calls the tool's handler for it. */
    method Take(e: Event)
      requires Valid() && (e.Instrument? ==> forall i :: 0 <= i < |e.bbls| ==> LegalBlock(e.bbls[i]))
      modifies this`enabled, this`statsList, this`rtnTable, set b: BblStats | b in statsList
      ensures Valid() && View() == Step(old(View()), e)
      ensures forall b: BblStats :: b in statsList ==> b in old(statsList) || (fresh(b) && fresh(b.stats))
    {
      match e {
        case Instrument(rtn, bbls) =>
          Trace(rtn, bbls);
        case Start =>
          Handler(true);
        case Stop =>
          Handler(false);
        case Execute(n) =>
          if n < |statsList| {
            DoCount(statsList[n], n);
          }
      }
    }

    /** Fini, called once. `sorted` is what std::sort leaves in the list; the local table is
        not initialised, as in the source. */
    method Fini(sorted: seq<BblStats>, profileRoutines: bool) returns (sections: seq<Section>)
      requires Valid() && InTable(Views(statsList), rtnTable)
      requires multiset(sorted) == multiset(statsList)
      requires InTable(Views(sorted), rtnTable) && SortedByAddress(Views(sorted), rtnTable)
      modifies this`statsList, globalDynamic
      ensures statsList == sorted && Views(sorted) == old(Views(sorted))
      ensures multiset(Views(sorted)) == multiset(old(Views(statsList)))
      ensures sections == if profileRoutines then Sections(Runs(Views(sorted))) else []
      ensures globalDynamic[..] == Report(Views(sorted))
    {
      hide Report, Runs, Sections;
      forall b: BblStats | b in sorted ensures b in statsList {
        assert b in multiset(sorted);
      }
      ViewsPermute(sorted, statsList);
      statsList := sorted;
      EmptyTables(globalDynamic[..]);
      sections := Scan(profileRoutines);
    }

    /** The scan of Fini over the sorted list, ended by a null entry. */
    method Scan(profileRoutines: bool) returns (sections: seq<Section>)
      requires globalDynamic.Length == MAX_INDEX && Holds(globalDynamic[..], [])
      requires forall b: BblStats :: b in statsList ==> b.Valid() && b.stats != globalDynamic
      modifies globalDynamic
      ensures sections == if profileRoutines then Sections(Runs(Views(statsList))) else []
      ensures globalDynamic[..] == Report(Views(statsList))
    {
      hide Tally, Report, Runs, Sections, Holds, ScanState, IndexString, LegalBlock, OpenRun;
      ghost var rs := Views(statsList);
      var dynamicRtn := new int[MAX_INDEX];
      var list: seq<BblStats?> := statsList;
      list := list + [null];
      var rtnNum := 0;
      sections := [];
      ScanStarts(dynamicRtn[..], profileRoutines);
      var i := 0;
      while i < |list|
        invariant i <= |statsList| && Views(statsList) == rs
        invariant dynamicRtn.Length == MAX_INDEX
        invariant forall b: BblStats :: b in statsList ==> b.Valid() && b.stats != globalDynamic && b.stats != dynamicRtn
        invariant Holds(globalDynamic[..], rs[..i])
        invariant ScanState(rs[..i], rtnNum, sections, dynamicRtn[..], profileRoutines)
        decreases |list| - i
      {
        var b := list[i];
        ghost var done, open := rs[..i], OpenRun(rs[..i]);
        ghost var changed := b == null || rtnNum != b.rtn;
        if b == null || rtnNum != b.rtn {
          LastRoutine(done, rtnNum, sections, dynamicRtn[..], profileRoutines);
          sections := PrintSection(sections, rtnNum, dynamicRtn, profileRoutines, done);
          if b != null {
            rtnNum := b.rtn;
            Clear(dynamicRtn);
            open := [];
            EmptyTables(dynamicRtn[..]);
          } else {
            break;
          }
        }
        ghost var before := dynamicRtn[..];
        Accumulate(b, dynamicRtn, globalDynamic, open, done);
        assert rs[i] == b.View() && rs[..i + 1] == done + [rs[i]];
        if changed {
          assert [] + [rs[i]] == [rs[i]];
          ScanBegins(done, rs[i], sections, dynamicRtn[..], profileRoutines);
        } else {
          ScanContinues(done, rs[i], sections, before, dynamicRtn[..], profileRoutines);
        }
        i := i + 1;
      }
      assert rs[..|statsList|] == rs;
      DumpStats(globalDynamic, rs);
    }
  }

  /** A sort of the list: given the routines of its entries, and their addresses, the positions the
      entries come from. */
  type Sort = (seq<nat>, Table) -> seq<nat>

  /** The contract of std::sort: every entry is still there, once, and no later one is less than an
      earlier one. */
  ghost predicate Sorts(sort: Sort) {
    forall ids: seq<nat>, table: Table :: (forall i :: 0 <= i < |ids| ==> ids[i] in table) ==>
      SortedPositions(sort(ids, table), ids, table)
  }

  ghost predicate SortedPositions(p: seq<nat>, ids: seq<nat>, table: Table) {
    && Perm(p, |ids|)
    && (forall i :: 0 <= i < |p| ==> ids[p[i]] in table)
    && (forall i, j :: 0 <= i < j < |p| ==> table[ids[p[i]]] <= table[ids[p[j]]])
  }

  function Ids(list: seq<BblStats>): seq<nat> {
    seq(|list|, i requires 0 <= i < |list| => list[i].rtn)
  }

  /** The tool over a whole run, Fini included, with any function that sorts: at every index the dumped
      table has the number of executed instructions the index describes, and as *total the number of
      instructions executed while enabled; every routine gets its one right section when no routine
      with several blocks shares its address. */
  method ProfileRun(events: seq<Event>, sort: Sort, profileRoutines: bool)
    returns (sections: seq<Section>, counts: seq<int>)
    requires LegalRun(events) && Sorts(sort)
    ensures |counts| == MAX_INDEX
    ensures forall k :: 0 <= k < MAX_INDEX ==>
              counts[k] ==
              if k == INDEX_TOTAL then InstructionsIn(Executed(events)) else DescribedIn(Executed(events), k)
    ensures InTable(Run(events).records, Run(events).table)
    ensures profileRoutines && NoSplit(Run(events).records, Run(events).table) ==>
              GoodReport(sections, Run(events).records) && RightSections(events, sections)
    ensures profileRoutines ==> RightSums(events, sections) && AddressesAscend(sections, Run(events).table)
    ensures !profileRoutines ==> sections == []
  {
    hide RightSections, RightSums, Run, Report, Runs, Sections, GoodReport, NoSplit, DescribedIn, InstructionsIn, Executed, LegalRun,
      LegalBlock, SortedByAddress, At, InRange, Ids, SortedPositions, IndexString, Sorts, Instrumented, Enabled;
    var tool := Replay(events);
    ghost var records, table := Views(tool.statsList), tool.rtnTable;
    assert Run(events).records == records && Run(events).table == table;
    RunShape(events);
    var order := sort(Ids(tool.statsList), tool.rtnTable);
    IdsInTable(tool.statsList, tool.rtnTable);
    SortApplies(sort, Ids(tool.statsList), tool.rtnTable);
    SortedViews(order, tool.statsList, tool.rtnTable);
    var sorted := At(tool.statsList, order);
    sections := tool.Fini(sorted, profileRoutines);
    counts := tool.globalDynamic[..];
    WholeRun(events, Views(sorted), table);
    SectionsUnder(events, Views(sorted));
    SectionsInOrder(Views(sorted), table);
  }

  /** The tool after a run. */
  method Replay(events: seq<Event>) returns (tool: Insmix)
    requires LegalRun(events)
    ensures tool.Valid() && fresh(tool) && fresh(tool.globalDynamic) && tool.View() == Run(events)
  {
    hide Run, Step, LegalRun, LegalBlock, IndexString;
    tool := new Insmix();
    assert events[..0] == [];
    for i := 0 to |events|
      invariant tool.Valid() && fresh(tool) && fresh(tool.globalDynamic)
      invariant forall b: BblStats :: b in tool.statsList ==> fresh(b) && fresh(b.stats)
      invariant tool.View() == Run(events[..i])
    {
      LegalEvent(events, i);
      tool.Take(events[i]);
      RunStep(events, i);
    }
    assert events[..|events|] == events;
  }

  lemma SortApplies(sort: Sort, ids: seq<nat>, table: Table)
    requires Sorts(sort) && forall i :: 0 <= i < |ids| ==> ids[i] in table
    ensures SortedPositions(sort(ids, table), ids, table)
  {
    hide SortedPositions;
  }

  lemma RunStep(events: seq<Event>, i: nat)
    requires i < |events|
    ensures Run(events[..i + 1]) == Step(Run(events[..i]), events[i])
  {
    hide Step;
    assert events[..i + 1][..i] == events[..i];
  }

  lemma {:induction false} InstrumentedPrefix(events: seq<Event>, i: nat)
    requires i <= |events|
    ensures Instrumented(events[..i]) <= Instrumented(events)
  {
    if i < |events| {
      InstrumentedPrefix(events[..|events| - 1], i);
      assert events[..|events| - 1][..i] == events[..i];
    } else {
      assert events[..i] == events;
    }
  }

  lemma LegalEvent(events: seq<Event>, i: nat)
    requires LegalRun(events) && i < |events|
    ensures events[i].Instrument? ==> forall k :: 0 <= k < |events[i].bbls| ==> LegalBlock(events[i].bbls[k])
  {
    hide LegalBlock;
    InstrumentedPrefix(events, i + 1);
    if events[i].Instrument? {
      var before := Instrumented(events[..i]);
      assert events[..i + 1][..i] == events[..i];
      assert Instrumented(events[..i + 1]) == before + events[i].bbls;
      forall k | 0 <= k < |events[i].bbls| ensures LegalBlock(events[i].bbls[k]) {
        assert Instrumented(events)[|before| + k] == events[i].bbls[k];
      }
    }
  }

  lemma SortedViews(p: seq<nat>, list: seq<BblStats>, table: Table)
    requires SortedPositions(p, Ids(list), table) && InTable(Views(list), table)
    ensures InRange(p, |list|)
    ensures multiset(At(list, p)) == multiset(list)
    ensures InTable(Views(At(list, p)), table) && SortedByAddress(Views(At(list, p)), table)
    ensures multiset(Views(At(list, p))) == multiset(Views(list))
  {
    AtPermutes(list, p, Positions(|list|));
    AtPositions(list);
    ViewsPermute(At(list, p), list);
  }

  lemma IdsInTable(list: seq<BblStats>, table: Table)
    requires InTable(Views(list), table)
    ensures |Ids(list)| == |list| && forall i :: 0 <= i < |list| ==> Ids(list)[i] in table
  {
    forall i | 0 <= i < |list| ensures Ids(list)[i] in table {
      assert Views(list)[i].rtn in table;
    }
  }

  lemma LastRoutine(done: seq<Record>, rtnNum: nat, sections: seq<Section>, local: seq<int>, profile: bool)
    requires ScanState(done, rtnNum, sections, local, profile)
    ensures done != [] ==> done[|done| - 1].rtn == rtnNum
  {
  }

  lemma EmptyTables(c: seq<int>)
    requires |c| == MAX_INDEX && forall k :: 0 <= k < MAX_INDEX ==> c[k] == 0
    ensures Holds(c, [])
  {
  }

  lemma NoRuns()
    ensures Before([]) == [] && Sections(Runs([])) == []
  {
  }
}
