/** What `Fini` of pin/insmix.cpp reports, on the values it sees: one record per
    instrumented block, in the order `sort` leaves them in. */
module InsmixReport {
  import opened IndexStrings
  import opened Permutations

  /** A BBLSTATS record: routine id, block, and times executed while enabled. */
  datatype Record = Record(rtn: nat, body: Block, counter: nat)

  type Counts = seq<int>
  datatype Section = Section(rtn: nat, counts: Counts)

  /** rtn_table, routine id to address. */
  type Table = map<nat, nat>

  // ---------------------------------------------------------------- sums over records

  function Weight(r: Record, k: int): int {
    r.counter * Occurrences(IndexString(r.body), k)
  }

  /** Emissions of index k by the executions the records count. */
  function Tally(rs: seq<Record>, k: int): int {
    if rs == [] then 0 else Tally(rs[..|rs| - 1], k) + Weight(rs[|rs| - 1], k)
  }

  function Filter(rs: seq<Record>, rtn: nat): seq<Record> {
    if rs == [] then []
    else
      var r := rs[|rs| - 1];
      Filter(rs[..|rs| - 1], rtn) + (if r.rtn == rtn then [r] else [])
  }

  lemma {:induction false} TallyConcat(a: seq<Record>, b: seq<Record>, k: int)
    ensures Tally(a + b, k) == Tally(a, k) + Tally(b, k)
  {
    hide Weight;
    if b == [] {
      assert a + b == a;
    } else {
      TallyConcat(a, b[..|b| - 1], k);
      assert (a + b)[..|a + b| - 1] == a + b[..|b| - 1];
    }
  }

  lemma TallyOne(r: Record, k: int)
    ensures Tally([r], k) == Weight(r, k)
  {
    hide Weight;
    assert [r][..0] == [];
  }

  lemma {:induction false} FilterConcat(a: seq<Record>, b: seq<Record>, rtn: nat)
    ensures Filter(a + b, rtn) == Filter(a, rtn) + Filter(b, rtn)
  {
    if b == [] {
      assert a + b == a;
    } else {
      FilterConcat(a, b[..|b| - 1], rtn);
      assert (a + b)[..|a + b| - 1] == a + b[..|b| - 1];
    }
  }

  /** Reordering records changes no sum. */
  lemma {:induction false} TallyPermutes(a: seq<Record>, b: seq<Record>, k: int)
    requires multiset(a) == multiset(b)
    ensures Tally(a, k) == Tally(b, k)
    decreases |a|
  {
    if a == [] {
      assert |multiset(b)| == 0;
    } else {
      hide Tally, Weight, Skip;
      var n, i := SameLast(a, b);
      TallyPermutes(Skip(a, n), Skip(b, i), k);
      TallySkip(a, n, k);
      TallySkip(b, i, k);
    }
  }

  lemma TallySkip(a: seq<Record>, i: nat, k: int)
    requires i < |a|
    ensures Tally(a, k) == Tally(Skip(a, i), k) + Weight(a[i], k)
  {
    hide Tally, Weight;
    TallyMiddle(a[..i], a[i], a[i + 1..], k);
    assert a == a[..i] + ([a[i]] + a[i + 1..]);
  }

  lemma TallyMiddle(a: seq<Record>, r: Record, b: seq<Record>, k: int)
    ensures Tally(a + ([r] + b), k) == Tally(a + b, k) + Weight(r, k)
  {
    hide Tally, Weight;
    TallyConcat(a, [r] + b, k);
    TallyConcat([r], b, k);
    TallyConcat(a, b, k);
    TallyOne(r, k);
  }

  lemma {:induction false} FilterCounts(rs: seq<Record>, rtn: nat, r: Record)
    ensures multiset(Filter(rs, rtn))[r] == if r.rtn == rtn then multiset(rs)[r] else 0
  {
    if rs != [] {
      var n := |rs| - 1;
      FilterCounts(rs[..n], rtn, r);
      assert rs == rs[..n] + [rs[n]];
    }
  }

  lemma FilterPermutes(a: seq<Record>, b: seq<Record>, rtn: nat)
    requires multiset(a) == multiset(b)
    ensures multiset(Filter(a, rtn)) == multiset(Filter(b, rtn))
  {
    forall r: Record ensures multiset(Filter(a, rtn))[r] == multiset(Filter(b, rtn))[r] {
      FilterCounts(a, rtn, r);
      FilterCounts(b, rtn, r);
    }
  }

  // ---------------------------------------------------------------- a dumped table

  /** Sum of Tally over the plain opcodes 0..n-1. */
  function BelowSpecial(rs: seq<Record>, n: nat): int {
    if n == 0 then 0 else BelowSpecial(rs, n - 1) + Tally(rs, n - 1)
  }

  /** The table DumpStats prints for these records when it starts from zeros. */
  function Report(rs: seq<Record>): Counts {
    seq(MAX_INDEX, k requires 0 <= k < MAX_INDEX =>
      if k == INDEX_TOTAL then Tally(rs, k) + BelowSpecial(rs, INDEX_SPECIAL) else Tally(rs, k))
  }

  /** Instructions executed: every record contributes its executions times its length. */
  function Instructions(rs: seq<Record>): int {
    if rs == [] then 0
    else Instructions(rs[..|rs| - 1]) + rs[|rs| - 1].counter * |rs[|rs| - 1].body|
  }

  ghost predicate LegalRecords(rs: seq<Record>) {
    forall i :: 0 <= i < |rs| ==> LegalBlock(rs[i].body)
  }

  /** Instructions of a block with an opcode below n. */
  function OpcodesBelow(bbl: Block, n: nat): nat {
    if bbl == [] then 0
    else OpcodesBelow(bbl[..|bbl| - 1], n) + if bbl[|bbl| - 1].opcode < n then 1 else 0
  }

  lemma {:induction false} OpcodesBelowStep(bbl: Block, n: nat)
    requires LegalBlock(bbl) && n < INDEX_SPECIAL
    ensures OpcodesBelow(bbl, n + 1) == OpcodesBelow(bbl, n) + Occurrences(IndexString(bbl), n)
  {
    if bbl == [] {
    } else {
      var b, ins := bbl[..|bbl| - 1], bbl[|bbl| - 1];
      OpcodesBelowStep(b, n);
      hide Occurrences, IndexString, Emission;
      StringMeaning(bbl, n);
      StringMeaning(b, n);
    }
  }

  lemma {:induction false} OpcodesBelowEnds(bbl: Block)
    requires LegalBlock(bbl)
    ensures OpcodesBelow(bbl, 0) == 0 && OpcodesBelow(bbl, INDEX_SPECIAL) == |bbl|
  {
    if bbl != [] {
      OpcodesBelowEnds(bbl[..|bbl| - 1]);
      assert Legal(bbl[|bbl| - 1]);
    }
  }

  lemma {:induction false} BelowSpecialStep(rs: seq<Record>, n: nat)
    requires rs != [] && LegalRecords(rs) && n <= INDEX_SPECIAL
    ensures var r := rs[|rs| - 1];
            BelowSpecial(rs, n) == BelowSpecial(rs[..|rs| - 1], n) + r.counter * OpcodesBelow(r.body, n)
  {
    hide Occurrences, OpcodesBelow, Tally;
    var r := rs[|rs| - 1];
    if n == 0 {
      OpcodesBelowEnds(r.body);
    } else {
      BelowSpecialStep(rs, n - 1);
      TallyLast(rs, n - 1);
      OpcodesBelowStep(r.body, n - 1);
      Distribute(r.counter, OpcodesBelow(r.body, n - 1), Occurrences(IndexString(r.body), n - 1));
    }
  }

  lemma TallyLast(rs: seq<Record>, k: int)
    requires rs != []
    ensures var r := rs[|rs| - 1];
            Tally(rs, k) == Tally(rs[..|rs| - 1], k) + r.counter * Occurrences(IndexString(r.body), k)
  {
    hide Occurrences, IndexString;
  }

  lemma Distribute(c: int, a: int, b: int)
    ensures c * (a + b) == c * a + c * b
  {
  }

  lemma {:induction false} BelowSpecialIsInstructions(rs: seq<Record>)
    requires LegalRecords(rs)
    ensures BelowSpecial(rs, INDEX_SPECIAL) == Instructions(rs)
  {
    if rs == [] {
      EmptyBelow(INDEX_SPECIAL);
    } else {
      BelowSpecialIsInstructions(rs[..|rs| - 1]);
      BelowSpecialStep(rs, INDEX_SPECIAL);
      OpcodesBelowEnds(rs[|rs| - 1].body);
    }
  }

  lemma {:induction false} EmptyBelow(n: nat)
    ensures BelowSpecial([], n) == 0
  {
    if n > 0 {
      EmptyBelow(n - 1);
    }
  }

  lemma {:induction false} NoTotalEmitted(rs: seq<Record>)
    requires LegalRecords(rs)
    ensures Tally(rs, INDEX_TOTAL) == 0
  {
    hide Occurrences, IndexString, Tally;
    if rs == [] {
      assert Tally([], INDEX_TOTAL) == 0 by { EmptyTally(INDEX_TOTAL); }
    } else {
      NoTotalEmitted(rs[..|rs| - 1]);
      TallyLast(rs, INDEX_TOTAL);
      TotalNotInString(rs[|rs| - 1].body);
    }
  }

  lemma EmptyTally(k: int)
    ensures Tally([], k) == 0
  {
  }

  lemma TotalNotInString(bbl: Block)
    requires LegalBlock(bbl)
    ensures Occurrences(IndexString(bbl), INDEX_TOTAL) == 0
  {
    hide IndexString, Occurrences;
    StringRange(bbl);
    Absent(IndexString(bbl), INDEX_TOTAL);
  }

  lemma Absent(s: seq<int>, k: int)
    requires k !in s
    ensures Occurrences(s, k) == 0
  {
  }

  /** The *total line of a dumped table is the number of instructions executed. */
  lemma TotalIsInstructions(rs: seq<Record>)
    requires LegalRecords(rs)
    ensures Report(rs)[INDEX_TOTAL] == Instructions(rs)
  {
    hide Tally, BelowSpecial, Instructions;
    BelowSpecialIsInstructions(rs);
    NoTotalEmitted(rs);
    assert Report(rs)[INDEX_TOTAL] == Tally(rs, INDEX_TOTAL) + BelowSpecial(rs, INDEX_SPECIAL);
  }

  // ---------------------------------------------------------------- group-by over a sorted list

  /** Maximal stretches of records of one routine. */
  function Runs(rs: seq<Record>): (g: seq<seq<Record>>)
    ensures |g| > 0 <==> rs != []
    ensures forall i :: 0 <= i < |g| ==> g[i] != []
    ensures rs != [] ==> g[|g| - 1][|g[|g| - 1]| - 1] == rs[|rs| - 1]
  {
    if rs == [] then []
    else
      var r := rs[|rs| - 1];
      var g := Runs(rs[..|rs| - 1]);
      if |rs| > 1 && rs[|rs| - 2].rtn == r.rtn then g[..|g| - 1] + [g[|g| - 1] + [r]] else g + [[r]]
  }

  /** The per-routine sections Fini prints: one per stretch, none for routine id 0. */
  function Sections(g: seq<seq<Record>>): seq<Section> {
    if g == [] then []
    else
      var last := g[|g| - 1];
      Sections(g[..|g| - 1]) +
      (if last != [] && last[0].rtn > 0 then [Section(last[0].rtn, Report(last))] else [])
  }

  function SectionsFor(ss: seq<Section>, rtn: nat): seq<Section> {
    if ss == [] then []
    else
      var s := ss[|ss| - 1];
      SectionsFor(ss[..|ss| - 1], rtn) + (if s.rtn == rtn then [s] else [])
  }

  /** What the user expects: for every routine with records exactly one section, with the
      sum over all of its records, and no section for anything else. */
  ghost predicate GoodReport(ss: seq<Section>, rs: seq<Record>) {
    forall rtn: nat :: SectionsFor(ss, rtn) == ExpectedSections(rs, rtn)
  }

  function ExpectedSections(rs: seq<Record>, rtn: nat): seq<Section> {
    if rtn > 0 && Filter(rs, rtn) != [] then [Section(rtn, Report(Filter(rs, rtn)))] else []
  }

  predicate InTable(rs: seq<Record>, table: Table) {
    forall i :: 0 <= i < |rs| ==> rs[i].rtn in table
  }

  /** CompareLess */
  predicate CompareLess(a: Record, b: Record, table: Table)
    requires a.rtn in table && b.rtn in table
  {
    table[a.rtn] < table[b.rtn]
  }

  /** The contract of std::sort: no later record is less than an earlier one. */
  ghost predicate SortedByAddress(rs: seq<Record>, table: Table)
    requires InTable(rs, table)
  {
    forall i, j :: 0 <= i < j < |rs| ==> !CompareLess(rs[j], rs[i], table)
  }

  /** No routine with several records shares its address with another routine. */
  ghost predicate NoSplit(rs: seq<Record>, table: Table)
    requires InTable(rs, table)
  {
    forall i, j, q | 0 <= i < |rs| && 0 <= j < |rs| && 0 <= q < |rs| && Clash(rs, i, j, q) ::
      table[rs[q].rtn] != table[rs[i].rtn]
  }

  /** Two records of one routine, and a third of another. */
  ghost predicate Clash(rs: seq<Record>, i: nat, j: nat, q: nat)
    requires i < |rs| && j < |rs| && q < |rs|
  {
    i != j && rs[i].rtn == rs[j].rtn && rs[i].rtn > 0 && rs[q].rtn != rs[i].rtn
  }

  ghost predicate Contiguous(rs: seq<Record>, rtn: nat) {
    forall i, j, k :: 0 <= i < j < k < |rs| && rs[i].rtn == rtn && rs[k].rtn == rtn ==> rs[j].rtn == rtn
  }

  lemma RunsAppend(rs: seq<Record>, r: Record)
    ensures var g, h := Runs(rs + [r]), Runs(rs);
            if rs != [] && rs[|rs| - 1].rtn == r.rtn
            then g[..|g| - 1] == h[..|h| - 1] && g[|g| - 1] == h[|h| - 1] + [r]
            else g[..|g| - 1] == h && g[|g| - 1] == [r]
  {
    var all := rs + [r];
    assert all[..|all| - 1] == rs;
  }

  lemma SectionsForAppend(ss: seq<Section>, t: seq<Section>, rtn: nat)
    requires |t| <= 1
    ensures SectionsFor(ss + t, rtn) == SectionsFor(ss, rtn) + if t != [] && t[0].rtn == rtn then t else []
  {
    if t == [] {
      assert ss + t == ss;
    } else {
      assert (ss + t)[..|ss|] == ss && t == [t[0]];
    }
  }

  lemma RunRoutine(rs: seq<Record>)
    requires rs != []
    ensures var last := Runs(rs)[|Runs(rs)| - 1]; last[0].rtn == rs[|rs| - 1].rtn
  {
  }

  /** Sections of routine rtn for all stretches but the last, which is still open. */
  function Closed(rs: seq<Record>, rtn: nat): seq<Section>
    requires rs != []
  {
    var g := Runs(rs);
    SectionsFor(Sections(g[..|g| - 1]), rtn)
  }

  function Printed(rs: seq<Record>, rtn: nat): seq<Section> {
    SectionsFor(Sections(Runs(rs)), rtn)
  }

  lemma LastSection(rs: seq<Record>, rtn: nat)
    requires rs != []
    ensures var g, r := Runs(rs), rs[|rs| - 1];
            Printed(rs, rtn) == Closed(rs, rtn) +
              if r.rtn > 0 && r.rtn == rtn then [Section(rtn, Report(g[|g| - 1]))] else []
  {
    hide Report;
    var g := Runs(rs);
    RunRoutine(rs);
    var last := g[|g| - 1];
    SectionsForAppend(Sections(g[..|g| - 1]),
                      if last[0].rtn > 0 then [Section(last[0].rtn, Report(last))] else [], rtn);
  }

  lemma ClosedStep(rs: seq<Record>, rtn: nat)
    requires |rs| > 1
    ensures var before := rs[..|rs| - 1];
            Closed(rs, rtn) ==
            if before[|before| - 1].rtn == rs[|rs| - 1].rtn then Closed(before, rtn) else Printed(before, rtn)
  {
    hide Report;
    var g := Runs(rs);
    var h := Runs(rs[..|rs| - 1]);
    assert g[..|g| - 1] == if rs[|rs| - 2].rtn == rs[|rs| - 1].rtn then h[..|h| - 1] else h;
  }

  lemma {:induction false} NoneFiltered(rs: seq<Record>, rtn: nat)
    ensures (forall i :: 0 <= i < |rs| ==> rs[i].rtn != rtn) <==> Filter(rs, rtn) == []
  {
    if rs != [] {
      NoneFiltered(rs[..|rs| - 1], rtn);
    }
  }

  lemma NoneBefore(rs: seq<Record>, rtn: nat)
    requires |rs| > 1 && Contiguous(rs, rtn) && rs[|rs| - 1].rtn == rtn && rs[|rs| - 2].rtn != rtn
    ensures Filter(rs[..|rs| - 1], rtn) == []
  {
    NoneFiltered(rs[..|rs| - 1], rtn);
  }

  lemma {:induction false} LastRunIsAll(rs: seq<Record>, rtn: nat)
    requires rs != [] && Contiguous(rs, rtn) && rs[|rs| - 1].rtn == rtn
    ensures Runs(rs)[|Runs(rs)| - 1] == Filter(rs, rtn)
  {
    var before := rs[..|rs| - 1];
    if before != [] {
      if before[|before| - 1].rtn == rtn {
        LastRunIsAll(before, rtn);
      } else {
        NoneBefore(rs, rtn);
      }
    }
  }

  lemma ContiguousStep(rs: seq<Record>, rtn: nat)
    requires |rs| > 1 && rtn > 0 && Contiguous(rs, rtn)
    requires Printed(rs[..|rs| - 1], rtn) == ExpectedSections(rs[..|rs| - 1], rtn)
    ensures Closed(rs, rtn) == if rs[|rs| - 1].rtn == rtn then [] else ExpectedSections(rs[..|rs| - 1], rtn)
  {
    hide Report, Filter, Runs, Sections, SectionsFor, Closed, Printed;
    var before, r := rs[..|rs| - 1], rs[|rs| - 1];
    ClosedStep(rs, rtn);
    LastSection(before, rtn);
    if r.rtn == rtn {
      if before[|before| - 1].rtn != rtn {
        NoneBefore(rs, rtn);
      } else {
        assert |Printed(before, rtn)| == |Closed(before, rtn)| + 1;
      }
    }
  }

  /** A routine whose records lie together gets exactly one section, over all of them. */
  lemma {:induction false} ContiguousSections(rs: seq<Record>, rtn: nat)
    requires rtn > 0 && Contiguous(rs, rtn)
    ensures Printed(rs, rtn) == ExpectedSections(rs, rtn)
  {
    hide Report, Runs, Sections, SectionsFor, Closed, Printed;
    if rs == [] {
      NothingPrinted(rtn);
    } else {
      var before, r := rs[..|rs| - 1], rs[|rs| - 1];
      ContiguousSections(before, rtn);
      LastSection(rs, rtn);
      if r.rtn == rtn {
        LastRunIsAll(rs, rtn);
      } else {
        assert Filter(rs, rtn) == Filter(before, rtn);
      }
      if before == [] {
        FirstClosed(rs, rtn);
      } else {
        ContiguousStep(rs, rtn);
      }
    }
  }

  lemma NothingPrinted(rtn: nat)
    ensures Printed([], rtn) == []
  {
  }

  lemma FirstClosed(rs: seq<Record>, rtn: nat)
    requires |rs| == 1
    ensures Closed(rs, rtn) == []
  {
    var g := Runs(rs);
    assert g[..|g| - 1] == [];
  }

  lemma {:induction false} NoZeroSection(rs: seq<Record>)
    ensures Printed(rs, 0) == []
  {
    hide Report, Runs, Sections, SectionsFor, Closed, Printed;
    if rs == [] {
      NothingPrinted(0);
    } else {
      var before := rs[..|rs| - 1];
      NoZeroSection(before);
      LastSection(rs, 0);
      if before == [] {
        FirstClosed(rs, 0);
      } else {
        ClosedStep(rs, 0);
        LastSection(before, 0);
      }
    }
  }

  // ---------------------------------------------------------------- when is the report good

  lemma SortedIsContiguous(rs: seq<Record>, table: Table, rtn: nat)
    requires InTable(rs, table) && SortedByAddress(rs, table) && NoSplit(rs, table) && rtn > 0
    ensures Contiguous(rs, rtn)
  {
    forall i, j, k | 0 <= i < j < k < |rs| && rs[i].rtn == rtn && rs[k].rtn == rtn
      ensures rs[j].rtn == rtn
    {
      assert !CompareLess(rs[j], rs[i], table) && !CompareLess(rs[k], rs[j], table);
      assert Clash(rs, i, k, j) || rs[j].rtn == rtn;
    }
  }

  /** Records r, q, r in this order make two sections for their routine. */
  lemma {:induction false} SplitPrintsTwice(rs: seq<Record>, i: nat, j: nat, k: nat)
    requires i < j < k < |rs|
    requires rs[i].rtn == rs[k].rtn && rs[j].rtn != rs[i].rtn && rs[i].rtn > 0
    ensures |Printed(rs, rs[i].rtn)| >= 2
    decreases |rs|
  {
    hide Report, Runs, Sections, SectionsFor, Closed, Printed;
    var rtn := rs[i].rtn;
    var n := |rs| - 1;
    var before := rs[..n];
    LastSection(rs, rtn);
    ClosedStep(rs, rtn);
    LastSection(before, rtn);
    if k < n {
      SplitPrintsTwice(before, i, j, k);
    } else if rs[n - 1].rtn == rtn {
      SplitPrintsTwice(before, i, j, n - 1);
    } else {
      PrintsOnce(before, i);
    }
  }

  lemma {:induction false} PrintsOnce(rs: seq<Record>, i: nat)
    requires i < |rs| && rs[i].rtn > 0
    ensures |Printed(rs, rs[i].rtn)| >= 1
    decreases |rs|
  {
    hide Report, Runs, Sections, SectionsFor, Closed, Printed;
    var rtn := rs[i].rtn;
    LastSection(rs, rtn);
    if i < |rs| - 1 {
      ClosedStep(rs, rtn);
      LastSection(rs[..|rs| - 1], rtn);
      PrintsOnce(rs[..|rs| - 1], i);
    }
  }

  /** A list sorted by address exists for every bag of records. */
  lemma {:induction false} SortedList(m: multiset<Record>, table: Table) returns (rs: seq<Record>)
    requires forall r :: r in m ==> r.rtn in table
    ensures multiset(rs) == m && InTable(rs, table) && SortedByAddress(rs, table)
    decreases |m|
  {
    if m == multiset{} {
      rs := [];
    } else {
      var r :| r in m;
      var rest := SortedList(m - multiset{r}, table);
      var p := SplitAt(rest, table, table[r.rtn]);
      rs := Spliced(rest, p, [r], table, table[r.rtn]);
    }
  }

  /** The records below address a, in a sorted list, come first. */
  lemma SplitAt(rs: seq<Record>, table: Table, a: nat) returns (p: nat)
    requires InTable(rs, table) && SortedByAddress(rs, table)
    ensures p <= |rs|
    ensures forall i :: 0 <= i < p ==> table[rs[i].rtn] < a
    ensures forall i :: p <= i < |rs| ==> table[rs[i].rtn] >= a
  {
    p := 0;
    while p < |rs| && table[rs[p].rtn] < a
      invariant p <= |rs|
      invariant forall i :: 0 <= i < p ==> table[rs[i].rtn] < a
    {
      p := p + 1;
    }
    if p < |rs| {
      forall i | p <= i < |rs| ensures table[rs[i].rtn] >= a {
        assert i > p ==> !CompareLess(rs[i], rs[p], table);
      }
    }
  }

  ghost predicate Ascending(a: seq<nat>) {
    forall i, j :: 0 <= i < j < |a| ==> a[i] <= a[j]
  }

  function Addresses(rs: seq<Record>, table: Table): seq<nat>
    requires InTable(rs, table)
  {
    seq(|rs|, i requires 0 <= i < |rs| => table[rs[i].rtn])
  }

  lemma SortedMeansAscending(rs: seq<Record>, table: Table)
    requires InTable(rs, table)
    ensures SortedByAddress(rs, table) <==> Ascending(Addresses(rs, table))
  {
    var a := Addresses(rs, table);
    if Ascending(a) {
      forall i, j | 0 <= i < j < |rs| ensures !CompareLess(rs[j], rs[i], table) {
        assert a[i] <= a[j];
      }
    }
    if SortedByAddress(rs, table) {
      forall i, j | 0 <= i < j < |a| ensures a[i] <= a[j] {
        assert !CompareLess(rs[j], rs[i], table);
      }
    }
  }

  lemma AscendingSplice(lo: seq<nat>, mid: seq<nat>, hi: seq<nat>)
    requires Ascending(lo) && Ascending(mid) && Ascending(hi)
    requires forall i, j :: 0 <= i < |lo| && 0 <= j < |mid| ==> lo[i] <= mid[j]
    requires forall i, j :: 0 <= i < |mid| && 0 <= j < |hi| ==> mid[i] <= hi[j]
    requires mid != []
    ensures Ascending(lo + (mid + hi))
  {
    var s := mid + hi;
    assert Ascending(s);
    assert forall i, j :: 0 <= i < |lo| && 0 <= j < |hi| ==> lo[i] <= mid[0] <= hi[j];
    assert forall i, j :: 0 <= i < |lo| && 0 <= j < |s| ==> lo[i] <= s[j];
  }

  ghost predicate OneAddress(mid: seq<Record>, table: Table, a: nat) {
    mid != [] && InTable(mid, table) && forall i :: 0 <= i < |mid| ==> table[mid[i].rtn] == a
  }

  /** Records of one address put where that address belongs. */
  lemma Spliced(rs: seq<Record>, p: nat, mid: seq<Record>, table: Table, a: nat) returns (s: seq<Record>)
    requires InTable(rs, table) && SortedByAddress(rs, table) && p <= |rs|
    requires OneAddress(mid, table, a)
    requires forall i :: 0 <= i < p ==> table[rs[i].rtn] < a
    requires forall i :: p <= i < |rs| ==> table[rs[i].rtn] >= a
    ensures p + |mid| <= |s| && s[p..p + |mid|] == mid
    ensures multiset(s) == multiset(rs) + multiset(mid)
    ensures InTable(s, table) && SortedByAddress(s, table)
  {
    s := rs[..p] + (mid + rs[p..]);
    SplicedBag(rs, p, mid);
    assert InTable(s, table);
    SplicedAddresses(rs, p, mid, table);
    SortedMeansAscending(rs, table);
    hide SortedByAddress, Addresses;
    var addresses := Addresses(rs, table);
    AscendingSplice(addresses[..p], Addresses(mid, table), addresses[p..]);
    SortedMeansAscending(s, table);
  }

  lemma SplicedBag(rs: seq<Record>, p: nat, mid: seq<Record>)
    requires p <= |rs|
    ensures multiset(rs[..p] + (mid + rs[p..])) == multiset(rs) + multiset(mid)
  {
    assert rs == rs[..p] + rs[p..];
  }

  lemma SplicedAddresses(rs: seq<Record>, p: nat, mid: seq<Record>, table: Table)
    requires InTable(rs, table) && p <= |rs| && InTable(mid, table)
    ensures var s, a := rs[..p] + (mid + rs[p..]), Addresses(rs, table);
            InTable(s, table) && |a| == |rs| && |Addresses(mid, table)| == |mid| &&
            Addresses(s, table) == a[..p] + (Addresses(mid, table) + a[p..])
    ensures forall i :: 0 <= i < |rs| ==> Addresses(rs, table)[i] == table[rs[i].rtn]
    ensures forall i :: 0 <= i < |mid| ==> Addresses(mid, table)[i] == table[mid[i].rtn]
  {
  }

  lemma Without<T>(s: seq<T>, i: nat) returns (s': seq<T>)
    requires i < |s|
    ensures s' == s[..i] + s[i + 1..]
    ensures multiset(s) == multiset(s') + multiset{s[i]}
  {
    WithoutOne(s, i);
    s' := s[..i] + s[i + 1..];
    assert s[i] in multiset(s);
  }

  lemma ThreeOf(rs: seq<Record>, i: nat, j: nat, q: nat) returns (rest: multiset<Record>)
    requires i < |rs| && j < |rs| && q < |rs| && i != j && i != q && j != q
    ensures multiset(rs) == rest + multiset([rs[i], rs[q], rs[j]])
  {
    var s1 := Without(rs, i);
    var j1 := if j < i then j else j - 1;
    var q1 := if q < i then q else q - 1;
    assert s1[j1] == rs[j] && s1[q1] == rs[q];
    var s2 := Without(s1, j1);
    var q2 := if q1 < j1 then q1 else q1 - 1;
    assert s2[q2] == s1[q1];
    var s3 := Without(s2, q2);
    rest := multiset(s3);
    Regroup(multiset(rs), multiset(s1), multiset(s2), rest, rs[i], rs[j], rs[q]);
  }

  lemma Regroup<T>(m: multiset<T>, m1: multiset<T>, m2: multiset<T>, m3: multiset<T>, x: T, y: T, z: T)
    requires m == m1 + multiset{x} && m1 == m2 + multiset{y} && m2 == m3 + multiset{z}
    ensures m == m3 + multiset([x, z, y])
  {
    assert multiset([x, z, y]) == multiset{x} + multiset{z} + multiset{y};
  }

  lemma StillInTable(rs: seq<Record>, table: Table, rest: multiset<Record>)
    requires InTable(rs, table) && rest <= multiset(rs)
    ensures forall r :: r in rest ==> r.rtn in table
  {
    forall r | r in rest ensures r.rtn in table {
      assert r in multiset(rs);
      var k := IndexIn(rs, r);
    }
  }

  lemma TornApart(rs: seq<Record>, table: Table, i: nat, j: nat, q: nat) returns (sorted: seq<Record>, p: nat)
    requires InTable(rs, table) && i < |rs| && j < |rs| && q < |rs| && i != j && q != i && q != j
    requires rs[i].rtn == rs[j].rtn && table[rs[q].rtn] == table[rs[i].rtn]
    ensures multiset(sorted) == multiset(rs)
    ensures InTable(sorted, table) && SortedByAddress(sorted, table)
    ensures p + 2 < |sorted| && sorted[p] == rs[i] && sorted[p + 1] == rs[q] && sorted[p + 2] == rs[j]
  {
    var rest := ThreeOf(rs, i, j, q);
    StillInTable(rs, table, rest);
    var a := table[rs[i].rtn];
    var mid := [rs[i], rs[q], rs[j]];
    assert OneAddress(mid, table, a);
    hide *;
    var t := SortedList(rest, table);
    p := SplitAt(t, table, a);
    sorted := Spliced(t, p, mid, table, a);
    ThreeAt(sorted, p, mid);
  }

  lemma ThreeAt<T>(s: seq<T>, p: nat, mid: seq<T>)
    requires |mid| == 3 && p + 3 <= |s| && s[p..p + 3] == mid
    ensures s[p] == mid[0] && s[p + 1] == mid[1] && s[p + 2] == mid[2]
  {
    var got := s[p..p + 3];
    assert got[0] == s[p] && got[1] == s[p + 1] && got[2] == s[p + 2];
  }

  /** Where two routines share an address, some sorted order tears one of them apart. */
  lemma BadOrder(rs: seq<Record>, table: Table) returns (sorted: seq<Record>)
    requires InTable(rs, table) && !NoSplit(rs, table)
    ensures multiset(sorted) == multiset(rs)
    ensures InTable(sorted, table) && SortedByAddress(sorted, table)
    ensures !GoodReport(Sections(Runs(sorted)), rs)
  {
    hide Runs, Sections, SectionsFor, Report, SortedByAddress;
    var i: nat, j: nat, q: nat :| i < |rs| && j < |rs| && q < |rs| && Clash(rs, i, j, q) &&
      table[rs[q].rtn] == table[rs[i].rtn];
    var p: nat;
    sorted, p := TornApart(rs, table, i, j, q);
    SplitPrintsTwice(sorted, p, p + 1, p + 2);
    assert |SectionsFor(Sections(Runs(sorted)), rs[i].rtn)| >= 2;
    assert |ExpectedSections(rs, rs[i].rtn)| <= 1;
  }

  lemma SameReport(a: seq<Record>, b: seq<Record>)
    requires multiset(a) == multiset(b)
    ensures Report(a) == Report(b)
  {
    hide Tally, BelowSpecial;
    forall k ensures Tally(a, k) == Tally(b, k) {
      TallyPermutes(a, b, k);
    }
    SameBelow(a, b, INDEX_SPECIAL);
  }

  lemma SameExpectation(a: seq<Record>, b: seq<Record>, rtn: nat)
    requires multiset(a) == multiset(b)
    ensures ExpectedSections(a, rtn) == ExpectedSections(b, rtn)
  {
    hide Report, Filter;
    FilterPermutes(a, b, rtn);
    SameReport(Filter(a, rtn), Filter(b, rtn));
    assert |multiset(Filter(a, rtn))| == |Filter(a, rtn)| && |multiset(Filter(b, rtn))| == |Filter(b, rtn)|;
  }

  lemma {:induction false} SameBelow(a: seq<Record>, b: seq<Record>, n: nat)
    requires forall k :: Tally(a, k) == Tally(b, k)
    ensures BelowSpecial(a, n) == BelowSpecial(b, n)
  {
    hide Tally;
    if n > 0 {
      SameBelow(a, b, n - 1);
    }
  }

  lemma SameNoSplit(a: seq<Record>, b: seq<Record>, table: Table)
    requires multiset(a) == multiset(b) && InTable(a, table) && InTable(b, table) && NoSplit(a, table)
    ensures NoSplit(b, table)
  {
    forall i, j, q | 0 <= i < |b| && 0 <= j < |b| && 0 <= q < |b| && Clash(b, i, j, q)
      ensures table[b[q].rtn] != table[b[i].rtn]
    {
      var rest := ThreeOf(b, i, j, q);
      var i', j', q' := FindThree(a, b[i], b[j], b[q], rest);
      assert Clash(a, i', j', q');
    }
  }

  lemma FindThree(a: seq<Record>, x: Record, y: Record, z: Record, rest: multiset<Record>)
    returns (i: nat, j: nat, q: nat)
    requires multiset(a) == rest + multiset([x, z, y])
    ensures i < |a| && j < |a| && q < |a| && i != j && a[i] == x && a[j] == y && a[q] == z
  {
    assert x in multiset(a) && z in multiset(a);
    i := IndexIn(a, x);
    q := IndexIn(a, z);
    WithoutOne(a, i);
    var a' := a[..i] + a[i + 1..];
    assert y in multiset(a');
    var j' := IndexIn(a', y);
    j := if j' < i then j' else j' + 1;
  }

  /** Whatever order an unstable sort by address leaves the records in, every routine gets
      exactly one section with the sums over precisely its records - if and only if no
      routine with several records shares its address with another one. */
  lemma ReportGoodExactly(rs: seq<Record>, table: Table)
    requires InTable(rs, table)
    ensures (forall sorted :: multiset(sorted) == multiset(rs) && InTable(sorted, table) &&
                              SortedByAddress(sorted, table) ==>
               GoodReport(Sections(Runs(sorted)), rs)) <==> NoSplit(rs, table)
  {
    hide Runs, Sections, SectionsFor, Report, SortedByAddress, NoSplit;
    if NoSplit(rs, table) {
      forall sorted | multiset(sorted) == multiset(rs) && InTable(sorted, table) && SortedByAddress(sorted, table)
        ensures GoodReport(Sections(Runs(sorted)), rs)
      {
        GoodOrder(rs, sorted, table);
      }
    } else {
      var sorted := BadOrder(rs, table);
    }
  }

  lemma GoodOrder(rs: seq<Record>, sorted: seq<Record>, table: Table)
    requires InTable(rs, table) && NoSplit(rs, table)
    requires multiset(sorted) == multiset(rs) && InTable(sorted, table) && SortedByAddress(sorted, table)
    ensures GoodReport(Sections(Runs(sorted)), rs)
  {
    hide Runs, Sections, SectionsFor, Report, SortedByAddress, NoSplit;
    SameNoSplit(rs, sorted, table);
    forall rtn: nat
      ensures SectionsFor(Sections(Runs(sorted)), rtn) == ExpectedSections(rs, rtn)
    {
      assert SectionsFor(Sections(Runs(sorted)), rtn) == Printed(sorted, rtn);
      SameExpectation(sorted, rs, rtn);
      if rtn == 0 {
        NoZeroSection(sorted);
      } else {
        SortedIsContiguous(sorted, table, rtn);
        ContiguousSections(sorted, rtn);
      }
    }
  }

  /** When distinct routines have distinct addresses the report is good whatever the sort does. */
  lemma DistinctAddressesSuffice(rs: seq<Record>, sorted: seq<Record>, table: Table)
    requires InTable(rs, table) && InTable(sorted, table)
    requires forall a, b :: a in table && b in table && a != b ==> table[a] != table[b]
    requires multiset(sorted) == multiset(rs) && SortedByAddress(sorted, table)
    ensures GoodReport(Sections(Runs(sorted)), rs)
  {
    hide Runs, Sections, GoodReport;
    GoodOrder(rs, sorted, table);
  }

  // ---------------------------------------------------------------- nothing is lost or counted twice

  function Flat(g: seq<seq<Record>>): seq<Record> {
    if g == [] then [] else Flat(g[..|g| - 1]) + g[|g| - 1]
  }

  ghost predicate OneRoutine(run: seq<Record>) {
    run != [] && forall i :: 0 <= i < |run| ==> run[i].rtn == run[0].rtn
  }

  lemma {:induction false} RunsPartition(rs: seq<Record>)
    ensures Flat(Runs(rs)) == rs
    ensures forall i :: 0 <= i < |Runs(rs)| ==> OneRoutine(Runs(rs)[i])
  {
    if rs != [] {
      var before, r := rs[..|rs| - 1], rs[|rs| - 1];
      assert rs == before + [r];
      var g, h := Runs(rs), Runs(before);
      RunsPartition(before);
      RunsAppend(before, r);
      hide Runs, Flat, OneRoutine;
      if before != [] && before[|before| - 1].rtn == r.rtn {
        ExtendedRun(h, g, r);
      } else {
        assert g == h + [[r]];
        NewRun(h, r);
      }
    }
  }

  lemma NewRun(h: seq<seq<Record>>, r: Record)
    requires forall i :: 0 <= i < |h| ==> OneRoutine(h[i])
    ensures Flat(h + [[r]]) == Flat(h) + [r]
    ensures forall i :: 0 <= i < |h + [[r]]| ==> OneRoutine((h + [[r]])[i])
  {
    assert (h + [[r]])[..|h|] == h;
    assert OneRoutine([r]);
  }

  lemma ExtendedRun(h: seq<seq<Record>>, g: seq<seq<Record>>, r: Record)
    requires h != [] && |g| == |h| && forall i :: 0 <= i < |h| ==> OneRoutine(h[i])
    requires g[..|g| - 1] == h[..|h| - 1] && g[|g| - 1] == h[|h| - 1] + [r]
    requires h[|h| - 1] != [] && h[|h| - 1][|h[|h| - 1]| - 1].rtn == r.rtn
    ensures Flat(g) == Flat(h) + [r]
    ensures forall i :: 0 <= i < |g| ==> OneRoutine(g[i])
  {
    var last := h[|h| - 1];
    assert OneRoutine(last);
    assert OneRoutine(last + [r]);
    forall i | 0 <= i < |g| - 1 ensures OneRoutine(g[i]) {
      assert g[i] == h[i];
    }
  }

  function SectionSum(ss: seq<Section>, k: nat): int
    requires k < MAX_INDEX && forall i :: 0 <= i < |ss| ==> |ss[i].counts| == MAX_INDEX
  {
    if ss == [] then 0 else SectionSum(ss[..|ss| - 1], k) + ss[|ss| - 1].counts[k]
  }

  lemma {:induction false} SectionsAreTables(g: seq<seq<Record>>)
    ensures forall i :: 0 <= i < |Sections(g)| ==> |Sections(g)[i].counts| == MAX_INDEX
  {
    hide Tally, BelowSpecial;
    if g != [] {
      SectionsAreTables(g[..|g| - 1]);
    }
  }

  lemma {:induction false} BelowConcat(a: seq<Record>, b: seq<Record>, n: nat)
    ensures BelowSpecial(a + b, n) == BelowSpecial(a, n) + BelowSpecial(b, n)
  {
    hide Tally;
    if n > 0 {
      BelowConcat(a, b, n - 1);
      TallyConcat(a, b, n - 1);
    }
  }

  lemma ReportConcat(a: seq<Record>, b: seq<Record>, k: nat)
    requires k < MAX_INDEX
    ensures Report(a + b)[k] == Report(a)[k] + Report(b)[k]
  {
    hide Tally, BelowSpecial;
    TallyConcat(a, b, k);
    BelowConcat(a, b, INDEX_SPECIAL);
  }

  lemma EmptyReport(k: nat)
    requires k < MAX_INDEX
    ensures Report([])[k] == 0
  {
    hide BelowSpecial;
    EmptyBelow(INDEX_SPECIAL);
  }

  lemma {:induction false} AllFiltered(rs: seq<Record>, rtn: nat)
    requires forall i :: 0 <= i < |rs| ==> rs[i].rtn == rtn
    ensures Filter(rs, rtn) == rs
  {
    if rs != [] {
      AllFiltered(rs[..|rs| - 1], rtn);
    }
  }

  lemma {:induction false} RunsConserve(g: seq<seq<Record>>, k: nat)
    requires k < MAX_INDEX && forall i :: 0 <= i < |g| ==> OneRoutine(g[i])
    ensures forall i :: 0 <= i < |Sections(g)| ==> |Sections(g)[i].counts| == MAX_INDEX
    ensures Report(Flat(g))[k] == Report(Filter(Flat(g), 0))[k] + SectionSum(Sections(g), k)
  {
    hide Report, Tally, BelowSpecial;
    SectionsAreTables(g);
    if g == [] {
      EmptyReport(k);
    } else {
      var h, last := g[..|g| - 1], g[|g| - 1];
      RunsConserve(h, k);
      ReportConcat(Flat(h), last, k);
      FilterConcat(Flat(h), last, 0);
      ReportConcat(Filter(Flat(h), 0), Filter(last, 0), k);
      if last[0].rtn == 0 {
        AllFiltered(last, 0);
        assert Sections(g) == Sections(h);
      } else {
        NoneFiltered(last, 0);
        EmptyReport(k);
        assert Sections(g)[..|Sections(g)| - 1] == Sections(h);
      }
    }
  }

  /** In whatever order the records are scanned, the sections and the records of unknown
      routines (id 0) together make up the whole: no count is lost or printed twice. */
  lemma SectionsConserve(sorted: seq<Record>, k: nat)
    requires k < MAX_INDEX
    ensures forall i :: 0 <= i < |Sections(Runs(sorted))| ==> |Sections(Runs(sorted))[i].counts| == MAX_INDEX
    ensures Report(sorted)[k] == Report(Filter(sorted, 0))[k] + SectionSum(Sections(Runs(sorted)), k)
  {
    hide Report, Tally, BelowSpecial;
    RunsPartition(sorted);
    RunsConserve(Runs(sorted), k);
  }

  /** What the sections of one routine show for index k, however many there are. */
  function RoutineSum(ss: seq<Section>, rtn: nat, k: nat): int
    requires k < MAX_INDEX && forall i :: 0 <= i < |ss| ==> |ss[i].counts| == MAX_INDEX
  {
    if ss == [] then 0
    else
      var s := ss[|ss| - 1];
      RoutineSum(ss[..|ss| - 1], rtn, k) + if s.rtn == rtn then s.counts[k] else 0
  }

  lemma {:induction false} RunsConserveEach(g: seq<seq<Record>>, rtn: nat, k: nat)
    requires k < MAX_INDEX && rtn > 0 && forall i :: 0 <= i < |g| ==> OneRoutine(g[i])
    ensures forall i :: 0 <= i < |Sections(g)| ==> |Sections(g)[i].counts| == MAX_INDEX && Sections(g)[i].rtn > 0
    ensures RoutineSum(Sections(g), rtn, k) == Report(Filter(Flat(g), rtn))[k]
  {
    hide Report, Sections, Filter, OneRoutine, RoutineSum, Flat;
    if g == [] {
      NoSections(g, rtn, k);
    } else {
      var h, last := g[..|g| - 1], g[|g| - 1];
      RunsConserveEach(h, rtn, k);
      FilterConcat(Flat(h), last, rtn);
      ReportConcat(Filter(Flat(h), rtn), Filter(last, rtn), k);
      RunConserves(last, rtn, k);
      SectionsStep(g);
      if last[0].rtn > 0 {
        RoutineSumAppend(Sections(h), Section(last[0].rtn, Report(last)), rtn, k);
      } else {
        assert Sections(g) == Sections(h);
      }
    }
  }

  lemma RoutineSumAppend(ss: seq<Section>, s: Section, rtn: nat, k: nat)
    requires k < MAX_INDEX && |s.counts| == MAX_INDEX && forall i :: 0 <= i < |ss| ==> |ss[i].counts| == MAX_INDEX
    ensures RoutineSum(ss + [s], rtn, k) == RoutineSum(ss, rtn, k) + if s.rtn == rtn then s.counts[k] else 0
  {
    assert (ss + [s])[..|ss|] == ss;
  }

  lemma NoSections(g: seq<seq<Record>>, rtn: nat, k: nat)
    requires g == [] && k < MAX_INDEX
    ensures Sections(g) == [] && RoutineSum(Sections(g), rtn, k) == 0
    ensures Report(Filter(Flat(g), rtn))[k] == 0
  {
    hide Report;
    EmptyReport(k);
  }

  lemma SectionsStep(g: seq<seq<Record>>)
    requires g != [] && OneRoutine(g[|g| - 1])
    ensures var h, last := g[..|g| - 1], g[|g| - 1];
            && last != [] && |Report(last)| == MAX_INDEX && Flat(g) == Flat(h) + last
            && Sections(g) == Sections(h) + if last[0].rtn > 0 then [Section(last[0].rtn, Report(last))] else []
  {
    hide Tally, BelowSpecial;
  }

  lemma RunConserves(run: seq<Record>, rtn: nat, k: nat)
    requires k < MAX_INDEX && OneRoutine(run)
    ensures run != []
    ensures Report(Filter(run, rtn))[k] == if run[0].rtn == rtn then Report(run)[k] else 0
  {
    hide Report, Filter;
    if run[0].rtn == rtn {
      AllFiltered(run, rtn);
    } else {
      NoneFiltered(run, rtn);
      EmptyReport(k);
    }
  }

  /** In whatever order the records are scanned, the sections of a routine, be it one or several, add
      up to its records; id 0 has none. */
  lemma SectionsConserveEach(sorted: seq<Record>, rtn: nat, k: nat)
    requires k < MAX_INDEX && rtn > 0
    ensures var ss := Sections(Runs(sorted));
            && (forall i :: 0 <= i < |ss| ==> |ss[i].counts| == MAX_INDEX && ss[i].rtn > 0)
            && RoutineSum(ss, rtn, k) == Report(Filter(sorted, rtn))[k]
  {
    hide Report, Sections, Filter, Runs, OneRoutine;
    RunsPartition(sorted);
    RunsConserveEach(Runs(sorted), rtn, k);
  }

  // ---------------------------------------------------------------- the order of the sections

  /** Sections in ascending order of their routines' addresses. */
  ghost predicate AddressesAscend(ss: seq<Section>, table: Table) {
    && (forall i :: 0 <= i < |ss| ==> ss[i].rtn in table)
    && forall i, j :: 0 <= i < j < |ss| ==> table[ss[i].rtn] <= table[ss[j].rtn]
  }

  ghost predicate RunsAscend(g: seq<seq<Record>>, table: Table) {
    && (forall i :: 0 <= i < |g| ==> g[i] != [] && g[i][0].rtn in table)
    && forall i, j :: 0 <= i < j < |g| ==> table[g[i][0].rtn] <= table[g[j][0].rtn]
  }

  lemma {:induction false} RunsFromList(rs: seq<Record>)
    ensures forall i :: 0 <= i < |Runs(rs)| ==> Runs(rs)[i] != [] && Runs(rs)[i][0] in rs
  {
    hide Runs;
    if rs != [] {
      var n := |rs| - 1;
      var g, h := Runs(rs), Runs(rs[..n]);
      RunsFromList(rs[..n]);
      RunsAppend(rs[..n], rs[n]);
      assert rs == rs[..n] + [rs[n]];
      forall i | 0 <= i < |g| ensures g[i] != [] && g[i][0] in rs {
        assert i < |g| - 1 ==> g[i] == g[..|g| - 1][i] && i < |h| && g[i] == h[i];
      }
    }
  }

  lemma RunsAscendStep(h: seq<seq<Record>>, g: seq<seq<Record>>, r: Record, table: Table)
    requires RunsAscend(h, table) && g != [] && r.rtn in table
    requires forall i :: 0 <= i < |h| ==> table[h[i][0].rtn] <= table[r.rtn]
    requires (g[..|g| - 1] == h && g[|g| - 1] == [r]) ||
             (h != [] && g[..|g| - 1] == h[..|h| - 1] && g[|g| - 1] == h[|h| - 1] + [r])
    ensures RunsAscend(g, table)
  {
    assert forall i :: 0 <= i < |g| - 1 ==> g[i] == g[..|g| - 1][i] && i < |h| && g[i] == h[i];
  }

  lemma {:induction false} SortedRunsAscend(rs: seq<Record>, table: Table)
    requires InTable(rs, table) && SortedByAddress(rs, table)
    ensures RunsAscend(Runs(rs), table)
  {
    hide Runs, RunsAscend;
    RunsFromList(rs);
    if rs == [] {
      NothingAscends(rs, table);
    } else {
      var n := |rs| - 1;
      var before, r := rs[..n], rs[n];
      forall i, j | 0 <= i < j < n ensures before[j].rtn in table && before[i].rtn in table && !CompareLess(before[j], before[i], table) {
        assert !CompareLess(rs[j], rs[i], table);
      }
      SortedRunsAscend(before, table);
      assert rs == before + [r];
      RunsAppend(before, r);
      RunsFromList(before);
      forall i | 0 <= i < |Runs(before)|
        ensures Runs(before)[i][0].rtn in table && table[Runs(before)[i][0].rtn] <= table[r.rtn]
      {
        var k :| 0 <= k < n && rs[k] == Runs(before)[i][0];
        assert !CompareLess(rs[n], rs[k], table);
      }
      RunsAscendStep(Runs(before), Runs(rs), r, table);
    }
  }

  lemma NothingAscends(rs: seq<Record>, table: Table)
    requires rs == []
    ensures RunsAscend(Runs(rs), table)
  {
  }

  lemma {:induction false} SectionsFollow(g: seq<seq<Record>>, table: Table)
    requires RunsAscend(g, table)
    ensures AddressesAscend(Sections(g), table)
    ensures forall i :: 0 <= i < |Sections(g)| ==>
              g != [] && Sections(g)[i].rtn in table && table[Sections(g)[i].rtn] <= table[g[|g| - 1][0].rtn]
  {
    hide Report;
    if g != [] {
      var n := |g| - 1;
      SectionsFollow(g[..n], table);
    }
  }

  /** The sections are printed in the order of the routines' addresses. */
  lemma SectionsInOrder(sorted: seq<Record>, table: Table)
    requires InTable(sorted, table) && SortedByAddress(sorted, table)
    ensures AddressesAscend(Sections(Runs(sorted)), table)
  {
    hide Runs, Sections;
    SortedRunsAscend(sorted, table);
    SectionsFollow(Runs(sorted), table);
  }
}
