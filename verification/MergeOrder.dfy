/** The order in which cp/pivot.py merges tables: exactly when it decides whether they can be merged,
    and exactly when it changes the merged rows. */
module MergeOrder {
  import opened Options
  import opened Permutations
  import opened Tables

  type Columns = seq<set<string>>

  function ColsOf(ts: seq<Table>): Columns {
    seq(|ts|, i requires 0 <= i < |ts| => ts[i].cols)
  }

  function Union(css: Columns): set<string> {
    if css == [] then {} else Union(css[..|css| - 1]) + css[|css| - 1]
  }

  /** In this order every table has a column in common with those before it. */
  predicate Chains(css: Columns) {
    |css| <= 1 || (Chains(css[..|css| - 1]) && Union(css[..|css| - 1]) * css[|css| - 1] != {})
  }

  ghost predicate PairwiseSharing(css: Columns) {
    forall i, j :: 0 <= i < j < |css| ==> css[i] * css[j] != {}
  }

  /** Any two share the columns in key and no others. */
  ghost predicate StarSets(css: Columns, key: set<string>) {
    && (forall i :: 0 <= i < |css| ==> key <= css[i])
    && forall i, j :: 0 <= i < j < |css| ==> css[i] * css[j] == key
  }

  // ---------------------------------------------------------------- can they be merged?

  lemma {:induction false} MergedCols(ts: seq<Table>)
    requires ts != []
    ensures Merged(ts).Some? <==> Chains(ColsOf(ts))
    ensures Merged(ts).Some? ==> Merged(ts).value.cols == Union(ColsOf(ts))
  {
    hide OuterJoin;
    var n := |ts| - 1;
    assert ColsOf(ts)[..n] == ColsOf(ts[..n]);
    if n > 0 {
      MergedCols(ts[..n]);
      if Merged(ts[..n]).Some? {
        JoinCols(Merged(ts[..n]).value, ts[n]);
      }
    } else {
      assert Union(ColsOf(ts)[..0]) == {};
    }
  }

  lemma {:induction false} UnionHas(css: Columns, i: nat)
    requires i < |css|
    ensures css[i] <= Union(css)
  {
    if i < |css| - 1 {
      UnionHas(css[..|css| - 1], i);
    }
  }

  lemma {:induction false} SharingChains(css: Columns)
    requires PairwiseSharing(css)
    ensures Chains(css)
  {
    var n := |css| - 1;
    if n > 0 {
      SharingChains(css[..n]);
      UnionHas(css[..n], 0);
      assert css[0] * css[n] != {};
    }
  }

  lemma {:induction false} ChainsPrefix(css: Columns, k: nat)
    requires Chains(css) && k <= |css|
    ensures Chains(css[..k])
    decreases |css|
  {
    if k < |css| {
      ChainsPrefix(css[..|css| - 1], k);
      assert css[..|css| - 1][..k] == css[..k];
    } else {
      assert css[..k] == css;
    }
  }

  lemma SharingInAnyOrder(css: Columns, p: seq<nat>)
    requires PairwiseSharing(css) && Perm(p, |css|)
    ensures PairwiseSharing(At(css, p))
  {
    PermOnce(p, |css|);
    forall i, j | 0 <= i < j < |p| ensures At(css, p)[i] * At(css, p)[j] != {} {
      assert p[i] != p[j];
      var a, b := if p[i] < p[j] then p[i] else p[j], if p[i] < p[j] then p[j] else p[i];
      assert css[a] * css[b] != {} && css[a] * css[b] == css[b] * css[a];
    }
  }

  /** An order that fails, when two of the sets share nothing: those two first. */
  lemma FailingOrder(css: Columns) returns (p: seq<nat>)
    requires !PairwiseSharing(css)
    ensures Perm(p, |css|) && !Chains(At(css, p))
  {
    var i: nat, j: nat :| i < j < |css| && css[i] * css[j] == {};
    p := [i, j] + Others(|css|, [i, j]);
    FrontFirst(|css|, [i, j]);
    var all := At(css, p);
    assert all[..2] == [css[i], css[j]];
    TwoApart(css[i], css[j]);
    if Chains(all) {
      ChainsPrefix(all, 2);
    }
  }

  lemma TwoApart(a: set<string>, b: set<string>)
    requires a * b == {}
    ensures !Chains([a, b])
  {
    assert [a, b][..1] == [a] && [a][..0] == [];
    assert Union([a]) == a;
  }

  lemma ColsAt(ts: seq<Table>, p: seq<nat>)
    requires InRange(p, |ts|)
    ensures ColsOf(At(ts, p)) == At(ColsOf(ts), p)
  {
  }

  /** Tables can be merged in every order if and only if any two of them have a column in common. */
  lemma MergeableExactly(ts: seq<Table>)
    requires ts != []
    ensures (forall p :: Perm(p, |ts|) ==> Merged(At(ts, p)).Some?) <==> PairwiseSharing(ColsOf(ts))
  {
    hide Merged;
    var css := ColsOf(ts);
    forall p | Perm(p, |ts|) ensures At(ts, p) != [] && (Merged(At(ts, p)).Some? <==> Chains(At(css, p))) {
      PermOnce(p, |ts|);
      ColsAt(ts, p);
      MergedCols(At(ts, p));
    }
    if PairwiseSharing(css) {
      forall p | Perm(p, |ts|) ensures Merged(At(ts, p)).Some? {
        SharingInAnyOrder(css, p);
        SharingChains(At(css, p));
      }
    } else {
      var p := FailingOrder(css);
      assert Perm(p, |ts|);
    }
  }

  // ---------------------------------------------------------------- are the rows the same?

  ghost predicate HasColumns(ts: seq<Table>, css: Columns) {
    |ts| == |css| && forall i :: 0 <= i < |ts| ==> Formed(ts[i]) && ts[i].cols == css[i]
  }

  /** Both cannot be merged, or both give the same columns and the same rows, in whatever order. */
  ghost predicate SameOutcome(a: Option<Table>, b: Option<Table>) {
    match (a, b)
    case (Some(t), Some(u)) => t.cols == u.cols && multiset(t.rows) == multiset(u.rows)
    case (None, None) => true
    case _ => false
  }

  ghost predicate NeverChains(css: Columns) {
    forall p :: Perm(p, |css|) ==> !Chains(At(css, p))
  }

  /** What can be checked on the columns: at most two tables, or no order in which they can be merged,
      or a star. */
  ghost predicate OrderIrrelevant(css: Columns) {
    |css| <= 2 || NeverChains(css) || exists key :: key != {} && StarSets(css, key)
  }

  lemma PairMerge(ts: seq<Table>, us: seq<Table>)
    requires 0 < |ts| == |us| <= 2 && multiset(ts) == multiset(us)
    requires forall k :: 0 <= k < |ts| ==> Formed(ts[k])
    ensures SameOutcome(Merged(ts), Merged(us))
  {
    hide Formed, Merged, OuterJoin;
    if |ts| == 2 {
      TwoSame(ts, us);
      if us != ts {
        JoinCommutes(ts[0], ts[1]);
        MergeTwo(ts[0], ts[1]);
        MergeTwo(ts[1], ts[0]);
      }
    } else {
      OneSame(ts, us);
    }
  }

  lemma OneSame<T>(a: seq<T>, b: seq<T>)
    requires |a| == |b| == 1 && multiset(a) == multiset(b)
    ensures b == a
  {
    assert a == [a[0]] && b == [b[0]];
    assert multiset(a)[a[0]] == multiset(b)[a[0]];
  }

  lemma TwoSame<T>(a: seq<T>, b: seq<T>)
    requires |a| == |b| == 2 && multiset(a) == multiset(b)
    ensures a == [a[0], a[1]] && (b == a || b == [a[1], a[0]])
  {
    assert a == [a[0], a[1]] && b == [b[0], b[1]];
    assert multiset(a)[a[0]] == multiset(b)[a[0]] && multiset(a)[a[1]] == multiset(b)[a[1]];
  }

  lemma MergeTwo(a: Table, b: Table)
    ensures Merged([a, b]) == if a.cols * b.cols == {} then None else Some(OuterJoin(a, b))
  {
    hide OuterJoin;
    assert [a, b][..1] == [a];
    assert Merged([a]) == Some(a);
  }

  lemma StarAt(ts: seq<Table>, css: Columns, p: seq<nat>, key: set<string>)
    requires HasColumns(ts, css) && Perm(p, |css|) && StarSets(css, key)
    ensures Star(At(ts, p), key)
  {
    PermOnce(p, |css|);
    hide Formed;
    var us := At(ts, p);
    forall i, j | 0 <= i < j < |us| ensures us[i].cols * us[j].cols == key {
      assert p[i] != p[j];
      var a, b := if p[i] < p[j] then p[i] else p[j], if p[i] < p[j] then p[j] else p[i];
      assert css[a] * css[b] == key && css[a] * css[b] == css[b] * css[a];
    }
  }

  lemma IrrelevantSuffices(css: Columns, ts: seq<Table>, p: seq<nat>, r: seq<nat>)
    requires css != [] && OrderIrrelevant(css) && HasColumns(ts, css) && Perm(p, |css|) && Perm(r, |css|)
    ensures SameOutcome(Merged(At(ts, p)), Merged(At(ts, r)))
  {
    hide Merged, Formed, Star, StarSets;
    PermOnce(p, |css|);
    PermOnce(r, |css|);
    AtPermutes(ts, p, r);
    if |css| <= 2 {
      PairMerge(At(ts, p), At(ts, r));
    } else if NeverChains(css) {
      assert ColsOf(ts) == css;
      ColsAt(ts, p);
      ColsAt(ts, r);
      MergedCols(At(ts, p));
      MergedCols(At(ts, r));
    } else {
      var key :| key != {} && StarSets(css, key);
      StarAt(ts, css, p, key);
      StarAt(ts, css, r, key);
      MergeOrderIrrelevant(At(ts, p), At(ts, r), key);
    }
  }

  // when it is not a star

  /** Tables b and c share a column table a has not. */
  ghost predicate Apart(css: Columns, a: nat, b: nat, c: nat) {
    a < |css| && b < |css| && c < |css| && a != b && a != c && b != c && !(css[b] * css[c] <= css[a])
  }

  lemma SameShare(css: Columns, i: nat, j: nat, k: nat)
    requires i < |css| && j < |css| && k < |css| && i != j && i != k && j != k
    requires forall a: nat, b: nat, c: nat :: !Apart(css, a, b, c)
    ensures css[i] * css[j] == css[i] * css[k]
  {
    assert !Apart(css, k, i, j) && !Apart(css, j, i, k);
  }

  lemma NoTripleIsStar(css: Columns)
    requires |css| >= 3
    requires forall a: nat, b: nat, c: nat :: !Apart(css, a, b, c)
    ensures StarSets(css, css[0] * css[1])
  {
    hide Apart;
    var key := css[0] * css[1];
    forall i, j | 0 <= i < j < |css| ensures css[i] * css[j] == key {
      if i == 0 {
        if j != 1 { SameShare(css, 0, j, 1); }
      } else {
        SameShare(css, i, j, 0);
        if i != 1 { SameShare(css, 0, i, 1); }
        assert css[i] * css[0] == css[0] * css[i];
      }
    }
    forall i | 0 <= i < |css| ensures key <= css[i] {
      if i == 0 {
      } else {
        assert css[0] * css[i] == key;
      }
    }
  }

  /** A row with a 0 in every column. */
  function Full(cols: set<string>): Row {
    map c | c in cols :: Num(0)
  }

  /** Tables a and c with one full row each, all others empty. */
  function Witness(css: Columns, a: nat, c: nat): seq<Table> {
    seq(|css|, i requires 0 <= i < |css| => Holding(css, a, c, i))
  }

  function Holding(css: Columns, a: nat, c: nat, i: nat): Table
    requires i < |css|
  {
    Table(css[i], if i == a || i == c then [Full(css[i])] else [])
  }

  lemma WitnessHas(css: Columns, a: nat, c: nat)
    ensures HasColumns(Witness(css, a, c), css)
  {
  }

  lemma {:induction false} NoMatches(rows: seq<Row>, common: set<string>)
    ensures LeftPart(rows, [], common) == rows
  {
    if rows != [] {
      NoMatches(rows[..|rows| - 1], common);
    }
  }

  /** Joining an empty table changes no row. */
  lemma JoinEmpty(t: Table, cols: set<string>)
    ensures OuterJoin(t, Table(cols, [])).rows == t.rows
  {
    NoMatches(t.rows, t.cols * cols);
  }

  lemma {:induction false} EmptyTail(ts: seq<Table>, us: seq<Table>)
    requires ts != [] && Merged(ts + us).Some? && forall i :: 0 <= i < |us| ==> us[i].rows == []
    ensures Merged(ts).Some? && Merged(ts + us).value.rows == Merged(ts).value.rows
  {
    if us == [] {
      assert ts + us == ts;
    } else {
      hide OuterJoin;
      var n := |us| - 1;
      assert (ts + us)[..|ts + us| - 1] == ts + us[..n];
      EmptyTail(ts, us[..n]);
      JoinEmpty(Merged(ts + us[..n]).value, us[n].cols);
      assert us[n] == Table(us[n].cols, []);
    }
  }

  lemma MergeThree(a: Table, b: Table, c: Table)
    requires Merged([a, b, c]).Some?
    ensures Merged([a, b, c]).value == OuterJoin(OuterJoin(a, b), c)
  {
    hide OuterJoin;
    assert [a, b, c][..2] == [a, b];
    MergeTwo(a, b);
  }

  lemma FullsApart(a: set<string>, c: set<string>, cols: set<string>, y: string)
    requires a <= cols && y in cols && y in c && y !in a
    ensures |OuterJoin(Table(cols, [Full(a)]), Table(c, [Full(c)])).rows| == 2
  {
    var common := cols * c;
    var x, z := Full(a), Full(c);
    assert !Agree(x, z, common) by { assert y in common && y !in x && y in z; }
    OneRow(x, z, common);
  }

  lemma FullsTogether(a: set<string>, c: set<string>)
    ensures |OuterJoin(Table(a, [Full(a)]), Table(c, [Full(c)])).rows| == 1
  {
    assert Agree(Full(a), Full(c), a * c);
    OneRow(Full(a), Full(c), a * c);
  }

  lemma MatchOne(x: Row, z: Row, common: set<string>)
    ensures Matches(x, [z], common) == if Agree(x, z, common) then [x + z] else []
  {
    hide Agree;
    assert [z][..0] == [];
  }

  lemma OneRow(x: Row, z: Row, common: set<string>)
    ensures LeftPart([x], [z], common) == if Agree(x, z, common) then [x + z] else [x]
    ensures RightOnly([x], [z], common) == if Agree(x, z, common) then [] else [z]
  {
    MatchOne(x, z, common);
    LeftOne(x, [z], common);
    RightOne([x], z, common);
  }

  lemma LeftOne(x: Row, bs: seq<Row>, common: set<string>)
    ensures LeftPart([x], bs, common) == if Matches(x, bs, common) == [] then [x] else Matches(x, bs, common)
  {
    hide Agree, Matches;
    var none: seq<Row> := [];
    assert [x][..0] == none && LeftPart(none, bs, common) == none;
  }

  lemma RightOne(rows: seq<Row>, z: Row, common: set<string>)
    requires |rows| == 1
    ensures RightOnly(rows, [z], common) == if Agree(rows[0], z, common) then [] else [z]
  {
    hide Agree;
    var none: seq<Row> := [];
    assert [z][..0] == none && RightOnly(rows, none, common) == none;
  }

  /** Two orders that give different rows: a full row in a and one in c meet with the empty table b,
      which has a column y of c that a has not, before or after. */
  lemma OrdersDiffer(css: Columns, a: nat, b: nat, c: nat, y: string) returns (p: seq<nat>, r: seq<nat>)
    requires PairwiseSharing(css) && a < |css| && b < |css| && c < |css| && a != b && a != c && b != c
    requires y in css[b] && y in css[c] && y !in css[a]
    ensures Perm(p, |css|) && Perm(r, |css|)
    ensures !SameOutcome(Merged(At(Witness(css, a, c), p)), Merged(At(Witness(css, a, c), r)))
  {
    hide Merged, Full, Others, SameOutcome, PairwiseSharing, At, Witness;
    p := ThreeFirst(css, a, c, a, b, c);
    r := ThreeFirst(css, a, c, a, c, b);
    EmptyBetween(css[a], css[b], css[c], y);
    EmptyAfter(css[a], css[b], css[c]);
    DifferentSizes(Merged(At(Witness(css, a, c), p)), Merged(At(Witness(css, a, c), r)));
  }

  /** An order with tables i, j, k first, a and c among them; the other tables add no row. */
  lemma ThreeFirst(css: Columns, a: nat, c: nat, i: nat, j: nat, k: nat) returns (p: seq<nat>)
    requires PairwiseSharing(css) && i < |css| && j < |css| && k < |css| && i != j && i != k && j != k
    requires a in [i, j, k] && c in [i, j, k]
    ensures Perm(p, |css|) && |Witness(css, a, c)| == |css| && p != []
    ensures var all := Merged(At(Witness(css, a, c), p));
            var three := Merged([Holding(css, a, c, i), Holding(css, a, c, j), Holding(css, a, c, k)]);
            all.Some? && three.Some? && all.value.rows == three.value.rows
  {
    hide Merged, Full, Others, PairwiseSharing;
    var ts := Witness(css, a, c);
    var front := [i, j, k];
    p := front + Others(|css|, front);
    FrontFirst(|css|, front);
    AtThree(css, a, c, i, j, k);
    hide At, Witness;
    OrderRows(css, ts, a, c, front);
  }

  lemma AtThree(css: Columns, a: nat, c: nat, i: nat, j: nat, k: nat)
    requires i < |css| && j < |css| && k < |css|
    ensures |Witness(css, a, c)| == |css| && InRange([i, j, k], |css|)
    ensures At(Witness(css, a, c), [i, j, k]) == [Holding(css, a, c, i), Holding(css, a, c, j), Holding(css, a, c, k)]
  {
    hide Holding;
  }

  lemma EmptyBetween(a: set<string>, b: set<string>, c: set<string>, y: string)
    requires y in b && y in c && y !in a
    ensures var ts := [Table(a, [Full(a)]), Table(b, []), Table(c, [Full(c)])];
            Merged(ts).Some? ==> |Merged(ts).value.rows| == 2
  {
    hide Merged, OuterJoin, Full;
    var ta, tb, tc := Table(a, [Full(a)]), Table(b, []), Table(c, [Full(c)]);
    if Merged([ta, tb, tc]).Some? {
      MergeThree(ta, tb, tc);
      JoinEmpty(ta, b);
      JoinCols(ta, tb);
      assert OuterJoin(ta, tb) == Table(a + b, [Full(a)]);
      FullsApart(a, c, a + b, y);
    }
  }

  lemma EmptyAfter(a: set<string>, b: set<string>, c: set<string>)
    ensures var ts := [Table(a, [Full(a)]), Table(c, [Full(c)]), Table(b, [])];
            Merged(ts).Some? ==> |Merged(ts).value.rows| == 1
  {
    hide Merged, OuterJoin, Full;
    var ta, tb, tc := Table(a, [Full(a)]), Table(b, []), Table(c, [Full(c)]);
    if Merged([ta, tc, tb]).Some? {
      MergeThree(ta, tc, tb);
      JoinEmpty(OuterJoin(ta, tc), b);
      FullsTogether(a, c);
    }
  }

  lemma DifferentSizes(a: Option<Table>, b: Option<Table>)
    requires a.Some? && b.Some? && |a.value.rows| != |b.value.rows|
    ensures !SameOutcome(a, b)
  {
    assert |multiset(a.value.rows)| == |a.value.rows| && |multiset(b.value.rows)| == |b.value.rows|;
  }

  /** Only the first three tables decide on the rows. */
  lemma OrderRows(css: Columns, ts: seq<Table>, a: nat, c: nat, front: seq<nat>)
    requires PairwiseSharing(css) && ts == Witness(css, a, c) && front != [] && a in front && c in front
    requires InRange(front, |css|) && Perm(front + Others(|css|, front), |css|)
    ensures var p := front + Others(|css|, front);
            && Merged(At(ts, p)).Some? && Merged(At(ts, front)).Some?
            && Merged(At(ts, p)).value.rows == Merged(At(ts, front)).value.rows
  {
    hide Merged, PairwiseSharing, Others, At, Witness, Perm;
    var p := front + Others(|css|, front);
    AllMerge(css, ts, a, c, p);
    EmptyOthers(css, a, c, front);
    EmptyTail(At(ts, front), At(ts, Others(|css|, front)));
  }

  lemma AllMerge(css: Columns, ts: seq<Table>, a: nat, c: nat, p: seq<nat>)
    requires PairwiseSharing(css) && ts == Witness(css, a, c) && css != [] && Perm(p, |css|)
    ensures InRange(p, |ts|) && Merged(At(ts, p)).Some?
  {
    hide Merged, PairwiseSharing;
    WitnessHas(css, a, c);
    assert ColsOf(ts) == css;
    PermOnce(p, |css|);
    ColsAt(ts, p);
    SharingInAnyOrder(css, p);
    SharingChains(At(css, p));
    MergedCols(At(ts, p));
  }

  lemma EmptyOthers(css: Columns, a: nat, c: nat, front: seq<nat>)
    requires a in front && c in front && InRange(front, |css|)
    ensures var ts, rest := Witness(css, a, c), Others(|css|, front);
            && |ts| == |css| && InRange(rest, |css|) && InRange(front + rest, |css|)
            && At(ts, front) != []
            && At(ts, front + rest) == At(ts, front) + At(ts, rest)
            && forall i :: 0 <= i < |At(ts, rest)| ==> At(ts, rest)[i].rows == []
  {
    hide Others;
    var rest := Others(|css|, front);
    OthersAre(|css|, front);
    forall i | 0 <= i < |rest| ensures rest[i] < |css| && rest[i] !in front {
      assert rest[i] in rest;
    }
  }

  lemma IrrelevantNeeded(css: Columns) returns (ts: seq<Table>, p: seq<nat>, r: seq<nat>)
    requires css != [] && !OrderIrrelevant(css)
    ensures HasColumns(ts, css) && Perm(p, |css|) && Perm(r, |css|)
    ensures !SameOutcome(Merged(At(ts, p)), Merged(At(ts, r)))
  {
    hide Merged, StarSets;
    if PairwiseSharing(css) {
      var a: nat, b: nat, c: nat := NotAStar(css);
      var y :| y in css[b] * css[c] && y !in css[a];
      ts := Witness(css, a, c);
      WitnessHas(css, a, c);
      p, r := OrdersDiffer(css, a, b, c, y);
    } else {
      p :| Perm(p, |css|) && Chains(At(css, p));
      r := FailingOrder(css);
      ts := Witness(css, |css|, |css|);
      WitnessHas(css, |css|, |css|);
      PermOnce(p, |css|);
      PermOnce(r, |css|);
      assert ColsOf(ts) == css;
      ColsAt(ts, p);
      ColsAt(ts, r);
      MergedCols(At(ts, p));
      MergedCols(At(ts, r));
    }
  }

  lemma NotAStar(css: Columns) returns (a: nat, b: nat, c: nat)
    requires |css| >= 3 && PairwiseSharing(css) && forall key :: key != {} ==> !StarSets(css, key)
    ensures Apart(css, a, b, c)
  {
    hide StarSets;
    assert css[0] * css[1] != {};
    if forall x: nat, y: nat, z: nat :: !Apart(css, x, y, z) {
      NoTripleIsStar(css);
    }
    a, b, c :| Apart(css, a, b, c);
  }

  /** For tables with these columns, whatever their rows: all orders of merging have the same outcome if
      and only if there are at most two tables, or no order works, or the tables are a star. */
  lemma OrderIrrelevantExactly(css: Columns)
    requires css != []
    ensures (forall ts, p, r :: HasColumns(ts, css) && Perm(p, |css|) && Perm(r, |css|) ==>
               SameOutcome(Merged(At(ts, p)), Merged(At(ts, r)))) <==> OrderIrrelevant(css)
  {
    hide Merged, OrderIrrelevant, SameOutcome;
    if OrderIrrelevant(css) {
      forall ts, p, r | HasColumns(ts, css) && Perm(p, |css|) && Perm(r, |css|)
        ensures SameOutcome(Merged(At(ts, p)), Merged(At(ts, r)))
      {
        IrrelevantSuffices(css, ts, p, r);
      }
    } else {
      var ts, p, r := IrrelevantNeeded(css);
      assert HasColumns(ts, css) && Perm(p, |css|) && Perm(r, |css|);
    }
  }
}
