/** Tables as cp/pivot.py handles them: filters, and outer joins on all common columns.
    A missing value (NaN) is a column that is absent from the row. */
module Tables {
  import opened Options
  import opened Permutations

  datatype Value = Num(n: int) | Text(s: string)

  type Row = map<string, Value>

  datatype Table = Table(cols: set<string>, rows: seq<Row>)

  ghost predicate Formed(t: Table) {
    forall r :: r in t.rows ==> r.Keys <= t.cols
  }

  function Restrict(r: Row, cols: set<string>): Row {
    map c | c in r && c in cols :: r[c]
  }

  // ---------------------------------------------------------------- outer join

  /** Equal in all common columns; missing values match missing values. */
  predicate Agree(a: Row, b: Row, common: set<string>) {
    forall c :: c in common ==> (c in a <==> c in b) && (c in a ==> a[c] == b[c])
  }

  function Matches(a: Row, bs: seq<Row>, common: set<string>): seq<Row> {
    if bs == [] then []
    else
      var b := bs[|bs| - 1];
      Matches(a, bs[..|bs| - 1], common) + if Agree(a, b, common) then [a + b] else []
  }

  function LeftPart(rows: seq<Row>, bs: seq<Row>, common: set<string>): seq<Row> {
    if rows == [] then []
    else
      var a := rows[|rows| - 1];
      var m := Matches(a, bs, common);
      LeftPart(rows[..|rows| - 1], bs, common) + if m == [] then [a] else m
  }

  function RightOnly(rows: seq<Row>, bs: seq<Row>, common: set<string>): seq<Row> {
    if bs == [] then []
    else
      var b := bs[|bs| - 1];
      RightOnly(rows, bs[..|bs| - 1], common) +
      if exists i :: 0 <= i < |rows| && Agree(rows[i], b, common) then [] else [b]
  }

  /** pandas.merge(how="outer") on the common columns. */
  function OuterJoin(a: Table, b: Table): Table {
    var common := a.cols * b.cols;
    Table(a.cols + b.cols, LeftPart(a.rows, b.rows, common) + RightOnly(a.rows, b.rows, common))
  }

  /** A merged row carries a source row whole. */
  ghost predicate Carries(m: Row, r: Row, cols: set<string>) {
    Restrict(m, cols) == r
  }

  lemma JoinedCarries(a: Row, b: Row, aCols: set<string>, bCols: set<string>)
    requires a.Keys <= aCols && b.Keys <= bCols && Agree(a, b, aCols * bCols)
    ensures Carries(a + b, a, aCols) && Carries(a + b, b, bCols)
  {
    forall c | c in a + b && c in aCols ensures c in a && (a + b)[c] == a[c] {
      if c in b { assert c in aCols * bCols; }
    }
    forall c | c in a + b && c in bCols ensures c in b && (a + b)[c] == b[c] {
      if c in a { assert c in aCols * bCols; }
    }
  }

  lemma SelfCarries(r: Row, cols: set<string>)
    requires r.Keys <= cols
    ensures Carries(r, r, cols)
  {
  }

  lemma {:induction false} MatchFound(a: Row, bs: seq<Row>, common: set<string>, j: nat)
    requires j < |bs| && Agree(a, bs[j], common)
    ensures a + bs[j] in Matches(a, bs, common)
  {
    if j < |bs| - 1 {
      MatchFound(a, bs[..|bs| - 1], common, j);
    }
  }

  lemma {:induction false} MatchIs(a: Row, bs: seq<Row>, common: set<string>, m: Row)
    requires m in Matches(a, bs, common)
    ensures exists j :: 0 <= j < |bs| && Agree(a, bs[j], common) && m == a + bs[j]
  {
    var n := |bs| - 1;
    if m in Matches(a, bs[..n], common) {
      MatchIs(a, bs[..n], common, m);
      var j :| 0 <= j < n && Agree(a, bs[..n][j], common) && m == a + bs[..n][j];
      assert bs[j] == bs[..n][j];
    } else {
      assert Agree(a, bs[n], common) && m == a + bs[n];
    }
  }

  lemma {:induction false} LeftFound(rows: seq<Row>, bs: seq<Row>, common: set<string>, i: nat, m: Row)
    requires i < |rows|
    requires var ms := Matches(rows[i], bs, common); if ms == [] then m == rows[i] else m in ms
    ensures m in LeftPart(rows, bs, common)
  {
    if i < |rows| - 1 {
      LeftFound(rows[..|rows| - 1], bs, common, i, m);
    }
  }

  lemma {:induction false} LeftIs(rows: seq<Row>, bs: seq<Row>, common: set<string>, m: Row) returns (i: nat)
    requires m in LeftPart(rows, bs, common)
    ensures i < |rows|
    ensures var ms := Matches(rows[i], bs, common); if ms == [] then m == rows[i] else m in ms
  {
    hide Agree;
    i := |rows| - 1;
    if m in LeftPart(rows[..i], bs, common) {
      i := LeftIs(rows[..i], bs, common, m);
    }
  }

  lemma {:induction false} RightFound(rows: seq<Row>, bs: seq<Row>, common: set<string>, j: nat)
    requires j < |bs| && !exists i :: 0 <= i < |rows| && Agree(rows[i], bs[j], common)
    ensures bs[j] in RightOnly(rows, bs, common)
  {
    if j < |bs| - 1 {
      RightFound(rows, bs[..|bs| - 1], common, j);
    }
  }

  lemma {:induction false} RightIs(rows: seq<Row>, bs: seq<Row>, common: set<string>, m: Row)
    requires m in RightOnly(rows, bs, common)
    ensures m in bs && !exists i :: 0 <= i < |rows| && Agree(rows[i], m, common)
  {
    hide Agree;
    var n := |bs| - 1;
    if m in RightOnly(rows, bs[..n], common) {
      RightIs(rows, bs[..n], common, m);
      assert m in bs[..n];
    }
  }

  /** An outer join loses no row of either side. */
  lemma JoinKeepsLeft(a: Table, b: Table, r: Row) returns (m: Row)
    requires Formed(a) && Formed(b) && r in a.rows
    ensures m in OuterJoin(a, b).rows && Carries(m, r, a.cols)
  {
    var common := a.cols * b.cols;
    var i :| 0 <= i < |a.rows| && a.rows[i] == r;
    var ms := Matches(r, b.rows, common);
    if ms == [] {
      m := r;
      SelfCarries(r, a.cols);
    } else {
      m := ms[0];
      MatchIs(r, b.rows, common, m);
      var j :| 0 <= j < |b.rows| && Agree(r, b.rows[j], common) && m == r + b.rows[j];
      JoinedCarries(r, b.rows[j], a.cols, b.cols);
    }
    LeftFound(a.rows, b.rows, common, i, m);
  }

  lemma JoinKeepsRight(a: Table, b: Table, r: Row) returns (m: Row)
    requires Formed(a) && Formed(b) && r in b.rows
    ensures m in OuterJoin(a, b).rows && Carries(m, r, b.cols)
  {
    var common := a.cols * b.cols;
    var j :| 0 <= j < |b.rows| && b.rows[j] == r;
    if i :| 0 <= i < |a.rows| && Agree(a.rows[i], r, common) {
      m := a.rows[i] + r;
      MatchFound(a.rows[i], b.rows, common, j);
      LeftFound(a.rows, b.rows, common, i, m);
      JoinedCarries(a.rows[i], r, a.cols, b.cols);
    } else {
      m := r;
      RightFound(a.rows, b.rows, common, j);
      SelfCarries(r, b.cols);
    }
  }

  /** An agreeing pair put together. */
  ghost predicate Pair(a: Table, b: Table, x: Row, y: Row, m: Row) {
    x in a.rows && y in b.rows && Agree(x, y, a.cols * b.cols) && m == x + y
  }

  ghost predicate Partnered(r: Row, rows: seq<Row>, common: set<string>) {
    exists i :: 0 <= i < |rows| && Agree(rows[i], r, common)
  }

  lemma NoMatch(a: Row, bs: seq<Row>, common: set<string>)
    ensures Matches(a, bs, common) == [] <==> !Partnered(a, bs, common)
  {
    if Matches(a, bs, common) != [] {
      MatchIs(a, bs, common, Matches(a, bs, common)[0]);
      var j :| 0 <= j < |bs| && Agree(a, bs[j], common);
      assert Agree(bs[j], a, common);
    }
    if Partnered(a, bs, common) {
      var j :| 0 <= j < |bs| && Agree(bs[j], a, common);
      MatchFound(a, bs, common, j);
    }
  }

  /** The joined rows are the agreeing pairs put together, and the rows of either side without a
      partner. */
  lemma JoinedRow(a: Table, b: Table, m: Row)
    ensures m in OuterJoin(a, b).rows <==>
            || (exists x, y :: Pair(a, b, x, y, m))
            || (m in a.rows && !Partnered(m, b.rows, a.cols * b.cols))
            || (m in b.rows && !Partnered(m, a.rows, a.cols * b.cols))
  {
    hide Agree;
    if m in OuterJoin(a, b).rows {
      RowIsJoined(a, b, m);
    }
    if x, y :| Pair(a, b, x, y, m) {
      PairIsRow(a, b, x, y, m);
    } else if m in a.rows && !Partnered(m, b.rows, a.cols * b.cols) {
      NoMatch(m, b.rows, a.cols * b.cols);
      var i :| 0 <= i < |a.rows| && a.rows[i] == m;
      LeftFound(a.rows, b.rows, a.cols * b.cols, i, m);
    } else if m in b.rows && !Partnered(m, a.rows, a.cols * b.cols) {
      var j :| 0 <= j < |b.rows| && b.rows[j] == m;
      RightFound(a.rows, b.rows, a.cols * b.cols, j);
    }
  }

  lemma PairIsRow(a: Table, b: Table, x: Row, y: Row, m: Row)
    requires Pair(a, b, x, y, m)
    ensures m in OuterJoin(a, b).rows
  {
    hide Agree, LeftPart, RightOnly, Matches;
    var i :| 0 <= i < |a.rows| && a.rows[i] == x;
    var j :| 0 <= j < |b.rows| && b.rows[j] == y;
    MatchFound(x, b.rows, a.cols * b.cols, j);
    LeftFound(a.rows, b.rows, a.cols * b.cols, i, m);
  }

  lemma RowIsJoined(a: Table, b: Table, m: Row)
    requires m in OuterJoin(a, b).rows
    ensures || (exists x, y :: Pair(a, b, x, y, m))
            || (m in a.rows && !Partnered(m, b.rows, a.cols * b.cols))
            || (m in b.rows && !Partnered(m, a.rows, a.cols * b.cols))
  {
    hide Agree, LeftPart, RightOnly, Matches;
    var common := a.cols * b.cols;
    if m in LeftPart(a.rows, b.rows, common) {
      var i := LeftIs(a.rows, b.rows, common, m);
      NoMatch(a.rows[i], b.rows, common);
      if m in Matches(a.rows[i], b.rows, common) {
        MatchIs(a.rows[i], b.rows, common, m);
        var j :| 0 <= j < |b.rows| && Agree(a.rows[i], b.rows[j], common) && m == a.rows[i] + b.rows[j];
        assert Pair(a, b, a.rows[i], b.rows[j], m);
      }
    } else {
      RightIs(a.rows, b.rows, common, m);
    }
  }

  // ---------------------------------------------------------------- how often a joined row occurs

  /** How often a list has a row. */
  function Count(rows: seq<Row>, r: Row): nat {
    multiset(rows)[r]
  }

  lemma CountAppend(a: seq<Row>, b: seq<Row>, r: Row)
    ensures Count(a + b, r) == Count(a, r) + Count(b, r)
  {
  }

  lemma CountOne(x: Row, r: Row)
    ensures Count([x], r) == if x == r then 1 else 0
  {
  }

  lemma CountLast(rows: seq<Row>, r: Row)
    requires rows != []
    ensures Count(rows, r) == Count(rows[..|rows| - 1], r) + if rows[|rows| - 1] == r then 1 else 0
  {
    hide Count;
    var n := |rows| - 1;
    CountAppend(rows[..n], [rows[n]], r);
    CountOne(rows[n], r);
    assert rows == rows[..n] + [rows[n]];
  }

  /** Two rows agree and make up m exactly when they are what m has of their columns. */
  lemma PartsExactly(x: Row, y: Row, m: Row, xCols: set<string>, yCols: set<string>)
    requires x.Keys <= xCols && y.Keys <= yCols
    ensures Agree(x, y, xCols * yCols) && x + y == m <==>
            x == Restrict(m, xCols) && y == Restrict(m, yCols) && m.Keys <= xCols + yCols
  {
    if Agree(x, y, xCols * yCols) && x + y == m {
      JoinedCarries(x, y, xCols, yCols);
    }
    if x == Restrict(m, xCols) && y == Restrict(m, yCols) && m.Keys <= xCols + yCols {
      forall c | c in xCols * yCols ensures (c in x <==> c in y) && (c in x ==> x[c] == y[c]) {
        assert c in x <==> c in m;
      }
      assert (x + y).Keys == m.Keys;
    }
  }

  ghost predicate Inside(rows: seq<Row>, cols: set<string>) {
    forall r :: r in rows ==> r.Keys <= cols
  }

  lemma {:induction false} MatchCount(x: Row, bs: seq<Row>, m: Row, xCols: set<string>, bCols: set<string>)
    requires x.Keys <= xCols && Inside(bs, bCols)
    ensures Count(Matches(x, bs, xCols * bCols), m) ==
            if x == Restrict(m, xCols) && m.Keys <= xCols + bCols then Count(bs, Restrict(m, bCols)) else 0
  {
    hide Count, Agree, Restrict;
    if bs == [] {
      NoCount(m);
      NoCount(Restrict(m, bCols));
    } else {
      var n := |bs| - 1;
      assert Inside(bs[..n], bCols) && bs[n] in bs;
      MatchCount(x, bs[..n], m, xCols, bCols);
      PartsExactly(x, bs[n], m, xCols, bCols);
      CountLast(bs, Restrict(m, bCols));
      CountOne(x + bs[n], m);
      NoCount(m);
      CountAppend(Matches(x, bs[..n], xCols * bCols), if Agree(x, bs[n], xCols * bCols) then [x + bs[n]] else [], m);
    }
  }

  lemma NoCount(r: Row)
    ensures Count([], r) == 0
  {
  }

  lemma {:induction false} LeftCount(rows: seq<Row>, bs: seq<Row>, m: Row, aCols: set<string>, bCols: set<string>)
    requires Inside(rows, aCols) && Inside(bs, bCols)
    ensures Count(LeftPart(rows, bs, aCols * bCols), m) ==
            (if m.Keys <= aCols + bCols then Count(rows, Restrict(m, aCols)) * Count(bs, Restrict(m, bCols)) else 0) +
            (if Partnered(m, bs, aCols * bCols) then 0 else Count(rows, m))
  {
    hide Count, Agree, Restrict, Matches, Partnered;
    if rows == [] {
      NoCount(m);
      NoCount(Restrict(m, aCols));
    } else {
      var n := |rows| - 1;
      var common, a := aCols * bCols, rows[n];
      assert Inside(rows[..n], aCols) && a in rows;
      LeftCount(rows[..n], bs, m, aCols, bCols);
      var ms := Matches(a, bs, common);
      MatchCount(a, bs, m, aCols, bCols);
      NoMatch(a, bs, common);
      CountLast(rows, Restrict(m, aCols));
      CountLast(rows, m);
      CountOne(a, m);
      NoCount(m);
      CountAppend(LeftPart(rows[..n], bs, common), if ms == [] then [a] else ms, m);
      OneMoreTimes(Count(rows[..n], Restrict(m, aCols)), Count(bs, Restrict(m, bCols)));
    }
  }

  lemma OneMoreTimes(a: nat, b: nat)
    ensures (a + 1) * b == a * b + b
  {
  }

  lemma {:induction false} RightCount(rows: seq<Row>, bs: seq<Row>, m: Row, common: set<string>)
    ensures Count(RightOnly(rows, bs, common), m) == if Partnered(m, rows, common) then 0 else Count(bs, m)
  {
    hide Count, Agree;
    if bs == [] {
      NoCount(m);
    } else {
      var n := |bs| - 1;
      RightCount(rows, bs[..n], m, common);
      CountLast(bs, m);
      CountOne(bs[n], m);
      NoCount(m);
      CountAppend(RightOnly(rows, bs[..n], common), if Partnered(bs[n], rows, common) then [] else [bs[n]], m);
    }
  }

  /** How often a row occurs in an outer join: as often as its two parts can be paired, and as often
      as it occurs on one side without having a partner on the other. */
  lemma JoinCount(a: Table, b: Table, m: Row)
    requires Formed(a) && Formed(b)
    ensures Count(OuterJoin(a, b).rows, m) ==
            (if m.Keys <= a.cols + b.cols then Count(a.rows, Restrict(m, a.cols)) * Count(b.rows, Restrict(m, b.cols)) else 0)
            + (if Partnered(m, b.rows, a.cols * b.cols) then 0 else Count(a.rows, m))
            + (if Partnered(m, a.rows, a.cols * b.cols) then 0 else Count(b.rows, m))
  {
    hide Count, Restrict, Partnered;
    var common := a.cols * b.cols;
    LeftCount(a.rows, b.rows, m, a.cols, b.cols);
    RightCount(a.rows, b.rows, m, common);
    CountAppend(LeftPart(a.rows, b.rows, common), RightOnly(a.rows, b.rows, common), m);
  }

  lemma JoinFormed(a: Table, b: Table)
    requires Formed(a) && Formed(b)
    ensures Formed(OuterJoin(a, b))
  {
    forall m | m in OuterJoin(a, b).rows ensures m.Keys <= a.cols + b.cols {
      JoinedRow(a, b, m);
    }
  }

  // ---------------------------------------------------------------- the fold of _merge

  /** None when some table has no column in common with what is merged before it. */
  function Merged(ts: seq<Table>): Option<Table>
    requires ts != []
  {
    if |ts| == 1 then Some(ts[0])
    else
      match Merged(ts[..|ts| - 1])
      case None => None
      case Some(t) => if t.cols * ts[|ts| - 1].cols == {} then None else Some(OuterJoin(t, ts[|ts| - 1]))
  }

  /** _merge over the chosen tables. */
  method Merge(ts: seq<Table>) returns (r: Option<Table>)
    requires ts != []
    ensures r == Merged(ts)
  {
    var merged := ts[0];
    assert ts[..1] == [ts[0]];
    for i := 1 to |ts|
      invariant Merged(ts[..i]) == Some(merged)
    {
      assert ts[..i + 1][..i] == ts[..i];
      var df := ts[i];
      var common := merged.cols * df.cols;
      if common == {} {
        NoCommon(ts, i + 1);
        return None;
      }
      merged := OuterJoin(merged, df);
    }
    assert ts[..|ts|] == ts;
    return Some(merged);
  }

  lemma {:induction false} NoCommon(ts: seq<Table>, i: nat)
    requires 0 < i <= |ts| && Merged(ts[..i]).None?
    ensures Merged(ts).None?
    decreases |ts|
  {
    if i < |ts| {
      assert ts[..|ts| - 1][..i] == ts[..i];
      NoCommon(ts[..|ts| - 1], i);
    } else {
      assert ts[..i] == ts;
    }
  }

  function AllCols(ts: seq<Table>): set<string> {
    if ts == [] then {} else AllCols(ts[..|ts| - 1]) + ts[|ts| - 1].cols
  }

  lemma {:induction false} MergedShape(ts: seq<Table>)
    requires ts != [] && Merged(ts).Some? && forall i :: 0 <= i < |ts| ==> Formed(ts[i])
    ensures Formed(Merged(ts).value) && Merged(ts).value.cols == AllCols(ts)
  {
    var n := |ts| - 1;
    if n > 0 {
      MergedShape(ts[..n]);
      JoinFormed(Merged(ts[..n]).value, ts[n]);
    } else {
      assert AllCols(ts[..0]) == {};
    }
  }

  lemma {:induction false} ColsIncluded(ts: seq<Table>, k: nat)
    requires k < |ts|
    ensures ts[k].cols <= AllCols(ts)
  {
    if k < |ts| - 1 {
      ColsIncluded(ts[..|ts| - 1], k);
    }
  }

  lemma {:induction false} ColsFrom(ts: seq<Table>, c: string)
    ensures c in AllCols(ts) <==> exists k :: 0 <= k < |ts| && c in ts[k].cols
  {
    if ts != [] {
      var n := |ts| - 1;
      ColsFrom(ts[..n], c);
      assert ts[..n + 1] == ts;
      if k :| 0 <= k < n && c in ts[..n][k].cols {
        assert c in ts[k].cols;
      }
      if k :| 0 <= k < |ts| && c in ts[k].cols {
        ColsIncluded(ts, k);
      }
    }
  }

  /** Table i has a column in common with an earlier one. */
  ghost predicate SharesBefore(ts: seq<Table>, i: nat)
    requires i < |ts|
  {
    exists k, c :: 0 <= k < i && c in ts[k].cols && c in ts[i].cols
  }

  lemma SharesBeforeExactly(ts: seq<Table>, i: nat)
    requires i < |ts|
    ensures AllCols(ts[..i]) * ts[i].cols != {} <==> SharesBefore(ts, i)
  {
    hide AllCols;
    if c :| c in AllCols(ts[..i]) * ts[i].cols {
      ColsFrom(ts[..i], c);
      var k :| 0 <= k < i && c in ts[..i][k].cols;
      assert c in ts[k].cols;
    }
    if k, c :| 0 <= k < i && c in ts[k].cols && c in ts[i].cols {
      assert c in ts[..i][k].cols;
      ColsFrom(ts[..i], c);
      assert c in AllCols(ts[..i]) * ts[i].cols;
    }
  }

  /** Merging succeeds exactly when every table but the first has a column in common with an earlier one. */
  lemma {:induction false} MergesExactly(ts: seq<Table>)
    requires ts != []
    ensures Merged(ts).Some? <==> forall i :: 0 < i < |ts| ==> SharesBefore(ts, i)
    ensures Merged(ts).Some? ==> Merged(ts).value.cols == AllCols(ts)
  {
    hide OuterJoin, SharesBefore;
    var n := |ts| - 1;
    if n == 0 {
      assert AllCols(ts[..0]) == {};
    } else {
      MergesExactly(ts[..n]);
      SharesBeforeExactly(ts, n);
      JoinCols(if Merged(ts[..n]).Some? then Merged(ts[..n]).value else ts[n], ts[n]);
      forall i | 0 < i < n ensures SharesBefore(ts[..n], i) <==> SharesBefore(ts, i) {
        SharesBeforePrefix(ts, n, i);
      }
    }
  }

  lemma SharesBeforePrefix(ts: seq<Table>, n: nat, i: nat)
    requires i < n <= |ts|
    ensures SharesBefore(ts[..n], i) <==> SharesBefore(ts, i)
  {
    assert forall k :: 0 <= k < n ==> ts[..n][k] == ts[k];
  }

  lemma CarriesThrough(m: Row, m': Row, r: Row, cols: set<string>, more: set<string>)
    requires Carries(m, r, cols) && Carries(m', m, more) && cols <= more
    ensures Carries(m', r, cols)
  {
    forall c ensures c in Restrict(m', cols) <==> c in Restrict(m, cols) {
      assert c in Restrict(m', more) <==> c in m;
    }
  }

  /** However many tables are merged, nothing is lost: every row of every table lives on, whole, in
      some row of the result. */
  lemma {:induction false} MergeLosesNothing(ts: seq<Table>, k: nat, r: Row) returns (m: Row)
    requires k < |ts| && r in ts[k].rows
    requires Merged(ts).Some? && forall i :: 0 <= i < |ts| ==> Formed(ts[i])
    ensures m in Merged(ts).value.rows && Carries(m, r, ts[k].cols)
  {
    var n := |ts| - 1;
    if n == 0 {
      m := r;
      SelfCarries(r, ts[0].cols);
    } else {
      var before := Merged(ts[..n]).value;
      MergedShape(ts[..n]);
      if k == n {
        m := JoinKeepsRight(before, ts[n], r);
      } else {
        var m0 := MergeLosesNothing(ts[..n], k, r);
        m := JoinKeepsLeft(before, ts[n], m0);
        ColsIncluded(ts[..n], k);
        CarriesThrough(m0, m, r, ts[k].cols, before.cols);
      }
    }
  }

  /** r is part of m. */
  ghost predicate Within(r: Row, m: Row) {
    forall c :: c in r ==> c in m && m[c] == r[c]
  }

  /** Nothing is invented either: every value of a merged row comes from a row of some table all
      of which is in the merged row. */
  lemma {:induction false} MergeInventsNothing(ts: seq<Table>, m: Row, c: string)
    requires ts != [] && Merged(ts).Some? && forall i :: 0 <= i < |ts| ==> Formed(ts[i])
    requires m in Merged(ts).value.rows && c in m
    ensures exists k, r :: 0 <= k < |ts| && r in ts[k].rows && c in r && Within(r, m)
    decreases |ts|, 1
  {
    var n := |ts| - 1;
    if n == 0 {
      assert m in ts[0].rows && Within(m, m);
    } else {
      var before := Merged(ts[..n]).value;
      MergedShape(ts[..n]);
      JoinedRow(before, ts[n], m);
      if m in before.rows {
        FromBefore(ts, m, m, c);
      } else if m in ts[n].rows {
        assert Within(m, m);
      } else {
        var x, y :| Pair(before, ts[n], x, y, m);
        JoinedCarries(x, y, before.cols, ts[n].cols);
        CarriedIsWithin(m, x, before.cols);
        CarriedIsWithin(m, y, ts[n].cols);
        if c in y {
          assert Within(y, m);
        } else {
          FromBefore(ts, x, m, c);
        }
      }
    }
  }

  lemma CarriedIsWithin(m: Row, r: Row, cols: set<string>)
    requires Carries(m, r, cols)
    ensures Within(r, m)
  {
    forall c | c in r ensures c in m && m[c] == r[c] {
      assert c in Restrict(m, cols);
    }
  }

  lemma FromBefore(ts: seq<Table>, x: Row, m: Row, c: string)
    requires |ts| > 1 && Merged(ts).Some? && forall i :: 0 <= i < |ts| ==> Formed(ts[i])
    requires x in Merged(ts[..|ts| - 1]).value.rows && c in x && Within(x, m)
    ensures exists k, r :: 0 <= k < |ts| && r in ts[k].rows && c in r && Within(r, m)
    decreases |ts|, 0
  {
    var n := |ts| - 1;
    MergeInventsNothing(ts[..n], x, c);
    var k, r :| 0 <= k < n && r in ts[..n][k].rows && c in r && Within(r, x);
    assert ts[..n][k] == ts[k];
    assert Within(r, m);
  }

  // ---------------------------------------------------------------- the order of the fold

  /** All tables share the columns in key, and no two of them share any other. */
  ghost predicate Star(ts: seq<Table>, key: set<string>) {
    && (forall i :: 0 <= i < |ts| ==> Formed(ts[i]) && key <= ts[i].cols)
    && forall i, j :: 0 <= i < j < |ts| ==> ts[i].cols * ts[j].cols == key
  }

  /** What table t contributes to the occurrences of m: its rows that are m's part, or, when no row has
      m's key, nothing if m has none of t's other columns. */
  ghost function Factor(t: Table, key: set<string>, m: Row): nat {
    if Partnered(m, t.rows, key) then Count(t.rows, Restrict(m, t.cols))
    else if Restrict(m, t.cols - key) == map[] then 1 else 0
  }

  ghost function Product(ts: seq<Table>, key: set<string>, m: Row): nat {
    if ts == [] then 1 else Product(ts[..|ts| - 1], key, m) * Factor(ts[|ts| - 1], key, m)
  }

  ghost predicate SomePartner(ts: seq<Table>, key: set<string>, m: Row) {
    exists i :: 0 <= i < |ts| && Partnered(m, ts[i].rows, key)
  }

  lemma StarBefore(ts: seq<Table>, key: set<string>)
    requires Star(ts, key) && ts != []
    ensures Star(ts[..|ts| - 1], key)
    ensures Formed(ts[|ts| - 1]) && key <= ts[|ts| - 1].cols
  {
  }

  lemma {:induction false} StarShared(ts: seq<Table>, key: set<string>, n: nat)
    requires Star(ts, key) && 0 < n < |ts|
    ensures AllCols(ts[..n]) * ts[n].cols == key && key <= AllCols(ts[..n])
    decreases n
  {
    hide Formed;
    assert ts[..n][..n - 1] == ts[..n - 1];
    assert ts[n - 1].cols * ts[n].cols == key;
    if n > 1 {
      var before := ts[..n - 1] + [ts[n]];
      assert Star(before, key) by {
        forall i, j | 0 <= i < j < |before| ensures before[i].cols * before[j].cols == key {
          assert before[i] == ts[i] && before[j] == if j < n - 1 then ts[j] else ts[n];
        }
      }
      StarShared(before, key, n - 1);
      assert before[..n - 1] == ts[..n - 1];
    } else {
      assert AllCols(ts[..0]) == {};
    }
  }

  /** Rows that agree on the key with one part of m agree with m. */
  lemma SamePartner(m: Row, cols: set<string>, rows: seq<Row>, key: set<string>)
    requires key <= cols
    ensures Partnered(Restrict(m, cols), rows, key) <==> Partnered(m, rows, key)
  {
    forall r: Row ensures Agree(r, Restrict(m, cols), key) <==> Agree(r, m, key) {
    }
  }

  lemma SameFactor(t: Table, key: set<string>, m: Row, cols: set<string>)
    requires key <= t.cols <= cols
    ensures Factor(t, key, Restrict(m, cols)) == Factor(t, key, m)
  {
    SamePartner(m, cols, t.rows, key);
    assert Restrict(Restrict(m, cols), t.cols) == Restrict(m, t.cols);
    assert Restrict(Restrict(m, cols), t.cols - key) == Restrict(m, t.cols - key);
  }

  lemma {:induction false} SameProduct(ts: seq<Table>, key: set<string>, m: Row, cols: set<string>)
    requires Star(ts, key) && AllCols(ts) <= cols
    ensures Product(ts, key, Restrict(m, cols)) == Product(ts, key, m)
    ensures SomePartner(ts, key, Restrict(m, cols)) <==> SomePartner(ts, key, m)
  {
    forall i | 0 <= i < |ts|
      ensures Partnered(Restrict(m, cols), ts[i].rows, key) <==> Partnered(m, ts[i].rows, key)
    {
      ColsIncluded(ts, i);
      SamePartner(m, cols, ts[i].rows, key);
    }
    hide Star, Partnered, Factor, Restrict, Formed;
    if ts != [] {
      StarBefore(ts, key);
      SameProduct(ts[..|ts| - 1], key, m, cols);
      ColsIncluded(ts, |ts| - 1);
      SameFactor(ts[|ts| - 1], key, m, cols);
    }
  }

  /** A row that occurs has partners among the rows it occurs in. */
  lemma OwnPartner(rows: seq<Row>, m: Row, key: set<string>)
    ensures Count(rows, m) > 0 ==> Partnered(m, rows, key)
  {
    if m in multiset(rows) {
      assert m in rows;
      var i :| 0 <= i < |rows| && rows[i] == m;
      assert Agree(rows[i], m, key);
    }
  }

  lemma OutsideCount(t: Table, m: Row)
    requires Formed(t) && !(m.Keys <= t.cols)
    ensures Count(t.rows, m) == 0
  {
    assert m in multiset(t.rows) ==> m in t.rows;
  }

  lemma WholeRestrict(m: Row, cols: set<string>)
    ensures m.Keys <= cols <==> Restrict(m, cols) == m
  {
    if Restrict(m, cols) == m {
      assert forall c :: c in m ==> c in Restrict(m, cols);
    }
  }

  lemma OneTableCount(t: Table, key: set<string>, m: Row)
    requires Formed(t) && key <= t.cols
    ensures Count(t.rows, m) == if m.Keys <= t.cols && Partnered(m, t.rows, key) then Factor(t, key, m) else 0
  {
    hide Count, Partnered, Restrict;
    OwnPartner(t.rows, m, key);
    WholeRestrict(m, t.cols);
    if !(m.Keys <= t.cols) {
      OutsideCount(t, m);
    }
  }

  /** A merged row has m's key exactly when a row of one of the two tables has. */
  lemma JoinPartner(t: Table, b: Table, key: set<string>, m: Row)
    requires Formed(t) && Formed(b) && key <= t.cols && key <= b.cols
    ensures Partnered(m, OuterJoin(t, b).rows, key) <==> Partnered(m, t.rows, key) || Partnered(m, b.rows, key)
  {
    hide OuterJoin;
    if Partnered(m, OuterJoin(t, b).rows, key) {
      var i :| 0 <= i < |OuterJoin(t, b).rows| && Agree(OuterJoin(t, b).rows[i], m, key);
      FromPart(t, b, OuterJoin(t, b).rows[i], key, m);
    }
    if Partnered(m, t.rows, key) {
      var i :| 0 <= i < |t.rows| && Agree(t.rows[i], m, key);
      var r := JoinKeepsLeft(t, b, t.rows[i]);
      CarriedKey(r, t.rows[i], t.cols, key, m);
      InList(OuterJoin(t, b).rows, r, m, key);
    } else if Partnered(m, b.rows, key) {
      var i :| 0 <= i < |b.rows| && Agree(b.rows[i], m, key);
      var r := JoinKeepsRight(t, b, b.rows[i]);
      CarriedKey(r, b.rows[i], b.cols, key, m);
      InList(OuterJoin(t, b).rows, r, m, key);
    }
  }

  lemma InList(rows: seq<Row>, r: Row, m: Row, key: set<string>)
    requires r in rows && Agree(r, m, key)
    ensures Partnered(m, rows, key)
  {
  }

  lemma CarriedKey(r: Row, x: Row, cols: set<string>, key: set<string>, m: Row)
    requires Carries(r, x, cols) && key <= cols
    ensures Agree(r, m, key) <==> Agree(x, m, key)
  {
    forall c | c in key ensures (c in r <==> c in x) && (c in r ==> r[c] == x[c]) {
      assert c in r <==> c in Restrict(r, cols);
    }
  }

  lemma FromPart(t: Table, b: Table, r: Row, key: set<string>, m: Row)
    requires Formed(t) && Formed(b) && key <= t.cols && key <= b.cols
    requires r in OuterJoin(t, b).rows && Agree(r, m, key)
    ensures Partnered(m, t.rows, key) || Partnered(m, b.rows, key)
  {
    JoinedRow(t, b, r);
    hide OuterJoin, Agree, Partnered;
    if x, y :| Pair(t, b, x, y, r) {
      JoinedCarries(x, y, t.cols, b.cols);
      CarriedKey(r, x, t.cols, key, m);
      InList(t.rows, x, m, key);
    } else if r in t.rows {
      InList(t.rows, r, m, key);
    } else {
      InList(b.rows, r, m, key);
    }
  }

  /** Where no table has m's key, the product tells whether m has any other column of theirs. */
  lemma {:induction false} ProductNone(ts: seq<Table>, key: set<string>, m: Row)
    requires Star(ts, key) && !SomePartner(ts, key, m)
    ensures Product(ts, key, m) == if Restrict(m, AllCols(ts) - key) == map[] then 1 else 0
  {
    hide Partnered;
    if ts != [] {
      var n := |ts| - 1;
      StarBefore(ts, key);
      StarPartner(ts, key, m);
      ProductNone(ts[..n], key, m);
      hide Star, SomePartner, Product;
      EmptyUnion(m, AllCols(ts[..n]) - key, ts[n].cols - key);
      assert AllCols(ts) - key == (AllCols(ts[..n]) - key) + (ts[n].cols - key);
    }
  }

  lemma EmptyUnion(m: Row, a: set<string>, b: set<string>)
    ensures Restrict(m, a + b) == map[] <==> Restrict(m, a) == map[] && Restrict(m, b) == map[]
  {
    NoneOf(m, a);
    NoneOf(m, b);
    NoneOf(m, a + b);
  }

  lemma NoneOf(m: Row, cols: set<string>)
    ensures Restrict(m, cols) == map[] <==> m.Keys !! cols
  {
    assert forall c :: c in m && c in cols ==> c in Restrict(m, cols);
  }

  lemma MergeStepCount(before: seq<Table>, t: Table, b: Table, key: set<string>, m: Row)
    requires Star(before, key) && Formed(t) && Formed(b)
    requires t.cols == AllCols(before) && t.cols * b.cols == key
    requires Count(t.rows, m) == if m.Keys <= t.cols && SomePartner(before, key, m) then Product(before, key, m) else 0
    requires Count(t.rows, Restrict(m, t.cols)) == if SomePartner(before, key, m) then Product(before, key, m) else 0
    requires Partnered(m, t.rows, key) <==> SomePartner(before, key, m)
    ensures Count(OuterJoin(t, b).rows, m) ==
            if m.Keys <= t.cols + b.cols && (SomePartner(before, key, m) || Partnered(m, b.rows, key))
            then Product(before, key, m) * Factor(b, key, m) else 0
  {
    hide Count, Partnered, Restrict, Star, SomePartner, Product, OuterJoin, Formed;
    JoinCount(t, b, m);
    OwnPartner(b.rows, m, key);
    OwnPartner(b.rows, Restrict(m, b.cols), key);
    SamePartner(m, b.cols, b.rows, key);
    NoneOf(m, b.cols - key);
    WholeRestrict(m, b.cols);
    if !(m.Keys <= b.cols) {
      OutsideCount(b, m);
    }
    var pt, pb := SomePartner(before, key, m), Partnered(m, b.rows, key);
    ZeroOrOne(Product(before, key, m), Factor(b, key, m));
    if m.Keys <= t.cols + b.cols {
      InOne(m.Keys, t.cols, b.cols, key);
    }
    if !pt {
      ProductNone(before, key, m);
      NoneOf(m, t.cols - key);
    }
    if !(m.Keys <= t.cols + b.cols) {
      assert Count(OuterJoin(t, b).rows, m) == 0;
    } else if pt && pb {
      assert Factor(b, key, m) == Count(b.rows, Restrict(m, b.cols));
    } else if pt {
      assert Count(b.rows, Restrict(m, b.cols)) == 0;
      assert Count(OuterJoin(t, b).rows, m) == Count(t.rows, m);
      assert Factor(b, key, m) == if m.Keys <= t.cols then 1 else 0;
    } else if pb {
      assert Count(OuterJoin(t, b).rows, m) == Count(b.rows, m);
      assert Factor(b, key, m) == Count(b.rows, Restrict(m, b.cols));
      assert Product(before, key, m) == if m.Keys <= b.cols then 1 else 0;
    } else {
      assert Count(OuterJoin(t, b).rows, m) == 0;
    }
  }

  lemma ZeroOrOne(a: nat, b: nat)
    ensures a == 0 || b == 0 ==> a * b == 0
    ensures a == 1 ==> a * b == b
    ensures b == 1 ==> a * b == a
  {
  }

  lemma InOne(keys: set<string>, a: set<string>, b: set<string>, key: set<string>)
    requires keys <= a + b && a * b == key
    ensures keys !! b - key <==> keys <= a
    ensures keys !! a - key <==> keys <= b
  {
    assert key <= a && key <= b;
  }

  /** How often a row occurs after star-shaped tables have been merged: the product of what each table
      contributes. Nothing in it depends on the order of the tables. */
  lemma {:induction false} MergeCountExactly(ts: seq<Table>, key: set<string>, m: Row)
    requires ts != [] && key != {} && Star(ts, key)
    ensures Merged(ts).Some? && Merged(ts).value.cols == AllCols(ts) && Formed(Merged(ts).value)
    ensures Count(Merged(ts).value.rows, m) ==
            if m.Keys <= AllCols(ts) && SomePartner(ts, key, m) then Product(ts, key, m) else 0
    ensures Partnered(m, Merged(ts).value.rows, key) <==> SomePartner(ts, key, m)
    decreases |ts|
  {
    hide Count, Partnered, Restrict, OuterJoin, Formed, Factor;
    var n := |ts| - 1;
    StarBefore(ts, key);
    StarPartner(ts, key, m);
    assert Product(ts[..0], key, m) == 1 && AllCols(ts[..0]) == {} && !SomePartner(ts[..0], key, m);
    if n == 0 {
      OneTableCount(ts[0], key, m);
    } else {
      StarShared(ts, key, n);
      MergeCountExactly(ts[..n], key, m);
      var t := Merged(ts[..n]).value;
      MergeCountExactly(ts[..n], key, Restrict(m, t.cols));
      SameProduct(ts[..n], key, m, t.cols);
      RestrictInside(m, t.cols);
      MergeStepCount(ts[..n], t, ts[n], key, m);
      JoinFormed(t, ts[n]);
      JoinCols(t, ts[n]);
      JoinPartner(t, ts[n], key, m);
    }
  }

  lemma RestrictInside(m: Row, cols: set<string>)
    ensures Restrict(m, cols).Keys <= cols
  {
  }

  lemma StarPartner(ts: seq<Table>, key: set<string>, m: Row)
    requires ts != []
    ensures SomePartner(ts, key, m) <==>
            SomePartner(ts[..|ts| - 1], key, m) || Partnered(m, ts[|ts| - 1].rows, key)
  {
    hide Partnered;
    var n := |ts| - 1;
    if SomePartner(ts[..n], key, m) {
      var i :| 0 <= i < n && Partnered(m, ts[..n][i].rows, key);
      assert ts[i] == ts[..n][i];
    }
    if SomePartner(ts, key, m) {
      var i :| 0 <= i < |ts| && Partnered(m, ts[i].rows, key);
      assert i < n ==> ts[..n][i] == ts[i];
    }
  }

  // what no order can change

  lemma {:induction false} ProductSkip(us: seq<Table>, i: nat, key: set<string>, m: Row)
    requires i < |us|
    ensures Product(us, key, m) == Product(Skip(us, i), key, m) * Factor(us[i], key, m)
    ensures AllCols(us) == AllCols(Skip(us, i)) + us[i].cols
    decreases |us|
  {
    hide Factor;
    var n := |us| - 1;
    SkipLast(us, i);
    if i < n {
      hide Skip;
      ProductSkip(us[..n], i, key, m);
      Swap(Product(Skip(us[..n], i), key, m), Factor(us[i], key, m), Factor(us[n], key, m));
    }
  }

  lemma Swap(a: nat, b: nat, c: nat)
    ensures (a * b) * c == (a * c) * b
  {
  }

  lemma {:induction false} ProductPermutes(ts: seq<Table>, us: seq<Table>, key: set<string>, m: Row)
    requires multiset(ts) == multiset(us)
    ensures Product(ts, key, m) == Product(us, key, m) && AllCols(ts) == AllCols(us)
    decreases |ts|
  {
    if ts == [] {
      assert |multiset(us)| == 0;
    } else {
      hide Factor, Skip, Product, AllCols;
      var n, i := SameLast(ts, us);
      ProductPermutes(Skip(ts, n), Skip(us, i), key, m);
      ProductSkip(ts, n, key, m);
      ProductSkip(us, i, key, m);
    }
  }

  lemma SomePartnerPermutes(ts: seq<Table>, us: seq<Table>, key: set<string>, m: Row)
    requires multiset(ts) == multiset(us)
    ensures SomePartner(ts, key, m) ==> SomePartner(us, key, m)
  {
    hide Partnered;
    if i :| 0 <= i < |ts| && Partnered(m, ts[i].rows, key) {
      assert ts[i] in multiset(us);
      var j :| 0 <= j < |us| && us[j] == ts[i];
    }
  }

  /** For star-shaped tables the order of merging changes nothing but the order of the rows. */
  lemma MergeOrderIrrelevant(ts: seq<Table>, us: seq<Table>, key: set<string>)
    requires ts != [] && key != {} && Star(ts, key) && Star(us, key) && multiset(ts) == multiset(us)
    ensures Merged(ts).Some? && Merged(us).Some?
    ensures Merged(ts).value.cols == Merged(us).value.cols
    ensures multiset(Merged(ts).value.rows) == multiset(Merged(us).value.rows)
  {
    hide Merged, Star, Product, SomePartner, Factor, AllCols;
    assert us != [] by {
      assert |multiset(ts)| == |ts|;
    }
    MergeCountExactly(ts, key, map[]);
    MergeCountExactly(us, key, map[]);
    ProductPermutes(ts, us, key, map[]);
    forall m: Row ensures Count(Merged(ts).value.rows, m) == Count(Merged(us).value.rows, m) {
      MergeCountExactly(ts, key, m);
      MergeCountExactly(us, key, m);
      ProductPermutes(ts, us, key, m);
      SomePartnerPermutes(ts, us, key, m);
      SomePartnerPermutes(us, ts, key, m);
    }
    SameCounts(Merged(ts).value.rows, Merged(us).value.rows);
  }

  lemma SameCounts(a: seq<Row>, b: seq<Row>)
    requires forall m: Row :: Count(a, m) == Count(b, m)
    ensures multiset(a) == multiset(b)
  {
    forall m: Row ensures multiset(a)[m] == multiset(b)[m] {
      assert Count(a, m) == Count(b, m);
    }
  }

  /** Two tables are always star-shaped: an outer join commutes up to the order of the rows. */
  lemma JoinCommutes(a: Table, b: Table)
    requires Formed(a) && Formed(b)
    ensures OuterJoin(a, b).cols == OuterJoin(b, a).cols
    ensures multiset(OuterJoin(a, b).rows) == multiset(OuterJoin(b, a).rows)
  {
    hide Count, Restrict, Partnered;
    forall m: Row ensures Count(OuterJoin(a, b).rows, m) == Count(OuterJoin(b, a).rows, m) {
      JoinCount(a, b, m);
      JoinCount(b, a, m);
      assert a.cols * b.cols == b.cols * a.cols && a.cols + b.cols == b.cols + a.cols;
    }
    SameCounts(OuterJoin(a, b).rows, OuterJoin(b, a).rows);
  }

  lemma JoinCols(a: Table, b: Table)
    ensures OuterJoin(a, b).cols == a.cols + b.cols
  {
  }

  // ---------------------------------------------------------------- filters

  datatype Condition = Eq | Lt | Gt | Le | Ge | Ne

  /** A filter names a table by its file name, not by its path. */
  datatype Filter = Filter(tableName: string, column: string, condition: Condition, value: int)

  /** A comparison in a query; with a missing value only != holds. */
  predicate Satisfies(r: Row, f: Filter) {
    if f.column !in r || r[f.column].Text? then f.condition.Ne?
    else
      var n := r[f.column].n;
      match f.condition
      case Eq => n == f.value
      case Lt => n < f.value
      case Gt => n > f.value
      case Le => n <= f.value
      case Ge => n >= f.value
      case Ne => n != f.value
  }

  function Basename(path: string): string {
    if path == [] || path[|path| - 1] == '/' then "" else Basename(path[..|path| - 1]) + [path[|path| - 1]]
  }

  /** What follows the last separator of the path. */
  lemma {:induction false} BasenameMeaning(path: string)
    ensures '/' !in Basename(path)
    ensures var n := |path| - |Basename(path)|;
            n >= 0 && path[n..] == Basename(path) && (n == 0 || path[n - 1] == '/')
  {
    if path != [] && path[|path| - 1] != '/' {
      BasenameMeaning(path[..|path| - 1]);
    }
  }

  /** Rows a query keeps: all its comparisons joined by `and`. */
  function Query(rows: seq<Row>, fs: seq<Filter>): seq<Row> {
    if rows == [] then []
    else
      var r := rows[|rows| - 1];
      Query(rows[..|rows| - 1], fs) + if forall f :: f in fs ==> Satisfies(r, f) then [r] else []
  }

  /** data_frame.query; a comparison with an unknown column raises. */
  function QueryTable(t: Table, fs: seq<Filter>): Option<Table> {
    if forall f :: f in fs ==> f.column in t.cols then Some(t.(rows := Query(t.rows, fs))) else None
  }

  /** The filters that name a table, whatever their order. */
  function Naming(fs: seq<Filter>, name: string): seq<Filter> {
    if fs == [] then []
    else
      var f := fs[|fs| - 1];
      Naming(fs[..|fs| - 1], name) + if f.tableName == name then [f] else []
  }

  type Frames = seq<(string, Table)>

  function Filtered(frames: Frames, fs: seq<Filter>): Option<Frames> {
    if frames == [] then Some([])
    else
      var n := |frames| - 1;
      match Filtered(frames[..n], fs)
      case None => None
      case Some(done) =>
        match QueryTable(frames[n].1, Naming(fs, Basename(frames[n].0)))
        case None => None
        case Some(t) => Some(done + [(frames[n].0, t)])
  }

  /** The first loop of _apply_filters: filters grouped by the table they name. */
  method GroupByName(fs: seq<Filter>) returns (byName: map<string, seq<Filter>>)
    ensures forall name :: (if name in byName then byName[name] else []) == Naming(fs, name)
  {
    hide Naming;
    byName := map[];
    assert fs[..0] == [];
    forall name ensures Naming([], name) == [] {
      NamingNothing(name);
    }
    for i := 0 to |fs|
      invariant forall name :: (if name in byName then byName[name] else []) == Naming(fs[..i], name)
    {
      var f := fs[i];
      forall name ensures Naming(fs[..i + 1], name) == Naming(fs[..i], name) + if f.tableName == name then [f] else [] {
        NamingStep(fs, i, name);
      }
      var before := if f.tableName in byName then byName[f.tableName] else [];
      byName := byName[f.tableName := before + [f]];
    }
    assert fs[..|fs|] == fs;
  }

  lemma NamingNothing(name: string)
    ensures Naming([], name) == []
  {
  }

  lemma NamingStep(fs: seq<Filter>, i: nat, name: string)
    requires i < |fs|
    ensures Naming(fs[..i + 1], name) == Naming(fs[..i], name) + if fs[i].tableName == name then [fs[i]] else []
  {
    assert fs[..i + 1][..i] == fs[..i];
  }

  /** _apply_filters: every table that is named is queried. */
  method ApplyFilters(frames: Frames, fs: seq<Filter>) returns (r: Option<Frames>)
    ensures r == Filtered(frames, fs)
  {
    hide QueryTable, Naming, Basename;
    var byName := GroupByName(fs);
    var done: Frames := [];
    for i := 0 to |frames|
      invariant Filtered(frames[..i], fs) == Some(done)
    {
      assert frames[..i + 1][..i] == frames[..i];
      var path, df := frames[i].0, frames[i].1;
      var name := Basename(path);
      var named := if name in byName then byName[name] else [];
      assert named == Naming(fs, name);
      if name in byName {
        var q := QueryTable(df, byName[name]);
        if q.None? {
          FilterFails(frames, fs, i + 1);
          return None;
        }
        done := done + [(path, q.value)];
      } else {
        NoQuery(df);
        done := done + [(path, df)];
      }
    }
    assert frames[..|frames|] == frames;
    return Some(done);
  }

  lemma {:induction false} QueryNothing(rows: seq<Row>)
    ensures Query(rows, []) == rows
  {
    if rows != [] {
      QueryNothing(rows[..|rows| - 1]);
    }
  }

  lemma NoQuery(t: Table)
    ensures QueryTable(t, []) == Some(t)
  {
    QueryNothing(t.rows);
  }

  lemma {:induction false} FilterFails(frames: Frames, fs: seq<Filter>, i: nat)
    requires i <= |frames| && Filtered(frames[..i], fs).None?
    ensures Filtered(frames, fs).None?
    decreases |frames|
  {
    if i < |frames| {
      assert frames[..|frames| - 1][..i] == frames[..i];
      FilterFails(frames[..|frames| - 1], fs, i);
    } else {
      assert frames[..i] == frames;
    }
  }

  lemma {:induction false} NamingMembers(fs: seq<Filter>, name: string, f: Filter)
    ensures f in Naming(fs, name) <==> f in fs && f.tableName == name
  {
    if fs != [] {
      NamingMembers(fs[..|fs| - 1], name, f);
    }
  }

  lemma {:induction false} QueryCounts(rows: seq<Row>, fs: seq<Filter>, r: Row)
    ensures Count(Query(rows, fs), r) == if forall f :: f in fs ==> Satisfies(r, f) then Count(rows, r) else 0
  {
    hide Satisfies, Count;
    if rows == [] {
      NoCount(r);
    } else {
      var n := |rows| - 1;
      QueryCounts(rows[..n], fs, r);
      CountLast(rows, r);
      CountOne(rows[n], r);
      CountAppend(Query(rows[..n], fs), [rows[n]], r);
      assert Query(rows[..n], fs) + [] == Query(rows[..n], fs);
    }
  }

  lemma {:induction false} QuerySame(rows: seq<Row>, fs: seq<Filter>, gs: seq<Filter>)
    requires forall f :: f in fs <==> f in gs
    ensures Query(rows, fs) == Query(rows, gs)
  {
    if rows != [] {
      QuerySame(rows[..|rows| - 1], fs, gs);
    }
  }

  ghost predicate MeetsAll(r: Row, fs: seq<Filter>, name: string) {
    forall f :: f in fs && f.tableName == name ==> Satisfies(r, f)
  }

  lemma NamedQuery(t: Table, fs: seq<Filter>, name: string, r: Row)
    requires QueryTable(t, Naming(fs, name)).Some?
    ensures var q := QueryTable(t, Naming(fs, name)).value;
            q.cols == t.cols && multiset(q.rows)[r] == if MeetsAll(r, fs, name) then multiset(t.rows)[r] else 0
  {
    QueryCounts(t.rows, Naming(fs, name), r);
    forall f ensures f in Naming(fs, name) <==> f in fs && f.tableName == name {
      NamingMembers(fs, name, f);
    }
  }

  lemma {:induction false} FilteredAt(frames: Frames, fs: seq<Filter>, i: nat)
    requires i < |frames| && Filtered(frames, fs).Some?
    ensures |Filtered(frames, fs).value| == |frames|
    ensures var q := QueryTable(frames[i].1, Naming(fs, Basename(frames[i].0)));
            q.Some? && Filtered(frames, fs).value[i] == (frames[i].0, q.value)
  {
    hide QueryTable, Naming, Basename;
    var n := |frames| - 1;
    FilteredLength(frames[..n], fs);
    if i < n {
      FilteredAt(frames[..n], fs, i);
    }
  }

  /** A filtered table has exactly the rows that meet every filter naming it, each as often as before. */
  lemma FilteredExactly(frames: Frames, fs: seq<Filter>, i: nat, r: Row)
    requires i < |frames| && Filtered(frames, fs).Some?
    ensures |Filtered(frames, fs).value| == |frames|
    ensures var f := Filtered(frames, fs).value[i];
            && f.0 == frames[i].0 && f.1.cols == frames[i].1.cols
            && multiset(f.1.rows)[r] ==
               if MeetsAll(r, fs, Basename(f.0)) then multiset(frames[i].1.rows)[r] else 0
  {
    hide QueryTable, Naming, Basename, MeetsAll, Filtered;
    FilteredAt(frames, fs, i);
    NamedQuery(frames[i].1, fs, Basename(frames[i].0), r);
  }

  lemma {:induction false} FilteredLength(frames: Frames, fs: seq<Filter>)
    ensures Filtered(frames, fs).Some? ==> |Filtered(frames, fs).value| == |frames|
  {
    if frames != [] {
      FilteredLength(frames[..|frames| - 1], fs);
    }
  }

  /** What a query with this one comparison keeps. */
  function Kept(rows: seq<Row>, column: string, condition: Condition, value: int): multiset<Row> {
    multiset(Query(rows, [Filter("", column, condition, value)]))
  }

  /** Rows with nothing to compare in the column. */
  function Incomparable(rows: seq<Row>, column: string): seq<Row> {
    if rows == [] then []
    else
      var r := rows[|rows| - 1];
      Incomparable(rows[..|rows| - 1], column) + if column in r && r[column].Num? then [] else [r]
  }

  lemma KeptCounts(rows: seq<Row>, column: string, condition: Condition, value: int, r: Row)
    ensures Kept(rows, column, condition, value)[r] ==
            if Satisfies(r, Filter("", column, condition, value)) then multiset(rows)[r] else 0
  {
    hide Satisfies;
    var f := Filter("", column, condition, value);
    QueryCounts(rows, [f], r);
    assert f in [f] && forall g :: g in [f] ==> g == f;
  }

  lemma {:induction false} IncomparableCounts(rows: seq<Row>, column: string, r: Row)
    ensures multiset(Incomparable(rows, column))[r] ==
            if column in r && r[column].Num? then 0 else multiset(rows)[r]
  {
    if rows != [] {
      var n := |rows| - 1;
      IncomparableCounts(rows[..n], column, r);
      assert rows == rows[..n] + [rows[n]];
    }
  }

  /** The comparisons with a value split the rows, none lost and none kept twice: into those less,
      equal and greater, and those with nothing to compare, which only != keeps. */
  lemma ComparisonsPartition(rows: seq<Row>, column: string, value: int)
    ensures var less, equal, greater :=
              Kept(rows, column, Lt, value), Kept(rows, column, Eq, value), Kept(rows, column, Gt, value);
            var rest := multiset(Incomparable(rows, column));
            && multiset(rows) == less + equal + greater + rest
            && Kept(rows, column, Le, value) == less + equal
            && Kept(rows, column, Ge, value) == greater + equal
            && Kept(rows, column, Ne, value) == less + greater + rest
  {
    hide *;
    var less, equal, greater :=
      Kept(rows, column, Lt, value), Kept(rows, column, Eq, value), Kept(rows, column, Gt, value);
    var rest := multiset(Incomparable(rows, column));
    forall r: Row
      ensures multiset(rows)[r] == less[r] + equal[r] + greater[r] + rest[r]
      ensures Kept(rows, column, Le, value)[r] == less[r] + equal[r]
      ensures Kept(rows, column, Ge, value)[r] == greater[r] + equal[r]
      ensures Kept(rows, column, Ne, value)[r] == less[r] + greater[r] + rest[r]
    {
      RowOnOneSide(rows, column, value, r);
    }
  }

  lemma RowOnOneSide(rows: seq<Row>, column: string, value: int, r: Row)
    ensures var less, equal, greater :=
              Kept(rows, column, Lt, value)[r], Kept(rows, column, Eq, value)[r], Kept(rows, column, Gt, value)[r];
            var rest := multiset(Incomparable(rows, column))[r];
            && multiset(rows)[r] == less + equal + greater + rest
            && Kept(rows, column, Le, value)[r] == less + equal
            && Kept(rows, column, Ge, value)[r] == greater + equal
            && Kept(rows, column, Ne, value)[r] == less + greater + rest
  {
    hide Kept, Incomparable;
    IncomparableCounts(rows, column, r);
    forall c ensures Kept(rows, column, c, value)[r] ==
                     if Satisfies(r, Filter("", column, c, value)) then multiset(rows)[r] else 0 {
      KeptCounts(rows, column, c, value, r);
    }
  }

  /** = keeps the rows with just this number; < keeps more and > fewer as the value grows. */
  lemma ComparisonsOrdered(rows: seq<Row>, column: string, low: int, high: int, r: Row)
    requires low <= high
    ensures Kept(rows, column, Eq, low)[r] == if column in r && r[column] == Num(low) then multiset(rows)[r] else 0
    ensures Kept(rows, column, Lt, low)[r] <= Kept(rows, column, Lt, high)[r]
    ensures Kept(rows, column, Gt, high)[r] <= Kept(rows, column, Gt, low)[r]
  {
    hide Kept;
    KeptCounts(rows, column, Eq, low, r);
    KeptCounts(rows, column, Lt, low, r);
    KeptCounts(rows, column, Lt, high, r);
    KeptCounts(rows, column, Gt, low, r);
    KeptCounts(rows, column, Gt, high, r);
  }

  /** A filter that names this table compares a column the table does not have. */
  ghost predicate AsksInVain(fs: seq<Filter>, frame: (string, Table)) {
    exists f :: f in fs && f.tableName == Basename(frame.0) && f.column !in frame.1.cols
  }

  /** Filtering raises exactly when some table is asked for a column it does not have. */
  lemma {:induction false} FilteringRaisesExactly(frames: Frames, fs: seq<Filter>)
    ensures Filtered(frames, fs).None? <==> exists i :: 0 <= i < |frames| && AsksInVain(fs, frames[i])
  {
    hide AsksInVain, QueryTable;
    if frames != [] {
      var n := |frames| - 1;
      FilteringRaisesExactly(frames[..n], fs);
      QueryRaisesExactly(frames[n], fs);
      if i :| 0 <= i < n && AsksInVain(fs, frames[..n][i]) {
        assert AsksInVain(fs, frames[i]);
      }
      if i :| 0 <= i < n && AsksInVain(fs, frames[i]) {
        assert AsksInVain(fs, frames[..n][i]);
      }
    }
  }

  lemma QueryRaisesExactly(frame: (string, Table), fs: seq<Filter>)
    ensures QueryTable(frame.1, Naming(fs, Basename(frame.0))).None? <==> AsksInVain(fs, frame)
  {
    hide Query, Basename, Naming;
    forall f ensures f in Naming(fs, Basename(frame.0)) <==> f in fs && f.tableName == Basename(frame.0) {
      NamingMembers(fs, Basename(frame.0), f);
    }
  }

  /** The order in which filters were added does not matter. */
  lemma {:induction false} FilterOrderIrrelevant(frames: Frames, fs: seq<Filter>, gs: seq<Filter>)
    requires multiset(fs) == multiset(gs)
    ensures Filtered(frames, fs) == Filtered(frames, gs)
  {
    if frames != [] {
      var n := |frames| - 1;
      FilterOrderIrrelevant(frames[..n], fs, gs);
      var name := Basename(frames[n].0);
      forall f ensures f in Naming(fs, name) <==> f in Naming(gs, name) {
        NamingMembers(fs, name, f);
        NamingMembers(gs, name, f);
        assert f in multiset(fs) <==> f in multiset(gs);
      }
      QuerySame(frames[n].1.rows, Naming(fs, name), Naming(gs, name));
    }
  }

  /** Filtering drops rows and nothing else. */
  lemma {:induction false} FilteredFormed(frames: Frames, fs: seq<Filter>, i: nat)
    requires i < |frames| && Filtered(frames, fs).Some? && Formed(frames[i].1)
    ensures |Filtered(frames, fs).value| == |frames| && Formed(Filtered(frames, fs).value[i].1)
  {
    FilteredLength(frames, fs);
    var t := Filtered(frames, fs).value[i].1;
    FilteredExactly(frames, fs, i, map[]);
    forall r | r in t.rows ensures r.Keys <= t.cols {
      FilteredExactly(frames, fs, i, r);
      assert r in multiset(t.rows);
      assert r in multiset(frames[i].1.rows);
    }
  }
}
