/** What an outer join does to the sum of a column: a row counts once for every partner it is joined
    with. When, then, is a displayed total that of the table it was chosen from? */
module JoinTotals {
  import opened Options
  import opened Permutations
  import opened Tables
  import opened MergeOrder
  import opened Grouping

  function Number(r: Row, v: string): int {
    if v in r && r[v].Num? then r[v].n else 0
  }

  /** The sum of a column, every row counted as often as the weight says. */
  function Weighted(rows: seq<Row>, v: string, weight: Row -> nat): int {
    if rows == [] then 0
    else Weighted(rows[..|rows| - 1], v, weight) + Number(rows[|rows| - 1], v) * weight(rows[|rows| - 1])
  }

  /** Rows that agree with x. */
  function Partners(x: Row, rows: seq<Row>, common: set<string>): nat {
    if rows == [] then 0
    else Partners(x, rows[..|rows| - 1], common) + if Agree(x, rows[|rows| - 1], common) then 1 else 0
  }

  /** An outer join keeps a row without partners once. */
  function Copies(x: Row, rows: seq<Row>, common: set<string>): nat {
    if Partners(x, rows, common) == 0 then 1 else Partners(x, rows, common)
  }

  function TimesCopies(weight: Row -> nat, rows: seq<Row>, common: set<string>): Row -> nat {
    (r: Row) => weight(r) * Copies(r, rows, common)
  }

  const ONCE: Row -> nat := (r: Row) => 1

  // ---------------------------------------------------------------- one join

  lemma {:induction false} WeightedConcat(a: seq<Row>, b: seq<Row>, v: string, weight: Row -> nat)
    ensures Weighted(a + b, v, weight) == Weighted(a, v, weight) + Weighted(b, v, weight)
  {
    hide Number;
    if b == [] {
      assert a + b == a;
    } else {
      WeightedConcat(a, b[..|b| - 1], v, weight);
      assert (a + b)[..|a + b| - 1] == a + b[..|b| - 1];
    }
  }

  lemma WeightedNone(v: string, weight: Row -> nat)
    ensures Weighted([], v, weight) == 0
  {
  }

  lemma WeightedOne(r: Row, v: string, weight: Row -> nat)
    ensures Weighted([r], v, weight) == Number(r, v) * weight(r)
  {
    hide Number;
    assert [r][..0] == [];
  }

  lemma {:induction false} WeightedSame(rows: seq<Row>, v: string, w1: Row -> nat, w2: Row -> nat)
    requires forall r :: r in rows ==> w1(r) == w2(r)
    ensures Weighted(rows, v, w1) == Weighted(rows, v, w2)
  {
    hide Number;
    if rows != [] {
      WeightedSame(rows[..|rows| - 1], v, w1, w2);
    }
  }

  lemma {:induction false} WeightedOnce(rows: seq<Row>, v: string)
    ensures Weighted(rows, v, ONCE) == ValueSum(rows, v)
  {
    if rows != [] {
      WeightedOnce(rows[..|rows| - 1], v);
    }
  }

  /** Putting a row's partner to it changes neither its number nor its weight. */
  ghost predicate KeepsNumber(x: Row, bs: seq<Row>, common: set<string>, v: string, weight: Row -> nat) {
    forall y :: y in bs && Agree(x, y, common) ==> Number(x + y, v) == Number(x, v) && weight(x + y) == weight(x)
  }

  lemma {:induction false} MatchesTotal(x: Row, bs: seq<Row>, common: set<string>, v: string, weight: Row -> nat)
    requires KeepsNumber(x, bs, common, v, weight)
    ensures Weighted(Matches(x, bs, common), v, weight) == Number(x, v) * weight(x) * Partners(x, bs, common)
    ensures |Matches(x, bs, common)| == Partners(x, bs, common)
  {
    hide Number, Agree, Weighted;
    if bs == [] {
      WeightedNone(v, weight);
    } else {
      var n := |bs| - 1;
      assert bs[n] in bs;
      var kept := Agree(x, bs[n], common);
      assert kept ==> Number(x + bs[n], v) == Number(x, v) && weight(x + bs[n]) == weight(x);
      MatchesTotal(x, bs[..n], common, v, weight);
      WeightedConcat(Matches(x, bs[..n], common), [x + bs[n]], v, weight);
      WeightedOne(x + bs[n], v, weight);
      hide KeepsNumber;
      assert Matches(x, bs[..n], common) + [] == Matches(x, bs[..n], common);
      OneMore(Number(x, v) * weight(x), Partners(x, bs[..n], common));
    }
  }

  lemma OneMore(a: int, n: nat)
    ensures a * (n + 1) == a * n + a
  {
  }

  lemma {:induction false} LeftTotal(rows: seq<Row>, bs: seq<Row>, common: set<string>, v: string, weight: Row -> nat)
    requires forall x :: x in rows ==> KeepsNumber(x, bs, common, v, weight)
    ensures Weighted(LeftPart(rows, bs, common), v, weight) == Weighted(rows, v, TimesCopies(weight, bs, common))
  {
    hide Number, Matches, KeepsNumber, Partners;
    if rows != [] {
      var n := |rows| - 1;
      var x := rows[n];
      assert x in rows;
      LeftTotal(rows[..n], bs, common, v, weight);
      var ms := Matches(x, bs, common);
      MatchesTotal(x, bs, common, v, weight);
      WeightedConcat(LeftPart(rows[..n], bs, common), if ms == [] then [x] else ms, v, weight);
      WeightedOne(x, v, weight);
      Associative(Number(x, v), weight(x), Copies(x, bs, common));
    }
  }

  lemma Associative(a: int, b: int, c: int)
    ensures a * b * c == a * (b * c)
    ensures a * b * 1 == a * b
  {
  }

  lemma {:induction false} NoneTotal(rows: seq<Row>, v: string, weight: Row -> nat)
    requires forall r :: r in rows ==> v !in r
    ensures Weighted(rows, v, weight) == 0
  {
    if rows != [] {
      assert rows[|rows| - 1] in rows;
      NoneTotal(rows[..|rows| - 1], v, weight);
    }
  }

  lemma RightTotal(rows: seq<Row>, b: Table, common: set<string>, v: string, weight: Row -> nat)
    requires Formed(b) && v !in b.cols
    ensures Weighted(RightOnly(rows, b.rows, common), v, weight) == 0
  {
    forall r | r in RightOnly(rows, b.rows, common) ensures v !in r {
      RightIs(rows, b.rows, common, r);
    }
    NoneTotal(RightOnly(rows, b.rows, common), v, weight);
  }

  /** Joining counts every number once for every partner of its row, and once if there is none. */
  lemma JoinWeighted(a: Table, b: Table, v: string, weight: Row -> nat)
    requires Formed(b) && v !in b.cols
    requires forall x, y :: x in a.rows && y in b.rows && Agree(x, y, a.cols * b.cols) ==> weight(x + y) == weight(x)
    ensures Weighted(OuterJoin(a, b).rows, v, weight) ==
            Weighted(a.rows, v, TimesCopies(weight, b.rows, a.cols * b.cols))
  {
    hide LeftPart, RightOnly, Agree;
    var common := a.cols * b.cols;
    forall x, y | x in a.rows && y in b.rows && Agree(x, y, common) ensures Number(x + y, v) == Number(x, v) {
      assert y.Keys <= b.cols;
    }
    LeftTotal(a.rows, b.rows, common, v, weight);
    RightTotal(a.rows, b, common, v, weight);
    WeightedConcat(LeftPart(a.rows, b.rows, common), RightOnly(a.rows, b.rows, common), v, weight);
  }

  lemma JoinTotal(a: Table, b: Table, v: string)
    requires Formed(b) && v !in b.cols
    ensures ValueSum(OuterJoin(a, b).rows, v) ==
            Weighted(a.rows, v, (r: Row) => Copies(r, b.rows, a.cols * b.cols))
  {
    hide OuterJoin, Copies, ValueSum;
    JoinWeighted(a, b, v, ONCE);
    WeightedOnce(OuterJoin(a, b).rows, v);
    WeightedSame(a.rows, v, TimesCopies(ONCE, b.rows, a.cols * b.cols), (r: Row) => Copies(r, b.rows, a.cols * b.cols));
  }

  ghost predicate NonNegative(rows: seq<Row>, v: string) {
    forall r :: r in rows ==> Number(r, v) >= 0
  }

  /** With weights of at least one, a sum of numbers that are not negative is unchanged exactly when
      no number but 0 weighs more. */
  lemma {:induction false} UnchangedExactly(rows: seq<Row>, v: string, weight: Row -> nat)
    requires NonNegative(rows, v) && forall r :: r in rows ==> weight(r) >= 1
    ensures Weighted(rows, v, weight) >= ValueSum(rows, v)
    ensures Weighted(rows, v, weight) == ValueSum(rows, v) <==>
            forall r :: r in rows && Number(r, v) != 0 ==> weight(r) == 1
  {
    if rows != [] {
      var n := |rows| - 1;
      var r := rows[n];
      assert r in rows && rows == rows[..n] + [r];
      UnchangedExactly(rows[..n], v, weight);
      Heavier(Number(r, v), weight(r));
      assert ValueSum(rows, v) == ValueSum(rows[..n], v) + Number(r, v);
      hide Number, ValueSum, Weighted;
      assert forall x :: x in rows <==> x in rows[..n] || x == r;
    }
  }

  lemma Heavier(a: int, n: nat)
    requires a >= 0 && n >= 1
    ensures a * n >= a && (a * n == a <==> a == 0 || n == 1)
  {
    if n > 1 && a > 0 {
      assert a * n == a + a * (n - 1);
    }
  }

  /** Joining two tables keeps the total of a column of the first one if and only if no row with a
      number other than 0 has two partners. */
  lemma JoinTotalExactly(a: Table, b: Table, v: string)
    requires Formed(b) && v !in b.cols && NonNegative(a.rows, v)
    ensures ValueSum(OuterJoin(a, b).rows, v) == ValueSum(a.rows, v) <==>
            forall r :: r in a.rows && Number(r, v) != 0 ==> Partners(r, b.rows, a.cols * b.cols) <= 1
  {
    hide OuterJoin, ValueSum, Partners, Number;
    JoinTotal(a, b, v);
    UnchangedExactly(a.rows, v, (r: Row) => Copies(r, b.rows, a.cols * b.cols));
  }

  // ---------------------------------------------------------------- merging a star

  /** How often a row is counted after it has been merged with all these tables. */
  function AllCopies(r: Row, ts: seq<Table>, key: set<string>): nat {
    if ts == [] then 1 else AllCopies(r, ts[..|ts| - 1], key) * Copies(r, ts[|ts| - 1].rows, key)
  }

  ghost predicate ByKey(weight: Row -> nat, key: set<string>) {
    forall x: Row, y: Row :: Agree(x, y, key) ==> weight(x) == weight(y)
  }

  lemma {:induction false} PartnersByKey(x: Row, y: Row, rows: seq<Row>, key: set<string>)
    requires Agree(x, y, key)
    ensures Partners(x, rows, key) == Partners(y, rows, key)
  {
    if rows != [] {
      var r := rows[|rows| - 1];
      PartnersByKey(x, y, rows[..|rows| - 1], key);
      assert Agree(x, r, key) <==> Agree(y, r, key);
    }
  }

  lemma CopiesByKey(weight: Row -> nat, rows: seq<Row>, key: set<string>)
    requires ByKey(weight, key)
    ensures ByKey(TimesCopies(weight, rows, key), key)
  {
    hide Agree, Partners;
    forall x: Row, y: Row | Agree(x, y, key)
      ensures TimesCopies(weight, rows, key)(x) == TimesCopies(weight, rows, key)(y)
    {
      PartnersByKey(x, y, rows, key);
    }
  }

  lemma PairKey(t: Table, b: Table, x: Row, y: Row, key: set<string>)
    requires Formed(t) && Formed(b) && x in t.rows && y in b.rows && Agree(x, y, t.cols * b.cols) && key <= t.cols
    ensures Agree(x + y, x, key)
  {
    JoinedCarries(x, y, t.cols, b.cols);
    CarriedKey(x + y, x, t.cols, key, x);
  }

  lemma {:induction false} StarWeighted(ts: seq<Table>, key: set<string>, v: string, weight: Row -> nat)
    requires ts != [] && key != {} && Star(ts, key) && ByKey(weight, key)
    requires forall i :: 1 <= i < |ts| ==> v !in ts[i].cols
    ensures Merged(ts).Some?
    ensures Weighted(Merged(ts).value.rows, v, weight) ==
            Weighted(ts[0].rows, v, (r: Row) => weight(r) * AllCopies(r, ts[1..], key))
  {
    hide Agree, Copies, Weighted, Formed, OuterJoin, Number, ByKey, Star;
    MergeCountExactly(ts, key, map[]);
    var n := |ts| - 1;
    if n == 0 {
      WeightedSame(ts[0].rows, v, weight, (r: Row) => weight(r) * AllCopies(r, ts[1..], key));
    } else {
      StarBefore(ts, key);
      StarShared(ts, key, n);
      MergeCountExactly(ts[..n], key, map[]);
      var t, b := Merged(ts[..n]).value, ts[n];
      forall x, y | x in t.rows && y in b.rows && Agree(x, y, t.cols * b.cols) ensures weight(x + y) == weight(x) {
        PairKey(t, b, x, y, key);
        SameWeight(weight, key, x + y, x);
      }
      JoinWeighted(t, b, v, weight);
      CopiesByKey(weight, b.rows, key);
      StarWeighted(ts[..n], key, v, TimesCopies(weight, b.rows, key));
      assert ts[..n][1..] == ts[1..][..n - 1] && ts[..n][0] == ts[0];
      forall r | r in ts[0].rows
        ensures TimesCopies(weight, b.rows, key)(r) * AllCopies(r, ts[..n][1..], key) == weight(r) * AllCopies(r, ts[1..], key)
      {
        Regrouped(weight(r), Copies(r, b.rows, key), AllCopies(r, ts[..n][1..], key));
      }
      WeightedSame(ts[0].rows, v, (r: Row) => TimesCopies(weight, b.rows, key)(r) * AllCopies(r, ts[..n][1..], key),
                   (r: Row) => weight(r) * AllCopies(r, ts[1..], key));
    }
  }

  lemma SameWeight(weight: Row -> nat, key: set<string>, x: Row, y: Row)
    requires ByKey(weight, key) && Agree(x, y, key)
    ensures weight(x) == weight(y)
  {
    hide Agree;
  }

  lemma Regrouped(a: int, b: int, c: int)
    ensures (a * b) * c == a * (c * b)
  {
  }

  /** The total of a column of the first table after merging a star: every number counts as often as
      the product of its row's partners in the other tables says. */
  lemma StarTotal(ts: seq<Table>, key: set<string>, v: string)
    requires ts != [] && key != {} && Star(ts, key) && forall i :: 1 <= i < |ts| ==> v !in ts[i].cols
    ensures Merged(ts).Some?
    ensures ValueSum(Merged(ts).value.rows, v) ==
            Weighted(ts[0].rows, v, (r: Row) => AllCopies(r, ts[1..], key))
  {
    hide Star, Merged, AllCopies, Weighted, ValueSum;
    StarWeighted(ts, key, v, ONCE);
    WeightedOnce(Merged(ts).value.rows, v);
    WeightedSame(ts[0].rows, v, (r: Row) => ONCE(r) * AllCopies(r, ts[1..], key), (r: Row) => AllCopies(r, ts[1..], key));
  }

  /** No row with a number other than 0 has two partners in one of the other tables. */
  ghost predicate NoneRepeated(rows: seq<Row>, v: string, others: seq<Table>, key: set<string>) {
    forall r, i :: r in rows && Number(r, v) != 0 && 0 <= i < |others| ==> Partners(r, others[i].rows, key) <= 1
  }

  lemma {:induction false} OneCopyExactly(r: Row, ts: seq<Table>, key: set<string>)
    ensures AllCopies(r, ts, key) >= 1
    ensures AllCopies(r, ts, key) == 1 <==> forall i :: 0 <= i < |ts| ==> Partners(r, ts[i].rows, key) <= 1
  {
    hide Partners;
    if ts != [] {
      var n := |ts| - 1;
      OneCopyExactly(r, ts[..n], key);
      Heavier(AllCopies(r, ts[..n], key), Copies(r, ts[n].rows, key));
      assert forall i :: 0 <= i < n ==> ts[..n][i] == ts[i];
    }
  }

  /** Merging a star keeps the total of a column of the first table if and only if none of its rows is
      repeated. */
  lemma StarTotalExactly(ts: seq<Table>, key: set<string>, v: string)
    requires ts != [] && key != {} && Star(ts, key) && forall i :: 1 <= i < |ts| ==> v !in ts[i].cols
    requires NonNegative(ts[0].rows, v)
    ensures Merged(ts).Some?
    ensures ValueSum(Merged(ts).value.rows, v) == ValueSum(ts[0].rows, v) <==>
            NoneRepeated(ts[0].rows, v, ts[1..], key)
  {
    hide Star, Merged, AllCopies, Weighted, ValueSum, Partners, Number;
    StarTotal(ts, key, v);
    forall r | r in ts[0].rows
      ensures AllCopies(r, ts[1..], key) >= 1
      ensures AllCopies(r, ts[1..], key) == 1 <==>
              forall i :: 0 <= i < |ts[1..]| ==> Partners(r, ts[1..][i].rows, key) <= 1
    {
      OneCopyExactly(r, ts[1..], key);
    }
    UnchangedExactly(ts[0].rows, v, (r: Row) => AllCopies(r, ts[1..], key));
  }

  // ---------------------------------------------------------------- the order of the rows

  lemma {:induction false} ValueSkip(rows: seq<Row>, i: nat, v: string)
    requires i < |rows|
    ensures ValueSum(rows, v) == ValueSum(Skip(rows, i), v) + Number(rows[i], v)
    decreases |rows|
  {
    var n := |rows| - 1;
    SkipLast(rows, i);
    if i < n {
      hide Skip;
      ValueSkip(rows[..n], i, v);
    }
  }

  lemma {:induction false} ValuePermutes(a: seq<Row>, b: seq<Row>, v: string)
    requires multiset(a) == multiset(b)
    ensures ValueSum(a, v) == ValueSum(b, v)
    decreases |a|
  {
    if a == [] {
      assert |multiset(b)| == 0;
    } else {
      hide ValueSum, Number, Skip;
      var n, i := SameLast(a, b);
      ValuePermutes(Skip(a, n), Skip(b, i), v);
      ValueSkip(a, n, v);
      ValueSkip(b, i, v);
    }
  }
}
