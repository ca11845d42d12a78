/** The pivot engine of cp/pivot.py: group and aggregate, and concatenation of the per-value tables. */
module Grouping {
  import opened Tables
  import opened Permutations

  // ---------------------------------------------------------------- group and sum

  type Key = seq<Value>

  datatype Spec = Spec(rowNames: seq<string>, colNames: seq<string>, value: string)

  predicate HasAll(r: Row, names: seq<string>) {
    forall i :: 0 <= i < |names| ==> names[i] in r
  }

  function KeyOf(r: Row, names: seq<string>): Key
    requires HasAll(r, names)
  {
    seq(|names|, i requires 0 <= i < |names| => r[names[i]])
  }

  /** Two rows have one key exactly when they agree in every named column; the key has the entries in the
      order of the names. */
  lemma SameKeyExactly(r: Row, s: Row, names: seq<string>)
    requires HasAll(r, names) && HasAll(s, names)
    ensures KeyOf(r, names) == KeyOf(s, names) <==> forall i :: 0 <= i < |names| ==> r[names[i]] == s[names[i]]
    ensures forall k :: KeyOf(r, names) == k <==> |k| == |names| && forall i :: 0 <= i < |names| ==> r[names[i]] == k[i]
  {
    var k, l := KeyOf(r, names), KeyOf(s, names);
    assert forall i :: 0 <= i < |names| ==> k[i] == r[names[i]] && l[i] == s[names[i]];
  }

  /** Rows with a missing grouping key or value are left out by pivot_table. */
  predicate Contributes(r: Row, q: Spec) {
    HasAll(r, q.rowNames) && HasAll(r, q.colNames) && q.value in r && r[q.value].Num?
  }

  predicate InCell(r: Row, q: Spec, rk: Key, ck: Key) {
    Contributes(r, q) && KeyOf(r, q.rowNames) == rk && KeyOf(r, q.colNames) == ck
  }

  function CellSum(rows: seq<Row>, q: Spec, rk: Key, ck: Key): int {
    if rows == [] then 0
    else
      var r := rows[|rows| - 1];
      CellSum(rows[..|rows| - 1], q, rk, ck) + if InCell(r, q, rk, ck) then r[q.value].n else 0
  }

  function RowKeys(rows: seq<Row>, q: Spec): set<Key> {
    set r | r in rows && Contributes(r, q) :: KeyOf(r, q.rowNames)
  }

  function ColKeys(rows: seq<Row>, q: Spec): set<Key> {
    set r | r in rows && Contributes(r, q) :: KeyOf(r, q.colNames)
  }

  /** How keys are lined up: some fixed order, each key once. */
  type Order<!T> = set<T> -> seq<T>

  ghost predicate Enumerates<T(!new)>(order: Order<T>) {
    forall s: set<T> :: Lists(order(s), s)
  }

  ghost predicate Lists<T(!new)>(keys: seq<T>, s: set<T>) {
    (forall k :: k in keys <==> k in s) && NoRepeats(keys)
  }

  /** A column of the result: its key and its cells by row key. */
  datatype Column = Column(key: Key, cells: map<Key, int>)

  datatype Frame = Frame(index: seq<Key>, columns: seq<Column>)

  /** pivot_table with aggfunc 'sum' and empty cells filled with 0. */
  function PivotTable(rows: seq<Row>, q: Spec, order: Order<Key>): Frame {
    var index := order(RowKeys(rows, q));
    var keys := order(ColKeys(rows, q));
    Frame(index, seq(|keys|, j requires 0 <= j < |keys| =>
      Column(keys[j], map rk | rk in index :: CellSum(rows, q, rk, keys[j]))))
  }

  // ---------------------------------------------------------------- conservation

  function ColumnTotal(index: seq<Key>, cells: map<Key, int>): int
    requires forall k :: k in index ==> k in cells
  {
    if index == [] then 0 else ColumnTotal(index[..|index| - 1], cells) + cells[index[|index| - 1]]
  }

  ghost predicate Filled(f: Frame) {
    forall j :: 0 <= j < |f.columns| ==> forall k :: k in f.index ==> k in f.columns[j].cells
  }

  /** The sum of all cells shown. */
  ghost function FrameTotal(index: seq<Key>, columns: seq<Column>): int
    requires Filled(Frame(index, columns))
  {
    if columns == [] then 0
    else
      var n := |columns| - 1;
      assert Filled(Frame(index, columns[..n])) by {
        assert forall j :: 0 <= j < n ==> columns[..n][j] == columns[j];
      }
      FrameTotal(index, columns[..n]) + ColumnTotal(index, columns[n].cells)
  }

  /** What the contributing rows hold of the displayed value. */
  function Contribution(rows: seq<Row>, q: Spec): int {
    if rows == [] then 0
    else
      var r := rows[|rows| - 1];
      Contribution(rows[..|rows| - 1], q) + if Contributes(r, q) then r[q.value].n else 0
  }

  /** The displayed column summed over all rows that have a number there. */
  function ValueSum(rows: seq<Row>, value: string): int {
    if rows == [] then 0
    else
      var r := rows[|rows| - 1];
      ValueSum(rows[..|rows| - 1], value) + if value in r && r[value].Num? then r[value].n else 0
  }

  /** The part of it in rows with a missing grouping key. */
  function Ungrouped(rows: seq<Row>, q: Spec): int {
    if rows == [] then 0
    else
      var r := rows[|rows| - 1];
      Ungrouped(rows[..|rows| - 1], q) +
      if q.value in r && r[q.value].Num? && !Contributes(r, q) then r[q.value].n else 0
  }

  /** One column of the grid, summed cell by cell. */
  function StripSum(rows: seq<Row>, q: Spec, index: seq<Key>, ck: Key): int {
    if index == [] then 0
    else StripSum(rows, q, index[..|index| - 1], ck) + CellSum(rows, q, index[|index| - 1], ck)
  }

  function GridSum(rows: seq<Row>, q: Spec, index: seq<Key>, keys: seq<Key>): int {
    if keys == [] then 0
    else GridSum(rows, q, index, keys[..|keys| - 1]) + StripSum(rows, q, index, keys[|keys| - 1])
  }

  lemma {:induction false} StripStep(rows: seq<Row>, q: Spec, index: seq<Key>, ck: Key)
    requires rows != [] && NoRepeats(index)
    ensures var r := rows[|rows| - 1];
            StripSum(rows, q, index, ck) == StripSum(rows[..|rows| - 1], q, index, ck) +
              if Contributes(r, q) && KeyOf(r, q.rowNames) in index && KeyOf(r, q.colNames) == ck
              then r[q.value].n else 0
  {
    hide Contributes, KeyOf;
    if index != [] {
      var n := |index| - 1;
      StripStep(rows, q, index[..n], ck);
      assert index == index[..n] + [index[n]];
      assert index[n] !in index[..n];
    }
  }

  lemma {:induction false} GridStep(rows: seq<Row>, q: Spec, index: seq<Key>, keys: seq<Key>)
    requires rows != [] && NoRepeats(index) && NoRepeats(keys)
    ensures var r := rows[|rows| - 1];
            GridSum(rows, q, index, keys) == GridSum(rows[..|rows| - 1], q, index, keys) +
              if Contributes(r, q) && KeyOf(r, q.rowNames) in index && KeyOf(r, q.colNames) in keys
              then r[q.value].n else 0
  {
    hide Contributes, KeyOf, StripSum;
    if keys != [] {
      var n := |keys| - 1;
      GridStep(rows, q, index, keys[..n]);
      StripStep(rows, q, index, keys[n]);
      assert keys == keys[..n] + [keys[n]];
      assert keys[n] !in keys[..n];
    }
  }

  lemma {:induction false} EmptyGrid(q: Spec, index: seq<Key>, keys: seq<Key>)
    ensures GridSum([], q, index, keys) == 0
  {
    if keys != [] {
      EmptyGrid(q, index, keys[..|keys| - 1]);
      EmptyStrip(q, index, keys[|keys| - 1]);
    }
  }

  lemma {:induction false} EmptyStrip(q: Spec, index: seq<Key>, ck: Key)
    ensures StripSum([], q, index, ck) == 0
  {
    if index != [] {
      EmptyStrip(q, index[..|index| - 1], ck);
    }
  }

  /** A grid that has all keys of the rows adds up to all they contribute. */
  lemma {:induction false} GridConserves(rows: seq<Row>, q: Spec, index: seq<Key>, keys: seq<Key>)
    requires NoRepeats(index) && NoRepeats(keys)
    requires forall r :: r in rows && Contributes(r, q) ==>
               KeyOf(r, q.rowNames) in index && KeyOf(r, q.colNames) in keys
    ensures GridSum(rows, q, index, keys) == Contribution(rows, q)
  {
    hide Contributes, KeyOf, GridSum;
    if rows == [] {
      EmptyGrid(q, index, keys);
    } else {
      GridConserves(rows[..|rows| - 1], q, index, keys);
      GridStep(rows, q, index, keys);
    }
  }

  lemma {:induction false} StripIsColumn(rows: seq<Row>, q: Spec, index: seq<Key>, cells: map<Key, int>, ck: Key)
    requires forall k :: k in index ==> k in cells && cells[k] == CellSum(rows, q, k, ck)
    ensures ColumnTotal(index, cells) == StripSum(rows, q, index, ck)
  {
    hide CellSum;
    if index != [] {
      StripIsColumn(rows, q, index[..|index| - 1], cells, ck);
    }
  }

  lemma {:induction false} GridIsFrame(rows: seq<Row>, q: Spec, index: seq<Key>, keys: seq<Key>, columns: seq<Column>)
    requires |columns| == |keys|
    requires forall j :: 0 <= j < |keys| ==>
               columns[j] == Column(keys[j], map rk | rk in index :: CellSum(rows, q, rk, keys[j]))
    ensures Filled(Frame(index, columns))
    ensures FrameTotal(index, columns) == GridSum(rows, q, index, keys)
  {
    hide CellSum;
    if keys != [] {
      var n := |keys| - 1;
      GridIsFrame(rows, q, index, keys[..n], columns[..n]);
      StripIsColumn(rows, q, index, columns[n].cells, keys[n]);
    }
  }

  lemma {:induction false} ContributionSplits(rows: seq<Row>, q: Spec)
    ensures ValueSum(rows, q.value) == Contribution(rows, q) + Ungrouped(rows, q)
  {
    if rows != [] {
      ContributionSplits(rows[..|rows| - 1], q);
    }
  }

  /** Whatever the keys, the cells of the pivoted table add up to the displayed column of the
      grouped rows, so to the whole column exactly when the rows without a group sum to 0. */
  lemma PivotConserves(rows: seq<Row>, q: Spec, order: Order<Key>)
    requires Enumerates(order)
    ensures var f := PivotTable(rows, q, order);
            && Filled(f)
            && FrameTotal(f.index, f.columns) == ValueSum(rows, q.value) - Ungrouped(rows, q)
  {
    var f := PivotTable(rows, q, order);
    var keys := order(ColKeys(rows, q));
    assert Lists(f.index, RowKeys(rows, q)) && Lists(keys, ColKeys(rows, q));
    GridIsFrame(rows, q, f.index, keys, f.columns);
    GridConserves(rows, q, f.index, keys);
    ContributionSplits(rows, q);
  }

  /** The rows that belong in a cell. */
  function RowsOf(rows: seq<Row>, q: Spec, rk: Key, ck: Key): seq<Row> {
    if rows == [] then []
    else RowsOf(rows[..|rows| - 1], q, rk, ck) + if InCell(rows[|rows| - 1], q, rk, ck) then [rows[|rows| - 1]] else []
  }

  lemma {:induction false} CellIsItsRows(rows: seq<Row>, q: Spec, rk: Key, ck: Key)
    ensures CellSum(rows, q, rk, ck) == ValueSum(RowsOf(rows, q, rk, ck), q.value)
  {
    hide HasAll, KeyOf;
    if rows != [] {
      CellIsItsRows(rows[..|rows| - 1], q, rk, ck);
      var before := RowsOf(rows[..|rows| - 1], q, rk, ck);
      assert (before + [rows[|rows| - 1]])[..|before|] == before && before + [] == before;
    }
  }

  /** Row and column keys are those of the contributing rows, each once, and a cell shows the displayed
      column summed over just the rows with its two keys. */
  lemma PivotCells(rows: seq<Row>, q: Spec, order: Order<Key>, j: nat, rk: Key)
    requires Enumerates(order) && j < |PivotTable(rows, q, order).columns|
    ensures var f := PivotTable(rows, q, order); var c := f.columns[j];
            && (rk in f.index <==> exists r :: r in rows && Contributes(r, q) && KeyOf(r, q.rowNames) == rk)
            && (exists r :: r in rows && Contributes(r, q) && KeyOf(r, q.colNames) == c.key)
            && NoRepeats(f.index) && c.cells.Keys == (set k | k in f.index)
            && (rk in f.index ==> c.cells[rk] == ValueSum(RowsOf(rows, q, rk, c.key), q.value))
            && forall i :: 0 <= i < |f.columns| && i != j ==> f.columns[i].key != c.key
  {
    hide Contributes, KeyOf, CellSum, ValueSum;
    var f := PivotTable(rows, q, order);
    assert Lists(f.index, RowKeys(rows, q)) && Lists(order(ColKeys(rows, q)), ColKeys(rows, q));
    var keys := order(ColKeys(rows, q));
    assert keys[j] in keys && f.columns[j].key == keys[j];
    assert rk in f.index <==> rk in RowKeys(rows, q);
    CellIsItsRows(rows, q, rk, f.columns[j].key);
  }

  ghost predicate NothingMissing(rows: seq<Row>, q: Spec) {
    forall r :: r in rows ==> Contributes(r, q)
  }

  lemma {:induction false} CompleteRows(rows: seq<Row>, q: Spec)
    requires NothingMissing(rows, q)
    ensures Ungrouped(rows, q) == 0
  {
    if rows != [] {
      CompleteRows(rows[..|rows| - 1], q);
    }
  }

  /** Without missing data all displayed values give tables with the same rows and columns. */
  lemma SameKeys(rows: seq<Row>, q1: Spec, q2: Spec, order: Order<Key>)
    requires q1.rowNames == q2.rowNames && q1.colNames == q2.colNames
    requires NothingMissing(rows, q1) && NothingMissing(rows, q2)
    ensures var f, g := PivotTable(rows, q1, order), PivotTable(rows, q2, order);
            && f.index == g.index && |f.columns| == |g.columns|
            && forall j :: 0 <= j < |f.columns| ==> f.columns[j].key == g.columns[j].key
  {
    assert RowKeys(rows, q1) == RowKeys(rows, q2);
    assert ColKeys(rows, q1) == ColKeys(rows, q2);
  }

  // ---------------------------------------------------------------- _drop

  function Drop(rows: seq<Row>, chosen: set<string>): seq<Row> {
    seq(|rows|, i requires 0 <= i < |rows| => Restrict(rows[i], chosen))
  }

  ghost predicate Covers(chosen: set<string>, q: Spec) {
    && (forall i :: 0 <= i < |q.rowNames| ==> q.rowNames[i] in chosen)
    && (forall i :: 0 <= i < |q.colNames| ==> q.colNames[i] in chosen)
    && q.value in chosen
  }

  lemma RestrictSame(r: Row, chosen: set<string>, q: Spec)
    requires Covers(chosen, q)
    ensures var d := Restrict(r, chosen);
            && (Contributes(d, q) <==> Contributes(r, q))
            && (q.value in d <==> q.value in r) && (q.value in r ==> d[q.value] == r[q.value])
            && (Contributes(r, q) ==>
                 KeyOf(d, q.rowNames) == KeyOf(r, q.rowNames) && KeyOf(d, q.colNames) == KeyOf(r, q.colNames))
  {
    SameKey(r, chosen, q.rowNames);
    SameKey(r, chosen, q.colNames);
    hide HasAll, KeyOf;
  }

  lemma SameKey(r: Row, chosen: set<string>, names: seq<string>)
    requires forall i :: 0 <= i < |names| ==> names[i] in chosen
    ensures HasAll(Restrict(r, chosen), names) <==> HasAll(r, names)
    ensures HasAll(r, names) ==> KeyOf(Restrict(r, chosen), names) == KeyOf(r, names)
  {
    var d := Restrict(r, chosen);
    assert forall c :: c in chosen ==> (c in d <==> c in r) && (c in r ==> d[c] == r[c]);
    if HasAll(d, names) {
      assert forall i :: 0 <= i < |names| ==> names[i] in d;
    }
    if HasAll(r, names) {
      var k, l := KeyOf(d, names), KeyOf(r, names);
      assert forall i :: 0 <= i < |names| ==> k[i] == l[i];
    }
  }

  lemma {:induction false} DropSameCell(rows: seq<Row>, chosen: set<string>, q: Spec, rk: Key, ck: Key)
    requires Covers(chosen, q)
    ensures CellSum(Drop(rows, chosen), q, rk, ck) == CellSum(rows, q, rk, ck)
  {
    hide Covers, HasAll, KeyOf, Restrict;
    if rows != [] {
      var n := |rows| - 1;
      DropSameCell(rows[..n], chosen, q, rk, ck);
      assert Drop(rows, chosen)[..n] == Drop(rows[..n], chosen);
      RestrictSame(rows[n], chosen, q);
    }
  }

  /** Dropping the columns nobody chose changes nothing in the pivoted table. */
  lemma DropChangesNothing(rows: seq<Row>, chosen: set<string>, q: Spec, order: Order<Key>)
    requires Covers(chosen, q)
    ensures PivotTable(Drop(rows, chosen), q, order) == PivotTable(rows, q, order)
  {
    hide Covers;
    var d := Drop(rows, chosen);
    forall r | r in rows && Contributes(r, q)
      ensures KeyOf(r, q.rowNames) in RowKeys(d, q) && KeyOf(r, q.colNames) in ColKeys(d, q)
    {
      var i :| 0 <= i < |rows| && rows[i] == r;
      RestrictSame(r, chosen, q);
      assert d[i] == Restrict(r, chosen) && d[i] in d;
    }
    forall r | r in d && Contributes(r, q)
      ensures KeyOf(r, q.rowNames) in RowKeys(rows, q) && KeyOf(r, q.colNames) in ColKeys(rows, q)
    {
      var i :| 0 <= i < |d| && d[i] == r;
      RestrictSame(rows[i], chosen, q);
      assert rows[i] in rows;
    }
    assert RowKeys(d, q) == RowKeys(rows, q) && ColKeys(d, q) == ColKeys(rows, q);
    forall rk, ck ensures CellSum(d, q, rk, ck) == CellSum(rows, q, rk, ck) {
      DropSameCell(rows, chosen, q, rk, ck);
    }
    SameFrame(d, rows, q, order);
  }

  lemma SameFrame(a: seq<Row>, b: seq<Row>, q: Spec, order: Order<Key>)
    requires RowKeys(a, q) == RowKeys(b, q) && ColKeys(a, q) == ColKeys(b, q)
    requires forall rk, ck :: CellSum(a, q, rk, ck) == CellSum(b, q, rk, ck)
    ensures PivotTable(a, q, order) == PivotTable(b, q, order)
  {
    hide CellSum, RowKeys, ColKeys;
    var f, g := PivotTable(a, q, order), PivotTable(b, q, order);
    forall j | 0 <= j < |f.columns| ensures f.columns[j] == g.columns[j] {
      assert f.columns[j].cells == g.columns[j].cells;
    }
  }

  // ---------------------------------------------------------------- _concat_data_frames

  /** A column label of the combined table: column key, cut to two levels, and displayed value. */
  datatype Label = Label(key: seq<Value>, value: string)

  datatype Combined = Failed(reason: string) | Combined(columns: seq<(Label, map<Key, int>)>)

  /** What the label keeps of a column key: (key[0], key[1]) of a tuple, or the key itself. */
  function Cut(key: Key): seq<Value> {
    if |key| >= 2 then key[..2] else key
  }

  /** A label keeps the first two levels of a key, and no more; so keys of one length get one label
      exactly when they have the same first two levels. */
  lemma CutExactly(key: Key, other: Key)
    requires |key| == |other|
    ensures |Cut(key)| == (if |key| < 2 then |key| else 2) && Cut(key) <= key
    ensures Cut(key) == Cut(other) <==> forall i :: 0 <= i < |key| && i < 2 ==> key[i] == other[i]
  {
    var a, b := Cut(key), Cut(other);
    assert forall i :: 0 <= i < |a| ==> a[i] == key[i] && b[i] == other[i];
  }

  /** Column i of every table, side by side. */
  function Chunk(dfs: seq<Frame>, i: nat): seq<map<Key, int>>
    requires forall k :: 0 <= k < |dfs| ==> i < |dfs[k].columns|
  {
    seq(|dfs|, k requires 0 <= k < |dfs| => dfs[k].columns[i].cells)
  }

  function Labels(key: Key, names: seq<string>): seq<Label> {
    seq(|names|, k requires 0 <= k < |names| => Label(Cut(key), names[k]))
  }

  /** A list filled with blocks of m entries: entry i*m+j is entry j of block i. */
  ghost predicate Blocks<T>(s: seq<T>, n: nat, m: nat, block: nat -> seq<T>) {
    |s| == n * m && forall i, j :: 0 <= i < n && 0 <= j < m ==> InBlock(s, m, block, i, j)
  }

  ghost predicate InBlock<T>(s: seq<T>, m: nat, block: nat -> seq<T>, i: nat, j: nat) {
    var p := i * m + j;
    p < |s| && j < |block(i)| && s[p] == block(i)[j]
  }

  lemma BlocksAppend<T>(s: seq<T>, n: nat, m: nat, block: nat -> seq<T>)
    requires Blocks(s, n, m, block) && |block(n)| == m
    ensures Blocks(s + block(n), n + 1, m, block)
  {
    var t := s + block(n);
    assert |t| == (n + 1) * m;
    forall i, j | 0 <= i < n + 1 && 0 <= j < m ensures InBlock(t, m, block, i, j) {
      if i < n {
        assert InBlock(s, m, block, i, j);
        OldBlock(s, t, m, block, i, j);
      } else {
        NewBlock(s, n, m, block, j);
      }
    }
  }

  lemma OldBlock<T>(s: seq<T>, t: seq<T>, m: nat, block: nat -> seq<T>, i: nat, j: nat)
    requires InBlock(s, m, block, i, j) && s <= t
    ensures InBlock(t, m, block, i, j)
  {
  }

  lemma NewBlock<T>(s: seq<T>, n: nat, m: nat, block: nat -> seq<T>, j: nat)
    requires |s| == n * m && |block(n)| == m && j < m
    ensures InBlock(s + block(n), m, block, n, j)
  {
    assert (s + block(n))[n * m + j] == block(n)[j];
  }

  /** The columns of all tables interleaved: first all first columns, then all second ones, ... */
  method Interleave(dfs: seq<Frame>, n: nat) returns (s: seq<map<Key, int>>)
    requires forall k :: 0 <= k < |dfs| ==> |dfs[k].columns| == n
    ensures Blocks(s, n, |dfs|, ChunkOf(dfs, n))
  {
    hide Blocks;
    s := [];
    NoBlocks<map<Key, int>>(|dfs|, ChunkOf(dfs, n));
    for i := 0 to n
      invariant Blocks(s, i, |dfs|, ChunkOf(dfs, n))
    {
      BlocksAppend(s, i, |dfs|, ChunkOf(dfs, n));
      s := s + Chunk(dfs, i);
    }
  }

  ghost function ChunkOf(dfs: seq<Frame>, n: nat): nat -> seq<map<Key, int>>
    requires forall k :: 0 <= k < |dfs| ==> |dfs[k].columns| == n
  {
    (i: nat) => if i < n then Chunk(dfs, i) else []
  }

  ghost function LabelsOf(keys: seq<Key>, names: seq<string>): nat -> seq<Label> {
    (i: nat) => if i < |keys| then Labels(keys[i], names) else []
  }

  lemma NoBlocks<T>(m: nat, block: nat -> seq<T>)
    ensures Blocks([], 0, m, block)
  {
  }

  /** Every column key with every displayed name. */
  method CrossLabels(keys: seq<Key>, names: seq<string>) returns (s: seq<Label>)
    ensures Blocks(s, |keys|, |names|, LabelsOf(keys, names))
  {
    hide Blocks;
    s := [];
    NoBlocks<Label>(|names|, LabelsOf(keys, names));
    for i := 0 to |keys|
      invariant Blocks(s, i, |names|, LabelsOf(keys, names))
    {
      BlocksAppend(s, i, |names|, LabelsOf(keys, names));
      s := s + Labels(keys[i], names);
    }
  }

  lemma SameLength<S, T>(s: seq<S>, t: seq<T>, n: nat, m: nat, a: nat -> seq<S>, b: nat -> seq<T>)
    requires Blocks(s, n, m, a) && Blocks(t, n, m, b)
    ensures |s| == |t| == n * m
  {
  }

  function ColumnKeys(f: Frame): seq<Key> {
    seq(|f.columns|, i requires 0 <= i < |f.columns| => f.columns[i].key)
  }

  function Zip(labels: seq<Label>, cells: seq<map<Key, int>>): seq<(Label, map<Key, int>)>
    requires |labels| == |cells|
  {
    seq(|labels|, k requires 0 <= k < |labels| => (labels[k], cells[k]))
  }

  /** Column i of table j, labelled with its column key and the j-th name, at position i*m+j. */
  ghost predicate Interleaved(columns: seq<(Label, map<Key, int>)>, names: seq<string>, dfs: seq<Frame>)
    requires |names| == |dfs| > 0 && SameWidth(dfs)
  {
    && |columns| == |dfs[0].columns| * |dfs|
    && forall i, j :: 0 <= i < |dfs[0].columns| && 0 <= j < |dfs| ==> Stands(columns, names, dfs, i, j)
  }

  ghost predicate Stands(columns: seq<(Label, map<Key, int>)>, names: seq<string>, dfs: seq<Frame>, i: nat, j: nat)
    requires |names| == |dfs| > 0 && SameWidth(dfs) && i < |dfs[0].columns| && j < |dfs|
  {
    var p := i * |dfs| + j;
    p < |columns| && columns[p] == (Label(Cut(dfs[0].columns[i].key), names[j]), dfs[j].columns[i].cells)
  }

  predicate SameWidth(dfs: seq<Frame>)
    requires dfs != []
  {
    forall k :: 0 <= k < |dfs| ==> |dfs[k].columns| == |dfs[0].columns|
  }

  /** No label can be made from the column keys: there are none, or they are single and not text. */
  predicate Unlabelled(f: Frame) {
    f.columns == [] || (|f.columns[0].key| < 2 && (f.columns[0].key == [] || !f.columns[0].key[0].Text?))
  }

  /** Labels can be made from keys of two and more levels, and from single texts; not from single
      numbers, empty keys, or where there are no columns. */
  lemma UnlabelledExactly(f: Frame)
    ensures (exists a, b, rest: Key :: ColumnKeys(f) != [] && ColumnKeys(f)[0] == [a, b] + rest) ==> !Unlabelled(f)
    ensures forall t :: ColumnKeys(f) != [] && ColumnKeys(f)[0] == [Text(t)] ==> !Unlabelled(f)
    ensures forall n :: ColumnKeys(f) != [] && ColumnKeys(f)[0] == [Num(n)] ==> Unlabelled(f)
    ensures ColumnKeys(f) == [] || ColumnKeys(f)[0] == [] ==> Unlabelled(f)
  {
  }

  /** The pairing of cells and labels, read off position by position. */
  lemma PairedAt(names: seq<string>, dfs: seq<Frame>, cells: seq<map<Key, int>>, labels: seq<Label>, i: nat, j: nat)
    requires |names| == |dfs| > 0 && SameWidth(dfs) && i < |dfs[0].columns| && j < |dfs| && |cells| == |labels|
    requires InBlock(cells, |dfs|, ChunkOf(dfs, |dfs[0].columns|), i, j)
    requires InBlock(labels, |names|, LabelsOf(ColumnKeys(dfs[0]), names), i, j)
    ensures Stands(Zip(labels, cells), names, dfs, i, j)
  {
    hide Cut;
    assert ChunkOf(dfs, |dfs[0].columns|)(i)[j] == dfs[j].columns[i].cells;
    assert LabelsOf(ColumnKeys(dfs[0]), names)(i)[j] == Label(Cut(dfs[0].columns[i].key), names[j]);
  }

  lemma Paired(names: seq<string>, dfs: seq<Frame>, cells: seq<map<Key, int>>, labels: seq<Label>)
    requires |names| == |dfs| > 0 && SameWidth(dfs)
    requires Blocks(cells, |dfs[0].columns|, |dfs|, ChunkOf(dfs, |dfs[0].columns|))
    requires Blocks(labels, |dfs[0].columns|, |names|, LabelsOf(ColumnKeys(dfs[0]), names))
    ensures |labels| == |cells| && Interleaved(Zip(labels, cells), names, dfs)
  {
    var n, m := |dfs[0].columns|, |dfs|;
    SameLength(cells, labels, n, m, ChunkOf(dfs, n), LabelsOf(ColumnKeys(dfs[0]), names));
    assert |Zip(labels, cells)| == n * m;
    hide InBlock, Cut, Stands, Zip;
    forall i, j | 0 <= i < n && 0 <= j < m
      ensures Stands(Zip(labels, cells), names, dfs, i, j)
    {
      PairedAt(names, dfs, cells, labels, i, j);
    }
  }

  /** _concat_data_frames: the columns of the per-value tables interleaved, and labelled with the
      column keys of the first table and the names of the displayed values. */
  method Concat(names: seq<string>, dfs: seq<Frame>) returns (r: Combined)
    requires |names| == |dfs| > 0
    ensures r.Failed? <==> !SameWidth(dfs) || Unlabelled(dfs[0])
    ensures r.Combined? ==> Interleaved(r.columns, names, dfs)
  {
    hide Interleaved, Blocks;
    var n := |dfs[0].columns|;
    for k := 0 to |dfs|
      invariant forall l :: 0 <= l < k ==> |dfs[l].columns| == n
    {
      if |dfs[k].columns| != n {
        return Failed("Can't concatenate data frames: number of columns doesn't match");
      }
    }
    if Unlabelled(dfs[0]) {
      return Failed("no labels for these column keys");
    }
    var concatenated := Interleave(dfs, n);
    var labels := CrossLabels(ColumnKeys(dfs[0]), names);
    Paired(names, dfs, concatenated, labels);
    return Combined(Zip(labels, concatenated));
  }

  ghost predicate AllLabelsDiffer(keys: seq<Key>, names: seq<string>) {
    forall i, j, k, l | 0 <= i < |keys| && 0 <= k < |keys| && 0 <= j < |names| && 0 <= l < |names| ::
      (i, j) != (k, l) ==> Label(Cut(keys[i]), names[j]) != Label(Cut(keys[k]), names[l])
  }

  /** The labels of the combined table are all different exactly when the displayed names are, and
      the column keys still are after being cut to two levels. */
  lemma LabelsDifferExactly(keys: seq<Key>, names: seq<string>)
    requires keys != [] && names != []
    ensures AllLabelsDiffer(keys, names) <==>
            && (forall i, k :: 0 <= i < k < |keys| ==> Cut(keys[i]) != Cut(keys[k]))
            && (forall j, l :: 0 <= j < l < |names| ==> names[j] != names[l])
  {
    if AllLabelsDiffer(keys, names) {
      forall i, k | 0 <= i < k < |keys| ensures Cut(keys[i]) != Cut(keys[k]) {
        assert Label(Cut(keys[i]), names[0]) != Label(Cut(keys[k]), names[0]);
      }
      forall j, l | 0 <= j < l < |names| ensures names[j] != names[l] {
        assert Label(Cut(keys[0]), names[j]) != Label(Cut(keys[0]), names[l]);
      }
    }
  }

  /** Keys of three levels that differ in the third only get one label: their columns cannot be told apart. */
  lemma ThirdLevelIsLost(a: Value, b: Value, c: Value, d: Value, name: string)
    requires c != d
    ensures [a, b, c] != [a, b, d] && !AllLabelsDiffer([[a, b, c], [a, b, d]], [name])
  {
    var keys: seq<Key> := [[a, b, c], [a, b, d]];
    assert keys[0][2] != keys[1][2];
    assert Cut(keys[0]) == [a, b] && Cut(keys[1]) == [a, b];
    assert Label(Cut(keys[0]), [name][0]) == Label(Cut(keys[1]), [name][0]);
  }

  // ---------------------------------------------------------------- the order of the rows

  lemma {:induction false} CellSkip(rows: seq<Row>, i: nat, q: Spec, rk: Key, ck: Key)
    requires i < |rows|
    ensures CellSum(rows, q, rk, ck) ==
            CellSum(Skip(rows, i), q, rk, ck) + if InCell(rows[i], q, rk, ck) then rows[i][q.value].n else 0
    decreases |rows|
  {
    hide HasAll, KeyOf;
    var n := |rows| - 1;
    SkipLast(rows, i);
    if i < n {
      hide Skip;
      CellSkip(rows[..n], i, q, rk, ck);
    }
  }

  lemma {:induction false} CellPermutes(a: seq<Row>, b: seq<Row>, q: Spec, rk: Key, ck: Key)
    requires multiset(a) == multiset(b)
    ensures CellSum(a, q, rk, ck) == CellSum(b, q, rk, ck)
    decreases |a|
  {
    if a == [] {
      assert |multiset(b)| == 0;
    } else {
      hide CellSum, InCell, Skip;
      var n, i := SameLast(a, b);
      CellPermutes(Skip(a, n), Skip(b, i), q, rk, ck);
      CellSkip(a, n, q, rk, ck);
      CellSkip(b, i, q, rk, ck);
    }
  }

  /** Rows in another order give the same table. */
  lemma PivotPermutes(a: seq<Row>, b: seq<Row>, q: Spec, order: Order<Key>)
    requires multiset(a) == multiset(b)
    ensures PivotTable(a, q, order) == PivotTable(b, q, order)
  {
    hide CellSum, Contributes, KeyOf;
    forall r ensures r in a <==> r in b {
      assert r in multiset(a) <==> r in multiset(b);
    }
    assert RowKeys(a, q) == RowKeys(b, q) && ColKeys(a, q) == ColKeys(b, q);
    forall rk, ck ensures CellSum(a, q, rk, ck) == CellSum(b, q, rk, ck) {
      CellPermutes(a, b, q, rk, ck);
    }
    SameFrame(a, b, q, order);
  }
}
