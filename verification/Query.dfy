/** The whole query of cp/pivot.py: for every displayed value the needed tables are joined and pivoted,
    then the results are put side by side. */
module Query {
  import opened Options
  import opened Permutations
  import opened Tables
  import opened MergeOrder
  import opened Grouping
  import opened JoinTotals

  /** A chosen column: (path of the table, column name). */
  datatype Dimension = Dimension(path: string, column: string)

  /** What the user asks for. */
  datatype Request = Request(rows: seq<Dimension>, cols: seq<Dimension>, values: seq<Dimension>, filters: seq<Filter>)

  datatype Answer = Raised | One(frame: Frame) | Many(columns: seq<(Label, map<Key, int>)>)

  function NamesOf(ds: seq<Dimension>): seq<string> {
    seq(|ds|, i requires 0 <= i < |ds| => ds[i].column)
  }

  function PathsOf(ds: seq<Dimension>): seq<string> {
    seq(|ds|, i requires 0 <= i < |ds| => ds[i].path)
  }

  function SpecOf(q: Request, v: Dimension): Spec {
    Spec(NamesOf(q.rows), NamesOf(q.cols), v.column)
  }

  /** A dictionary has each key once; this is the order in which they came. */
  function Firsts<T(==)>(vs: seq<T>): (fs: seq<T>)
    ensures vs != [] ==> fs != []
  {
    if vs == [] then []
    else
      var v := vs[|vs| - 1];
      Firsts(vs[..|vs| - 1]) + if v in vs[..|vs| - 1] then [] else [v]
  }

  lemma {:induction false} FirstsThere<T>(vs: seq<T>)
    ensures forall v :: v in Firsts(vs) <==> v in vs
    ensures NoRepeats(Firsts(vs))
  {
    if vs != [] {
      FirstsThere(vs[..|vs| - 1]);
    }
  }

  /** The order in which a dictionary yields its keys, given the order in which they were put in. */
  type DictOrder = seq<string> -> seq<string>

  ghost predicate YieldsKeys(dict: DictOrder) {
    forall history: seq<string> :: YieldsAll(dict(history), history)
  }

  ghost predicate YieldsAll(keys: seq<string>, history: seq<string>) {
    (forall k :: k in keys <==> k in history) && NoRepeats(keys)
  }

  /** The columns put into df_column_dict in the round of value v: v's own first. */
  function Needs(q: Request, v: Dimension): seq<Dimension> {
    [v] + q.cols + q.rows + q.values
  }

  /** Keys of df_column_dict in the order they are put in. */
  function History(q: Request, v: Dimension): seq<string> {
    Firsts(PathsOf(Needs(q, v)))
  }

  function Lookup(frames: Frames, path: string): Option<Table> {
    if frames == [] then None
    else if frames[|frames| - 1].0 == path then Some(frames[|frames| - 1].1)
    else Lookup(frames[..|frames| - 1], path)
  }

  function LookupAll(frames: Frames, paths: seq<string>): Option<seq<Table>> {
    if paths == [] then Some([])
    else
      match (LookupAll(frames, paths[..|paths| - 1]), Lookup(frames, paths[|paths| - 1]))
      case (Some(ts), Some(t)) => Some(ts + [t])
      case _ => None
  }

  /** The tables at these paths, outer-joined in turn. */
  function JoinedTable(frames: Frames, paths: seq<string>): Option<Table> {
    match LookupAll(frames, paths)
    case None => None
    case Some(ts) => if ts == [] then None else Merged(ts)
  }

  /** What the filtered tables are joined to in the round of value v; None when that raises. */
  function JoinedFor(frames: Frames, q: Request, dict: DictOrder, v: Dimension): Option<Table> {
    match Filtered(frames, q.filters)
    case None => None
    case Some(filtered) => JoinedTable(filtered, dict(History(q, v)))
  }

  /** The names pivot_table groups by and aggregates are columns of the table. */
  predicate NamesKnown(q: Request, v: Dimension, known: set<string>) {
    && (forall i :: 0 <= i < |q.rows| ==> q.rows[i].column in known)
    && (forall i :: 0 <= i < |q.cols| ==> q.cols[i].column in known)
    && v.column in known
  }

  /** The rows value v is aggregated over; None when its round raises before that. */
  function QueryRows(frames: Frames, q: Request, dict: DictOrder, v: Dimension): Option<seq<Row>> {
    match JoinedFor(frames, q, dict, v)
    case None => None
    case Some(t) => if q.rows + q.cols != [] && NamesKnown(q, v, t.cols) then Some(t.rows) else None
  }

  /** The pivoted table of value v. */
  function FrameFor(frames: Frames, q: Request, dict: DictOrder, order: Order<Key>, v: Dimension): Option<Frame> {
    match QueryRows(frames, q, dict, v)
    case None => None
    case Some(data) => Some(PivotTable(data, SpecOf(q, v), order))
  }

  /** df_column_dict: for every table the columns chosen from it, and its keys as they came. */
  method NeededColumns(all: seq<Dimension>) returns (needed: map<string, set<string>>, history: seq<string>)
    ensures history == Firsts(PathsOf(all)) && forall p :: p in needed <==> p in history
    ensures forall p, c :: Dimension(p, c) in all <==> p in needed && c in needed[p]
  {
    hide Firsts, PathsOf;
    needed, history := map[], [];
    NoPaths();
    for i := 0 to |all|
      invariant history == Firsts(PathsOf(all[..i])) && forall p :: p in needed <==> p in history
      invariant forall p, c :: p in needed && c in needed[p] <==> Dimension(p, c) in all[..i]
    {
      assert all[..i + 1] == all[..i] + [all[i]];
      PathsAppend(all[..i], all[i]);
      var d := all[i];
      if d.path in needed {
        needed := needed[d.path := needed[d.path] + {d.column}];
      } else {
        needed := needed[d.path := {d.column}];
        history := history + [d.path];
      }
    }
    assert all[..|all|] == all;
  }

  lemma NoPaths()
    ensures Firsts(PathsOf([])) == []
  {
  }

  lemma PathsAppend(ds: seq<Dimension>, d: Dimension)
    ensures Firsts(PathsOf(ds + [d])) ==
            Firsts(PathsOf(ds)) + if d.path in Firsts(PathsOf(ds)) then [] else [d.path]
  {
    var ps := PathsOf(ds + [d]);
    assert ps[..|ps| - 1] == PathsOf(ds);
    FirstsThere(PathsOf(ds));
  }

  method Fetch(frames: Frames, paths: seq<string>) returns (r: Option<seq<Table>>)
    ensures r == LookupAll(frames, paths)
    ensures r.Some? ==> |r.value| == |paths|
  {
    hide Lookup;
    var ts := [];
    for i := 0 to |paths|
      invariant LookupAll(frames, paths[..i]) == Some(ts) && |ts| == i
    {
      assert paths[..i + 1][..i] == paths[..i];
      var t := Lookup(frames, paths[i]);
      if t.None? {
        NotFetched(frames, paths, i + 1);
        return None;
      }
      ts := ts + [t.value];
    }
    assert paths[..|paths|] == paths;
    return Some(ts);
  }

  lemma {:induction false} NotFetched(frames: Frames, paths: seq<string>, i: nat)
    requires i <= |paths| && LookupAll(frames, paths[..i]).None?
    ensures LookupAll(frames, paths).None?
    decreases |paths|
  {
    hide Lookup;
    if i < |paths| {
      assert paths[..|paths| - 1][..i] == paths[..i];
      NotFetched(frames, paths[..|paths| - 1], i);
    } else {
      assert paths[..i] == paths;
    }
  }

  /** Joins the needed tables: _merge for several, the table itself for one. */
  method Join(filtered: Frames, paths: seq<string>) returns (r: Option<Table>)
    requires paths != []
    ensures r == JoinedTable(filtered, paths)
  {
    hide LookupAll, Merged;
    var found := Fetch(filtered, paths);
    if found.None? {
      return None;
    }
    if |paths| > 1 {
      r := Merge(found.value);
    } else {
      OneTable(found.value);
      r := Some(found.value[0]);
    }
  }

  /** Drops what nobody chose and pivots the rest. */
  method PivotJoined(df: Table, needed: map<string, set<string>>, q: Request, v: Dimension, order: Order<Key>)
    returns (r: Option<Frame>)
    requires forall d :: d in Needs(q, v) ==> d.path in needed && d.column in needed[d.path]
    ensures r == if q.rows + q.cols != [] && NamesKnown(q, v, df.cols)
                 then Some(PivotTable(df.rows, SpecOf(q, v), order)) else None
  {
    hide PivotTable, Covers, NamesKnown;
    var chosen := set p, c | p in needed && c in needed[p] :: c;
    KnownStays(q, v, df.cols, chosen);
    if q.rows + q.cols == [] || !NamesKnown(q, v, df.cols * chosen) {
      return None;
    }
    DropChangesNothing(df.rows, chosen, SpecOf(q, v), order);
    return Some(PivotTable(Drop(df.rows, chosen), SpecOf(q, v), order));
  }

  /** One round of the loop over the displayed values. */
  method PivotOne(ghost frames: Frames, filtered: Frames, q: Request, v: Dimension, dict: DictOrder, order: Order<Key>)
    returns (r: Option<Frame>)
    requires v in q.values && YieldsKeys(dict) && Filtered(frames, q.filters) == Some(filtered)
    ensures r == FrameFor(frames, q, dict, order, v)
  {
    hide JoinedTable, PivotTable, Filtered, YieldsKeys, Firsts, NamesKnown, Needs;
    var needed, history := NeededColumns(Needs(q, v));
    var paths := dict(history);
    Yields(dict, history);
    OwnFirst(q, v);
    var df := Join(filtered, paths);
    if df.None? {
      return None;
    }
    forall d | d in Needs(q, v) ensures d.path in needed && d.column in needed[d.path] {
      assert d == Dimension(d.path, d.column);
    }
    r := PivotJoined(df.value, needed, q, v, order);
  }

  lemma OwnFirst(q: Request, v: Dimension)
    ensures v.path in History(q, v)
  {
    FirstsThere(PathsOf(Needs(q, v)));
    assert PathsOf(Needs(q, v))[0] == v.path;
  }

  lemma Yields(dict: DictOrder, history: seq<string>)
    requires YieldsKeys(dict)
    ensures YieldsAll(dict(history), history)
  {
  }

  lemma OneTable(ts: seq<Table>)
    requires |ts| == 1
    ensures Merged(ts) == Some(ts[0])
  {
  }

  lemma KnownStays(q: Request, v: Dimension, known: set<string>, chosen: set<string>)
    requires forall d :: d in Needs(q, v) ==> d.column in chosen
    ensures NamesKnown(q, v, known * chosen) <==> NamesKnown(q, v, known)
    ensures Covers(chosen, SpecOf(q, v))
  {
    var all := Needs(q, v);
    assert v in all;
    forall i | 0 <= i < |q.rows| ensures q.rows[i].column in chosen {
      assert q.rows[i] in all;
    }
    forall i | 0 <= i < |q.cols| ensures q.cols[i].column in chosen {
      assert q.cols[i] in all;
    }
  }

  /** The tables of these values; an empty one stands for one that is missing. */
  function FramesFor(frames: Frames, q: Request, dict: DictOrder, order: Order<Key>, vs: seq<Dimension>): (fs: seq<Frame>)
    ensures |fs| == |vs|
  {
    seq(|vs|, k requires 0 <= k < |vs| =>
      match FrameFor(frames, q, dict, order, vs[k])
      case Some(f) => f
      case None => Frame([], []))
  }

  /** The whole query: an error exactly when no value is displayed, the round of some value raises, or
      the tables of several values cannot be put side by side. */
  method Pivot(frames: Frames, q: Request, dict: DictOrder, order: Order<Key>) returns (r: Answer)
    requires YieldsKeys(dict)
    ensures if q.values == [] || exists v :: v in q.values && QueryRows(frames, q, dict, v).None? then r.Raised?
            else
              && (forall v :: v in Firsts(q.values) ==> FrameFor(frames, q, dict, order, v).Some?)
              && Answers(r, Firsts(q.values), FramesFor(frames, q, dict, order, Firsts(q.values)))
    ensures Enumerates(order) && !r.Raised? ==>
              exists shown, fs :: RightAnswer(r, frames, q, dict, shown, fs)
  {
    hide RightAnswer, Enumerates, PivotTable, JoinedTable, Filtered, Interleaved, NamesKnown, YieldsKeys, Unlabelled, QueryRows, Firsts;
    FirstsThere(q.values);
    var filtered := ApplyFilters(frames, q.filters);
    if filtered.None? {
      Unfiltered(frames, q, dict);
      return Raised;
    }
    var shown: seq<Dimension>, dfs: seq<Frame> := [], [];
    FirstsPrefix(q.values, 0);
    for k := 0 to |q.values|
      invariant shown == Firsts(q.values[..k]) && |dfs| == |shown|
      invariant forall l :: 0 <= l < k ==> FrameFor(frames, q, dict, order, q.values[l]).Some?
      invariant forall l :: 0 <= l < |shown| ==> FrameFor(frames, q, dict, order, shown[l]) == Some(dfs[l])
    {
      FirstsPrefix(q.values, k);
      var df := PivotOne(frames, filtered.value, q, q.values[k], dict, order);
      if df.None? {
        assert q.values[k] in q.values && QueryRows(frames, q, dict, q.values[k]).None?;
        return Raised;
      }
      if q.values[k] !in q.values[..k] {
        shown, dfs := shown + [q.values[k]], dfs + [df.value];
      }
    }
    assert q.values[..|q.values|] == q.values;
    if q.values == [] {
      return Raised;
    }
    NoneRaised(frames, q, dict, order);
    assert dfs == FramesFor(frames, q, dict, order, shown);
    if |dfs| == 1 {
      r := One(dfs[0]);
    } else {
      var all := Concat(NamesOf(shown), dfs);
      r := if all.Failed? then Raised else Many(all.columns);
    }
    if Enumerates(order) {
      AnswerIsRight(r, frames, q, dict, order);
    }
  }

  lemma Unfiltered(frames: Frames, q: Request, dict: DictOrder)
    requires Filtered(frames, q.filters).None?
    ensures forall v :: QueryRows(frames, q, dict, v).None?
  {
    hide Filtered;
  }

  lemma FirstsPrefix<T>(vs: seq<T>, k: nat)
    requires k <= |vs|
    ensures Firsts<T>([]) == []
    ensures k < |vs| ==> Firsts(vs[..k + 1]) == Firsts(vs[..k]) + if vs[k] in vs[..k] then [] else [vs[k]]
  {
    if k < |vs| {
      assert vs[..k + 1][..k] == vs[..k];
    }
  }

  lemma NoneRaised(frames: Frames, q: Request, dict: DictOrder, order: Order<Key>)
    requires forall l :: 0 <= l < |q.values| ==> FrameFor(frames, q, dict, order, q.values[l]).Some?
    ensures forall v :: v in q.values ==>
              QueryRows(frames, q, dict, v).Some? && FrameFor(frames, q, dict, order, v).Some?
  {
    hide QueryRows, PivotTable;
  }

  ghost predicate Answers(r: Answer, shown: seq<Dimension>, dfs: seq<Frame>)
    requires |shown| == |dfs| > 0
  {
    if |dfs| == 1 then r == One(dfs[0])
    else if !SameWidth(dfs) || Unlabelled(dfs[0]) then r.Raised?
    else r.Many? && Interleaved(r.columns, NamesOf(shown), dfs)
  }

  // ---------------------------------------------------------------- the answer, in the request's own terms

  /** Row r has these entries in the chosen columns, in this order. */
  ghost predicate HasKey(r: Row, ds: seq<Dimension>, k: Key) {
    |k| == |ds| && forall i :: 0 <= i < |ds| ==> ds[i].column in r && r[ds[i].column] == k[i]
  }

  /** Nothing is missing from r: neither an entry it is grouped by nor the number it adds. */
  ghost predicate Complete(r: Row, q: Request, v: Dimension) {
    && (forall i :: 0 <= i < |q.rows| ==> q.rows[i].column in r)
    && (forall i :: 0 <= i < |q.cols| ==> q.cols[i].column in r)
    && v.column in r && r[v.column].Num?
  }

  /** Some complete row has this key in these dimensions. */
  ghost predicate KeyThere(data: seq<Row>, q: Request, v: Dimension, ds: seq<Dimension>, k: Key) {
    exists r :: r in data && Complete(r, q, v) && HasKey(r, ds, k)
  }

  /** The displayed column summed over the complete rows with this row key and this column key. */
  ghost function SumAt(data: seq<Row>, q: Request, v: Dimension, rk: Key, ck: Key): int {
    if data == [] then 0
    else
      var r := data[|data| - 1];
      SumAt(data[..|data| - 1], q, v, rk, ck) +
      if Complete(r, q, v) && HasKey(r, q.rows, rk) && HasKey(r, q.cols, ck) then r[v.column].n else 0
  }

  ghost predicate HasColumn(f: Frame, k: Key) {
    exists j :: 0 <= j < |f.columns| && f.columns[j].key == k
  }

  /** The table of value v over these rows: its row keys are read from the row dimensions and its column
      keys from the column dimensions, each once, and every cell is the sum over the rows with its keys. */
  ghost predicate Shows(f: Frame, data: seq<Row>, q: Request, v: Dimension) {
    && (forall k :: k in f.index <==> KeyThere(data, q, v, q.rows, k))
    && (forall k :: HasColumn(f, k) <==> KeyThere(data, q, v, q.cols, k))
    && NoRepeats(f.index)
    && (forall i, j :: 0 <= i < j < |f.columns| ==> f.columns[i].key != f.columns[j].key)
    && (forall j, k :: 0 <= j < |f.columns| && k in f.index ==>
          k in f.columns[j].cells && f.columns[j].cells[k] == SumAt(data, q, v, k, f.columns[j].key))
  }

  lemma SameKeyed(r: Row, ds: seq<Dimension>)
    ensures HasAll(r, NamesOf(ds)) <==> forall i :: 0 <= i < |ds| ==> ds[i].column in r
    ensures forall k :: HasKey(r, ds, k) <==> HasAll(r, NamesOf(ds)) && KeyOf(r, NamesOf(ds)) == k
  {
    var names := NamesOf(ds);
    assert forall i :: 0 <= i < |ds| ==> names[i] == ds[i].column;
    if HasAll(r, names) {
      forall k | HasKey(r, ds, k) ensures KeyOf(r, names) == k {
        assert forall i :: 0 <= i < |ds| ==> KeyOf(r, names)[i] == k[i];
      }
    }
  }

  lemma SameRow(r: Row, q: Request, v: Dimension)
    ensures Contributes(r, SpecOf(q, v)) <==> Complete(r, q, v)
    ensures Contributes(r, SpecOf(q, v)) ==>
              forall k :: (HasKey(r, q.rows, k) <==> KeyOf(r, SpecOf(q, v).rowNames) == k) &&
                          (HasKey(r, q.cols, k) <==> KeyOf(r, SpecOf(q, v).colNames) == k)
  {
    hide HasAll, KeyOf, HasKey;
    SameKeyed(r, q.rows);
    SameKeyed(r, q.cols);
  }

  lemma {:induction false} CellIsSum(data: seq<Row>, q: Request, v: Dimension, rk: Key, ck: Key)
    ensures CellSum(data, SpecOf(q, v), rk, ck) == SumAt(data, q, v, rk, ck)
  {
    hide KeyOf, HasKey, Complete, Contributes;
    if data != [] {
      CellIsSum(data[..|data| - 1], q, v, rk, ck);
      SameRow(data[|data| - 1], q, v);
    }
  }

  lemma KeysThere(data: seq<Row>, q: Request, v: Dimension, k: Key)
    ensures k in RowKeys(data, SpecOf(q, v)) <==> KeyThere(data, q, v, q.rows, k)
    ensures k in ColKeys(data, SpecOf(q, v)) <==> KeyThere(data, q, v, q.cols, k)
  {
    hide KeyOf, HasKey, Complete, HasAll, SpecOf;
    forall r: Row
      ensures Contributes(r, SpecOf(q, v)) <==> Complete(r, q, v)
      ensures Contributes(r, SpecOf(q, v)) ==>
                (HasKey(r, q.rows, k) <==> KeyOf(r, SpecOf(q, v).rowNames) == k) &&
                (HasKey(r, q.cols, k) <==> KeyOf(r, SpecOf(q, v).colNames) == k)
    {
      SameRow(r, q, v);
    }
  }

  /** Pivoting for a request gives the table the request describes. */
  lemma PivotShows(data: seq<Row>, q: Request, v: Dimension, order: Order<Key>)
    requires Enumerates(order)
    ensures Shows(PivotTable(data, SpecOf(q, v), order), data, q, v)
  {
    hide SpecOf, RowKeys, ColKeys, CellSum, SumAt, KeyThere, HasColumn;
    var s := SpecOf(q, v);
    var f, keys := PivotTable(data, s, order), order(ColKeys(data, s));
    assert Lists(f.index, RowKeys(data, s)) && Lists(keys, ColKeys(data, s));
    hide Enumerates;
    forall k ensures k in RowKeys(data, s) <==> KeyThere(data, q, v, q.rows, k)
             ensures k in ColKeys(data, s) <==> KeyThere(data, q, v, q.cols, k) {
      KeysThere(data, q, v, k);
    }
    forall k ensures HasColumn(f, k) <==> k in keys {
      ColumnThere(f, keys, k);
    }
    forall j, k | 0 <= j < |f.columns| && k in f.index
      ensures k in f.columns[j].cells && f.columns[j].cells[k] == SumAt(data, q, v, k, f.columns[j].key)
    {
      CellIsSum(data, q, v, k, keys[j]);
    }
  }

  lemma ColumnThere(f: Frame, keys: seq<Key>, k: Key)
    requires |f.columns| == |keys| && forall j :: 0 <= j < |keys| ==> f.columns[j].key == keys[j]
    ensures HasColumn(f, k) <==> k in keys
  {
    if j :| 0 <= j < |keys| && keys[j] == k {
      assert f.columns[j].key == k;
    }
  }

  /** The displayed values, each once, in the order in which they first come. */
  ghost predicate InFirstOrder<T(!new)>(shown: seq<T>, vs: seq<T>) {
    && (forall v :: v in shown <==> v in vs)
    && NoRepeats(shown)
    && (forall a, b :: 0 <= a < b < |shown| ==> ComesFirst(vs, shown[a], shown[b]))
  }

  /** x comes before the first y. */
  ghost predicate ComesFirst<T(!new)>(vs: seq<T>, x: T, y: T) {
    exists i :: 0 <= i < |vs| && vs[i] == x && y !in vs[..i + 1]
  }

  lemma {:induction false} FirstsOrder<T(!new)>(vs: seq<T>)
    ensures InFirstOrder(Firsts(vs), vs)
  {
    FirstsThere(vs);
    if vs != [] {
      var n := |vs| - 1;
      FirstsOrder(vs[..n]);
      var fs, before := Firsts(vs), Firsts(vs[..n]);
      FirstsThere(vs[..n]);
      forall a, b | 0 <= a < b < |fs| ensures ComesFirst(vs, fs[a], fs[b]) {
        if b < |before| {
          assert ComesFirst(vs[..n], before[a], before[b]);
          ComesFirstStays(vs, fs[a], fs[b]);
        } else {
          assert fs[a] in before;
          var i :| 0 <= i < n && vs[i] == fs[a];
          assert vs[..i + 1] <= vs[..n];
          assert forall x :: x in vs[..i + 1] ==> x in vs[..n];
        }
      }
    }
  }

  lemma ComesFirstStays<T(!new)>(vs: seq<T>, x: T, y: T)
    requires vs != [] && ComesFirst(vs[..|vs| - 1], x, y)
    ensures ComesFirst(vs, x, y)
  {
    var n := |vs| - 1;
    var i :| 0 <= i < n && vs[..n][i] == x && y !in vs[..n][..i + 1];
    assert vs[..n][..i + 1] == vs[..i + 1];
  }

  /** The table of value v is this one, over the rows its round comes to. */
  ghost predicate RightFrame(f: Frame, frames: Frames, q: Request, dict: DictOrder, v: Dimension) {
    var data := QueryRows(frames, q, dict, v);
    data.Some? && Shows(f, data.value, q, v)
  }

  /** The right answer: for a single value its table; for several the columns of their tables in turn,
      column i of value j at position i * m + j, under the value's name and the column key as cut. */
  ghost predicate RightAnswer(r: Answer, frames: Frames, q: Request, dict: DictOrder, shown: seq<Dimension>, fs: seq<Frame>)
  {
    && InFirstOrder(shown, q.values) && |fs| == |shown|
    && (forall j :: 0 <= j < |fs| ==> RightFrame(fs[j], frames, q, dict, shown[j]))
    && match r
       case Raised => false
       case One(f) => |fs| == 1 && f == fs[0]
       case Many(columns) =>
         && |fs| > 1
         && (forall j :: 0 <= j < |fs| ==> |fs[j].columns| == |fs[0].columns|)
         && |columns| == |fs[0].columns| * |fs|
         && (forall i, j :: 0 <= i < |fs[0].columns| && 0 <= j < |fs| && i < |fs[j].columns| ==>
               StripeColumn(columns, i * |fs| + j, fs[0].columns[i].key, shown[j], fs[j].columns[i]))
  }

  ghost predicate StripeColumn(columns: seq<(Label, map<Key, int>)>, p: int, key: Key, v: Dimension, c: Column) {
    0 <= p < |columns| && columns[p].0.value == v.column && columns[p].0.key == Cut(key) && columns[p].1 == c.cells
  }

  lemma AnswerIsRight(r: Answer, frames: Frames, q: Request, dict: DictOrder, order: Order<Key>)
    requires Enumerates(order) && Firsts(q.values) != []
    requires forall v :: v in Firsts(q.values) ==> FrameFor(frames, q, dict, order, v).Some?
    requires Answers(r, Firsts(q.values), FramesFor(frames, q, dict, order, Firsts(q.values)))
    ensures r.Raised? || RightAnswer(r, frames, q, dict, Firsts(q.values), FramesFor(frames, q, dict, order, Firsts(q.values)))
  {
    var shown := Firsts(q.values);
    var dfs := FramesFor(frames, q, dict, order, shown);
    FirstsOrder(q.values);
    hide Enumerates, Shows, InFirstOrder, QueryRows, SpecOf, PivotTable, Firsts, Cut;
    forall j | 0 <= j < |dfs| ensures RightFrame(dfs[j], frames, q, dict, shown[j]) {
      var data := QueryRows(frames, q, dict, shown[j]);
      assert FrameFor(frames, q, dict, order, shown[j]).Some?;
      PivotShows(data.value, q, shown[j], order);
    }
    hide RightFrame;
    if r.Many? {
      forall i, j | 0 <= i < |dfs[0].columns| && 0 <= j < |dfs| && i < |dfs[j].columns|
        ensures StripeColumn(r.columns, i * |dfs| + j, dfs[0].columns[i].key, shown[j], dfs[j].columns[i])
      {
        assert Stands(r.columns, NamesOf(shown), dfs, i, j);
      }
    }
  }

  // ---------------------------------------------------------------- the answer as a whole

  /** The sum of the columns of one displayed value in the combined table: positions j, m+j, 2m+j, ... */
  ghost function StripeTotal(index: seq<Key>, columns: seq<(Label, map<Key, int>)>, n: nat, m: nat, j: nat): int {
    if n == 0 then 0
    else
      var p := (n - 1) * m + j;
      StripeTotal(index, columns, n - 1, m, j) +
      if p < |columns| && forall k :: k in index ==> k in columns[p].1 then ColumnTotal(index, columns[p].1) else 0
  }

  lemma {:induction false} StripeIsFrame(columns: seq<(Label, map<Key, int>)>, names: seq<string>, dfs: seq<Frame>, n: nat, j: nat)
    requires |names| == |dfs| > 0 && SameWidth(dfs) && j < |dfs| && n <= |dfs[0].columns|
    requires Interleaved(columns, names, dfs) && Filled(dfs[j])
    ensures Filled(Frame(dfs[j].index, dfs[j].columns[..n]))
    ensures StripeTotal(dfs[j].index, columns, n, |dfs|, j) == FrameTotal(dfs[j].index, dfs[j].columns[..n])
  {
    assert Filled(Frame(dfs[j].index, dfs[j].columns[..n]));
    if n > 0 {
      StripeIsFrame(columns, names, dfs, n - 1, j);
      assert Stands(columns, names, dfs, n - 1, j);
      assert dfs[j].columns[..n][..n - 1] == dfs[j].columns[..n - 1];
    }
  }

  /** One table for every value, all over the same rows. */
  function TablesOf(data: seq<Row>, q: Request, shown: seq<Dimension>, order: Order<Key>): seq<Frame> {
    seq(|shown|, k requires 0 <= k < |shown| => PivotTable(data, SpecOf(q, shown[k]), order))
  }

  /** Without missing data the tables of all values have the same rows and columns. */
  lemma SameFrames(data: seq<Row>, q: Request, shown: seq<Dimension>, order: Order<Key>)
    requires shown != [] && forall v :: v in shown ==> NothingMissing(data, SpecOf(q, v))
    ensures var dfs := TablesOf(data, q, shown, order);
            forall k :: 0 <= k < |dfs| ==>
              && dfs[k].index == dfs[0].index && |dfs[k].columns| == |dfs[0].columns|
              && forall i :: 0 <= i < |dfs[k].columns| ==> dfs[k].columns[i].key == dfs[0].columns[i].key
  {
    hide PivotTable, NothingMissing;
    forall k | 0 <= k < |shown|
      ensures var f, g := TablesOf(data, q, shown, order)[k], TablesOf(data, q, shown, order)[0];
              && f.index == g.index && |f.columns| == |g.columns|
              && forall i :: 0 <= i < |f.columns| ==> f.columns[i].key == g.columns[i].key
    {
      SameKeys(data, SpecOf(q, shown[k]), SpecOf(q, shown[0]), order);
    }
  }

  /** The columns of value j: under the right keys and its own name, and adding up to total. */
  ghost predicate RightColumns(columns: seq<(Label, map<Key, int>)>, dfs: seq<Frame>, j: nat, name: string, total: int)
    requires j < |dfs|
  {
    var n, m := |dfs[0].columns|, |dfs|;
    && StripeTotal(dfs[0].index, columns, n, m, j) == total
    && |dfs[j].columns| == n
    && forall i :: 0 <= i < n ==> LabelledBy(columns, i * m + j, dfs[j].columns[i], name)
  }

  /** Conservation through the whole query: without missing data the columns of every displayed
      value carry the right row and column keys and add up to that value's column of the joined rows. */
  lemma AnswerConserves(data: seq<Row>, q: Request, shown: seq<Dimension>, order: Order<Key>,
                        columns: seq<(Label, map<Key, int>)>, j: nat)
    requires Enumerates(order) && j < |shown|
    requires forall v :: v in shown ==> NothingMissing(data, SpecOf(q, v))
    ensures SameWidth(TablesOf(data, q, shown, order))
    ensures Interleaved(columns, NamesOf(shown), TablesOf(data, q, shown, order)) ==>
              RightColumns(columns, TablesOf(data, q, shown, order), j, shown[j].column, ValueSum(data, shown[j].column))
  {
    hide PivotTable, NothingMissing, Interleaved, FrameTotal, StripeTotal, Filled, LabelledBy;
    var dfs := TablesOf(data, q, shown, order);
    var n, m := |dfs[0].columns|, |dfs|;
    SameFrames(data, q, shown, order);
    PivotConserves(data, SpecOf(q, shown[j]), order);
    CompleteRows(data, SpecOf(q, shown[j]));
    if Interleaved(columns, NamesOf(shown), dfs) {
      StripeIsFrame(columns, NamesOf(shown), dfs, n, j);
      assert dfs[j].columns[..n] == dfs[j].columns;
      forall i | 0 <= i < n ensures LabelledBy(columns, i * m + j, dfs[j].columns[i], shown[j].column) {
        StandsAt(columns, NamesOf(shown), dfs, i, j);
      }
    }
  }

  /** Column p is this column of a value's own table, under its key and the value's name. */
  ghost predicate LabelledBy(columns: seq<(Label, map<Key, int>)>, p: int, c: Column, name: string) {
    0 <= p < |columns| && columns[p] == (Label(Cut(c.key), name), c.cells)
  }

  lemma StandsAt(columns: seq<(Label, map<Key, int>)>, names: seq<string>, dfs: seq<Frame>, i: nat, j: nat)
    requires |names| == |dfs| > 0 && SameWidth(dfs) && i < |dfs[0].columns| && j < |dfs|
    requires Interleaved(columns, names, dfs) && dfs[j].columns[i].key == dfs[0].columns[i].key
    ensures LabelledBy(columns, i * |dfs| + j, dfs[j].columns[i], names[j])
  {
    assert Stands(columns, names, dfs, i, j);
    assert i * |dfs| + j >= 0;
  }

  // ---------------------------------------------------------------- do all values see the same rows?

  /** Values v and w are aggregated over the same rows, in whatever order. */
  ghost predicate SeeSameRows(frames: Frames, q: Request, dict: DictOrder, v: Dimension, w: Dimension) {
    SameOutcome(JoinedFor(frames, q, dict, v), JoinedFor(frames, q, dict, w))
  }

  /** All displayed values see the same rows, and no grouping key or number is missing in them. */
  ghost predicate SameCompleteRows(frames: Frames, q: Request, dict: DictOrder) {
    forall v :: v in Firsts(q.values) ==>
      && QueryRows(frames, q, dict, v).Some? && QueryRows(frames, q, dict, Firsts(q.values)[0]).Some?
      && SeeSameRows(frames, q, dict, Firsts(q.values)[0], v)
      && NothingMissing(QueryRows(frames, q, dict, Firsts(q.values)[0]).value, SpecOf(q, v))
  }

  /** When all displayed values see the same rows and nothing is missing, the answer is that of one
      joined table: every value's columns stand under the right keys and add up to its own column. */
  lemma QueryConserves(frames: Frames, q: Request, dict: DictOrder, order: Order<Key>, columns: seq<(Label, map<Key, int>)>,
                       j: nat)
    requires Enumerates(order) && j < |Firsts(q.values)|
    requires SameCompleteRows(frames, q, dict)
    ensures forall v :: v in Firsts(q.values) ==> FrameFor(frames, q, dict, order, v).Some?
    ensures JoinedFor(frames, q, dict, Firsts(q.values)[j]).Some?
    ensures var shown := Firsts(q.values); var dfs := FramesFor(frames, q, dict, order, shown);
            && SameWidth(dfs)
            && (Interleaved(columns, NamesOf(shown), dfs) ==>
                 RightColumns(columns, dfs, j, shown[j].column,
                              ValueSum(JoinedFor(frames, q, dict, shown[j]).value.rows, shown[j].column)))
  {
    hide PivotTable, NothingMissing, Interleaved, RightColumns, JoinedFor, Firsts, NamesKnown, ValueSum;
    var shown := Firsts(q.values);
    assert shown[0] in shown && shown[j] in shown;
    var data := QueryRows(frames, q, dict, shown[0]).value;
    var dfs := FramesFor(frames, q, dict, order, shown);
    forall k | 0 <= k < |shown| ensures dfs[k] == PivotTable(data, SpecOf(q, shown[k]), order) {
      assert SeeSameRows(frames, q, dict, shown[0], shown[k]);
      PivotPermutes(QueryRows(frames, q, dict, shown[k]).value, data, SpecOf(q, shown[k]), order);
    }
    assert dfs == TablesOf(data, q, shown, order);
    AnswerConserves(data, q, shown, order, columns, j);
    assert SeeSameRows(frames, q, dict, shown[0], shown[j]);
    ValuePermutes(data, JoinedFor(frames, q, dict, shown[j]).value.rows, shown[j].column);
  }

  ghost predicate AllFormed(frames: Frames) {
    forall i :: 0 <= i < |frames| ==> Formed(frames[i].1)
  }

  /** The frames have the paths and columns of the schema, whatever their rows. */
  ghost predicate Fits(frames: Frames, schema: Frames) {
    |frames| == |schema| && AllFormed(frames) &&
    forall i :: 0 <= i < |frames| ==> frames[i].0 == schema[i].0 && frames[i].1.cols == schema[i].1.cols
  }

  ghost predicate AllFound(frames: Frames, paths: seq<string>) {
    forall i :: 0 <= i < |paths| ==> Lookup(frames, paths[i]).Some?
  }

  ghost function TablesAt(frames: Frames, paths: seq<string>): seq<Table>
    requires AllFound(frames, paths)
  {
    seq(|paths|, i requires 0 <= i < |paths| => Lookup(frames, paths[i]).value)
  }

  /** What can be checked before a query, on the columns of the tables: v and w are displayed from one
      table, or some table is missing, or the order of merging the needed tables is irrelevant. */
  ghost predicate SameRowsCheck(schema: Frames, q: Request, v: Dimension, w: Dimension) {
    || v.path == w.path
    || !AllFound(schema, History(q, v))
    || OrderIrrelevant(ColsOf(TablesAt(schema, History(q, v))))
  }

  /** Two values see the same rows, whatever the rows of the tables, the filters and the order in which
      dictionaries yield their keys, if and only if this check succeeds. */
  lemma SameRowsExactly(schema: Frames, q: Request, v: Dimension, w: Dimension)
    requires DistinctPaths(schema) && v in q.values && w in q.values
    ensures (forall frames, filters, dict :: Fits(frames, schema) && YieldsKeys(dict) ==>
               SeeSameRows(frames, q.(filters := filters), dict, v, w)) <==> SameRowsCheck(schema, q, v, w)
  {
    hide YieldsKeys, Fits, SeeSameRows, SameRowsCheck;
    if SameRowsCheck(schema, q, v, w) {
      forall frames, filters, dict | Fits(frames, schema) && YieldsKeys(dict)
        ensures SeeSameRows(frames, q.(filters := filters), dict, v, w)
      {
        CheckIgnoresFilters(schema, q, filters, v, w);
        SameRows(schema, frames, q.(filters := filters), dict, v, w);
      }
    } else {
      var frames, dict := RowsDiffer(schema, q, v, w);
      assert Fits(frames, schema) && YieldsKeys(dict) && !SeeSameRows(frames, q.(filters := []), dict, v, w);
    }
  }

  lemma CheckIgnoresFilters(schema: Frames, q: Request, filters: seq<Filter>, v: Dimension, w: Dimension)
    ensures SameRowsCheck(schema, q.(filters := filters), v, w) <==> SameRowsCheck(schema, q, v, w)
  {
    hide OrderIrrelevant, AllFound;
  }

  lemma SameRows(schema: Frames, frames: Frames, q: Request, dict: DictOrder, v: Dimension, w: Dimension)
    requires v in q.values && w in q.values && SameRowsCheck(schema, q, v, w)
    requires Fits(frames, schema) && YieldsKeys(dict)
    ensures SeeSameRows(frames, q, dict, v, w)
  {
    hide YieldsKeys, Firsts, Filtered, JoinedTable, Fits, OrderIrrelevant, AllFound, Lookup, LookupAll;
    if v.path == w.path {
      SameHistory(q, v, w);
    } else if Filtered(frames, q.filters).Some? {
      var f := Filtered(frames, q.filters).value;
      var needed := History(q, v);
      FilteredFits(frames, q.filters, schema);
      FitsFound(f, schema, needed);
      SameNeeds(q, v, w);
      Yields(dict, History(q, v));
      Yields(dict, History(q, w));
      var p := OrderOf(dict(History(q, v)), needed);
      var r := OrderOf(dict(History(q, w)), needed);
      if AllFound(schema, needed) {
        JoinedAt(f, needed, p);
        JoinedAt(f, needed, r);
        NeededThere(q, v);
        IrrelevantSuffices(ColsOf(TablesAt(schema, needed)), TablesAt(f, needed), p, r);
      } else {
        NoneJoined(f, needed, p);
        NoneJoined(f, needed, r);
      }
    }
  }

  /** Otherwise there are rows, and a dictionary order, for which they do not. */
  lemma RowsDiffer(schema: Frames, q: Request, v: Dimension, w: Dimension) returns (frames: Frames, dict: DictOrder)
    requires DistinctPaths(schema) && v in q.values && w in q.values && !SameRowsCheck(schema, q, v, w)
    ensures Fits(frames, schema) && YieldsKeys(dict) && !SeeSameRows(frames, q.(filters := []), dict, v, w)
  {
    hide YieldsKeys, Firsts, Filtered, JoinedTable, Fits, OrderIrrelevant, Lookup, LookupAll, SameOutcome, Merged, At, Perm;
    var needed := History(q, v);
    NeededThere(q, v);
    SameNeeds(q, v, w);
    var ts, p, r := IrrelevantNeeded(ColsOf(TablesAt(schema, needed)));
    PermOnce(p, |needed|);
    PermOnce(r, |needed|);
    frames := WithRows(schema, needed, ts);
    WithRowsFits(schema, needed, ts);
    InRangeOf(p, r, |needed|);
    dict := TwoOrders(needed, At(needed, p), History(q, w), At(needed, r));
    YieldsAt(needed, p, needed);
    YieldsAt(needed, r, History(q, w));
    TwoOrdersYield(needed, At(needed, p), History(q, w), At(needed, r));
    DifferentHistories(q, v, w);
    UnfilteredFrames(frames);
    JoinedAt(frames, needed, p);
    JoinedAt(frames, needed, r);
    NotTheSame(frames, q.(filters := []), dict, v, w, Merged(At(ts, p)), Merged(At(ts, r)));
  }

  lemma NotTheSame(frames: Frames, q: Request, dict: DictOrder, v: Dimension, w: Dimension,
                   a: Option<Table>, b: Option<Table>)
    requires JoinedFor(frames, q, dict, v) == a && JoinedFor(frames, q, dict, w) == b && !SameOutcome(a, b)
    ensures !SeeSameRows(frames, q, dict, v, w)
  {
    hide JoinedFor;
  }

  /** The needed tables can be joined whatever order the dictionary yields if and only if all are there
      and any two of them have a column in common. */
  lemma JoinsExactly(frames: Frames, q: Request, v: Dimension)
    requires Filtered(frames, q.filters).Some? && v in q.values && AllFormed(frames)
    ensures (forall dict :: YieldsKeys(dict) ==> JoinedFor(frames, q, dict, v).Some?) <==>
            AllFound(frames, History(q, v)) && PairwiseSharing(ColsOf(TablesAt(frames, History(q, v))))
  {
    hide YieldsKeys, Firsts, Filtered, JoinedTable, Lookup, LookupAll, Merged, At, Perm, PairwiseSharing, Formed;
    var f, needed := Filtered(frames, q.filters).value, History(q, v);
    FilteredFits(frames, q.filters, frames);
    FitsFound(f, frames, needed);
    NeededThere(q, v);
    if AllFound(frames, needed) && PairwiseSharing(ColsOf(TablesAt(frames, needed))) {
      MergeableExactly(TablesAt(f, needed));
      forall dict | YieldsKeys(dict) ensures JoinedFor(frames, q, dict, v).Some? {
        Yields(dict, needed);
        var p := OrderOf(dict(needed), needed);
        JoinedAt(f, needed, p);
      }
    } else {
      var p := FailingPaths(f, needed);
      InRangeOf(p, p, |needed|);
      var dict := TwoOrders(needed, At(needed, p), needed, At(needed, p));
      YieldsAt(needed, p, needed);
      TwoOrdersYield(needed, At(needed, p), needed, At(needed, p));
      assert YieldsKeys(dict) && JoinedFor(frames, q, dict, v).None?;
    }
  }

  lemma FailingPaths(f: Frames, needed: seq<string>) returns (p: seq<nat>)
    requires needed != []
    requires !(AllFound(f, needed) && PairwiseSharing(ColsOf(TablesAt(f, needed))))
    ensures Perm(p, |needed|) && JoinedTable(f, At(needed, p)).None?
  {
    hide JoinedTable, Lookup, LookupAll, Merged, PairwiseSharing;
    if AllFound(f, needed) {
      var ts := TablesAt(f, needed);
      MergeableExactly(ts);
      assert |ts| == |needed|;
      forall p | Perm(p, |ts|) ensures At(ts, p) != [] {
        PermOnce(p, |ts|);
      }
      p :| Perm(p, |ts|) && Merged(At(ts, p)).None?;
      JoinedAt(f, needed, p);
    } else {
      FrontFirst(|needed|, []);
      p := [] + Others(|needed|, []);
      NoneJoined(f, needed, p);
    }
  }

  // a query that raises although its tables can be merged

  /** Rows from b, values from a and c: in the round of a's value the dictionary is filled with a, b, c,
      in the round of c's with c, b, a. When a and b share nothing, but each of them shares a column
      with c, the first round raises and the second does not. */
  lemma RoundsDisagree(a: string, ta: Table, b: string, tb: Table, c: string, tc: Table,
                       p: string, r: string, v: string) returns (q: Request, dict: DictOrder)
    requires a != b && a != c && b != c
    requires ta.cols * tb.cols == {} && tc.cols * tb.cols != {} && tc.cols * ta.cols != {}
    ensures q == Request([Dimension(b, r)], [], [Dimension(a, p), Dimension(c, v)], []) && YieldsKeys(dict)
    ensures JoinedFor([(a, ta), (b, tb), (c, tc)], q, dict, Dimension(a, p)).None?
    ensures JoinedFor([(a, ta), (b, tb), (c, tc)], q, dict, Dimension(c, v)).Some?
    ensures JoinedFor([(a, ta), (b, tb), (c, tc)], q, dict, Dimension(c, v)).value.cols == tc.cols + tb.cols + ta.cols
  {
    hide Filtered, Lookup, LookupAll, Merged, Firsts, OuterJoin;
    var frames := [(a, ta), (b, tb), (c, tc)];
    q := Request([Dimension(b, r)], [], [Dimension(a, p), Dimension(c, v)], []);
    dict := (history: seq<string>) => Firsts(history);
    forall history: seq<string> ensures YieldsAll(dict(history), history) {
      FirstsYield(history);
    }
    UnfilteredFrames(frames);
    assert PathsOf(Needs(q, Dimension(a, p))) == [a, b, a, c];
    assert PathsOf(Needs(q, Dimension(c, v))) == [c, b, a, c];
    FirstOfFour(a, b, a, c);
    FirstOfFour(c, b, a, c);
    NoRepeatFirsts([a, b, c]);
    NoRepeatFirsts([c, b, a]);
    LookupThree(frames, a, b, c);
    LookupAllIs(frames, [a, b, c]);
    LookupAllIs(frames, [c, b, a]);
    assert AllFound(frames, [a, b, c]) && TablesAt(frames, [a, b, c]) == [ta, tb, tc];
    assert AllFound(frames, [c, b, a]) && TablesAt(frames, [c, b, a]) == [tc, tb, ta];
    MergedCols([ta, tb, tc]);
    MergedCols([tc, tb, ta]);
    ChainOfThree([ta, tb, tc]);
    ChainOfThree([tc, tb, ta]);
  }

  lemma LookupThree(frames: Frames, a: string, b: string, c: string)
    requires |frames| == 3 && frames[0].0 == a && frames[1].0 == b && frames[2].0 == c && a != b && a != c && b != c
    ensures Lookup(frames, a) == Some(frames[0].1)
    ensures Lookup(frames, b) == Some(frames[1].1)
    ensures Lookup(frames, c) == Some(frames[2].1)
  {
    LookupAt(frames, 0);
    LookupAt(frames, 1);
    LookupAt(frames, 2);
  }

  lemma ChainOfThree(ts: seq<Table>)
    requires |ts| == 3
    ensures Chains(ColsOf(ts)) <==>
            ts[0].cols * ts[1].cols != {} && (ts[0].cols + ts[1].cols) * ts[2].cols != {}
    ensures Union(ColsOf(ts)) == ts[0].cols + ts[1].cols + ts[2].cols
  {
    var css := ColsOf(ts);
    assert css[..2] == [css[0], css[1]];
    ChainOfTwo(css[0], css[1]);
  }

  lemma ChainOfTwo(a: set<string>, b: set<string>)
    ensures Chains([a, b]) <==> a * b != {}
    ensures Union([a, b]) == a + b
  {
    assert [a, b][..1] == [a] && [a][..0] == [];
    assert Union([a]) == a;
  }

  lemma FirstOfFour(a: string, b: string, c: string, d: string)
    requires a != b && b != c && (a == c || a == d) && b != d && c != d
    ensures Firsts([a, b, c, d]) == if a == c then [a, b, d] else [a, b, c]
  {
    hide Firsts;
    FirstsStep([], a);
    FirstsStep([a], b);
    FirstsStep([a, b], c);
    FirstsStep([a, b, c], d);
    assert [] + [a] == [a] && [a] + [b] == [a, b] && [a, b] + [c] == [a, b, c] && [a, b, c] + [d] == [a, b, c, d];
    assert b !in [a] && (c in [a, b] <==> c == a) && (d in [a, b, c] <==> d == a);
    assert [a, b] + [] == [a, b] && [a, b] + [d] == [a, b, d] && [a, b, c] + [] == [a, b, c];
  }

  lemma FirstsNone<T>()
    ensures Firsts<T>([]) == []
  {
  }

  lemma FirstsStep<T>(vs: seq<T>, v: T)
    ensures Firsts<T>([]) == []
    ensures Firsts(vs + [v]) == Firsts(vs) + if v in vs then [] else [v]
  {
    assert (vs + [v])[..|vs|] == vs;
  }

  lemma {:induction false} NoRepeatFirsts<T>(s: seq<T>)
    requires NoRepeats(s)
    ensures Firsts(s) == s
  {
    hide Firsts;
    if s != [] {
      var n := |s| - 1;
      NoRepeatFirsts(s[..n]);
      assert s[n] !in s[..n];
      FirstsStep(s[..n], s[n]);
      assert s[..n] + [s[n]] == s;
    } else {
      FirstsNone<T>();
    }
  }

  /** For example: x and p in table a, y and r in b, x, y and v in c. */
  lemma QueryRaises() returns (frames: Frames, q: Request, dict: DictOrder)
    ensures YieldsKeys(dict) && Filtered(frames, q.filters).Some? && |q.values| == 2
    ensures QueryRows(frames, q, dict, q.values[0]).None?
    ensures QueryRows(frames, q, dict, q.values[1]).Some?
  {
    hide JoinedFor, YieldsKeys, Filtered;
    var ta, tb, tc := Table({"x", "p"}, []), Table({"y", "r"}, []), Table({"x", "y", "v"}, []);
    assert "y" in tc.cols * tb.cols && "x" in tc.cols * ta.cols;
    frames := [("a", ta), ("b", tb), ("c", tc)];
    q, dict := RoundsDisagree("a", ta, "b", tb, "c", tc, "p", "r", "v");
    UnfilteredFrames(frames);
  }

  // orders of paths as orders of positions

  function IndexOf(s: seq<string>, x: string): (i: nat)
    requires x in s
    ensures i < |s| && s[i] == x
  {
    if s[0] == x then 0 else 1 + IndexOf(s[1..], x)
  }

  /** A list of the needed paths, each once, is the needed list in some order. */
  lemma OrderOf(p: seq<string>, needed: seq<string>) returns (order: seq<nat>)
    requires NoRepeats(needed) && NoRepeats(p) && forall x :: x in p <==> x in needed
    ensures Perm(order, |needed|) && At(needed, order) == p
  {
    hide IndexOf;
    order := seq(|p|, i requires 0 <= i < |p| => (assert p[i] in p; IndexOf(needed, p[i])));
    forall i, j | 0 <= i < j < |order| ensures order[i] != order[j] {
      assert p[i] in p && p[j] in p;
      assert needed[order[i]] == p[i] && needed[order[j]] == p[j];
    }
    forall x: nat | x < |needed| ensures x in order {
      assert needed[x] in p;
      var i :| 0 <= i < |p| && p[i] == needed[x];
      assert needed[order[i]] == needed[x];
      assert order[i] == x;
    }
    PermFrom(order, |needed|);
  }

  lemma InRangeOf(p: seq<nat>, r: seq<nat>, n: nat)
    requires Perm(p, n) && Perm(r, n)
    ensures InRange(p, n) && InRange(r, n)
  {
  }

  lemma YieldsAt(needed: seq<string>, p: seq<nat>, history: seq<string>)
    requires NoRepeats(needed) && Perm(p, |needed|) && forall x :: x in needed <==> x in history
    ensures YieldsAll(At(needed, p), history)
  {
    PermOnce(p, |needed|);
    PositionsOnce(|needed|);
    var all := At(needed, p);
    forall x ensures x in all <==> x in needed {
      if x in needed {
        var i :| 0 <= i < |needed| && needed[i] == x;
        assert i in multiset(Positions(|needed|)) by { assert i in Positions(|needed|); }
        assert i in p;
        var k :| 0 <= k < |p| && p[k] == i;
        assert all[k] == x;
      }
    }
  }

  /** Yields p after the history h, r after k, and insertion order otherwise. */
  function TwoOrders(h: seq<string>, p: seq<string>, k: seq<string>, r: seq<string>): DictOrder {
    (history: seq<string>) => if history == h then p else if history == k then r else Firsts(history)
  }

  lemma TwoOrdersYield(h: seq<string>, p: seq<string>, k: seq<string>, r: seq<string>)
    requires YieldsAll(p, h) && YieldsAll(r, k)
    ensures YieldsKeys(TwoOrders(h, p, k, r))
  {
    hide Firsts, YieldsAll;
    forall history: seq<string> ensures YieldsAll(TwoOrders(h, p, k, r)(history), history) {
      FirstsYield(history);
    }
  }

  lemma FirstsYield(history: seq<string>)
    ensures YieldsAll(Firsts(history), history)
  {
    FirstsThere(history);
  }

  lemma NeededThere(q: Request, v: Dimension)
    ensures History(q, v) != [] && NoRepeats(History(q, v))
  {
    FirstsThere(PathsOf(Needs(q, v)));
    assert PathsOf(Needs(q, v)) != [];
  }

  lemma DifferentHistories(q: Request, v: Dimension, w: Dimension)
    requires v.path != w.path
    ensures History(q, v) != History(q, w)
  {
    FirstComesFirst(PathsOf(Needs(q, v)));
    FirstComesFirst(PathsOf(Needs(q, w)));
  }

  lemma {:induction false} FirstComesFirst<T>(vs: seq<T>)
    requires vs != []
    ensures Firsts(vs)[0] == vs[0]
  {
    if |vs| > 1 {
      FirstComesFirst(vs[..|vs| - 1]);
    } else {
      assert vs[..0] == [];
      assert Firsts(vs[..0]) == [];
    }
  }

  // tables by path

  lemma {:induction false} FitsLookup(frames: Frames, schema: Frames, path: string)
    requires Fits(frames, schema)
    ensures Lookup(frames, path).Some? <==> Lookup(schema, path).Some?
    ensures Lookup(frames, path).Some? ==>
              Lookup(frames, path).value.cols == Lookup(schema, path).value.cols && Formed(Lookup(frames, path).value)
  {
    hide Formed;
    if frames != [] {
      FitsLookup(frames[..|frames| - 1], schema[..|schema| - 1], path);
    }
  }

  lemma FitsFound(frames: Frames, schema: Frames, paths: seq<string>)
    requires Fits(frames, schema)
    ensures AllFound(frames, paths) <==> AllFound(schema, paths)
    ensures AllFound(frames, paths) ==>
              && HasColumns(TablesAt(frames, paths), ColsOf(TablesAt(schema, paths)))
              && ColsOf(TablesAt(frames, paths)) == ColsOf(TablesAt(schema, paths))
  {
    hide Fits, Lookup, Formed;
    forall i | 0 <= i < |paths|
      ensures Lookup(frames, paths[i]).Some? <==> Lookup(schema, paths[i]).Some?
      ensures Lookup(frames, paths[i]).Some? ==>
                Lookup(frames, paths[i]).value.cols == Lookup(schema, paths[i]).value.cols &&
                Formed(Lookup(frames, paths[i]).value)
    {
      FitsLookup(frames, schema, paths[i]);
    }
  }

  lemma FilteredFits(frames: Frames, filters: seq<Filter>, schema: Frames)
    requires Fits(frames, schema) && Filtered(frames, filters).Some?
    ensures Fits(Filtered(frames, filters).value, schema)
  {
    hide Filtered, Formed;
    FilteredLength(frames, filters);
    forall i | 0 <= i < |frames|
      ensures Formed(Filtered(frames, filters).value[i].1)
      ensures Filtered(frames, filters).value[i].0 == frames[i].0
      ensures Filtered(frames, filters).value[i].1.cols == frames[i].1.cols
    {
      FilteredFormed(frames, filters, i);
      FilteredExactly(frames, filters, i, map[]);
    }
  }

  lemma {:induction false} LookupAllIs(frames: Frames, paths: seq<string>)
    ensures LookupAll(frames, paths) == if AllFound(frames, paths) then Some(TablesAt(frames, paths)) else None
  {
    hide Lookup;
    if paths != [] {
      var n := |paths| - 1;
      LookupAllIs(frames, paths[..n]);
      assert forall i :: 0 <= i < n ==> paths[..n][i] == paths[i];
      if AllFound(frames, paths) {
        assert TablesAt(frames, paths) == TablesAt(frames, paths[..n]) + [Lookup(frames, paths[n]).value];
      }
    }
  }

  lemma JoinedAt(frames: Frames, needed: seq<string>, p: seq<nat>)
    requires AllFound(frames, needed) && Perm(p, |needed|) && needed != []
    ensures JoinedTable(frames, At(needed, p)) == Merged(At(TablesAt(frames, needed), p))
  {
    hide Lookup, Merged;
    PermOnce(p, |needed|);
    LookupAllIs(frames, At(needed, p));
    assert TablesAt(frames, At(needed, p)) == At(TablesAt(frames, needed), p);
  }

  lemma NoneJoined(frames: Frames, needed: seq<string>, p: seq<nat>)
    requires !AllFound(frames, needed) && Perm(p, |needed|)
    ensures JoinedTable(frames, At(needed, p)).None?
  {
    hide Lookup, Merged;
    PositionsOnce(|needed|);
    LookupAllIs(frames, At(needed, p));
    var i :| 0 <= i < |needed| && Lookup(frames, needed[i]).None?;
    assert i in multiset(Positions(|needed|)) by { assert i in Positions(|needed|); }
    assert i in p;
    var k :| 0 <= k < |p| && p[k] == i;
    assert At(needed, p)[k] == needed[i];
  }

  /** The schema with these tables at the needed paths and no rows elsewhere. */
  function WithRows(schema: Frames, needed: seq<string>, ts: seq<Table>): Frames
    requires |ts| == |needed|
  {
    seq(|schema|, i requires 0 <= i < |schema| =>
      (schema[i].0, if schema[i].0 in needed then ts[IndexOf(needed, schema[i].0)] else Table(schema[i].1.cols, [])))
  }

  lemma WithRowsFits(schema: Frames, needed: seq<string>, ts: seq<Table>)
    requires DistinctPaths(schema) && NoRepeats(needed) && AllFound(schema, needed)
    requires HasColumns(ts, ColsOf(TablesAt(schema, needed)))
    ensures Fits(WithRows(schema, needed, ts), schema)
    ensures AllFound(WithRows(schema, needed, ts), needed) && TablesAt(WithRows(schema, needed, ts), needed) == ts
  {
    hide Lookup, IndexOf, Formed;
    var frames := WithRows(schema, needed, ts);
    forall i | 0 <= i < |schema|
      ensures Formed(frames[i].1) && frames[i].1.cols == schema[i].1.cols
    {
      LookupAt(schema, i);
      NoRowsFormed(schema[i].1.cols);
      if schema[i].0 in needed {
        assert ts[IndexOf(needed, schema[i].0)].cols == schema[i].1.cols;
      }
    }
    forall k | 0 <= k < |needed| ensures Lookup(frames, needed[k]) == Some(ts[k]) {
      LookupIs(schema, needed[k]);
      var i :| 0 <= i < |schema| && schema[i] == (needed[k], Lookup(schema, needed[k]).value);
      assert needed[k] in needed;
      assert needed[IndexOf(needed, needed[k])] == needed[k];
      assert IndexOf(needed, needed[k]) == k;
      assert forall a, b :: 0 <= a < b < |frames| ==> frames[a].0 != frames[b].0;
      LookupAt(frames, i);
    }
    assert TablesAt(frames, needed) == ts;
  }

  lemma NoRowsFormed(cols: set<string>)
    ensures Formed(Table(cols, []))
  {
  }

  lemma {:induction false} UnfilteredFrames(frames: Frames)
    ensures Filtered(frames, []) == Some(frames)
  {
    hide QueryTable, Basename;
    if frames != [] {
      var n := |frames| - 1;
      UnfilteredFrames(frames[..n]);
      assert Naming([], Basename(frames[n].0)) == [];
      NoQuery(frames[n].1);
      assert frames[..n] + [frames[n]] == frames;
    }
  }

  lemma SameHistory(q: Request, v: Dimension, w: Dimension)
    requires v.path == w.path
    ensures History(q, v) == History(q, w)
  {
    assert PathsOf(Needs(q, v)) == PathsOf(Needs(q, w));
  }

  lemma SameNeeds(q: Request, v: Dimension, w: Dimension)
    requires v in q.values && w in q.values
    ensures forall p :: p in History(q, v) <==> p in History(q, w)
    ensures NoRepeats(History(q, v)) && NoRepeats(History(q, w))
  {
    hide Firsts;
    FirstsThere(PathsOf(Needs(q, v)));
    FirstsThere(PathsOf(Needs(q, w)));
    NeedsOf(q, v);
    NeedsOf(q, w);
  }

  lemma NeedsOf(q: Request, v: Dimension)
    requires v in q.values
    ensures forall p :: p in PathsOf(Needs(q, v)) <==> exists d :: d in q.cols + q.rows + q.values && d.path == p
  {
    var all, ps := Needs(q, v), PathsOf(Needs(q, v));
    assert forall d :: d in all <==> d in q.cols + q.rows + q.values;
    forall p ensures p in ps <==> exists d :: d in all && d.path == p {
      if p in ps {
        var i :| 0 <= i < |ps| && ps[i] == p;
        assert all[i] in all && all[i].path == p;
      }
      if d :| d in all && d.path == p {
        var i :| 0 <= i < |all| && all[i] == d;
        assert ps[i] == p;
      }
    }
  }

  /** The frame a fetched table comes from. */
  lemma FetchedFrom(frames: Frames, filters: seq<Filter>, p: seq<string>, k: nat) returns (i: nat)
    requires Filtered(frames, filters).Some? && LookupAll(Filtered(frames, filters).value, p).Some? && k < |p|
    ensures |LookupAll(Filtered(frames, filters).value, p).value| == |p|
    ensures i < |frames| && i < |Filtered(frames, filters).value| && frames[i].0 == p[k]
    ensures var t := LookupAll(Filtered(frames, filters).value, p).value[k];
            Filtered(frames, filters).value[i].1 == t && t.cols == frames[i].1.cols
  {
    hide Filtered, Lookup, LookupAll;
    var f := Filtered(frames, filters).value;
    LookupAllAt(f, p, k);
    LookupIs(f, p[k]);
    FilteredLength(frames, filters);
    i :| 0 <= i < |f| && f[i] == (p[k], Lookup(f, p[k]).value);
    FilteredExactly(frames, filters, i, map[]);
  }

  // ---------------------------------------------------------------- totals of the chosen tables

  /** The filtered tables a value needs, its own first; none when one is missing. */
  ghost function NeededTables(frames: Frames, q: Request, v: Dimension): seq<Table> {
    match Filtered(frames, q.filters)
    case None => []
    case Some(f) => if AllFound(f, History(q, v)) then TablesAt(f, History(q, v)) else []
  }

  /** The tables value v needs share the columns in key and no others, and v's column is in its own only. */
  ghost predicate StarRequest(frames: Frames, q: Request, v: Dimension, key: set<string>) {
    && v in q.values && AllFormed(frames) && AllFound(frames, History(q, v))
    && key != {} && StarSets(ColsOf(TablesAt(frames, History(q, v))), key)
    && forall i :: 1 <= i < |History(q, v)| ==> v.column !in TablesAt(frames, History(q, v))[i].cols
  }

  lemma OwnTableFirst(q: Request, v: Dimension)
    ensures History(q, v) != [] && History(q, v)[0] == v.path
  {
    FirstComesFirst(PathsOf(Needs(q, v)));
  }

  /** What value v is aggregated over adds up to v's column in v's own filtered table - if and only if no
      row there with a number other than 0 has two partners in another table of the query. */
  lemma QueryTotalExactly(frames: Frames, q: Request, dict: DictOrder, v: Dimension, key: set<string>)
    requires YieldsKeys(dict) && Filtered(frames, q.filters).Some? && StarRequest(frames, q, v, key)
    ensures History(q, v) != [] && History(q, v)[0] == v.path
    ensures NeededTables(frames, q, v) != [] && JoinedFor(frames, q, dict, v).Some?
    ensures var ts := NeededTables(frames, q, v);
            NonNegative(ts[0].rows, v.column) ==>
              (ValueSum(JoinedFor(frames, q, dict, v).value.rows, v.column) == ValueSum(ts[0].rows, v.column) <==>
               NoneRepeated(ts[0].rows, v.column, ts[1..], key))
  {
    hide YieldsKeys, Firsts, Filtered, JoinedTable, Lookup, LookupAll, Merged, At, Perm, ValueSum, NoneRepeated, StarSets,
      Formed, Star;
    var f, needed := Filtered(frames, q.filters).value, History(q, v);
    FilteredFits(frames, q.filters, frames);
    FitsFound(f, frames, needed);
    NeededThere(q, v);
    OwnTableFirst(q, v);
    Yields(dict, needed);
    var p := OrderOf(dict(needed), needed);
    JoinedAt(f, needed, p);
    var ts := TablesAt(f, needed);
    InRangeOf(p, p, |needed|);
    OwnOrder(ts, ColsOf(TablesAt(frames, needed)), p, key);
    if NonNegative(ts[0].rows, v.column) {
      StarTotalExactly(ts, key, v.column);
      ValuePermutes(Merged(At(ts, p)).value.rows, Merged(ts).value.rows, v.column);
    }
  }

  /** A star can be merged as if in the order given. */
  lemma OwnOrder(ts: seq<Table>, css: Columns, p: seq<nat>, key: set<string>)
    requires ts != [] && HasColumns(ts, css) && Perm(p, |css|) && key != {} && StarSets(css, key)
    ensures At(ts, p) != [] && Star(ts, key)
    ensures Merged(At(ts, p)).Some? && Merged(ts).Some?
    ensures multiset(Merged(At(ts, p)).value.rows) == multiset(Merged(ts).value.rows)
  {
    hide Merged, StarSets, Star, Formed;
    var same := Positions(|css|);
    PermOnce(p, |css|);
    StarAt(ts, css, p, key);
    assert Perm(same, |css|);
    StarAt(ts, css, same, key);
    AtPositions(ts);
    AtPermutes(ts, p, same);
    MergeOrderIrrelevant(At(ts, p), ts, key);
  }

  /** So under every displayed value the user sees the total of the table it was chosen from if and only
      if the query repeats none of that table's rows. */
  lemma ShownTotalExactly(frames: Frames, q: Request, dict: DictOrder, order: Order<Key>,
                          columns: seq<(Label, map<Key, int>)>, j: nat, key: set<string>)
    requires Enumerates(order) && YieldsKeys(dict) && j < |Firsts(q.values)|
    requires Filtered(frames, q.filters).Some? && StarRequest(frames, q, Firsts(q.values)[j], key)
    requires SameCompleteRows(frames, q, dict)
    ensures NeededTables(frames, q, Firsts(q.values)[j]) != []
    ensures var v := Firsts(q.values)[j];
            var dfs := FramesFor(frames, q, dict, order, Firsts(q.values)); var ts := NeededTables(frames, q, v);
            SameWidth(dfs) &&
            (Interleaved(columns, NamesOf(Firsts(q.values)), dfs) && NonNegative(ts[0].rows, v.column) ==>
              (StripeTotal(dfs[0].index, columns, |dfs[0].columns|, |dfs|, j) == ValueSum(ts[0].rows, v.column) <==>
               NoneRepeated(ts[0].rows, v.column, ts[1..], key)))
  {
    hide Enumerates, YieldsKeys, Firsts, Filtered, StarRequest, SameCompleteRows, JoinedFor, Interleaved, NonNegative,
      NoneRepeated, StripeTotal, ValueSum, FramesFor, FrameFor, NeededTables, LabelledBy, AllFound, History;
    QueryConserves(frames, q, dict, order, columns, j);
    QueryTotalExactly(frames, q, dict, Firsts(q.values)[j], key);
  }

  // ---------------------------------------------------------------- nothing lost, nothing invented

  ghost predicate DistinctPaths(frames: Frames) {
    forall i, j :: 0 <= i < j < |frames| ==> frames[i].0 != frames[j].0
  }

  lemma {:induction false} LookupAt(frames: Frames, i: nat)
    requires i < |frames| && DistinctPaths(frames)
    ensures Lookup(frames, frames[i].0) == Some(frames[i].1)
  {
    if i < |frames| - 1 {
      assert frames[i].0 != frames[|frames| - 1].0;
      LookupAt(frames[..|frames| - 1], i);
    }
  }

  lemma {:induction false} LookupIs(frames: Frames, path: string)
    requires Lookup(frames, path).Some?
    ensures exists i :: 0 <= i < |frames| && frames[i] == (path, Lookup(frames, path).value)
  {
    var n := |frames| - 1;
    if frames[n].0 != path {
      LookupIs(frames[..n], path);
      var i :| 0 <= i < n && frames[..n][i] == (path, Lookup(frames, path).value);
      assert frames[i] == frames[..n][i];
    } else {
      assert frames[n] == (path, Lookup(frames, path).value);
    }
  }

  lemma {:induction false} LookupAllAt(frames: Frames, paths: seq<string>, k: nat)
    requires k < |paths| && LookupAll(frames, paths).Some?
    ensures |LookupAll(frames, paths).value| == |paths|
    ensures Lookup(frames, paths[k]) == Some(LookupAll(frames, paths).value[k])
  {
    hide Lookup;
    var n := |paths| - 1;
    if n > 0 {
      LookupAllAt(frames, paths[..n], if k < n then k else 0);
    }
  }

  /** Whatever is pivoted, no data of the chosen tables is lost before: every row that meets all
      filters naming its table is, whole, part of one of the rows every value is aggregated over. */
  lemma QueryLosesNothing(frames: Frames, q: Request, dict: DictOrder, v: Dimension, i: nat, r: Row) returns (m: Row)
    requires YieldsKeys(dict) && DistinctPaths(frames) && AllFormed(frames)
    requires QueryRows(frames, q, dict, v).Some?
    requires i < |frames| && frames[i].0 in History(q, v)
    requires r in frames[i].1.rows && MeetsAll(r, q.filters, Basename(frames[i].0))
    ensures m in QueryRows(frames, q, dict, v).value && Carries(m, r, frames[i].1.cols)
  {
    hide Filtered, Lookup, LookupAll, Merged, MeetsAll, Formed, Carries, YieldsKeys, Firsts, NamesKnown;
    var f := Filtered(frames, q.filters).value;
    var paths := dict(History(q, v));
    Yields(dict, History(q, v));
    var ts := LookupAll(f, paths).value;
    FilteredExactly(frames, q.filters, i, r);
    assert r in multiset(frames[i].1.rows);
    assert r in multiset(f[i].1.rows);
    SamePaths(frames, q.filters);
    LookupAt(f, i);
    var k :| 0 <= k < |paths| && paths[k] == frames[i].0;
    LookupAllAt(f, paths, k);
    FetchedFormed(frames, q.filters, paths);
    m := MergeLosesNothing(ts, k, r);
  }

  /** The column is one of some needed table. */
  ghost predicate ColumnNeeded(frames: Frames, paths: seq<string>, c: string) {
    exists i :: 0 <= i < |frames| && frames[i].0 in paths && c in frames[i].1.cols
  }

  /** Once the needed tables are joined, the round of a value raises exactly when nothing is grouped by,
      or a chosen name is a column of none of those tables. */
  lemma RoundExactly(frames: Frames, q: Request, dict: DictOrder, v: Dimension)
    requires YieldsKeys(dict) && DistinctPaths(frames) && AllFormed(frames)
    requires JoinedFor(frames, q, dict, v).Some?
    ensures QueryRows(frames, q, dict, v).Some? <==>
            && (q.rows != [] || q.cols != [])
            && (forall d :: d in q.rows || d in q.cols || d == v ==>
                  ColumnNeeded(frames, History(q, v), d.column))
  {
    hide Filtered, JoinedFor, YieldsKeys, Firsts, ColumnNeeded, DistinctPaths, AllFormed;
    var t := JoinedFor(frames, q, dict, v).value;
    forall c ensures c in t.cols <==> ColumnNeeded(frames, History(q, v), c) {
      JoinedColumns(frames, q, dict, v, c);
    }
  }

  lemma JoinedColumns(frames: Frames, q: Request, dict: DictOrder, v: Dimension, c: string)
    requires YieldsKeys(dict) && DistinctPaths(frames) && AllFormed(frames)
    requires JoinedFor(frames, q, dict, v).Some?
    ensures c in JoinedFor(frames, q, dict, v).value.cols <==> ColumnNeeded(frames, History(q, v), c)
  {
    hide Filtered, Lookup, LookupAll, Merged, Formed, AllFormed, AllCols, YieldsKeys, Firsts, DistinctPaths, Basename, MeetsAll;
    var f, paths := Filtered(frames, q.filters).value, dict(History(q, v));
    Yields(dict, History(q, v));
    SamePaths(frames, q.filters);
    FetchedFormed(frames, q.filters, paths);
    var ts := LookupAll(f, paths).value;
    MergedShape(ts);
    ColsFrom(ts, c);
    forall i | 0 <= i < |frames| ensures f[i].0 == frames[i].0 && f[i].1.cols == frames[i].1.cols {
      FilteredExactly(frames, q.filters, i, map[]);
    }
    if k :| 0 <= k < |ts| && c in ts[k].cols {
      LookupAllAt(f, paths, k);
      LookupIs(f, paths[k]);
      var i :| 0 <= i < |f| && f[i] == (paths[k], Lookup(f, paths[k]).value);
      assert frames[i].0 in paths && c in frames[i].1.cols;
    }
    if i :| 0 <= i < |frames| && frames[i].0 in History(q, v) && c in frames[i].1.cols {
      var k :| 0 <= k < |paths| && paths[k] == frames[i].0;
      LookupAt(f, i);
      LookupAllAt(f, paths, k);
      assert c in ts[k].cols;
    }
  }

  lemma SamePaths(frames: Frames, filters: seq<Filter>)
    requires Filtered(frames, filters).Some? && DistinctPaths(frames)
    ensures |Filtered(frames, filters).value| == |frames| && DistinctPaths(Filtered(frames, filters).value)
  {
    hide Filtered;
    FilteredLength(frames, filters);
    forall i | 0 <= i < |frames| ensures Filtered(frames, filters).value[i].0 == frames[i].0 {
      FilteredExactly(frames, filters, i, map[]);
    }
  }

  lemma FetchedFormed(frames: Frames, filters: seq<Filter>, paths: seq<string>)
    requires Filtered(frames, filters).Some? && AllFormed(frames)
    requires LookupAll(Filtered(frames, filters).value, paths).Some?
    ensures var ts := LookupAll(Filtered(frames, filters).value, paths).value;
            forall k :: 0 <= k < |ts| && k < |paths| ==> Formed(ts[k])
    ensures |LookupAll(Filtered(frames, filters).value, paths).value| == |paths|
  {
    hide Filtered, Lookup, LookupAll, Formed;
    var f := Filtered(frames, filters).value;
    FilteredLength(frames, filters);
    if paths == [] {
      NoneFetched(f);
    }
    forall k | 0 <= k < |paths|
      ensures |LookupAll(f, paths).value| == |paths| && Formed(LookupAll(f, paths).value[k])
    {
      LookupAllAt(f, paths, k);
      LookupIs(f, paths[k]);
      var i :| 0 <= i < |f| && f[i] == (paths[k], Lookup(f, paths[k]).value);
      FilteredFormed(frames, filters, i);
    }
    if paths != [] {
      LookupAllAt(f, paths, 0);
    }
  }

  lemma NoneFetched(frames: Frames)
    ensures LookupAll(frames, []) == Some([])
  {
  }

  /** Nor is anything invented: every value of an aggregated row comes from a row, all of which is in
      it, of a table the query names, and that row meets all filters naming its table. */
  lemma QueryInventsNothing(frames: Frames, q: Request, dict: DictOrder, v: Dimension, m: Row, c: string)
    returns (i: nat, r: Row)
    requires YieldsKeys(dict) && AllFormed(frames)
    requires QueryRows(frames, q, dict, v).Some?
    requires m in QueryRows(frames, q, dict, v).value && c in m
    ensures i < |frames| && frames[i].0 in History(q, v)
    ensures r in frames[i].1.rows && MeetsAll(r, q.filters, Basename(frames[i].0))
    ensures c in r && Within(r, m)
  {
    hide Filtered, Lookup, LookupAll, Merged, MeetsAll, Formed, Within, YieldsKeys, Firsts, NamesKnown;
    var f := Filtered(frames, q.filters).value;
    var paths := dict(History(q, v));
    Yields(dict, History(q, v));
    var ts := LookupAll(f, paths).value;
    FetchedFormed(frames, q.filters, paths);
    MergeInventsNothing(ts, m, c);
    var k;
    k, r :| 0 <= k < |ts| && r in ts[k].rows && c in r && Within(r, m);
    i := FetchedFrom(frames, q.filters, paths, k);
    FilteredExactly(frames, q.filters, i, r);
    assert r in multiset(f[i].1.rows);
    assert r in multiset(frames[i].1.rows);
    assert paths[k] in paths;
  }
}
