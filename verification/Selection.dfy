/** The dimension selectors of cp/__main__.py and cp/gui/pivot_combo_box.py, on values:
    what one user action does to all selectors, and what every run of actions keeps. */
module Selection {
  import opened Options

  datatype Role = C_COLUMN | C_ROW | C_DISPLAYED

  /** Item data: the file and the column it stands for. */
  datatype Item = Item(path: string, column: string)

  /** A selector. Item 0 is the empty choice and carries no data. `disabledRows` is the list the program
      keeps, `greyed` the item flags Qt goes by; previousIndex is set by a mouse press only. */
  datatype Combo = Combo(
    role: Role, level: nat, items: seq<Option<Item>>, current: nat,
    disabledRows: seq<nat>, greyed: set<nat>, enabled: bool, previousIndex: Option<nat>)

  // ---------------------------------------------------------------- one selector

  function RemoveFirst(s: seq<nat>, x: nat): seq<nat> {
    if s == [] then [] else if s[0] == x then s[1..] else [s[0]] + RemoveFirst(s[1..], x)
  }

  function EnableItem(c: Combo, row: Option<nat>): Combo {
    if row.None? || row.value !in c.disabledRows then c
    else c.(greyed := c.greyed - {row.value}, disabledRows := RemoveFirst(c.disabledRows, row.value))
  }

  function DisableItem(c: Combo, row: nat): Combo {
    c.(greyed := c.greyed + {row}, disabledRows := c.disabledRows + [row])
  }

  function EnableUpTo(c: Combo, n: nat): Combo {
    if n == 0 then c else EnableItem(EnableUpTo(c, n - 1), Some(n - 1))
  }

  function EnableAllItems(c: Combo): Combo {
    EnableUpTo(c, |c.items|)
  }

  // ---------------------------------------------------------------- the window

  /** All selectors: three for columns, three for rows, then the value selectors. */
  type Window = seq<Combo>

  const FIXED := 6

  /** What propagateComboBoxChange does to one other selector. */
  function Propagate(c: Combo, source: Combo, index: nat): Combo {
    var c1 := EnableItem(c, source.previousIndex);
    var c2 := if index != 0 then DisableItem(c1, index) else c1;
    var next := c.role == source.role && c.level == source.level + 1;
    if index == 0 && next then c2.(enabled := false)
    else if index != 0 && source.previousIndex == Some(0) && next then c2.(enabled := true)
    else c2
  }

  function PropagateAll(w: Window, src: nat, index: nat): Window
    requires src < |w|
  {
    seq(|w|, i requires 0 <= i < |w| => if i == src then w[i] else Propagate(w[i], w[src], index))
  }

  /** The value selector created next to `source`: same items, what is disabled there, and its choice. */
  function NewCombo(source: Combo, index: nat): Combo {
    Combo(source.role, source.level + 1, source.items, 0, source.disabledRows + [index],
          (set x | x in source.disabledRows) + {index}, true, None)
  }

  function KeepUpTo(cs: seq<Combo>, level: nat): seq<Combo> {
    if cs == [] then []
    else KeepUpTo(cs[..|cs| - 1], level) + if cs[|cs| - 1].level > level then [] else [cs[|cs| - 1]]
  }

  /** The window without the value selectors deeper than a level. */
  function Kept(w: Window, level: nat): Window
    requires FIXED <= |w|
  {
    w[..FIXED] + KeepUpTo(w[FIXED..], level)
  }

  /** _onDisplayedValueComboActivated */
  function ValueActivated(w: Window, src: nat, index: nat): Window
    requires FIXED <= src < |w|
  {
    if index == 0 then Kept(w, w[src].level)
    else if w[src].previousIndex == Some(0) then w + [NewCombo(w[src], index)]
    else w
  }

  /** Item `index` of selector src becomes current and `activated` is emitted. */
  function Activate(w: Window, src: nat, index: nat): Window
    requires src < |w|
  {
    var w1 := w[src := w[src].(current := index)];
    var w2 := PropagateAll(w1, src, index);
    if FIXED <= src then ValueActivated(w2, src, index) else w2
  }

  function Press(w: Window, src: nat): Window
    requires src < |w|
  {
    w[src := w[src].(previousIndex := Some(w[src].current))]
  }

  function ClearCombo(c: Combo): Combo {
    EnableAllItems(c.(current := 0)).(enabled := c.level <= 1)
  }

  function ClearAll(w: Window): Window {
    seq(|w|, i requires 0 <= i < |w| => ClearCombo(w[i]))
  }

  // ---------------------------------------------------------------- the invariant

  function Rows(s: seq<nat>): set<nat> {
    set x | x in s
  }

  ghost predicate NoDuplicates(s: seq<nat>) {
    forall i, j :: 0 <= i < j < |s| ==> s[i] != s[j]
  }

  /** The list agrees with the flags and names rows of the selector, each once. */
  ghost predicate Tidy(c: Combo) {
    && NoDuplicates(c.disabledRows)
    && c.greyed == Rows(c.disabledRows)
    && c.current < |c.items|
    && forall x :: x in c.greyed ==> x < |c.items|
  }

  /** There is one set of taken items, and every selector has disabled all of it but its own choice. */
  ghost predicate Exclusive(w: Window, items: seq<Option<Item>>, taken: set<nat>) {
    && FIXED < |w|
    && 0 !in taken
    && (forall i :: 0 <= i < |w| ==>
          Tidy(w[i]) && w[i].items == items && w[i].greyed == taken - {w[i].current} &&
          (w[i].current == 0 || w[i].current in taken))
    && (forall i, j :: 0 <= i < j < |w| && w[i].current != 0 ==> w[i].current != w[j].current)
  }

  lemma {:induction false} RemoveFirstRows(s: seq<nat>, x: nat)
    requires NoDuplicates(s)
    ensures NoDuplicates(RemoveFirst(s, x)) && Rows(RemoveFirst(s, x)) == Rows(s) - {x}
  {
    if s != [] {
      assert s == [s[0]] + s[1..];
      assert s[0] !in s[1..];
      assert NoDuplicates(s[1..]) by {
        forall i, j | 0 <= i < j < |s| - 1 ensures s[1..][i] != s[1..][j] {
          assert s[i + 1] != s[j + 1];
        }
      }
      if s[0] != x {
        var r := RemoveFirst(s[1..], x);
        RemoveFirstRows(s[1..], x);
        forall k | 0 <= k < |r| ensures r[k] != s[0] {
          assert r[k] in Rows(r);
        }
        assert Rows(s) == {s[0]} + Rows(s[1..]);
        assert Rows([s[0]] + r) == {s[0]} + Rows(r);
      } else {
        assert Rows(s) == {x} + Rows(s[1..]);
        assert x !in Rows(s[1..]);
      }
    }
  }

  lemma EnableTidy(c: Combo, row: Option<nat>)
    requires Tidy(c)
    ensures var d := EnableItem(c, row);
            Tidy(d) && d.greyed == (if row.Some? then c.greyed - {row.value} else c.greyed) &&
            d == c.(greyed := d.greyed, disabledRows := d.disabledRows)
  {
    if row.Some? && row.value in c.disabledRows {
      RemoveFirstRows(c.disabledRows, row.value);
    } else if row.Some? {
      assert row.value !in Rows(c.disabledRows);
    }
  }

  lemma SomeRow(s: seq<nat>)
    requires s != []
    ensures Rows(s) != {}
  {
    assert s[0] in Rows(s);
  }

  lemma DisableTidy(c: Combo, row: nat)
    requires Tidy(c) && row !in c.greyed && row < |c.items|
    ensures var d := DisableItem(c, row);
            Tidy(d) && d.greyed == c.greyed + {row} && d == c.(greyed := d.greyed, disabledRows := d.disabledRows)
  {
  }

  lemma {:induction false} EnableUpToTidy(c: Combo, n: nat)
    requires Tidy(c)
    ensures var d := EnableUpTo(c, n);
            Tidy(d) && d.greyed == (set x | x in c.greyed && x >= n) &&
            d == c.(greyed := d.greyed, disabledRows := d.disabledRows)
  {
    if n > 0 {
      EnableUpToTidy(c, n - 1);
      EnableTidy(EnableUpTo(c, n - 1), Some(n - 1));
    }
  }

  lemma ClearTidy(c: Combo)
    requires Tidy(c)
    ensures var d := ClearCombo(c);
            Tidy(d) && d.greyed == {} && d.current == 0 && d.items == c.items && d.disabledRows == [] &&
            d.role == c.role && d.level == c.level
  {
    var c0 := c.(current := 0);
    assert Tidy(c0);
    EnableUpToTidy(c0, |c.items|);
    var d := EnableUpTo(c0, |c.items|);
    if d.disabledRows != [] {
      SomeRow(d.disabledRows);
    }
  }

  // ---------------------------------------------------------------- what one action keeps

  /** The user can activate the items of a selector that are not greyed out. */
  predicate Offered(w: Window, src: nat, index: nat) {
    src < |w| && index < |w[src].items| && index !in w[src].greyed
  }

  function TakenAfter(w: Window, src: nat, index: nat, taken: set<nat>): set<nat>
    requires src < |w|
  {
    taken - {w[src].current} + (if index == 0 then {} else {index})
  }

  lemma PropagateOne(c: Combo, source: Combo, index: nat)
    requires Tidy(c) && index < |c.items|
    requires index != 0 ==> index !in c.greyed || source.previousIndex == Some(index)
    ensures var d := Propagate(c, source, index);
            && Tidy(d) && d.items == c.items && d.current == c.current && d.previousIndex == c.previousIndex
            && d.role == c.role && d.level == c.level
            && d.greyed == c.greyed - (if source.previousIndex.Some? then {source.previousIndex.value} else {})
                           + (if index == 0 then {} else {index})
  {
    var c1 := EnableItem(c, source.previousIndex);
    EnableTidy(c, source.previousIndex);
    hide Tidy, EnableItem, DisableItem;
    if index != 0 {
      DisableTidy(c1, index);
    }
    ReEnabled(if index != 0 then DisableItem(c1, index) else c1);
  }

  lemma ReEnabled(c: Combo)
    requires Tidy(c)
    ensures forall e :: Tidy(c.(enabled := e))
  {
  }

  /** The windows before and after an activation, without creation or removal of selectors. */
  lemma PropagateExclusive(w: Window, src: nat, index: nat, items: seq<Option<Item>>, taken: set<nat>)
    requires Exclusive(w, items, taken) && Offered(w, src, index)
    requires w[src].previousIndex == Some(w[src].current)
    ensures var w1 := w[src := w[src].(current := index)];
            Exclusive(PropagateAll(w1, src, index), items, TakenAfter(w, src, index, taken))
  {
    var w1 := w[src := w[src].(current := index)];
    var w2 := PropagateAll(w1, src, index);
    var taken' := TakenAfter(w, src, index, taken);
    forall i | 0 <= i < |w2|
      ensures Tidy(w2[i]) && w2[i].items == items && w2[i].greyed == taken' - {w2[i].current}
      ensures w2[i].current == 0 || w2[i].current in taken'
      ensures w2[i].current == if i == src then index else w[i].current
    {
      if i != src {
        Distinct(w, i, src, items, taken);
        PropagateOne(w[i], w1[src], index);
      }
    }
    hide Tidy, Propagate, PropagateAll;
    forall i, j | 0 <= i < j < |w2| && w2[i].current != 0 ensures w2[i].current != w2[j].current {
      Distinct(w, i, j, items, taken);
    }
  }

  lemma Distinct(w: Window, i: nat, j: nat, items: seq<Option<Item>>, taken: set<nat>)
    requires Exclusive(w, items, taken) && i < |w| && j < |w| && i != j
    ensures w[i].current != 0 ==> w[i].current != w[j].current && w[i].current in w[j].greyed
    ensures w[j].current != 0 ==> w[i].current != w[j].current && w[j].current in w[i].greyed
  {
    var a, b := if i < j then i else j, if i < j then j else i;
    assert w[a].current != 0 ==> w[a].current != w[b].current;
  }

  /** Positions of the selectors KeepUpTo keeps. */
  function KeptPositions(cs: seq<Combo>, level: nat): (m: seq<nat>)
    ensures forall k :: 0 <= k < |m| ==> m[k] < |cs|
    ensures forall k, l :: 0 <= k < l < |m| ==> m[k] < m[l]
  {
    if cs == [] then []
    else
      var n := |cs| - 1;
      KeptPositions(cs[..n], level) + if cs[n].level > level then [] else [n]
  }

  lemma {:induction false} KeepUpToFrom(cs: seq<Combo>, level: nat)
    ensures var m, kept := KeptPositions(cs, level), KeepUpTo(cs, level);
            |m| == |kept| && forall k :: 0 <= k < |m| ==> kept[k] == cs[m[k]] && cs[m[k]].level <= level
  {
    if cs != [] {
      KeepUpToFrom(cs[..|cs| - 1], level);
    }
  }

  lemma {:induction false} KeepsAll(cs: seq<Combo>, level: nat, k: nat)
    requires k < |cs| && cs[k].level <= level
    ensures k in KeptPositions(cs, level)
  {
    if k < |cs| - 1 {
      KeepsAll(cs[..|cs| - 1], level, k);
    }
  }

  /** Positions, in the whole window, of the selectors Kept keeps. */
  function KeptMap(w: Window, level: nat): (f: seq<nat>)
    requires FIXED <= |w|
    ensures |f| >= FIXED && forall k :: 0 <= k < FIXED ==> f[k] == k
    ensures forall k :: 0 <= k < |f| ==> f[k] < |w|
    ensures forall k, l :: 0 <= k < l < |f| ==> f[k] < f[l]
  {
    var m := KeptPositions(w[FIXED..], level);
    seq(FIXED + |m|, k requires 0 <= k < FIXED + |m| => if k < FIXED then k else FIXED + m[k - FIXED])
  }

  lemma KeptMapValues(w: Window, level: nat)
    requires FIXED <= |w|
    ensures |Kept(w, level)| == |KeptMap(w, level)|
    ensures forall k :: 0 <= k < |KeptMap(w, level)| ==>
              var i := KeptMap(w, level)[k];
              Kept(w, level)[k] == w[i] && (i < FIXED || w[i].level <= level)
  {
    KeepUpToFrom(w[FIXED..], level);
    hide KeepUpTo, KeptPositions;
  }

  lemma KeptMapAll(w: Window, level: nat, i: nat)
    requires FIXED <= |w| && i < |w| && (i < FIXED || w[i].level <= level)
    ensures i in KeptMap(w, level)
  {
    var f := KeptMap(w, level);
    if i < FIXED {
      assert f[i] == i;
    } else {
      KeepsAll(w[FIXED..], level, i - FIXED);
      hide KeptPositions;
      var m := KeptPositions(w[FIXED..], level);
      var k :| 0 <= k < |m| && m[k] == i - FIXED;
      assert f[FIXED + k] == i;
    }
  }

  /** Which selectors stay, in terms of the window before. */
  lemma KeptIndices(w: Window, level: nat) returns (f: seq<nat>)
    requires FIXED <= |w|
    ensures |f| == |Kept(w, level)|
    ensures forall k :: 0 <= k < |f| ==>
              f[k] < |w| && Kept(w, level)[k] == w[f[k]] && (f[k] < FIXED || w[f[k]].level <= level)
    ensures |f| >= FIXED && forall k :: 0 <= k < FIXED ==> f[k] == k
    ensures forall k, l :: 0 <= k < l < |f| ==> f[k] < f[l]
    ensures forall i :: 0 <= i < |w| && (i < FIXED || w[i].level <= level) ==> i in f
  {
    hide KeptMap, Kept;
    f := KeptMap(w, level);
    KeptMapValues(w, level);
    forall i | 0 <= i < |w| && (i < FIXED || w[i].level <= level) ensures i in f {
      KeptMapAll(w, level, i);
    }
  }

  /** Removing value selectors keeps the invariant with the same taken set: what they held stays taken. */
  lemma RemovalExclusive(w: Window, level: nat, items: seq<Option<Item>>, taken: set<nat>)
    requires Exclusive(w, items, taken) && exists i :: FIXED <= i < |w| && w[i].level <= level
    ensures Exclusive(Kept(w, level), items, taken)
  {
    var f := KeptIndices(w, level);
    var i :| FIXED <= i < |w| && w[i].level <= level;
    var k :| 0 <= k < |f| && f[k] == i;
    hide Exclusive, Kept;
    SubsetExclusive(w, Kept(w, level), f, items, taken);
  }

  lemma SubsetExclusive(w: Window, w': Window, f: seq<nat>, items: seq<Option<Item>>, taken: set<nat>)
    requires Exclusive(w, items, taken) && |f| == |w'| > FIXED
    requires forall k :: 0 <= k < |f| ==> f[k] < |w| && w'[k] == w[f[k]]
    requires forall k, l :: 0 <= k < l < |f| ==> f[k] < f[l]
    ensures Exclusive(w', items, taken)
  {
    hide Tidy;
    forall k, l | 0 <= k < l < |w'| && w'[k].current != 0 ensures w'[k].current != w'[l].current {
      Distinct(w, f[k], f[l], items, taken);
    }
  }

  lemma CreationExclusive(w: Window, src: nat, items: seq<Option<Item>>, taken: set<nat>)
    requires Exclusive(w, items, taken) && src < |w| && w[src].current != 0
    ensures Exclusive(w + [NewCombo(w[src], w[src].current)], items, taken)
  {
    var c := w[src];
    var d := NewCombo(c, c.current);
    var w' := w + [d];
    assert Tidy(c) && c.current !in c.greyed;
    assert Rows(d.disabledRows) == Rows(c.disabledRows) + {c.current} by {
      assert forall x :: x in d.disabledRows <==> x in c.disabledRows || x == c.current;
    }
    assert Tidy(d);
    hide Tidy, Rows;
    forall i | 0 <= i < |w'|
      ensures Tidy(w'[i]) && w'[i].items == items && w'[i].greyed == taken - {w'[i].current}
      ensures w'[i].current == 0 || w'[i].current in taken
    {
      if i < |w| { assert w'[i] == w[i]; }
    }
  }

  lemma ActivateExclusive(w: Window, src: nat, index: nat, items: seq<Option<Item>>, taken: set<nat>)
    requires Exclusive(w, items, taken) && Offered(w, src, index)
    requires w[src].previousIndex == Some(w[src].current)
    ensures Exclusive(Activate(w, src, index), items, TakenAfter(w, src, index, taken))
  {
    hide Exclusive, PropagateAll;
    PropagateExclusive(w, src, index, items, taken);
    var w2 := PropagateAll(w[src := w[src].(current := index)], src, index);
    var taken' := TakenAfter(w, src, index, taken);
    PropagateSource(w, src, index);
    if FIXED <= src && index == 0 {
      RemovalExclusive(w2, w2[src].level, items, taken');
    } else if FIXED <= src && w2[src].previousIndex == Some(0) {
      CreationExclusive(w2, src, items, taken');
    }
  }

  lemma PropagateSource(w: Window, src: nat, index: nat)
    requires src < |w|
    ensures var w2 := PropagateAll(w[src := w[src].(current := index)], src, index);
            |w2| == |w| && w2[src] == w[src].(current := index)
  {
  }

  // ---------------------------------------------------------------- whole runs

  datatype Action = Pick(src: nat, index: nat) | Clear

  /** A mouse pick: press, then activate. */
  function Act(w: Window, a: Action): Window
    requires a.Pick? ==> a.src < |w|
  {
    match a
    case Pick(src, index) => Activate(Press(w, src), src, index)
    case Clear => ClearAll(w)
  }

  function Start(levels: seq<(Role, nat)>, items: seq<Option<Item>>): Window {
    seq(|levels|, i requires 0 <= i < |levels| =>
      Combo(levels[i].0, levels[i].1, items, 0, [], {}, levels[i].1 <= 1, None))
  }

  const INITIAL: seq<(Role, nat)> :=
    [(C_COLUMN, 1), (C_COLUMN, 2), (C_COLUMN, 3), (C_ROW, 1), (C_ROW, 2), (C_ROW, 3), (C_DISPLAYED, 0)]

  predicate Accepted(w: Window, a: Action) {
    a.Pick? ==> Offered(w, a.src, a.index)
  }

  /** The window after a run that starts with all files loaded; None when some pick was not of an
      item offered at that time. */
  function Run(actions: seq<Action>, items: seq<Option<Item>>): Option<Window> {
    if actions == [] then Some(Start(INITIAL, items))
    else
      var a := actions[|actions| - 1];
      match Run(actions[..|actions| - 1], items)
      case None => None
      case Some(w) => if Accepted(w, a) then Some(Act(w, a)) else None
  }

  /** Choices held by the value selectors this action removes. */
  function Dropped(w: Window, a: Action): set<nat>
    requires a.Pick? ==> a.src < |w|
  {
    if a.Pick? && FIXED <= a.src && a.index == 0 then DeeperChoices(w, w[a.src].level) else {}
  }

  /** Items that went away with their selectors since the last clear. */
  function Lost(actions: seq<Action>, items: seq<Option<Item>>): set<nat> {
    if actions == [] then {}
    else
      var a := actions[|actions| - 1];
      match Run(actions[..|actions| - 1], items)
      case None => {}
      case Some(w) =>
        if a.Clear? || !Accepted(w, a) then {} else Lost(actions[..|actions| - 1], items) + Dropped(w, a)
  }

  function Choices(w: Window): set<nat> {
    set i | 0 <= i < |w| && w[i].current != 0 :: w[i].current
  }

  lemma StartExclusive(items: seq<Option<Item>>)
    requires items != []
    ensures Exclusive(Start(INITIAL, items), items, {})
  {
    assert |INITIAL| == 7;
  }

  lemma PressExclusive(w: Window, src: nat, items: seq<Option<Item>>, taken: set<nat>)
    requires Exclusive(w, items, taken) && src < |w|
    ensures Exclusive(Press(w, src), items, taken)
  {
    var w' := Press(w, src);
    forall i | 0 <= i < |w| ensures Tidy(w'[i]) <==> Tidy(w[i]) {}
    hide Tidy;
    forall i, j | 0 <= i < j < |w'| && w'[i].current != 0 ensures w'[i].current != w'[j].current {
      Distinct(w, i, j, items, taken);
    }
  }

  lemma ClearExclusive(w: Window, items: seq<Option<Item>>, taken: set<nat>)
    requires Exclusive(w, items, taken)
    ensures Exclusive(ClearAll(w), items, {})
  {
    forall i | 0 <= i < |w|
      ensures Tidy(ClearCombo(w[i])) && ClearCombo(w[i]).greyed == {} && ClearCombo(w[i]).current == 0 &&
              ClearCombo(w[i]).items == items
    {
      ClearTidy(w[i]);
    }
  }

  lemma PropagateChoices(w: Window, src: nat, index: nat, items: seq<Option<Item>>, taken: set<nat>)
    requires Exclusive(w, items, taken) && src < |w|
    ensures Choices(PropagateAll(w[src := w[src].(current := index)], src, index)) ==
            Choices(w) - {w[src].current} + (if index == 0 then {} else {index})
  {
    var w1 := w[src := w[src].(current := index)];
    var w2 := PropagateAll(w1, src, index);
    forall i | 0 <= i < |w| ensures w2[i].current == if i == src then index else w[i].current {
      SameCurrent(w1[i], w1[src], index);
    }
    hide PropagateAll, Tidy;
    forall i | 0 <= i < |w| && i != src ensures w[i].current != 0 ==> w[i].current != w[src].current {
      Distinct(w, i, src, items, taken);
    }
    assert w2[src].current == index;
    forall x | x in Choices(w2)
      ensures x in Choices(w) - {w[src].current} + (if index == 0 then {} else {index})
    {
      var i :| 0 <= i < |w2| && w2[i].current == x && x != 0;
    }
    forall x | x in Choices(w) - {w[src].current} ensures x in Choices(w2) {
      var i :| 0 <= i < |w| && w[i].current == x && x != 0;
      assert w2[i].current == x;
    }
  }

  lemma SameCurrent(c: Combo, source: Combo, index: nat)
    ensures Propagate(c, source, index).current == c.current
    ensures Propagate(c, source, index).level == c.level
    ensures Propagate(c, source, index).previousIndex == c.previousIndex
    ensures Propagate(c, source, index).items == c.items
  {
  }

  /** The choices of the value selectors deeper than a level. */
  function DeeperChoices(w: Window, level: nat): set<nat> {
    set i | FIXED <= i < |w| && w[i].level > level && w[i].current != 0 :: w[i].current
  }

  lemma KeptChoices(w: Window, w': Window, f: seq<nat>, level: nat, items: seq<Option<Item>>, taken: set<nat>)
    requires Exclusive(w, items, taken) && |f| == |w'|
    requires forall k :: 0 <= k < |f| ==>
               f[k] < |w| && w'[k] == w[f[k]] && (f[k] < FIXED || w[f[k]].level <= level)
    ensures Choices(w') <= Choices(w) - DeeperChoices(w, level)
  {
    hide Tidy;
    forall k | 0 <= k < |w'| && w'[k].current != 0 ensures w'[k].current in Choices(w) - DeeperChoices(w, level) {
      assert w'[k] == w[f[k]];
      forall i | FIXED <= i < |w| && w[i].level > level && w[i].current != 0 ensures w[i].current != w[f[k]].current {
        Distinct(w, i, f[k], items, taken);
      }
    }
  }

  lemma NoChoiceMissing(w: Window, w': Window, f: seq<nat>, level: nat)
    requires |f| == |w'|
    requires forall k :: 0 <= k < |f| ==> f[k] < |w| && w'[k] == w[f[k]]
    requires forall i :: 0 <= i < |w| && (i < FIXED || w[i].level <= level) ==> i in f
    ensures Choices(w) - DeeperChoices(w, level) <= Choices(w')
  {
    forall x | x in Choices(w) - DeeperChoices(w, level) ensures x in Choices(w') {
      var i :| 0 <= i < |w| && w[i].current == x && x != 0;
      assert i in f;
      var k :| 0 <= k < |f| && f[k] == i;
      assert w'[k].current == x;
    }
  }

  lemma RemovalChoices(w: Window, level: nat, items: seq<Option<Item>>, taken: set<nat>)
    requires Exclusive(w, items, taken)
    ensures Choices(Kept(w, level)) == Choices(w) - DeeperChoices(w, level)
    ensures DeeperChoices(w, level) <= Choices(w)
  {
    var f := KeptIndices(w, level);
    var w' := Kept(w, level);
    hide Exclusive, Kept, Choices, DeeperChoices;
    KeptChoices(w, w', f, level, items, taken);
    NoChoiceMissing(w, w', f, level);
    DeeperAreChoices(w, level);
  }

  lemma DeeperAreChoices(w: Window, level: nat)
    ensures DeeperChoices(w, level) <= Choices(w)
  {
  }

  /** What an accepted pick leaves chosen. */
  lemma PickChoices(w: Window, src: nat, index: nat, items: seq<Option<Item>>, taken: set<nat>)
    requires Exclusive(w, items, taken) && Offered(w, src, index)
    requires w[src].previousIndex == Some(w[src].current)
    ensures var dropped := Dropped(w, Pick(src, index));
            Choices(Activate(w, src, index)) ==
              Choices(w) - {w[src].current} + (if index == 0 then {} else {index}) - dropped
            && dropped <= Choices(w) - {w[src].current}
  {
    var w1 := w[src := w[src].(current := index)];
    var w2 := PropagateAll(w1, src, index);
    PropagateChoices(w, src, index, items, taken);
    PropagateExclusive(w, src, index, items, taken);
    forall i | 0 <= i < |w|
      ensures w2[i].level == w[i].level && w2[i].current == if i == src then index else w[i].current
    {
      SameCurrent(w1[i], w1[src], index);
    }
    hide PropagateAll, Exclusive;
    if FIXED <= src && index == 0 {
      RemovalChoices(w2, w2[src].level, items, TakenAfter(w, src, index, taken));
      SourceIsNotDeeper(w, w2, src, index);
    } else if FIXED <= src && w2[src].previousIndex == Some(0) {
      CreationChoices(w2, NewCombo(w2[src], index));
    }
  }

  lemma SourceIsNotDeeper(w: Window, w2: Window, src: nat, index: nat)
    requires |w2| == |w| && src < |w|
    requires forall i :: 0 <= i < |w| ==>
               w2[i].level == w[i].level && w2[i].current == if i == src then index else w[i].current
    ensures DeeperChoices(w2, w2[src].level) == DeeperChoices(w, w[src].level)
  {
  }

  lemma CreationChoices(w: Window, c: Combo)
    requires c.current == 0
    ensures Choices(w + [c]) == Choices(w)
  {
    forall x | x in Choices(w) ensures x in Choices(w + [c]) {
      var i :| 0 <= i < |w| && w[i].current == x && x != 0;
      assert (w + [c])[i].current == x;
    }
  }

  /** The taken set after any action: the choices, and what was lost with removed selectors. */
  lemma ActExclusive(w: Window, a: Action, items: seq<Option<Item>>, lost: set<nat>)
    requires Exclusive(w, items, Choices(w) + lost) && Accepted(w, a) && Choices(w) !! lost && 0 !in lost
    ensures var w' := Act(w, a);
            var lost' := if a.Clear? then {} else lost + Dropped(w, a);
            Exclusive(w', items, Choices(w') + lost') && Choices(w') !! lost' && 0 !in lost'
  {
    var taken := Choices(w) + lost;
    match a {
      case Clear =>
        ClearExclusive(w, items, taken);
        NoChoices(ClearAll(w), items);
      case Pick(src, index) =>
        var p := Press(w, src);
        PressExclusive(w, src, items, taken);
        PressChoices(w, src);
        ActivateExclusive(p, src, index, items, taken);
        PickChoices(p, src, index, items, taken);
        assert index !in lost by {
          assert w[src].greyed == taken - {w[src].current};
        }
        var w' := Act(w, a);
        assert Dropped(w, a) == Dropped(p, a);
        assert Choices(w') + (lost + Dropped(w, a)) == TakenAfter(p, src, index, taken);
    }
  }

  lemma NoChoices(w: Window, items: seq<Option<Item>>)
    requires Exclusive(w, items, {})
    ensures Choices(w) == {}
  {
  }

  lemma PressChoices(w: Window, src: nat)
    requires src < |w|
    ensures Choices(Press(w, src)) == Choices(w)
    ensures forall a: Action :: a.Pick? && a.src == src ==> Dropped(Press(w, src), a) == Dropped(w, a)
  {
    var p := Press(w, src);
    assert forall i :: 0 <= i < |w| ==> p[i].current == w[i].current && p[i].level == w[i].level;
    forall x ensures x in Choices(p) <==> x in Choices(w) {
      if x in Choices(p) { var i :| 0 <= i < |p| && p[i].current == x && x != 0; assert w[i].current == x; }
      if x in Choices(w) { var i :| 0 <= i < |w| && w[i].current == x && x != 0; assert p[i].current == x; }
    }
  }

  lemma {:induction false} RunExclusive(actions: seq<Action>, items: seq<Option<Item>>)
    requires items != [] && Run(actions, items).Some?
    ensures var w, lost := Run(actions, items).value, Lost(actions, items);
            Exclusive(w, items, Choices(w) + lost) && Choices(w) !! lost && 0 !in lost
  {
    hide Exclusive, Act, Choices, Dropped, Accepted;
    if actions == [] {
      StartExclusive(items);
      NoChoices(Start(INITIAL, items), items);
      assert Choices(Start(INITIAL, items)) + {} == {};
    } else {
      RunExclusive(actions[..|actions| - 1], items);
      ActExclusive(Run(actions[..|actions| - 1], items).value, actions[|actions| - 1], items,
                   Lost(actions[..|actions| - 1], items));
    }
  }

  /** In every state a run of mouse picks and clears can reach, an item is greyed out in a selector
      exactly when another selector holds it or it was lost with a removed value selector. */
  lemma GreyedExactly(actions: seq<Action>, items: seq<Option<Item>>, i: nat, x: nat)
    requires items != [] && Run(actions, items).Some? && i < |Run(actions, items).value|
    ensures var w := Run(actions, items).value;
            x in w[i].greyed <==>
            x in Lost(actions, items) || (x != 0 && exists j :: 0 <= j < |w| && j != i && w[j].current == x)
  {
    RunExclusive(actions, items);
    var w, lost := Run(actions, items).value, Lost(actions, items);
    var taken := Choices(w) + lost;
    assert Tidy(w[i]) && w[i].greyed == taken - {w[i].current};
    hide Exclusive, Tidy;
    if j :| 0 <= j < |w| && j != i && w[j].current == x && x != 0 {
      Distinct(w, i, j, items, taken);
    }
    if x in Choices(w) && x != w[i].current {
      var j :| 0 <= j < |w| && w[j].current == x && x != 0;
      assert j != i;
    }
    assert w[i].current != 0 ==> w[i].current in Choices(w);
  }

  /** An item is greyed out for no other reason than being chosen elsewhere exactly as long as nothing
      was lost. */
  lemma GreyedByChoiceExactly(actions: seq<Action>, items: seq<Option<Item>>)
    requires items != [] && Run(actions, items).Some?
    ensures OnlyChoicesGreyed(Run(actions, items).value) <==> Lost(actions, items) == {}
  {
    hide Run, Lost, Exclusive;
    var w, lost := Run(actions, items).value, Lost(actions, items);
    RunExclusive(actions, items);
    assert |w| > FIXED by {
      ExclusiveIsFull(w, items, Choices(w) + lost);
    }
    forall i, x | 0 <= i < |w|
      ensures x in w[i].greyed <==> x in lost || HeldElsewhere(w, i, x)
    {
      GreyedExactly(actions, items, i, x);
    }
    if x :| x in lost {
      HeldIsChoice(w, 0, x);
      assert x in w[0].greyed && !HeldElsewhere(w, 0, x);
    }
  }

  lemma HeldIsChoice(w: Window, i: nat, x: nat)
    ensures HeldElsewhere(w, i, x) ==> x in Choices(w)
  {
  }

  lemma ExclusiveIsFull(w: Window, items: seq<Option<Item>>, taken: set<nat>)
    requires Exclusive(w, items, taken)
    ensures |w| > FIXED && 0 !in taken
  {
  }

  ghost predicate HeldElsewhere(w: Window, i: nat, x: nat) {
    x != 0 && exists j :: 0 <= j < |w| && j != i && w[j].current == x
  }

  ghost predicate OnlyChoicesGreyed(w: Window) {
    forall i, x :: 0 <= i < |w| ==> (x in w[i].greyed <==> HeldElsewhere(w, i, x))
  }

  /** Losing happens: the value selector takes item 1, the one created for it item 2; when the first is
      emptied the second goes away, and item 2 stays greyed out although nobody holds it. */
  lemma LossIsReachable(items: seq<Option<Item>>)
    requires |items| > 3
    ensures var actions := [Pick(6, 1), Pick(7, 2), Pick(6, 0)]; var run := Run(actions, items);
            && run.Some? && 2 in Lost(actions, items) && !OnlyChoicesGreyed(run.value)
            && forall i :: 0 <= i < |run.value| ==> 2 in run.value[i].greyed && run.value[i].current != 2
  {
    hide Run, Lost, Propagate, NewCombo, Act, Exclusive, OnlyChoicesGreyed, Accepted, Dropped;
    var w0 := Start(INITIAL, items);
    var a1, a2, a3 := Pick(6, 1), Pick(7, 2), Pick(6, 0);
    StartExclusive(items);
    assert |INITIAL| == 7;
    var w1 := PickValue(w0, 6, 1, items, {});
    assert {} + {1} == {1};
    var w2 := PickValue(w1, 7, 2, items, {1});
    assert {1} + {2} == {1, 2};
    EmptyOffered(w2, 6, items, {1, 2});
    ThreeSteps(w0, a1, a2, a3, items);
    DeeperDropped(w2, 6, 7);
    LostAdds([a1, a2], a3, w2, items);
    var all := [a1, a2, a3];
    assert [a1, a2] + [a3] == all;
    NothingHolds(all, items, 2);
    GreyedByChoiceExactly(all, items);
  }

  lemma LostAdds(actions: seq<Action>, a: Action, w: Window, items: seq<Option<Item>>)
    requires Run(actions, items) == Some(w) && a.Pick? && Accepted(w, a)
    ensures Lost(actions + [a], items) == Lost(actions, items) + Dropped(w, a)
  {
    hide Run, Dropped, Accepted;
    assert (actions + [a])[..|actions|] == actions;
  }

  lemma EmptyOffered(w: Window, src: nat, items: seq<Option<Item>>, taken: set<nat>)
    requires Exclusive(w, items, taken) && src < |w|
    ensures Accepted(w, Pick(src, 0))
  {
    assert Tidy(w[src]) && w[src].greyed == taken - {w[src].current};
  }

  lemma DeeperDropped(w: Window, src: nat, k: nat)
    requires FIXED <= src < |w| && FIXED <= k < |w| && w[k].level > w[src].level && w[k].current != 0
    ensures w[k].current in Dropped(w, Pick(src, 0))
  {
  }

  lemma NothingHolds(actions: seq<Action>, items: seq<Option<Item>>, x: nat)
    requires items != [] && Run(actions, items).Some? && x in Lost(actions, items)
    ensures var w := Run(actions, items).value;
            forall i :: 0 <= i < |w| ==> x in w[i].greyed && w[i].current != x
  {
    hide Run, Lost, Exclusive;
    var w := Run(actions, items).value;
    RunExclusive(actions, items);
    forall i | 0 <= i < |w| ensures x in w[i].greyed && w[i].current != x {
      GreyedExactly(actions, items, i, x);
      ExclusiveIsFull(w, items, Choices(w) + Lost(actions, items));
      assert w[i].current != 0 ==> w[i].current in Choices(w);
    }
  }

  /** A first pick in an empty value selector. */
  lemma PickValue(w: Window, src: nat, index: nat, items: seq<Option<Item>>, taken: set<nat>) returns (w': Window)
    requires Exclusive(w, items, taken) && FIXED <= src < |w| && w[src].current == 0
    requires 0 < index < |items| && index !in taken
    ensures Accepted(w, Pick(src, index)) && w' == Act(w, Pick(src, index))
    ensures |w'| == |w| + 1 && Exclusive(w', items, taken + {index})
    ensures forall i :: 0 <= i < |w| ==> w'[i].level == w[i].level && w'[i].current == if i == src then index else w[i].current
    ensures w'[|w|].current == 0 && w'[|w|].level == w[src].level + 1
  {
    var p := Press(w, src);
    w' := Act(w, Pick(src, index));
    assert Tidy(w[src]) && w[src].greyed == taken - {w[src].current} && w[src].items == items;
    PressExclusive(w, src, items, taken);
    ActivateExclusive(p, src, index, items, taken);
    assert 0 !in taken;
    hide Exclusive, Tidy;
    assert taken - {w[src].current} == taken;
    var p1 := p[src := p[src].(current := index)];
    forall i | 0 <= i < |w| && i != src
      ensures w'[i].level == w[i].level && w'[i].current == w[i].current
    {
      SameCurrent(p1[i], p1[src], index);
    }
  }

  /** So no two selectors ever hold the same item, and what one holds is greyed out in the other. */
  lemma ChoicesDistinct(actions: seq<Action>, items: seq<Option<Item>>, i: nat, j: nat)
    requires items != [] && Run(actions, items).Some?
    requires i < j < |Run(actions, items).value|
    ensures var w := Run(actions, items).value;
            && (w[i].current != 0 ==> w[i].current != w[j].current && w[i].current in w[j].greyed)
            && (w[j].current != 0 ==> w[j].current in w[i].greyed)
            && w[i].items == items && w[j].items == items
            && w[i].current < |items| && w[j].current < |items|
  {
    RunExclusive(actions, items);
    var w := Run(actions, items).value;
    assert Tidy(w[i]) && Tidy(w[j]);
    Distinct(w, i, j, items, Choices(w) + Lost(actions, items));
  }

  // ---------------------------------------------------------------- activations without a press

  /** Every choice is greyed out in all other selectors. */
  ghost predicate MutuallyExclusive(w: Window) {
    forall i, j :: 0 <= i < |w| && 0 <= j < |w| && i != j && w[i].current != 0 ==> w[i].current in w[j].greyed
  }

  function SetOf(o: Option<nat>): set<nat> {
    if o.Some? then {o.value} else {}
  }

  lemma GreyedAfter(c: Combo, source: Combo, index: nat)
    requires Tidy(c)
    ensures Propagate(c, source, index).greyed ==
            c.greyed - SetOf(source.previousIndex) + (if index == 0 then {} else {index})
    ensures Propagate(c, source, index).current == c.current && Propagate(c, source, index).level == c.level
  {
    EnableTidy(c, source.previousIndex);
  }

  /** The activation leaves selector k in place. */
  predicate Survives(w: Window, src: nat, index: nat, k: nat)
    requires src < |w| && k < |w|
  {
    !(FIXED <= src && index == 0 && FIXED <= k && w[k].level > w[src].level)
  }

  /** Flags and choices after propagation, with no assumption on previousIndex. */
  ghost predicate Propagated(w: Window, w2: Window, src: nat, index: nat)
    requires src < |w|
  {
    && |w2| == |w| && w2[src] == w[src].(current := index)
    && forall i :: 0 <= i < |w| && i != src ==>
         && w2[i].current == w[i].current && w2[i].level == w[i].level
         && w2[i].greyed == w[i].greyed - SetOf(w[src].previousIndex) + (if index == 0 then {} else {index})
  }

  lemma PropagatedHolds(w: Window, src: nat, index: nat, items: seq<Option<Item>>, taken: set<nat>)
    requires Exclusive(w, items, taken) && src < |w|
    ensures Propagated(w, PropagateAll(w[src := w[src].(current := index)], src, index), src, index)
  {
    var w1 := w[src := w[src].(current := index)];
    forall i | 0 <= i < |w| && i != src
      ensures Propagate(w1[i], w1[src], index).greyed ==
              w[i].greyed - SetOf(w[src].previousIndex) + (if index == 0 then {} else {index})
      ensures Propagate(w1[i], w1[src], index).current == w[i].current
      ensures Propagate(w1[i], w1[src], index).level == w[i].level
    {
      assert Tidy(w[i]);
      GreyedAfter(w1[i], w1[src], index);
    }
  }

  /** No selector that stays holds the item the stale index names. */
  ghost predicate StaleIsFree(w: Window, src: nat, index: nat)
    requires src < |w|
  {
    forall k :: 0 <= k < |w| && k != src && w[k].current != 0 && Survives(w, src, index, k) ==>
      w[src].previousIndex != Some(w[k].current)
  }

  /** Selectors i and j of the window after propagation exclude each other. */
  ghost predicate Excludes(w: Window, i: nat, j: nat)
    requires i < |w| && j < |w|
  {
    w[i].current != 0 ==> w[i].current in w[j].greyed
  }

  lemma StillExcludes(w: Window, w2: Window, src: nat, index: nat, items: seq<Option<Item>>, taken: set<nat>, i: nat, j: nat)
    requires Exclusive(w, items, taken) && Offered(w, src, index) && Propagated(w, w2, src, index)
    requires i < |w| && j < |w| && i != j && Survives(w, src, index, i)
    requires StaleIsFree(w, src, index)
    ensures Excludes(w2, i, j)
  {
    hide Tidy;
    if i != src {
      Distinct(w, i, j, items, taken);
    }
  }

  /** The window after the activation, as a selection from the one after propagation, plus the new selector. */
  lemma AfterPropagation(w: Window, w2: Window, src: nat, index: nat) returns (f: seq<nat>)
    requires src < |w| && FIXED < |w| && w2 == PropagateAll(w[src := w[src].(current := index)], src, index)
    requires Propagated(w, w2, src, index)
    ensures var w' := Activate(w, src, index);
            && |f| <= |w'| <= |f| + 1
            && (forall k :: 0 <= k < |f| ==> f[k] < |w| && w'[k] == w2[f[k]] && Survives(w, src, index, f[k]))
            && (forall k, l :: 0 <= k < l < |f| ==> f[k] != f[l])
            && (forall k :: 0 <= k < |w| && Survives(w, src, index, k) ==> k in f)
            && (|w'| == |f| + 1 ==> w'[|f|] == NewCombo(w2[src], index) && index != 0)
  {
    hide PropagateAll, Kept;
    if FIXED <= src && index == 0 {
      f := KeptIndices(w2, w2[src].level);
      SurvivorsKept(w, w2, src, index, f);
    } else {
      f := seq(|w|, k => k);
      forall k | 0 <= k < |w| ensures k in f {
        assert f[k] == k;
      }
    }
  }

  lemma SurvivorsKept(w: Window, w2: Window, src: nat, index: nat, f: seq<nat>)
    requires FIXED <= src < |w| && index == 0 && Propagated(w, w2, src, index)
    requires forall k :: 0 <= k < |f| ==> f[k] < |w| && (f[k] < FIXED || w2[f[k]].level <= w2[src].level)
    requires forall i :: 0 <= i < |w| && (i < FIXED || w2[i].level <= w2[src].level) ==> i in f
    ensures forall k :: 0 <= k < |f| ==> Survives(w, src, index, f[k])
    ensures forall k :: 0 <= k < |w| && Survives(w, src, index, k) ==> k in f
  {
    assert forall k :: 0 <= k < |w| ==> w2[k].level == w[k].level;
  }

  /** previousIndex is written by mouse presses only, so an activation by keyboard or wheel runs with
      a stale one. It keeps choices mutually exclusive exactly when no other selector has by then
      chosen the item the stale index names. */
  lemma StaleActivationExactly(w: Window, src: nat, index: nat, items: seq<Option<Item>>, taken: set<nat>)
    requires Exclusive(w, items, taken) && Offered(w, src, index)
    ensures MutuallyExclusive(Activate(w, src, index)) <==> StaleIsFree(w, src, index)
  {
    var w2 := PropagateAll(w[src := w[src].(current := index)], src, index);
    var w' := Activate(w, src, index);
    PropagatedHolds(w, src, index, items, taken);
    var f := AfterPropagation(w, w2, src, index);
    if StaleIsFree(w, src, index) {
      forall i, j | 0 <= i < |w'| && 0 <= j < |w'| && i != j && w'[i].current != 0
        ensures w'[i].current in w'[j].greyed
      {
        StaleKeepsPair(w, w2, src, index, items, taken, f, i, j);
      }
    } else {
      StaleBreaks(w, w2, src, index, items, taken, f);
    }
  }

  lemma StaleKeepsPair(w: Window, w2: Window, src: nat, index: nat, items: seq<Option<Item>>, taken: set<nat>,
                       f: seq<nat>, i: nat, j: nat)
    requires Exclusive(w, items, taken) && Offered(w, src, index) && Propagated(w, w2, src, index)
    requires var w' := Activate(w, src, index);
             && |f| <= |w'| <= |f| + 1
             && (forall k :: 0 <= k < |f| ==> f[k] < |w| && w'[k] == w2[f[k]] && Survives(w, src, index, f[k]))
             && (forall k, l :: 0 <= k < l < |f| ==> f[k] != f[l])
             && (|w'| == |f| + 1 ==> w'[|f|] == NewCombo(w2[src], index) && index != 0)
             && i < |w'| && j < |w'| && i != j && w'[i].current != 0
    requires StaleIsFree(w, src, index)
    ensures Activate(w, src, index)[i].current in Activate(w, src, index)[j].greyed
  {
    hide Activate, StaleIsFree, Survives, Propagated;
    assert i < |f|;
    if j < |f| {
      assert f[i] != f[j];
      StillExcludes(w, w2, src, index, items, taken, f[i], f[j]);
    } else {
      NewExcludes(w, w2, src, index, items, taken, f[i]);
    }
  }

  lemma NewExcludes(w: Window, w2: Window, src: nat, index: nat, items: seq<Option<Item>>, taken: set<nat>, i: nat)
    requires Exclusive(w, items, taken) && src < |w| && Propagated(w, w2, src, index) && i < |w|
    ensures w2[i].current != 0 ==> w2[i].current in NewCombo(w2[src], index).greyed
  {
    assert Tidy(w[src]);
    if i != src {
      Distinct(w, i, src, items, taken);
      assert w[i].current != 0 ==> w[i].current in Rows(w[src].disabledRows);
    }
  }

  lemma StaleBreaks(w: Window, w2: Window, src: nat, index: nat, items: seq<Option<Item>>, taken: set<nat>, f: seq<nat>)
    requires Exclusive(w, items, taken) && Offered(w, src, index) && Propagated(w, w2, src, index)
    requires var w' := Activate(w, src, index);
             && |f| <= |w'|
             && (forall k :: 0 <= k < |f| ==> f[k] < |w| && w'[k] == w2[f[k]])
             && (forall k :: 0 <= k < |w| && Survives(w, src, index, k) ==> k in f)
    requires !StaleIsFree(w, src, index)
    ensures !MutuallyExclusive(Activate(w, src, index))
  {
    var k :| 0 <= k < |w| && k != src && w[k].current != 0 && Survives(w, src, index, k) &&
      w[src].previousIndex == Some(w[k].current);
    var j := if src != 0 && k != 0 then 0 else if src != 1 && k != 1 then 1 else 2;
    assert Survives(w, src, index, j);
    Distinct(w, k, src, items, taken);
    hide Activate, Survives, Exclusive;
    var k' :| 0 <= k' < |f| && f[k'] == k;
    var j' :| 0 <= j' < |f| && f[j'] == j;
    var w' := Activate(w, src, index);
    assert w'[k'].current == w[k].current && w'[j'].greyed == w2[j].greyed;
    assert w[k].current != index;
    assert w'[k'].current !in w'[j'].greyed;
  }

  /** Such a stale activation can be reached: column selector 1 takes item 1 and then item 2 by mouse,
      column selector 2 takes item 1; when selector 1 now takes item 3 without a press, item 1 is offered
      again although selector 2 holds it. */
  lemma StaleActivationIsReachable(items: seq<Option<Item>>)
    requires |items| > 3
    ensures var run := Run([Pick(0, 1), Pick(0, 2), Pick(1, 1)], items);
            && run.Some? && Offered(run.value, 0, 3)
            && !MutuallyExclusive(Activate(run.value, 0, 3))
  {
    hide Run, Propagate, NewCombo, Act, Activate, Accepted, Exclusive, MutuallyExclusive, StaleIsFree;
    var w0 := Start(INITIAL, items);
    var a1, a2, a3 := Pick(0, 1), Pick(0, 2), Pick(1, 1);
    StartExclusive(items);
    assert |INITIAL| == 7;
    var w1 := PickPlain(w0, 0, 1, items, {});
    assert {} - {0} + {1} == {1};
    var w2 := PickPlain(w1, 0, 2, items, {1});
    assert {1} - {1} + {2} == {2};
    var w3 := PickPlain(w2, 1, 1, items, {2});
    assert {2} - {0} + {1} == {1, 2};
    ThreeSteps(w0, a1, a2, a3, items);
    StaleIsTaken(w3);
    ThirdOffered(w3, items);
    StaleActivationExactly(w3, 0, 3, items, {1, 2});
  }

  lemma StaleIsTaken(w: Window)
    requires |w| > 1 && w[0].previousIndex == Some(1) && w[1].current == 1
    ensures !StaleIsFree(w, 0, 3)
  {
    assert Survives(w, 0, 3, 1);
  }

  lemma ThirdOffered(w: Window, items: seq<Option<Item>>)
    requires Exclusive(w, items, {1, 2}) && |items| > 3
    ensures Offered(w, 0, 3)
  {
    assert Tidy(w[0]) && w[0].greyed == {1, 2} - {w[0].current};
  }

  lemma ThreeSteps(w: Window, a1: Action, a2: Action, a3: Action, items: seq<Option<Item>>)
    requires w == Start(INITIAL, items) && Accepted(w, a1)
    requires Accepted(Act(w, a1), a2) && Accepted(Act(Act(w, a1), a2), a3)
    ensures Run([a1, a2], items) == Some(Act(Act(w, a1), a2))
    ensures Run([a1, a2, a3], items) == Some(Act(Act(Act(w, a1), a2), a3))
  {
    hide Act, Start;
    assert [a1, a2, a3][..2] == [a1, a2] && [a1, a2][..1] == [a1] && [a1][..0] == [];
    assert Run([], items) == Some(w);
    assert Run([a1], items) == Some(Act(w, a1));
  }

  /** A pick in a fixed selector. */
  lemma PickPlain(w: Window, src: nat, index: nat, items: seq<Option<Item>>, taken: set<nat>) returns (w': Window)
    requires Exclusive(w, items, taken) && src < FIXED && 0 < index < |items| && index !in taken
    ensures Accepted(w, Pick(src, index)) && w' == Act(w, Pick(src, index))
    ensures |w'| == |w| && Exclusive(w', items, taken - {w[src].current} + {index})
    ensures forall i :: 0 <= i < |w| && i != src ==> w'[i].current == w[i].current && w'[i].previousIndex == w[i].previousIndex
    ensures w'[src].current == index && w'[src].previousIndex == Some(w[src].current)
  {
    var p := Press(w, src);
    w' := Act(w, Pick(src, index));
    assert Tidy(w[src]) && w[src].greyed == taken - {w[src].current} && w[src].items == items;
    PressExclusive(w, src, items, taken);
    ActivateExclusive(p, src, index, items, taken);
    var p1 := p[src := p[src].(current := index)];
    forall i | 0 <= i < |w| && i != src
      ensures w'[i].current == w[i].current && w'[i].previousIndex == w[i].previousIndex
    {
      SameCurrent(p1[i], p1[src], index);
    }
  }

  // ---------------------------------------------------------------- reading the choices

  function Data(c: Combo): seq<Item>
    requires c.current < |c.items|
  {
    match c.items[c.current]
    case None => []
    case Some(d) => [d]
  }

  /** The loop of _getComboChoices over one list of selectors; None is the error message. */
  function Chosen(cs: seq<Combo>, missing: bool): Option<seq<Item>>
    requires forall i :: 0 <= i < |cs| ==> cs[i].current < |cs[i].items|
  {
    if cs == [] then Some([])
    else
      var c := cs[0];
      if c.level == 0 && c.current == 0 then None
      else if c.level != 0 && c.current != 0 && missing then None
      else
        match Chosen(cs[1..], missing || (c.level != 0 && c.current == 0))
        case None => None
        case Some(rest) => Some(Data(c) + rest)
  }

  datatype Dimensions = Dimensions(rows: seq<Item>, columns: seq<Item>, values: seq<Item>)

  /** _getComboChoices */
  function ComboChoices(w: Window): Option<Dimensions>
    requires FIXED <= |w| && forall i :: 0 <= i < |w| ==> w[i].current < |w[i].items|
  {
    match Chosen(w[3..6], false)
    case None => None
    case Some(rows) =>
      match Chosen(w[..3], false)
      case None => None
      case Some(columns) =>
        match Chosen(w[6..], false)
        case None => None
        case Some(values) => Some(Dimensions(rows, columns, values))
  }

  /** Item 0 is empty, all others stand for different columns. */
  ghost predicate ProperItems(items: seq<Option<Item>>) {
    && items != [] && items[0] == None
    && (forall i :: 0 < i < |items| ==> items[i].Some?)
    && forall i, j :: 0 < i < j < |items| ==> items[i] != items[j]
  }

  ghost predicate NoGap(cs: seq<Combo>) {
    forall i, j :: 0 <= i < j < |cs| && cs[i].current == 0 ==> cs[j].current == 0
  }

  ghost predicate AllEmpty(cs: seq<Combo>) {
    forall i :: 0 <= i < |cs| ==> cs[i].current == 0
  }

  ghost predicate Axis(cs: seq<Combo>, items: seq<Option<Item>>) {
    ProperItems(items) &&
    forall i :: 0 <= i < |cs| ==> cs[i].items == items && cs[i].current < |items| && cs[i].level > 0
  }

  lemma AxisTail(cs: seq<Combo>, items: seq<Option<Item>>)
    requires Axis(cs, items) && cs != []
    ensures Axis(cs[1..], items)
    ensures AllEmpty(cs) <==> cs[0].current == 0 && AllEmpty(cs[1..])
    ensures NoGap(cs) <==> if cs[0].current == 0 then AllEmpty(cs[1..]) else NoGap(cs[1..])
  {
    var t := cs[1..];
    assert forall k :: 0 <= k < |t| ==> t[k] == cs[k + 1];
    if AllEmpty(t) {
      assert forall k :: 0 < k < |cs| ==> cs[k] == t[k - 1];
    }
    if NoGap(t) {
      forall i, j | 0 < i < j < |cs| && cs[i].current == 0 ensures cs[j].current == 0 {
        assert t[i - 1].current == 0;
        assert t[j - 1] == cs[j];
      }
    }
    if NoGap(cs) && cs[0].current == 0 {
      forall k | 0 <= k < |t| ensures t[k].current == 0 {
        assert cs[k + 1].current == 0;
      }
    }
    if NoGap(cs) {
      forall i, j | 0 <= i < j < |t| && t[i].current == 0 ensures t[j].current == 0 {
        assert cs[i + 1].current == 0;
        assert cs[j + 1].current == 0;
      }
    }
  }

  /** On an axis the choices are accepted exactly when no selector is set behind an empty one. */
  lemma {:induction false} AxisAccepted(cs: seq<Combo>, items: seq<Option<Item>>, missing: bool)
    requires Axis(cs, items)
    ensures Chosen(cs, missing).Some? <==> if missing then AllEmpty(cs) else NoGap(cs)
  {
    if cs != [] {
      AxisTail(cs, items);
      hide Axis, NoGap, AllEmpty;
      AxisAccepted(cs[1..], items, missing || cs[0].current == 0);
      AxisHead(cs, items);
    }
  }

  lemma AxisHead(cs: seq<Combo>, items: seq<Option<Item>>)
    requires Axis(cs, items) && cs != []
    ensures forall i :: 0 <= i < |cs| ==> cs[i].current < |cs[i].items|
    ensures cs[0].level > 0 && (cs[0].current == 0 <==> Data(cs[0]) == [])
    ensures cs[0].current != 0 ==> items[cs[0].current].Some? && Data(cs[0]) == [items[cs[0].current].value]
  {
  }

  /** Accepted choices are those of the leading selectors, in order. */
  lemma {:induction false} AxisChoices(cs: seq<Combo>, items: seq<Option<Item>>)
    requires Axis(cs, items) && NoGap(cs) && Chosen(cs, false).Some?
    ensures var r := Chosen(cs, false).value;
            && |r| <= |cs|
            && (forall k :: 0 <= k < |cs| ==> (cs[k].current != 0 <==> k < |r|))
            && (forall k :: 0 <= k < |r| ==> items[cs[k].current] == Some(r[k]))
  {
    if cs != [] {
      AxisTail(cs, items);
      AxisHead(cs, items);
      var t := cs[1..];
      assert forall k :: 0 < k < |cs| ==> cs[k] == t[k - 1];
      if cs[0].current == 0 {
        EmptyChosen(t, items, true);
      } else {
        AxisChoices(t, items);
      }
    }
  }

  lemma {:induction false} EmptyChosen(cs: seq<Combo>, items: seq<Option<Item>>, missing: bool)
    requires Axis(cs, items) && AllEmpty(cs)
    ensures Chosen(cs, missing) == Some([])
  {
    if cs != [] {
      AxisTail(cs, items);
      AxisHead(cs, items);
      assert cs[0].current == 0 && Data(cs[0]) + [] == [];
      EmptyChosen(cs[1..], items, true);
    }
  }

  /** The selectors of a list that are set. */
  function SetPositions(cs: seq<Combo>): (m: seq<nat>)
    ensures forall k :: 0 <= k < |m| ==> m[k] < |cs| && cs[m[k]].current != 0
    ensures forall k, l :: 0 <= k < l < |m| ==> m[k] < m[l]
  {
    if cs == [] then []
    else
      var n := |cs| - 1;
      SetPositions(cs[..n]) + if cs[n].current == 0 then [] else [n]
  }

  /** The data of all selectors of a list that are set, in order. */
  function AllData(cs: seq<Combo>): seq<Item>
    requires forall i :: 0 <= i < |cs| ==> cs[i].current < |cs[i].items|
  {
    if cs == [] then [] else Data(cs[0]) + AllData(cs[1..])
  }

  lemma {:induction false} ChosenIsAllData(cs: seq<Combo>, missing: bool)
    requires forall i :: 0 <= i < |cs| ==> cs[i].current < |cs[i].items|
    ensures Chosen(cs, missing).Some? ==> Chosen(cs, missing).value == AllData(cs)
  {
    if cs != [] {
      ChosenIsAllData(cs[1..], missing || (cs[0].level != 0 && cs[0].current == 0));
    }
  }

  lemma {:induction false} AllDataLast(cs: seq<Combo>)
    requires cs != [] && forall i :: 0 <= i < |cs| ==> cs[i].current < |cs[i].items|
    ensures AllData(cs) == AllData(cs[..|cs| - 1]) + Data(cs[|cs| - 1])
  {
    var n := |cs| - 1;
    if n > 0 {
      AllDataLast(cs[1..]);
      assert cs[1..][..n - 1] == cs[..n][1..];
      assert Data(cs[0]) + (AllData(cs[1..][..n - 1]) + Data(cs[n])) == (Data(cs[0]) + AllData(cs[..n][1..])) + Data(cs[n]);
    }
  }

  /** What is read from a list of selectors comes from the ones that are set. */
  lemma {:induction false} DataOfSet(cs: seq<Combo>, items: seq<Option<Item>>)
    requires ProperItems(items)
    requires forall i :: 0 <= i < |cs| ==> cs[i].items == items && cs[i].current < |items|
    ensures |SetPositions(cs)| == |AllData(cs)|
    ensures forall k :: 0 <= k < |SetPositions(cs)| ==>
              items[cs[SetPositions(cs)[k]].current] == Some(AllData(cs)[k])
  {
    if cs != [] {
      var n := |cs| - 1;
      DataOfSet(cs[..n], items);
      AllDataLast(cs);
      hide AllData;
    }
  }

  /** Entry k of the list is the choice of selector f[k]; no selector contributes twice. */
  ghost predicate Sourced(w: Window, items: seq<Option<Item>>, list: seq<Item>, f: seq<nat>) {
    && |f| == |list|
    && (forall k :: 0 <= k < |f| ==>
          f[k] < |w| && 0 < w[f[k]].current < |items| && items[w[f[k]].current] == Some(list[k]))
    && forall k, l :: 0 <= k < l < |f| ==> f[k] != f[l]
  }

  lemma SliceSourced(w: Window, lo: nat, hi: nat, items: seq<Option<Item>>) returns (f: seq<nat>)
    requires ProperItems(items) && lo <= hi <= |w|
    requires forall i :: 0 <= i < |w| ==> w[i].items == items && w[i].current < |items|
    requires Chosen(w[lo..hi], false).Some?
    ensures Sourced(w, items, Chosen(w[lo..hi], false).value, f)
    ensures forall k :: 0 <= k < |f| ==> lo <= f[k] < hi
  {
    hide Chosen, AllData, SetPositions;
    var cs := w[lo..hi];
    ChosenIsAllData(cs, false);
    DataOfSet(cs, items);
    var m := SetPositions(cs);
    f := seq(|m|, k requires 0 <= k < |m| => lo + m[k]);
    forall k | 0 <= k < |f| ensures w[f[k]] == cs[m[k]] && 0 < w[f[k]].current {}
  }

  lemma JoinSourced(w: Window, items: seq<Option<Item>>, a: seq<Item>, f: seq<nat>, b: seq<Item>, g: seq<nat>)
    requires Sourced(w, items, a, f) && Sourced(w, items, b, g)
    requires forall k, l :: 0 <= k < |f| && 0 <= l < |g| ==> f[k] != g[l]
    ensures Sourced(w, items, a + b, f + g)
  {
  }

  lemma SourcedDistinct(w: Window, items: seq<Option<Item>>, taken: set<nat>, list: seq<Item>, f: seq<nat>)
    requires ProperItems(items) && Exclusive(w, items, taken) && Sourced(w, items, list, f)
    ensures forall k, l :: 0 <= k < l < |list| ==> list[k] != list[l]
  {
    forall k, l | 0 <= k < l < |list| ensures list[k] != list[l] {
      Distinct(w, f[k], f[l], items, taken);
    }
  }

  lemma CurrentsInRange(w: Window, items: seq<Option<Item>>, taken: set<nat>)
    requires Exclusive(w, items, taken)
    ensures forall i :: 0 <= i < |w| ==> w[i].items == items && w[i].current < |items|
  {
    assert forall i :: 0 <= i < |w| ==> Tidy(w[i]);
  }

  /** In every reachable state, the dimensions handed to the pivot engine are pairwise different, within and
      across rows, columns and values. */
  lemma DimensionsDistinct(actions: seq<Action>, items: seq<Option<Item>>)
    requires ProperItems(items) && Run(actions, items).Some?
    ensures var w := Run(actions, items).value;
            && FIXED <= |w| && (forall i :: 0 <= i < |w| ==> w[i].current < |w[i].items|)
            && (ComboChoices(w).Some? ==>
                 var d := ComboChoices(w).value;
                 var all := d.rows + d.columns + d.values;
                 forall k, l :: 0 <= k < l < |all| ==> all[k] != all[l])
  {
    RunExclusive(actions, items);
    hide Run, Lost, Choices, ComboChoices, Exclusive;
    WindowDimensions(Run(actions, items).value, items, Choices(Run(actions, items).value) + Lost(actions, items));
  }

  lemma WindowDimensions(w: Window, items: seq<Option<Item>>, taken: set<nat>)
    requires ProperItems(items) && Exclusive(w, items, taken)
    ensures FIXED <= |w| && forall i :: 0 <= i < |w| ==> w[i].current < |w[i].items|
    ensures ComboChoices(w).Some? ==>
              var d := ComboChoices(w).value;
              var all := d.rows + d.columns + d.values;
              forall k, l :: 0 <= k < l < |all| ==> all[k] != all[l]
  {
    CurrentsInRange(w, items, taken);
    assert FIXED <= |w|;
    hide Sourced, Chosen, Exclusive, ProperItems;
    if ComboChoices(w).Some? {
      var d := ComboChoices(w).value;
      assert w[..3] == w[0..3] && w[6..] == w[6..|w|];
      var r := SliceSourced(w, 3, 6, items);
      var c := SliceSourced(w, 0, 3, items);
      var v := SliceSourced(w, 6, |w|, items);
      JoinSourced(w, items, d.rows, r, d.columns, c);
      assert forall k :: 0 <= k < |r + c| ==> (r + c)[k] < 6;
      JoinSourced(w, items, d.rows + d.columns, r + c, d.values, v);
      SourcedDistinct(w, items, taken, d.rows + d.columns + d.values, r + c + v);
    }
  }
}
