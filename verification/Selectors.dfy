/** The selectors as objects: PivotComboBox, and the handlers of the main window that
    change them in place. Each handler is tied to the step of module Selection it takes. */
module Selectors {
  import opened Options
  import opened Selection

  class PivotComboBox {
    var role: Role
    var level: nat
    var items: seq<Option<Item>>
    var current: nat
    var disabledRows: seq<nat>
    var greyed: set<nat>
    var enabled: bool
    var previousIndex: Option<nat>

    ghost function View(): Combo
      reads this
    {
      Combo(role, level, items, current, disabledRows, greyed, enabled, previousIndex)
    }

    constructor (role: Role, level: nat)
      ensures View() == Combo(role, level, [None], 0, [], {}, true, None)
    {
      this.role, this.level := role, level;
      items, current, disabledRows, greyed, enabled, previousIndex := [None], 0, [], {}, true, None;
    }

    method EnableItem(row: Option<nat>)
      modifies this`disabledRows, this`greyed
      ensures View() == Selection.EnableItem(old(View()), row)
    {
      if row.None? || row.value !in disabledRows {
        return;
      }
      greyed := greyed - {row.value};
      disabledRows := RemoveFirst(disabledRows, row.value);
    }

    method EnableAllItems()
      modifies this`disabledRows, this`greyed
      ensures View() == Selection.EnableAllItems(old(View()))
    {
      for idx := 0 to |items|
        invariant View() == EnableUpTo(old(View()), idx)
      {
        EnableItem(Some(idx));
      }
    }

    method DisableItem(row: nat)
      modifies this`disabledRows, this`greyed
      ensures View() == Selection.DisableItem(old(View()), row)
    {
      greyed := greyed + {row};
      disabledRows := disabledRows + [row];
    }

    /** insertItem(1, ...) while the empty item is current and nothing is greyed out. */
    method InsertSecond(item: Option<Item>)
      requires items != [] && current == 0 && greyed == {}
      modifies this`items
      ensures items == [old(items)[0], item] + old(items)[1..]
    {
      items := items[..1] + [item] + items[1..];
    }

    method MousePress()
      modifies this`previousIndex
      ensures View() == old(View()).(previousIndex := Some(old(current)))
    {
      previousIndex := Some(current);
    }

    /** What propagateComboBoxChange does to this selector. */
    method Follow(source: PivotComboBox, index: nat)
      requires source != this
      modifies this
      ensures View() == Propagate(old(View()), source.View(), index)
    {
      EnableItem(source.previousIndex);
      if index != 0 {
        DisableItem(index);
        if source.previousIndex == Some(0) {
          if role == source.role && level == source.level + 1 {
            enabled := true;
          }
        }
      }
      if index == 0 {
        if role == source.role && level == source.level + 1 {
          enabled := false;
        }
      }
    }

    method ClearChoice()
      modifies this
      ensures View() == ClearCombo(old(View()))
    {
      current := 0;
      EnableAllItems();
      enabled := level <= 1;
    }
  }

  ghost function Views(cs: seq<PivotComboBox>): Window
    reads cs
  {
    seq(|cs|, i requires 0 <= i < |cs| reads cs => cs[i].View())
  }

  ghost predicate Different(cs: seq<PivotComboBox>) {
    forall i, j :: 0 <= i < j < |cs| ==> cs[i] != cs[j]
  }

  /** The selectors that are not in a set: what list.remove leaves after each of them is removed. */
  function Remaining(cs: seq<PivotComboBox>, removed: set<PivotComboBox>): (r: seq<PivotComboBox>)
    ensures forall c :: c in r ==> c in cs && c !in removed
    ensures forall c :: c in cs ==> c in removed || c in r
  {
    if cs == [] then []
    else
      var r := Remaining(cs[..|cs| - 1], removed);
      if cs[|cs| - 1] in removed then r else r + [cs[|cs| - 1]]
  }

  lemma {:induction false} RemainingTwice(cs: seq<PivotComboBox>, a: set<PivotComboBox>, b: set<PivotComboBox>)
    ensures Remaining(Remaining(cs, a), b) == Remaining(cs, a + b)
  {
    if cs != [] {
      var n := |cs| - 1;
      RemainingTwice(cs[..n], a, b);
      RemainingLast(Remaining(cs[..n], a), cs[n], b);
    }
  }

  lemma RemainingLast(cs: seq<PivotComboBox>, c: PivotComboBox, removed: set<PivotComboBox>)
    ensures Remaining(cs + [c], removed) == Remaining(cs, removed) + if c in removed then [] else [c]
  {
    assert (cs + [c])[..|cs|] == cs;
  }

  lemma {:induction false} RemainingAll(cs: seq<PivotComboBox>)
    ensures Remaining(cs, {}) == cs
  {
    if cs != [] {
      var before := cs[..|cs| - 1];
      RemainingAll(before);
      hide Different;
      assert Remaining(cs, {}) == Remaining(before, {}) + [cs[|cs| - 1]];
    }
  }

  lemma {:induction false} RemainingIsKept(cs: seq<PivotComboBox>, removed: set<PivotComboBox>, level: nat)
    requires forall c :: c in cs ==> (c in removed <==> c.level > level)
    ensures Views(Remaining(cs, removed)) == KeepUpTo(Views(cs), level)
  {
    if cs != [] {
      var n := |cs| - 1;
      RemainingIsKept(cs[..n], removed, level);
      assert Views(cs)[..n] == Views(cs[..n]);
      assert cs[n] in cs;
    }
  }

  function Max(idx: nat): nat {
    if idx == 0 then 1 else idx
  }

  class MainWindow {
    var columns: seq<PivotComboBox>
    var rows: seq<PivotComboBox>
    var displayed: seq<PivotComboBox>

    function All(): seq<PivotComboBox>
      reads this
    {
      columns + rows + displayed
    }

    ghost predicate Valid()
      reads this, All()
    {
      && |columns| == 3 && |rows| == 3
      && Different(All())
      && forall c :: c in All() ==> c.items != [] && c.items[0] == None
    }

    ghost function View(): Window
      reads this, All()
    {
      Views(All())
    }

    /** propagateComboBoxChange. The loop over the other selectors goes through a set; each is changed on its
        own, so the order does not show. */
    method PropagateComboBoxChange(source: PivotComboBox, ghost src: nat, index: nat)
      requires Valid() && src < |All()| && All()[src] == source
      modifies set c | c in All() && c != source
      ensures Valid() && All() == old(All())
      ensures View() == PropagateAll(old(View()), src, index)
    {
      hide Propagate;
      var all := All();
      for i := 0 to |all|
        invariant all == All()
        invariant source.View() == old(source.View())
        invariant forall j :: 0 <= j < i && j != src ==> all[j].View() == Propagate(old(all[j].View()), source.View(), index)
        invariant forall j :: i <= j < |all| ==> all[j].View() == old(all[j].View())
      {
        if all[i] != source {
          all[i].Follow(source, index);
        }
      }
      forall j | 0 <= j < |all| ensures all[j].items == old(all[j].items) {
        SameCurrent(old(all[j].View()), source.View(), index);
        assert all[j].View().items == old(all[j].View().items);
      }
    }

    /** Copies the items of a selector into a new one, keeping their positions. */
    method CopyItems(source: PivotComboBox, target: PivotComboBox)
      requires source != target && source.items != [] && source.items[0] == None
      requires target.items == [None] && target.current == 0 && target.greyed == {}
      modifies target`items
      ensures target.items == source.items
    {
      var idx: nat := |source.items|;
      while idx > 0
        invariant idx <= |source.items|
        invariant target.items == [None] + source.items[Max(idx)..]
        decreases idx
      {
        idx := idx - 1;
        if idx == 0 {
          continue;
        }
        target.InsertSecond(source.items[idx]);
      }
      assert source.items == [source.items[0]] + source.items[1..];
    }

    /** The new value selector. */
    method CreateCombo(source: PivotComboBox, index: nat) returns (c: PivotComboBox)
      requires source.items != [] && source.items[0] == None
      ensures fresh(c) && c.View() == NewCombo(source.View(), index)
    {
      c := new PivotComboBox(source.role, source.level + 1);
      CopyItems(source, c);
      var i := 0;
      while i < |source.disabledRows|
        invariant i <= |source.disabledRows| && c.items == source.items
        invariant c.disabledRows == source.disabledRows[..i] && c.greyed == set x | x in source.disabledRows[..i]
        invariant c.View() == Combo(source.role, source.level + 1, source.items, 0, c.disabledRows, c.greyed, true, None)
      {
        c.DisableItem(source.disabledRows[i]);
        i := i + 1;
      }
      assert source.disabledRows[..i] == source.disabledRows;
      c.DisableItem(index);
    }

    /** Collects the deeper value selectors. */
    method Deeper(level: nat) returns (found: set<PivotComboBox>)
      ensures forall c :: c in found ==> c in displayed && c.level > level
      ensures forall c :: c in displayed && c.level > level ==> c in found
    {
      found := {};
      for i := 0 to |displayed|
        invariant forall c :: c in found ==> c in displayed && c.level > level
        invariant forall j :: 0 <= j < i && displayed[j].level > level ==> displayed[j] in found
      {
        if displayed[i].level > level {
          found := found + {displayed[i]};
        }
      }
    }

    /** Takes selectors off the list one by one, in whatever order the set yields them. */
    method Remove(toBeDeleted: set<PivotComboBox>)
      modifies this`displayed
      ensures displayed == Remaining(old(displayed), toBeDeleted)
    {
      ghost var before := displayed;
      var left := toBeDeleted;
      RemainingAll(displayed);
      assert toBeDeleted - left == {};
      while left != {}
        invariant left <= toBeDeleted && displayed == Remaining(before, toBeDeleted - left)
        decreases |left|
      {
        var c :| c in left;
        RemainingTwice(before, toBeDeleted - left, {c});
        assert toBeDeleted - left + {c} == toBeDeleted - (left - {c});
        left := left - {c};
        displayed := Remaining(displayed, {c});
      }
      assert toBeDeleted - left == toBeDeleted;
    }

    /** The deletion branch. */
    method DeleteDeeper(level: nat)
      requires Valid()
      modifies this`displayed
      ensures Valid()
      ensures View() == Kept(old(View()), level)
      ensures forall c :: c in displayed ==> c in old(displayed)
    {
      hide Different, KeepUpTo;
      var toBeDeleted := Deeper(level);
      ghost var before := displayed;
      Remove(toBeDeleted);
      RemainingDifferent(columns + rows, before, toBeDeleted);
      RemainingIsKept(before, toBeDeleted, level);
      SplitViews(columns, rows, before);
      SplitViews(columns, rows, displayed);
    }

    /** _onDisplayedValueComboActivated */
    method OnDisplayedValueComboActivated(source: PivotComboBox, ghost src: nat, index: nat)
      requires Valid() && FIXED <= src < |All()| && All()[src] == source
      modifies this`displayed
      ensures Valid()
      ensures View() == ValueActivated(old(View()), src, index)
      ensures forall c :: c in displayed ==> c in old(displayed) || fresh(c)
    {
      hide NewCombo, Kept, Different;
      assert View()[src] == source.View();
      if index == 0 {
        DeleteDeeper(source.level);
      } else if index != 0 && source.previousIndex == Some(0) {
        AddCombo(source, index);
      }
    }

    /** The creation branch. */
    method AddCombo(source: PivotComboBox, index: nat)
      requires Valid() && source in All()
      modifies this`displayed
      ensures Valid()
      ensures View() == old(View()) + [NewCombo(old(source.View()), index)]
      ensures forall c :: c in displayed ==> c in old(displayed) || fresh(c)
    {
      var c := CreateCombo(source, index);
      hide NewCombo;
      FreshDifferent(All(), c);
      ghost var all := All();
      displayed := displayed + [c];
      assert All() == all + [c];
    }

    /** An item is activated: Qt makes it current, then calls the handlers in the order they were connected. */
    method Activated(source: PivotComboBox, ghost src: nat, index: nat)
      requires Valid() && src < |All()| && All()[src] == source
      modifies this`displayed, All()
      ensures Valid()
      ensures View() == Activate(old(View()), src, index)
      ensures forall c :: c in All() ==> c in old(All()) || fresh(c)
    {
      ghost var w := View();
      source.current := index;
      assert View() == w[src := w[src].(current := index)];
      PropagateComboBoxChange(source, src, index);
      ValueSelectors(columns + rows, displayed, src);
      if source in displayed {
        OnDisplayedValueComboActivated(source, src, index);
      }
    }

    /** clearComboChoices */
    method ClearComboChoices()
      requires Valid()
      modifies All()
      ensures Valid() && All() == old(All())
      ensures View() == ClearAll(old(View()))
    {
      hide Selection.EnableAllItems, ClearCombo;
      var all := All();
      for i := 0 to |all|
        invariant all == All()
        invariant forall j :: 0 <= j < i ==> all[j].View() == ClearCombo(old(all[j].View()))
        invariant forall j :: i <= j < |all| ==> all[j].View() == old(all[j].View())
      {
        all[i].ClearChoice();
      }
      forall j | 0 <= j < |all| ensures all[j].items == old(all[j].items) {
        ClearKeepsItems(old(all[j].View()));
        assert all[j].View().items == old(all[j].View().items);
      }
    }

    /** A mouse press on a selector. */
    method Press(source: PivotComboBox, ghost src: nat)
      requires Valid() && src < |All()| && All()[src] == source
      modifies source`previousIndex
      ensures Valid() && All() == old(All())
      ensures View() == Selection.Press(old(View()), src)
    {
      source.MousePress();
    }

    /** The loop of _getComboChoices over one list of selectors. */
    method ReadChoices(combos: seq<PivotComboBox>) returns (r: Option<seq<Item>>)
      requires forall c :: c in combos ==> c.current < |c.items|
      ensures r == Chosen(Views(combos), false)
    {
      hide Chosen;
      var missing := false;
      var chosen := [];
      var i := 0;
      assert Views(combos)[0..] == Views(combos);
      PrependNothing(Chosen(Views(combos), false));
      while i < |combos|
        invariant i <= |combos|
        invariant Chosen(Views(combos), false) == Prepend(chosen, Chosen(Views(combos)[i..], missing))
      {
        var combo := combos[i];
        ChosenStep(Views(combos)[i..], missing);
        assert Views(combos)[i..][1..] == Views(combos)[i + 1..];
        if combo.level == 0 {
          if combo.current == 0 {
            return None;
          }
        } else {
          if combo.current != 0 {
            if missing {
              return None;
            }
          } else {
            missing := true;
          }
        }
        PrependTwice(chosen, Data(combo.View()), Chosen(Views(combos)[i + 1..], missing));
        match combo.items[combo.current] {
          case Some(data) => chosen := chosen + [data];
          case None =>
        }
        i := i + 1;
      }
      ChosenStep(Views(combos)[i..], missing);
      PrependTwice(chosen, [], None);
      return Some(chosen);
    }

    /** _getComboChoices */
    method GetComboChoices() returns (r: Option<Dimensions>)
      requires Valid() && forall c :: c in All() ==> c.current < |c.items|
      ensures FIXED <= |View()| && forall i :: 0 <= i < |View()| ==> View()[i].current < |View()[i].items|
      ensures r == ComboChoices(View())
    {
      hide Chosen;
      assert View()[3..6] == Views(rows) && View()[..3] == Views(columns) && View()[6..] == Views(displayed);
      var chosenRows := ReadChoices(rows);
      if chosenRows.None? {
        return None;
      }
      var chosenColumns := ReadChoices(columns);
      if chosenColumns.None? {
        return None;
      }
      var chosenValues := ReadChoices(displayed);
      if chosenValues.None? {
        return None;
      }
      return Some(Dimensions(chosenRows.value, chosenColumns.value, chosenValues.value));
    }
  }

  function Prepend(a: seq<Item>, r: Option<seq<Item>>): Option<seq<Item>> {
    match r
    case None => None
    case Some(b) => Some(a + b)
  }

  lemma PrependNothing(r: Option<seq<Item>>)
    ensures Prepend([], r) == r
  {
    match r
    case None =>
    case Some(b) => assert [] + b == b;
  }

  lemma PrependTwice(a: seq<Item>, b: seq<Item>, r: Option<seq<Item>>)
    ensures Prepend(a, Prepend(b, r)) == Prepend(a + b, r)
    ensures a + [] == a
  {
    match r
    case None =>
    case Some(c) => assert a + (b + c) == a + b + c;
  }

  lemma ChosenStep(cs: seq<Combo>, missing: bool)
    requires forall i :: 0 <= i < |cs| ==> cs[i].current < |cs[i].items|
    ensures cs == [] ==> Chosen(cs, missing) == Some([])
    ensures cs != [] ==>
              var c := cs[0];
              Chosen(cs, missing) ==
              if (c.level == 0 && c.current == 0) || (c.level != 0 && c.current != 0 && missing) then None
              else Prepend(Data(c), Chosen(cs[1..], missing || (c.level != 0 && c.current == 0)))
  {
  }

  lemma FreshDifferent(cs: seq<PivotComboBox>, c: PivotComboBox)
    requires Different(cs) && c !in cs
    ensures Different(cs + [c])
  {
  }

  lemma {:induction false} RemainingOnce(cs: seq<PivotComboBox>, removed: set<PivotComboBox>)
    requires Different(cs)
    ensures Different(Remaining(cs, removed))
  {
    if cs != [] {
      RemainingOnce(cs[..|cs| - 1], removed);
    }
  }

  lemma RemainingDifferent(a: seq<PivotComboBox>, b: seq<PivotComboBox>, removed: set<PivotComboBox>)
    requires Different(a + b)
    ensures Different(a + Remaining(b, removed))
  {
    var r := Remaining(b, removed);
    assert Different(a) by {
      forall i, j | 0 <= i < j < |a| ensures a[i] != a[j] {
        assert (a + b)[i] != (a + b)[j];
      }
    }
    assert Different(b) by {
      forall i, j | 0 <= i < j < |b| ensures b[i] != b[j] {
        assert (a + b)[|a| + i] != (a + b)[|a| + j];
      }
    }
    RemainingOnce(b, removed);
    forall i, j | 0 <= i < |a| && 0 <= j < |r| ensures a[i] != r[j] {
      assert r[j] in b;
      var k :| 0 <= k < |b| && b[k] == r[j];
      assert (a + b)[i] != (a + b)[|a| + k];
    }
  }

  /** A selector is a value selector exactly when it stands behind the fixed ones. */
  lemma ValueSelectors(fixed: seq<PivotComboBox>, displayed: seq<PivotComboBox>, src: nat)
    requires Different(fixed + displayed) && src < |fixed + displayed|
    ensures (fixed + displayed)[src] in displayed <==> src >= |fixed|
  {
    var all := fixed + displayed;
    forall k | 0 <= k < |displayed| && src < |fixed| ensures all[src] != displayed[k] {
      assert all[src] != all[|fixed| + k];
    }
    if src >= |fixed| {
      assert all[src] == displayed[src - |fixed|];
    }
  }

  lemma SplitViews(a: seq<PivotComboBox>, b: seq<PivotComboBox>, c: seq<PivotComboBox>)
    requires |a| == 3 && |b| == 3
    ensures Views(a + b + c) == Views(a + b) + Views(c) && |Views(a + b)| == FIXED
  {
  }

  lemma {:induction false} EnableUpToKeepsItems(c: Combo, n: nat)
    ensures EnableUpTo(c, n).items == c.items
  {
    if n > 0 {
      EnableUpToKeepsItems(c, n - 1);
    }
  }

  lemma ClearKeepsItems(c: Combo)
    ensures ClearCombo(c).items == c.items
  {
    EnableUpToKeepsItems(c.(current := 0), |c.items|);
  }

  /** A whole run of mouse picks and clears, performed on the window, leaves it as module Selection says. */
  method Perform(window: MainWindow, ghost items: seq<Option<Item>>, actions: seq<Action>) returns (accepted: bool)
    requires window.Valid() && window.View() == Start(INITIAL, items)
    modifies window, set c | c in window.All()
    ensures window.Valid()
    ensures accepted <==> Run(actions, items).Some?
    ensures accepted ==> Run(actions, items) == Some(window.View())
  {
    hide Act, Accepted;
    var i := 0;
    while i < |actions|
      invariant i <= |actions| && window.Valid()
      invariant Run(actions[..i], items) == Some(window.View())
      invariant forall c :: c in window.All() ==> c in old(window.All()) || fresh(c)
    {
      var a := actions[i];
      assert actions[..i + 1][..i] == actions[..i];
      ghost var before := window.View();
      accepted := PerformOne(window, a);
      if !accepted {
        RunFails(actions, i + 1, items);
        return false;
      }
      i := i + 1;
    }
    assert actions[..i] == actions;
    return true;
  }

  lemma {:induction false} RunFails(actions: seq<Action>, i: nat, items: seq<Option<Item>>)
    requires i <= |actions| && Run(actions[..i], items).None?
    ensures Run(actions, items).None?
    decreases |actions|
  {
    hide Act, Accepted;
    if i < |actions| {
      assert actions[..|actions| - 1][..i] == actions[..i];
      RunFails(actions[..|actions| - 1], i, items);
    } else {
      assert actions[..i] == actions;
    }
  }

  method PerformOne(window: MainWindow, a: Action) returns (accepted: bool)
    requires window.Valid()
    modifies window, set c | c in window.All()
    ensures window.Valid()
    ensures accepted <==> Accepted(old(window.View()), a)
    ensures accepted ==> window.View() == Act(old(window.View()), a)
    ensures forall c :: c in window.All() ==> c in old(window.All()) || fresh(c)
  {
    match a {
      case Clear =>
        window.ClearComboChoices();
        return true;
      case Pick(src, index) =>
        var all := window.All();
        if src >= |all| || index >= |all[src].items| || index in all[src].greyed {
          return false;
        }
        var source := all[src];
        window.Press(source, src);
        window.Activated(source, src, index);
        return true;
    }
  }
}
