/** Which selectors the window of cp/__main__.py has, which of them can be used, and what is read from
    them, by their roles and levels. */
module SelectorLevels {
  import opened Options
  import opened Selection

  /** The selectors of w are still there, in their places, with their roles and levels. */
  ghost predicate SamePlaces(w: Window, w': Window) {
    |w| <= |w'| && forall i :: 0 <= i < |w| ==> w'[i].role == w[i].role && w'[i].level == w[i].level
  }

  /** The selector stands one level below source, on the same axis. */
  predicate Next(c: Combo, source: Combo) {
    c.role == source.role && c.level == source.level + 1
  }

  /** What propagation leaves of one selector besides its disabled items. */
  lemma PropagatedAt(w: Window, src: nat, index: nat, i: nat)
    requires src < |w| && i < |w|
    ensures var w2 := PropagateAll(w[src := w[src].(current := index)], src, index);
            && |w2| == |w|
            && w2[i].role == w[i].role && w2[i].level == w[i].level && w2[i].items == w[i].items
            && w2[i].previousIndex == w[i].previousIndex
            && w2[i].current == (if i == src then index else w[i].current)
            && w2[i].enabled ==
               (if i == src || !Next(w[i], w[src]) then w[i].enabled
                else index != 0 && (w[src].previousIndex == Some(0) || w[i].enabled))
  {
    if i != src {
      PropagatedCombo(w[i], w[src].(current := index), index);
    }
  }

  lemma PropagatedCombo(c: Combo, source: Combo, index: nat)
    ensures var d := Propagate(c, source, index);
            && d.role == c.role && d.level == c.level && d.items == c.items
            && d.previousIndex == c.previousIndex && d.current == c.current
            && d.enabled ==
               (if !Next(c, source) then c.enabled
                else index != 0 && (source.previousIndex == Some(0) || c.enabled))
  {
    hide RemoveFirst;
  }

  // ---------------------------------------------------------------- when a value selector is created

  /** Choosing an item in a value selector adds one selector exactly when a press found it empty: one
      level below it, itself empty, never pressed, and with the same items. Otherwise the window keeps
      its selectors. A selector that was never pressed creates none. */
  lemma ActivateGrows(w: Window, src: nat, index: nat)
    requires FIXED <= src < |w| && index != 0
    ensures var w', n := Activate(w, src, index), if w[src].previousIndex == Some(0) then 1 else 0;
            && SamePlaces(w, w') && |w'| == |w| + n
            && (forall i :: 0 <= i < |w| ==> w'[i].current == if i == src then index else w[i].current)
            && (n == 1 ==>
                 var c := w'[|w|];
                 Next(c, w[src]) && c.current == 0 && c.previousIndex == None && c.enabled && c.items == w[src].items)
  {
    hide PropagateAll;
    forall i | 0 <= i < |w|
      ensures var w2 := PropagateAll(w[src := w[src].(current := index)], src, index);
              && |w2| == |w|
              && w2[i].role == w[i].role && w2[i].level == w[i].level && w2[i].items == w[i].items
              && w2[i].previousIndex == w[i].previousIndex
              && w2[i].current == (if i == src then index else w[i].current)
    {
      PropagatedAt(w, src, index, i);
    }
  }

  /** A mouse pick of an item in a value selector adds one exactly when that selector was empty. */
  lemma PickGrows(w: Window, src: nat, index: nat)
    requires FIXED <= src < |w| && index != 0
    ensures var w', n := Act(w, Pick(src, index)), if w[src].current == 0 then 1 else 0;
            && SamePlaces(w, w') && |w'| == |w| + n
            && (forall i :: 0 <= i < |w| ==> w'[i].current == if i == src then index else w[i].current)
            && (n == 1 ==>
                 var c := w'[|w|];
                 Next(c, w[src]) && c.current == 0 && c.previousIndex == None && c.enabled && c.items == w[src].items)
  {
    hide Activate;
    ActivateGrows(Press(w, src), src, index);
  }

  /** A pick in a row or column selector keeps all selectors. */
  lemma FixedPick(w: Window, src: nat, index: nat)
    requires src < |w| && src < FIXED
    ensures var w' := Act(w, Pick(src, index));
            && SamePlaces(w, w') && |w'| == |w|
            && forall i :: 0 <= i < |w| ==> w'[i].current == if i == src then index else w[i].current
  {
    hide PropagateAll;
    var p := Press(w, src);
    forall i | 0 <= i < |w|
      ensures var w' := Act(w, Pick(src, index));
              && |w'| == |w| && w'[i].role == w[i].role && w'[i].level == w[i].level
              && w'[i].current == (if i == src then index else w[i].current)
    {
      PropagatedAt(p, src, index, i);
    }
  }

  // ---------------------------------------------------------------- the chain of value selectors

  /** The value selectors have levels 0, 1, 2, ... in order; all are set but the last, which is empty;
      all can be used. */
  ghost predicate Chain(w: Window) {
    |w| > FIXED && forall i :: FIXED <= i < |w| ==> Link(w, i)
  }

  ghost predicate Link(w: Window, i: nat)
    requires FIXED <= i < |w|
  {
    w[i].role.C_DISPLAYED? && w[i].level == i - FIXED && (w[i].current != 0 <==> i < |w| - 1) && w[i].enabled
  }

  lemma KeepLast(cs: seq<Combo>, level: nat)
    requires cs != []
    ensures var n := |cs| - 1;
            KeepUpTo(cs, level) == KeepUpTo(cs[..n], level) + if cs[n].level > level then [] else [cs[n]]
  {
  }

  lemma {:induction false} KeepAscending(cs: seq<Combo>, level: nat)
    requires forall i :: 0 <= i < |cs| ==> cs[i].level == i
    ensures KeepUpTo(cs, level) == cs[..if level < |cs| then level + 1 else |cs|]
  {
    if cs != [] {
      hide KeepUpTo;
      var n := |cs| - 1;
      KeepLast(cs, level);
      KeepAscending(cs[..n], level);
      if level < n {
        assert cs[..n][..level + 1] == cs[..level + 1];
      } else {
        assert cs[..n] + [cs[n]] == cs[..n + 1];
      }
    }
  }

  /** Emptying a value selector of the chain leaves those up to it, and empties it. */
  lemma EmptyingCuts(w: Window, src: nat)
    requires Chain(w) && FIXED <= src < |w|
    ensures var w' := Act(w, Pick(src, 0));
            && |w'| == src + 1 && SamePlaces(w', w)
            && forall i :: 0 <= i < |w'| ==> w'[i].current == (if i == src then 0 else w[i].current) &&
                                             (i < FIXED || w'[i].enabled)
  {
    hide PropagateAll, KeepUpTo;
    var p := Press(w, src);
    var w2 := PropagateAll(p[src := p[src].(current := 0)], src, 0);
    forall i | 0 <= i < |w|
      ensures |w2| == |w| && w2[i].role == w[i].role && w2[i].level == w[i].level
      ensures w2[i].current == if i == src then 0 else w[i].current
      ensures FIXED <= i <= src ==> w2[i].enabled
    {
      PropagatedAt(p, src, 0, i);
      assert FIXED <= i ==> Link(w, i);
      assert Link(w, src);
    }
    forall i | 0 <= i < |w2| - FIXED ensures w2[FIXED..][i].level == i {
      assert w2[FIXED..][i] == w2[FIXED + i] && Link(w, FIXED + i);
    }
    KeepAscending(w2[FIXED..], src - FIXED);
    assert Act(w, Pick(src, 0)) == w2[..FIXED] + w2[FIXED..][..src - FIXED + 1];
    assert Act(w, Pick(src, 0)) == w2[..src + 1];
  }

  lemma EnabledStays(w: Window, src: nat, index: nat, i: nat)
    requires Chain(w) && src < |w| && FIXED <= i < |w| && index != 0
    ensures var w' := Act(w, Pick(src, index)); i < |w'| && w'[i].enabled
  {
    hide PropagateAll;
    PropagatedAt(Press(w, src), src, index, i);
    assert Link(w, i);
  }

  lemma FixedEnabled(w: Window, src: nat, index: nat, i: nat)
    requires Chain(w) && src < FIXED && FIXED <= i < |w| && w[src].role != C_DISPLAYED
    ensures var w' := Act(w, Pick(src, index)); i < |w'| && w'[i].enabled
  {
    hide PropagateAll;
    PropagatedAt(Press(w, src), src, index, i);
    assert Link(w, i);
  }

  /** Every pick keeps the chain. */
  lemma ChainStep(w: Window, src: nat, index: nat)
    requires Chain(w) && src < |w| && (src < FIXED ==> w[src].role != C_DISPLAYED)
    ensures Chain(Act(w, Pick(src, index)))
  {
    hide Act;
    var w' := Act(w, Pick(src, index));
    if src < FIXED {
      FixedPick(w, src, index);
      forall i | FIXED <= i < |w'| ensures Link(w', i) {
        assert Link(w, i);
        FixedEnabled(w, src, index, i);
      }
    } else if index == 0 {
      EmptyingCuts(w, src);
      forall i | FIXED <= i < |w'| ensures Link(w', i) {
        assert Link(w, i);
      }
    } else {
      PickGrows(w, src, index);
      assert Link(w, src);
      forall i | FIXED <= i < |w'| ensures Link(w', i) {
        if i < |w| {
          assert Link(w, i);
          EnabledStays(w, src, index, i);
        }
      }
    }
  }

  // ---------------------------------------------------------------- roles and levels in every run

  /** Three column selectors, three row selectors, the first value selector at level 0 and further ones
      at higher levels. */
  ghost predicate Placed(w: Window) {
    && |w| > FIXED
    && (forall i :: 0 <= i < 3 ==> w[i].role.C_COLUMN? && w[i].level == i + 1)
    && (forall i :: 3 <= i < 6 ==> w[i].role.C_ROW? && w[i].level == i - 2)
    && w[6].role.C_DISPLAYED? && w[6].level == 0
    && (forall i :: 6 < i < |w| ==> w[i].role.C_DISPLAYED? && w[i].level > 0)
  }

  lemma PlacedSame(w: Window, w': Window)
    requires Placed(w) && SamePlaces(w, w')
    requires forall i :: |w| <= i < |w'| ==> w'[i].role.C_DISPLAYED? && w'[i].level > 0
    ensures Placed(w')
  {
  }

  lemma SeventhIsSixth(f: seq<nat>)
    requires |f| >= 6 && 6 in f && forall k :: 0 <= k < 6 ==> f[k] == k
    requires forall k, l :: 0 <= k < l < |f| ==> f[k] < f[l]
    ensures |f| > 6 && f[6] == 6 && forall k :: 6 < k < |f| ==> f[k] > 6
  {
    assert forall k :: 0 <= k < 6 ==> f[k] != 6;
    assert f[5] < f[6];
    assert forall k :: 6 < k < |f| ==> f[6] < f[k];
  }

  lemma KeptPlaced(w: Window, level: nat)
    requires Placed(w)
    ensures Placed(Kept(w, level)) && Kept(w, level)[..FIXED] == w[..FIXED]
  {
    var f := KeptIndices(w, level);
    SeventhIsSixth(f);
    hide Kept;
  }

  lemma PlacedStep(w: Window, src: nat, index: nat)
    requires Placed(w) && src < |w|
    ensures Placed(Act(w, Pick(src, index)))
  {
    hide Act;
    if src < FIXED {
      FixedPick(w, src, index);
      PlacedSame(w, Act(w, Pick(src, index)));
    } else if index != 0 {
      PickGrows(w, src, index);
      PlacedSame(w, Act(w, Pick(src, index)));
    } else {
      EmptiedPlaced(w, src);
    }
  }

  lemma EmptiedPlaced(w: Window, src: nat)
    requires Placed(w) && FIXED <= src < |w|
    ensures Placed(Act(w, Pick(src, 0)))
  {
    hide PropagateAll, Kept, Placed;
    var p := Press(w, src);
    var w2 := PropagateAll(p[src := p[src].(current := 0)], src, 0);
    forall i | 0 <= i < |w| ensures |w2| == |w| && w2[i].role == w[i].role && w2[i].level == w[i].level {
      PropagatedAt(p, src, 0, i);
    }
    PropagatedAt(p, src, 0, src);
    PlacedSame(w, w2);
    KeptPlaced(w2, w2[src].level);
  }

  lemma ClearPlaces(w: Window)
    ensures var w' := ClearAll(w);
            && |w'| == |w| && SamePlaces(w, w')
            && forall i :: 0 <= i < |w| ==> w'[i].current == 0 && (w'[i].enabled <==> w[i].level <= 1)
  {
    forall i | 0 <= i < |w|
      ensures ClearCombo(w[i]).role == w[i].role && ClearCombo(w[i]).level == w[i].level
      ensures ClearCombo(w[i]).current == 0 && (ClearCombo(w[i]).enabled <==> w[i].level <= 1)
    {
      EnablingKeeps(w[i].(current := 0), |w[i].items|);
    }
  }

  lemma {:induction false} EnablingKeeps(c: Combo, n: nat)
    ensures var d := EnableUpTo(c, n); d.role == c.role && d.level == c.level && d.current == c.current
  {
    hide RemoveFirst;
    if n > 0 {
      EnablingKeeps(c, n - 1);
    }
  }

  /** In every run. */
  lemma {:induction false} PlacedRun(actions: seq<Action>, items: seq<Option<Item>>)
    requires Run(actions, items).Some?
    ensures Placed(Run(actions, items).value)
  {
    hide Act, Accepted, ClearAll, Placed;
    if actions == [] {
      StartPlaced(items);
    } else {
      var before, a := actions[..|actions| - 1], actions[|actions| - 1];
      var w := Run(before, items).value;
      PlacedRun(before, items);
      AcceptedThere(w, a);
      match a {
        case Pick(src, index) =>
          PlacedStep(w, src, index);
        case Clear =>
          ClearPlaces(w);
          ActClears(w);
          PlacedCleared(w);
      }
    }
  }

  lemma PlacedCleared(w: Window)
    requires Placed(w)
    ensures Placed(ClearAll(w))
  {
    hide ClearAll;
    ClearPlaces(w);
  }

  lemma ActClears(w: Window)
    ensures Act(w, Clear) == ClearAll(w)
  {
    hide ClearAll;
  }

  lemma AcceptedThere(w: Window, a: Action)
    requires Accepted(w, a)
    ensures a.Pick? ==> a.src < |w| && a.index < |w[a.src].items| && a.index !in w[a.src].greyed
  {
  }

  lemma StartPlaced(items: seq<Option<Item>>)
    ensures Placed(Start(INITIAL, items)) && Chain(Start(INITIAL, items)) && Gated(Start(INITIAL, items))
  {
    assert |INITIAL| == 7;
  }

  /** In every run without a clear, the value selectors form a chain: levels 0, 1, 2, ... in order, all set
      but the last. */
  lemma {:induction false} ChainRun(actions: seq<Action>, items: seq<Option<Item>>)
    requires Run(actions, items).Some? && forall i :: 0 <= i < |actions| ==> actions[i].Pick?
    ensures Chain(Run(actions, items).value)
  {
    hide Act, Accepted, Chain;
    if actions == [] {
      StartPlaced(items);
    } else {
      var before, a := actions[..|actions| - 1], actions[|actions| - 1];
      ChainRun(before, items);
      PlacedRun(before, items);
      AcceptedThere(Run(before, items).value, a);
      ChainStep(Run(before, items).value, a.src, a.index);
    }
  }

  /** Clearing keeps every selector with its level and empties all of them, so the chain survives exactly
      when there was only one value selector. */
  lemma ClearChainExactly(w: Window)
    requires Chain(w)
    ensures Chain(ClearAll(w)) <==> |w| == FIXED + 1
  {
    hide ClearAll;
    ClearPlaces(w);
    var w' := ClearAll(w);
    if |w| > FIXED + 1 {
      assert !Link(w', FIXED);
    } else {
      assert Link(w, FIXED);
      assert Link(w', FIXED);
    }
  }

  /** After a clear the chain can break for good: choosing an item, clearing, and choosing one again
      makes two value selectors of level 1. */
  lemma TwoOfOneLevel(items: seq<Option<Item>>)
    requires |items| > 1
    ensures var run := Run([Pick(6, 1), Clear, Pick(6, 1)], items);
            run.Some? && |run.value| == 9 && run.value[7].level == 1 && run.value[8].level == 1 && !Chain(run.value)
  {
    hide Run, Act, Exclusive, Accepted, ClearAll, Chain, Start;
    var w0 := Start(INITIAL, items);
    var a1, a2 := Pick(6, 1), Clear;
    StartExclusive(items);
    StartPlaced(items);
    SevenAtStart(items);
    Pickable(w0, 6, 1, items);
    PickGrows(w0, 6, 1);
    var w1 := Act(w0, a1);
    var taken := PickedExclusive(w0, 6, 1, items);
    ClearExclusive(w1, items, taken);
    ClearPlaces(w1);
    ActClears(w1);
    var w2 := ClearAll(w1);
    Clearable(w1);
    Pickable(w2, 6, 1, items);
    PickGrows(w2, 6, 1);
    ThreeSteps(w0, a1, a2, a1, items);
    TwoAlike(Act(w2, a1));
  }

  lemma SevenAtStart(items: seq<Option<Item>>)
    ensures var w := Start(INITIAL, items); |w| == 7 && w[6].level == 0 && w[6].current == 0
  {
    assert |INITIAL| == 7;
  }

  lemma Clearable(w: Window)
    ensures Accepted(w, Clear)
  {
  }

  lemma Pickable(w: Window, src: nat, index: nat, items: seq<Option<Item>>)
    requires Exclusive(w, items, {}) && src < |w| && index < |items|
    ensures Accepted(w, Pick(src, index))
  {
    assert Tidy(w[src]) && w[src].greyed == {} - {w[src].current};
  }

  lemma PickedExclusive(w: Window, src: nat, index: nat, items: seq<Option<Item>>) returns (taken: set<nat>)
    requires Exclusive(w, items, {}) && Accepted(w, Pick(src, index))
    ensures Exclusive(Act(w, Pick(src, index)), items, taken)
  {
    hide Exclusive, Activate;
    PressExclusive(w, src, items, {});
    var p := Press(w, src);
    ActivateExclusive(p, src, index, items, {});
    taken := TakenAfter(p, src, index, {});
  }

  lemma TwoAlike(w: Window)
    requires |w| == 9 && w[7].level == w[8].level
    ensures !Chain(w)
  {
    assert !Link(w, 7) || !Link(w, 8);
  }

  // ---------------------------------------------------------------- which selectors can be used

  /** A row or column selector can be used exactly when it is the first of its axis or the one before it
      is set. */
  ghost predicate Gated(w: Window) {
    |w| > FIXED && forall i :: 0 <= i < FIXED ==> Gate(w, i)
  }

  ghost predicate Gate(w: Window, i: nat)
    requires FIXED < |w| && i < FIXED
  {
    w[i].enabled <==> i == 0 || i == 3 || w[i - 1].current != 0
  }

  lemma GatedStep(w: Window, src: nat, index: nat)
    requires Placed(w) && Gated(w) && src < |w|
    ensures Gated(Act(w, Pick(src, index)))
  {
    hide PropagateAll, KeepUpTo;
    var p, w' := Press(w, src), Act(w, Pick(src, index));
    var w2 := PropagateAll(p[src := p[src].(current := index)], src, index);
    PlacedStep(w, src, index);
    assert |w2| == |w| && w'[..FIXED] == w2[..FIXED] by {
      PropagatedAt(p, src, index, src);
    }
    forall i | 0 <= i < FIXED ensures Gate(w', i) {
      assert Gate(w, i);
      assert w'[i] == w'[..FIXED][i] && w2[i] == w2[..FIXED][i];
      PropagatedAt(p, src, index, i);
      assert Next(w[i], w[src]) <==> i == src + 1 && i != 3 by {
        if src >= FIXED { assert w[src].role.C_DISPLAYED?; }
      }
      if i > 0 {
        assert w'[i - 1] == w'[..FIXED][i - 1] && w2[i - 1] == w2[..FIXED][i - 1];
        PropagatedAt(p, src, index, i - 1);
      }
    }
  }

  lemma {:induction false} GatedRun(actions: seq<Action>, items: seq<Option<Item>>)
    requires Run(actions, items).Some?
    ensures Gated(Run(actions, items).value)
  {
    hide Act, Accepted, Gated, ClearAll;
    if actions == [] {
      StartPlaced(items);
    } else {
      var before, a := actions[..|actions| - 1], actions[|actions| - 1];
      var w := Run(before, items).value;
      GatedRun(before, items);
      PlacedRun(before, items);
      AcceptedThere(w, a);
      match a {
        case Pick(src, index) =>
          GatedStep(w, src, index);
        case Clear =>
          ActClears(w);
          GatedCleared(w);
      }
    }
  }

  lemma GatedCleared(w: Window)
    requires Placed(w)
    ensures Gated(ClearAll(w))
  {
    hide ClearAll;
    ClearPlaces(w);
    forall i | 0 <= i < FIXED ensures Gate(ClearAll(w), i) {
    }
  }

  /** In every run of mouse picks and clears: the row and the column selector of level 1 can be used, and
      one of a further level exactly when that of the level before is set. */
  lemma EnabledExactly(actions: seq<Action>, items: seq<Option<Item>>, i: nat, j: nat)
    requires Run(actions, items).Some?
    requires var w := Run(actions, items).value;
             i < |w| && j < |w| && w[i].role == w[j].role != C_DISPLAYED && w[j].level == w[i].level + 1
    ensures var w := Run(actions, items).value;
            && (w[i].level == 1 ==> w[i].enabled)
            && (w[j].enabled <==> w[i].current != 0)
  {
    hide Run;
    PlacedRun(actions, items);
    GatedRun(actions, items);
    var w := Run(actions, items).value;
    assert j == i + 1 && j < FIXED && j != 3;
    assert Gate(w, i) && Gate(w, j);
  }

  // ---------------------------------------------------------------- what is read

  /** The list holds the choices of the selectors of this role, level by level; no level is set behind it. */
  ghost predicate ReadsLevels(w: Window, items: seq<Option<Item>>, role: Role, list: seq<Item>) {
    |list| <= 3 && forall i :: 0 <= i < |w| && w[i].role == role ==> ReadsLevel(w[i], items, list)
  }

  ghost predicate ReadsLevel(c: Combo, items: seq<Option<Item>>, list: seq<Item>) {
    && 1 <= c.level
    && (c.current != 0 <==> c.level <= |list|)
    && (c.current != 0 ==> c.current < |items| && items[c.current] == Some(list[c.level - 1]))
  }

  /** The list holds the choices of the value selectors, in the order they stand in. */
  ghost predicate ReadsValues(w: Window, items: seq<Option<Item>>, list: seq<Item>)
    requires FIXED <= |w|
  {
    && 1 <= |list| <= |w| - FIXED
    && forall i :: FIXED <= i < |w| ==>
         && (w[i].current != 0 <==> i - FIXED < |list|)
         && (w[i].current != 0 ==> w[i].current < |items| && items[w[i].current] == Some(list[i - FIXED]))
  }

  /** On this axis no selector is set while one of a lower level is empty. */
  ghost predicate NoLevelSkipped(w: Window, role: Role) {
    forall i, j | 0 <= i < |w| && 0 <= j < |w| && w[i].role == w[j].role == role && w[i].level < w[j].level ::
      w[j].current != 0 ==> w[i].current != 0
  }

  /** The selectors of this role are the three from lo on, in order of their levels. */
  ghost predicate OnAxis(w: Window, lo: nat, role: Role) {
    && lo + 3 <= |w|
    && (forall k :: lo <= k < lo + 3 ==> w[k].role == role && w[k].level == k - lo + 1)
    && forall i :: 0 <= i < |w| && w[i].role == role ==> lo <= i < lo + 3
  }

  lemma PlacedAxes(w: Window)
    requires Placed(w)
    ensures OnAxis(w, 0, C_COLUMN) && OnAxis(w, 3, C_ROW)
  {
  }

  lemma SliceGap(w: Window, lo: nat, role: Role)
    requires OnAxis(w, lo, role)
    ensures NoGap(w[lo..lo + 3]) <==> NoLevelSkipped(w, role)
  {
    var cs := w[lo..lo + 3];
    if NoGap(cs) {
      forall i, j | 0 <= i < |w| && 0 <= j < |w| && w[i].role == w[j].role == role && w[i].level < w[j].level
        ensures w[j].current != 0 ==> w[i].current != 0
      {
        assert cs[i - lo] == w[i] && cs[j - lo] == w[j];
      }
    }
    if NoLevelSkipped(w, role) {
      forall i, j | 0 <= i < j < 3 && cs[i].current == 0 ensures cs[j].current == 0 {
        assert cs[i] == w[lo + i] && cs[j] == w[lo + j];
      }
    }
  }

  lemma SliceRead(w: Window, lo: nat, hi: nat, role: Role, items: seq<Option<Item>>)
    requires ProperItems(items) && hi == lo + 3 && OnAxis(w, lo, role)
    requires forall i :: 0 <= i < |w| ==> w[i].items == items && w[i].current < |items|
    ensures Chosen(w[lo..hi], false).Some? <==> NoLevelSkipped(w, role)
    ensures Chosen(w[lo..hi], false).Some? ==> ReadsLevels(w, items, role, Chosen(w[lo..hi], false).value)
  {
    hide Chosen, ProperItems, NoGap, NoLevelSkipped;
    var cs := w[lo..hi];
    SliceGap(w, lo, role);
    assert Axis(cs, items);
    AxisAccepted(cs, items, false);
    if Chosen(cs, false).Some? {
      AxisChoices(cs, items);
      hide Axis;
      forall i | 0 <= i < |w| && w[i].role == role ensures ReadsLevel(w[i], items, Chosen(cs, false).value) {
        assert w[i] == cs[i - lo];
      }
    }
  }

  /** No value selector behind the first is set after an empty one. */
  ghost predicate NoValueSkipped(w: Window) {
    forall i, j :: FIXED < i < j < |w| && w[j].current != 0 ==> w[i].current != 0
  }

  lemma ValuesRead(w: Window, items: seq<Option<Item>>)
    requires ProperItems(items) && Placed(w)
    requires forall i :: 0 <= i < |w| ==> w[i].items == items && w[i].current < |items|
    ensures Chosen(w[6..], false).Some? <==> w[6].current != 0 && NoValueSkipped(w)
    ensures Chosen(w[6..], false).Some? ==> ReadsValues(w, items, Chosen(w[6..], false).value)
  {
    var cs, tail := w[6..], w[7..];
    assert cs[0] == w[6] && cs[1..] == tail;
    assert forall k :: 0 <= k < |tail| ==> tail[k] == w[k + 7];
    ValueHead(cs);
    hide Chosen, ProperItems;
    assert Axis(tail, items);
    TailGap(w);
    AxisAccepted(tail, items, false);
    if Chosen(cs, false).Some? {
      AxisChoices(tail, items);
      HeadData(w[6], items);
      var rest := Chosen(tail, false).value;
      var list := Data(w[6]) + rest;
      forall i | FIXED <= i < |w|
        ensures w[i].current != 0 <==> i - FIXED < |list|
        ensures w[i].current != 0 ==> items[w[i].current] == Some(list[i - FIXED])
      {
        if i > FIXED {
          assert w[i] == tail[i - 7];
        }
      }
    }
  }

  lemma TailGap(w: Window)
    requires FIXED < |w|
    ensures NoGap(w[7..]) <==> NoValueSkipped(w)
  {
    var t := w[7..];
    if NoGap(t) {
      forall i, j | FIXED < i < j < |w| && w[j].current != 0 ensures w[i].current != 0 {
        assert t[i - 7] == w[i] && t[j - 7] == w[j];
      }
    }
  }

  lemma HeadData(c: Combo, items: seq<Option<Item>>)
    requires ProperItems(items) && c.items == items && 0 < c.current < |items|
    ensures |Data(c)| == 1 && items[c.current] == Some(Data(c)[0])
  {
  }

  lemma ValueHead(cs: seq<Combo>)
    requires cs != [] && cs[0].level == 0 && forall i :: 0 <= i < |cs| ==> cs[i].current < |cs[i].items|
    ensures Chosen(cs, false).Some? <==> cs[0].current != 0 && Chosen(cs[1..], false).Some?
    ensures Chosen(cs, false).Some? ==> Chosen(cs, false).value == Data(cs[0]) + Chosen(cs[1..], false).value
  {
  }

  lemma ChoicesUnfold(w: Window)
    requires FIXED < |w| && forall i :: 0 <= i < |w| ==> w[i].current < |w[i].items|
    ensures var r, c, v := Chosen(w[3..6], false), Chosen(w[0..3], false), Chosen(w[6..], false);
            && (ComboChoices(w).Some? <==> r.Some? && c.Some? && v.Some?)
            && (ComboChoices(w).Some? ==> ComboChoices(w).value == Dimensions(r.value, c.value, v.value))
  {
    hide Chosen;
    assert w[..3] == w[0..3];
  }

  /** The choices are accepted exactly when the first value selector is set and no selector is set behind an
      empty one of its kind; then the rows are those of the row selectors and the columns those of the
      column selectors, level by level, and the values those of the value selectors. */
  ghost predicate ReadRight(w: Window, items: seq<Option<Item>>) {
    && FIXED < |w|
    && (forall i :: 0 <= i < |w| ==> w[i].current < |w[i].items|)
    && match ComboChoices(w)
       case None =>
         w[6].current == 0 || !NoValueSkipped(w) || !NoLevelSkipped(w, C_ROW) || !NoLevelSkipped(w, C_COLUMN)
       case Some(d) =>
         && w[6].current != 0 && NoValueSkipped(w) && NoLevelSkipped(w, C_ROW) && NoLevelSkipped(w, C_COLUMN)
         && ReadsLevels(w, items, C_ROW, d.rows)
         && ReadsLevels(w, items, C_COLUMN, d.columns)
         && ReadsValues(w, items, d.values)
  }

  lemma WindowRead(w: Window, items: seq<Option<Item>>)
    requires ProperItems(items) && Placed(w)
    requires forall i :: 0 <= i < |w| ==> w[i].items == items && w[i].current < |items|
    ensures ReadRight(w, items)
  {
    assert FIXED < |w|;
    hide Placed, OnAxis, Chosen, ComboChoices, ProperItems, NoValueSkipped, NoLevelSkipped, ReadsLevels, ReadsValues;
    PlacedAxes(w);
    ChoicesUnfold(w);
    SliceRead(w, 3, 6, C_ROW, items);
    SliceRead(w, 0, 3, C_COLUMN, items);
    ValuesRead(w, items);
  }

  /** In every run of mouse picks and clears. */
  lemma DimensionsRead(actions: seq<Action>, items: seq<Option<Item>>)
    requires ProperItems(items) && Run(actions, items).Some?
    ensures ReadRight(Run(actions, items).value, items)
  {
    assert items != [];
    hide *;
    var w := Run(actions, items).value;
    RunExclusive(actions, items);
    PlacedRun(actions, items);
    CurrentsInRange(w, items, Choices(w) + Lost(actions, items));
    WindowRead(w, items);
  }
}
