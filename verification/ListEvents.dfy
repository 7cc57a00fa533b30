/** What combo box and check box events do to the rows and the selections, and runs of them. */
module ListEvents {
  import opened Wrappers
  import opened ClassifyItem
  import opened LabelGraph

  // ------------------------------------------------------------------ the handler, as a function

  /** The end of the run of rows from k on that stand above row n's level. */
  function RunEnd(lines: seq<Line>, n: nat, k: nat): (end: nat)
    requires n < k <= |lines|
    ensures k <= end <= |lines|
    decreases |lines| - k
  {
    if k < |lines| && lines[k].level > lines[n].level then RunEnd(lines, n, k + 1) else k
  }

  /** It is the maximal such run. */
  lemma {:induction false} RunIsMaximal(lines: seq<Line>, n: nat, k: nat)
    requires n < k <= |lines|
    ensures forall j :: k <= j < RunEnd(lines, n, k) ==> lines[j].level > lines[n].level
    ensures RunEnd(lines, n, k) < |lines| ==> lines[RunEnd(lines, n, k)].level <= lines[n].level
    decreases |lines| - k
  {
    if k < |lines| && lines[k].level > lines[n].level {
      RunIsMaximal(lines, n, k + 1);
    }
  }

  /** The insertion loop of OnComboBoxSelectChange, from the k-th sub-label id of value v of label x on:
      it clears and inserts sub-labels one level up, until an id does not resolve. */
  function InsertRows(cat: Catalog, x: nat, v: nat, k: nat, level: int): (r: (Catalog, seq<Line>))
    requires x < |cat| && !cat[x].multi && v < |cat[x].values| && k <= |cat[x].values[v].subItems|
    ensures |r.0| == |cat|
    decreases |cat[x].values[v].subItems| - k
  {
    if k == |cat[x].values[v].subItems| then (cat, [])
    else
      var c := Edge(cat, x, v, k);
      if c == None then (cat, [])
      else
        var rest := InsertRows(cat[c.value := cat[c.value].Select(-1)], x, v, k + 1, level);
        (rest.0, [Line(c.value, level)] + rest.1)
  }

  /** The selection change and the insertions for row n set to combo index sel; index 0 is the blank entry. */
  function Chosen(cat: Catalog, at: Line, sel: int): (r: (Catalog, seq<Line>))
    requires at.item < |cat| && !cat[at.item].multi
    ensures |r.0| == |cat|
  {
    var x := at.item;
    var cat1 := cat[x := cat[x].Select(sel - 1)];
    if 0 <= sel - 1 < |cat[x].values| then InsertRows(cat1, x, sel - 1, 0, at.level + 1) else (cat1, [])
  }

  /** OnComboBoxSelectChange on row n with combo index sel: the new catalog and the new rows. */
  function Combo(cat: Catalog, lines: seq<Line>, n: nat, sel: int): (r: (Catalog, seq<Line>))
    requires n < |lines| && lines[n].item < |cat| && !cat[lines[n].item].multi
    ensures |r.0| == |cat|
  {
    var chosen := Chosen(cat, lines[n], sel);
    (chosen.0, lines[..n + 1] + chosen.1 + lines[RunEnd(lines, n, n + 1)..])
  }

  /** Label y is one of the rows. */
  predicate Shown(rows: seq<Line>, y: nat) {
    exists j :: 0 <= j < |rows| && rows[j].item == y
  }

  /** The insertion loop takes the longest run of resolvable sub-label ids and shows each on the same level. */
  lemma {:induction false} InsertedRows(cat: Catalog, x: nat, v: nat, k: nat, level: int)
    requires x < |cat| && !cat[x].multi && v < |cat[x].values| && k <= |cat[x].values[v].subItems|
    ensures var rows, subs := InsertRows(cat, x, v, k, level).1, cat[x].values[v].subItems;
      && k + |rows| <= |subs| && (k + |rows| < |subs| ==> Lookup(cat, subs[k + |rows|]) == None)
      && (forall j :: 0 <= j < |rows| ==> rows[j].level == level)
      && (forall j :: k <= j < k + |rows| ==> Lookup(cat, subs[j]) == Some(rows[j - k].item))
    decreases |cat[x].values[v].subItems| - k
  {
    var subs := cat[x].values[v].subItems;
    if k < |subs| {
      var c := Edge(cat, x, v, k);
      if c.Some? {
        var cat1 := cat[c.value := cat[c.value].Select(-1)];
        InsertedRows(cat1, x, v, k + 1, level);
        LookupsSame(cat, cat1, subs);
        var rest, rows := InsertRows(cat1, x, v, k + 1, level).1, InsertRows(cat, x, v, k, level).1;
        forall j | k <= j < k + |rows|
          ensures Lookup(cat, subs[j]) == Some(rows[j - k].item)
        {
          assert j > k ==> rows[j - k] == rest[j - (k + 1)];
        }
      }
    }
  }

  /** It clears exactly the labels it shows. */
  lemma {:induction false} InsertedCleared(cat: Catalog, x: nat, v: nat, k: nat, level: int)
    requires x < |cat| && !cat[x].multi && v < |cat[x].values| && k <= |cat[x].values[v].subItems|
    ensures var r := InsertRows(cat, x, v, k, level);
      forall y :: 0 <= y < |cat| ==> r.0[y] == if Shown(r.1, y) then cat[y].Select(-1) else cat[y]
    decreases |cat[x].values[v].subItems| - k
  {
    if k < |cat[x].values[v].subItems| {
      var c := Edge(cat, x, v, k);
      if c.Some? {
        var cat1 := cat[c.value := cat[c.value].Select(-1)];
        InsertedCleared(cat1, x, v, k + 1, level);
        ShownFirst(Line(c.value, level), InsertRows(cat1, x, v, k + 1, level).1);
      }
    }
  }

  lemma ShownFirst(first: Line, rest: seq<Line>)
    ensures forall y: nat :: Shown([first] + rest, y) <==> y == first.item || Shown(rest, y)
  {
    var all := [first] + rest;
    forall y: nat
      ensures Shown(all, y) <==> y == first.item || Shown(rest, y)
    {
      if y == first.item {
        assert all[0].item == y;
      }
      if Shown(rest, y) {
        var j :| 0 <= j < |rest| && rest[j].item == y;
        assert all[j + 1].item == y;
      }
      if Shown(all, y) {
        var j :| 0 <= j < |all| && all[j].item == y;
        assert j == 0 || rest[j - 1].item == y;
      }
    }
  }

  /** Only the changed row's label and the labels of new rows change, and only in their selection. */
  lemma ChosenSelections(cat: Catalog, at: Line, sel: int)
    requires at.item < |cat| && !cat[at.item].multi
    ensures var r := Chosen(cat, at, sel);
      forall y :: 0 <= y < |cat| ==>
        r.0[y] == if Shown(r.1, y) then cat[y].Select(-1) else if y == at.item then cat[y].Select(sel - 1) else cat[y]
  {
    var x := at.item;
    var cat1 := cat[x := cat[x].Select(sel - 1)];
    if 0 <= sel - 1 < |cat[x].values| {
      InsertedCleared(cat1, x, sel - 1, 0, at.level + 1);
    }
  }

  /** The new rows are the sub-labels of the chosen value up to the first id that does not resolve, one level
      above the changed row. */
  predicate ShowsSubLabels(cat: Catalog, at: Line, sel: int, rows: seq<Line>)
    requires at.item < |cat|
  {
    if 0 <= sel - 1 < |cat[at.item].values| then
      var subs := cat[at.item].values[sel - 1].subItems;
      && |rows| <= |subs| && (|rows| < |subs| ==> Lookup(cat, subs[|rows|]) == None)
      && forall j :: 0 <= j < |rows| ==> rows[j].level == at.level + 1 && Lookup(cat, subs[j]) == Some(rows[j].item)
    else rows == []
  }

  lemma LookupsSame(cat: Catalog, cat': Catalog, ids: seq<string>)
    requires SameGraph(cat, cat')
    ensures forall j :: 0 <= j < |ids| ==> Lookup(cat', ids[j]) == Lookup(cat, ids[j])
  {
    forall j | 0 <= j < |ids|
      ensures Lookup(cat', ids[j]) == Lookup(cat, ids[j])
    {
      LookupSame(cat, cat', ids[j], 0);
    }
  }

  lemma ChosenRows(cat: Catalog, at: Line, sel: int)
    requires at.item < |cat| && !cat[at.item].multi
    ensures ShowsSubLabels(cat, at, sel, Chosen(cat, at, sel).1)
  {
    var x := at.item;
    var cat1 := cat[x := cat[x].Select(sel - 1)];
    if 0 <= sel - 1 < |cat[x].values| {
      var subs, rows := cat[x].values[sel - 1].subItems, Chosen(cat, at, sel).1;
      LookupsSame(cat, cat1, subs);
      InsertedRows(cat1, x, sel - 1, 0, at.level + 1);
      forall j | 0 <= j < |rows|
        ensures rows[j].level == at.level + 1 && Lookup(cat, subs[j]) == Some(rows[j].item)
      {
        assert Lookup(cat1, subs[j]) == Some(rows[j - 0].item);
      }
    }
  }

  /** On any rows over any label graph: the handler keeps every row up to n, deletes exactly the maximal
      following run above row n's level, and keeps every row after it. */
  lemma ComboMeaning(cat: Catalog, lines: seq<Line>, n: nat, sel: int) returns (inserted: seq<Line>, end: nat)
    requires n < |lines| && lines[n].item < |cat| && !cat[lines[n].item].multi
    ensures n < end <= |lines|
    ensures forall j :: n < j < end ==> lines[j].level > lines[n].level
    ensures end < |lines| ==> lines[end].level <= lines[n].level
    ensures Combo(cat, lines, n, sel).1 == lines[..n + 1] + inserted + lines[end..]
    ensures ShowsSubLabels(cat, lines[n], sel, inserted)
    ensures forall y :: 0 <= y < |cat| ==>
      Combo(cat, lines, n, sel).0[y] ==
        if Shown(inserted, y) then cat[y].Select(-1) else if y == lines[n].item then cat[y].Select(sel - 1) else cat[y]
  {
    RunIsMaximal(lines, n, n + 1);
    ChosenSelections(cat, lines[n], sel);
    ChosenRows(cat, lines[n], sel);
    inserted, end := Chosen(cat, lines[n], sel).1, RunEnd(lines, n, n + 1);
  }

  // ------------------------------------------------------------------ whole runs

  /** A user event: row n's combo box set to index sel, or its i-th check box ticked or cleared. */
  datatype Event = ComboSet(n: nat, sel: int) | CheckSet(n: nat, i: nat, on: bool)

  /** The event can come from the rows displayed: combo boxes belong to single-selection labels and offer
      the blank entry and every value, check boxes belong to multiple-selection ones. */
  predicate CanHappen(cat: Catalog, lines: seq<Line>, e: Event) {
    && e.n < |lines| && lines[e.n].item < |cat|
    && match e
       case ComboSet(n, sel) => !cat[lines[n].item].multi && 0 <= sel <= |cat[lines[n].item].values|
       case CheckSet(n, i, _) => cat[lines[n].item].multi && i < |cat[lines[n].item].values|
  }

  function Check(cat: Catalog, x: nat, i: nat, on: bool): Catalog
    requires x < |cat|
  {
    cat[x := if on then cat[x].Select(i) else cat[x].Unselect(i)]
  }

  /** Value i is added to the selection or removed from it, and nothing else is different. */
  ghost predicate Ticked(st: ItemState, st': ItemState, i: nat, on: bool) {
    && st'.Selection() == (if on then st.Selection() + {i} else st.Selection() - {i})
    && st' == st.(selid := st'.selid)
  }

  ghost predicate OnlyTicked(cat: Catalog, cat': Catalog, x: nat, i: nat, on: bool) {
    && x < |cat| == |cat'| && Ticked(cat[x], cat'[x], i, on)
    && forall y :: 0 <= y < |cat| && y != x ==> cat'[y] == cat[y]
  }

  lemma CheckTicks(cat: Catalog, x: nat, i: nat, on: bool)
    requires x < |cat| && cat[x].Valid() && cat[x].multi && i < |cat[x].values|
    ensures OnlyTicked(cat, Check(cat, x, i, on), x, i, on)
  {
    SelectRefinesInsert(cat[x], i);
    UnselectRefinesRemove(cat[x], i);
  }

  function Handle(cat: Catalog, lines: seq<Line>, e: Event): (r: (Catalog, seq<Line>))
    requires CanHappen(cat, lines, e)
    ensures |r.0| == |cat|
  {
    match e
    case ComboSet(n, sel) => Combo(cat, lines, n, sel)
    case CheckSet(n, i, on) => (Check(cat, lines[n].item, i, on), lines)
  }

  /** A check box that is ticked selects its value, one that is cleared unselects it; no row changes. */
  lemma CheckSetMeaning(cat: Catalog, lines: seq<Line>, n: nat, i: nat, on: bool)
    requires CanHappen(cat, lines, CheckSet(n, i, on)) && cat[lines[n].item].Valid()
    ensures Handle(cat, lines, CheckSet(n, i, on)).1 == lines
    ensures OnlyTicked(cat, Handle(cat, lines, CheckSet(n, i, on)).0, lines[n].item, i, on)
  {
    CheckTicks(cat, lines[n].item, i, on);
  }

  /** States the events lead to, one after the other. */
  ghost predicate IsRun(run: seq<(Catalog, seq<Line>)>, events: seq<Event>) {
    && |run| == |events| + 1
    && forall t :: 0 <= t < |events| ==>
         CanHappen(run[t].0, run[t].1, events[t]) && run[t + 1] == Handle(run[t].0, run[t].1, events[t])
  }

  lemma SameGraphThen(cat: Catalog, cat1: Catalog, cat2: Catalog)
    requires SameGraph(cat, cat1) && SameGraph(cat1, cat2)
    ensures SameGraph(cat, cat2)
  {
    forall i | 0 <= i < |cat|
      ensures cat2[i] == cat[i].(selid := cat2[i].selid)
    {
      assert cat2[i] == cat1[i].(selid := cat2[i].selid);
    }
  }

  lemma ChosenSameGraph(cat: Catalog, at: Line, sel: int)
    requires at.item < |cat| && !cat[at.item].multi
    ensures SameGraph(cat, Chosen(cat, at, sel).0)
  {
    ChosenSelections(cat, at, sel);
  }

  /** Over any label graph, no run of events changes anything but selections. */
  lemma {:induction false} RunSameGraph(run: seq<(Catalog, seq<Line>)>, events: seq<Event>, t: nat)
    requires IsRun(run, events) && t < |run|
    ensures SameGraph(run[0].0, run[t].0)
  {
    if t > 0 {
      RunSameGraph(run, events, t - 1);
      var s, e := run[t - 1], events[t - 1];
      assert CanHappen(s.0, s.1, e) && run[t - 1 + 1] == Handle(s.0, s.1, e);
      if e.ComboSet? {
        ChosenSameGraph(s.0, s.1[e.n], e.sel);
      }
      SameGraphThen(run[0].0, s.0, run[t].0);
    }
  }

  predicate AllValid(cat: Catalog) {
    forall i :: 0 <= i < |cat| ==> cat[i].Valid()
  }

  lemma HandleValid(cat: Catalog, lines: seq<Line>, e: Event)
    requires AllValid(cat) && CanHappen(cat, lines, e)
    ensures AllValid(Handle(cat, lines, e).0)
  {
    var x := lines[e.n].item;
    match e
    case ComboSet(n, sel) =>
      SelectRefinesInsert(cat[x], sel - 1);
      var cat1 := cat[x := cat[x].Select(sel - 1)];
      if 0 <= sel - 1 < |cat[x].values| {
        InsertedCleared(cat1, x, sel - 1, 0, lines[n].level + 1);
      }
    case CheckSet(n, i, on) =>
      SelectRefinesInsert(cat[x], i);
      UnselectRefinesRemove(cat[x], i);
  }

  /** Over any label graph and any run, selections name existing values only. */
  lemma {:induction false} RunValid(run: seq<(Catalog, seq<Line>)>, events: seq<Event>, t: nat)
    requires IsRun(run, events) && AllValid(run[0].0) && t < |run|
    ensures AllValid(run[t].0)
  {
    if t > 0 {
      RunValid(run, events, t - 1);
      var s, e := run[t - 1], events[t - 1];
      assert CanHappen(s.0, s.1, e) && run[t - 1 + 1] == Handle(s.0, s.1, e);
      HandleValid(s.0, s.1, e);
    }
  }
}
