/** Two label graphs on which a combo box change leaves the list out of sync. */
module ListWitness {
  import opened Wrappers
  import opened ClassifyItem
  import opened LabelGraph
  import opened ListEvents
  import opened ListTree
  import opened ListSync
  import opened ClassifyList

  function Leaf(id: string, mandatory: bool): ItemState {
    ItemState(id, id, id, [ItemValue(0, "yes", "", [])], mandatory, false, -1)
  }

  function Root(subs: seq<string>, selid: int): ItemState {
    ItemState("R", "R", "R", [ItemValue(0, "yes", "", subs)], false, false, selid)
  }

  const RANK: seq<nat> := [1, 0, 0]
  const ENTRIES: seq<string> := ["R"]

  /** R's one value has two sub-label ids; the catalog has leaves A and B, and B is mandatory. */
  function Labels(subs: seq<string>, selid: int): Catalog {
    [Root(subs, selid), Leaf("A", false), Leaf("B", true)]
  }

  lemma Names(subs: seq<string>, selid: int)
    ensures var cat := Labels(subs, selid);
      && Lookup(cat, "R") == Some(0) && Lookup(cat, "A") == Some(1) && Lookup(cat, "B") == Some(2)
      && Lookup(cat, "missing") == None
  {
    var cat := Labels(subs, selid);
    assert LookupFrom(cat, "missing", 3) == None;
    assert LookupFrom(cat, "missing", 2) == None && LookupFrom(cat, "missing", 1) == None;
    assert LookupFrom(cat, "B", 2) == Some(2) && LookupFrom(cat, "B", 1) == Some(2);
    assert LookupFrom(cat, "A", 1) == Some(1);
  }

  /** The graph is a tree below the one entry. */
  lemma IsTree(a: string, b: string, selid: int)
    requires a in {"A", "missing"} && b in {"A", "B"} && a != b
    ensures Ranked(Labels([a, b], selid), RANK) && OneParent(Labels([a, b], selid), ENTRIES)
  {
    var cat := Labels([a, b], selid);
    Names([a, b], selid);
    forall i: nat, v: nat, k: nat | IsEdge(cat, i, v, k)
      ensures i == 0 && v == 0 && Edge(cat, i, v, k) == Lookup(cat, if k == 0 then a else b)
    {
    }
    forall p: nat, c: nat | Roots(cat, ENTRIES, p, c)
      ensures p == 0 && c == 0
    {
    }
  }

  /** What a leaf expands to. */
  lemma LeafAlone(cat: Catalog, i: nat, level: int)
    requires Ranked(cat, RANK) && i < |cat| && cat[i].selid == -1
    ensures Expand(cat, RANK, i, level) == [Line(i, level)]
  {
  }

  /** R shows the sub-labels of its value, A one level up and B two. */
  lemma FreshRows(a: string, b: string)
    requires a in {"A", "missing"} && b in {"A", "B"} && a != b
    ensures Ranked(Labels([a, b], 0), RANK)
    ensures ExpandEntries(Labels([a, b], 0), RANK, ENTRIES) ==
      if a == "missing" then [Line(0, 0), Line(if b == "A" then 1 else 2, 2)] else [Line(0, 0), Line(1, 1), Line(2, 2)]
  {
    var cat := Labels([a, b], 0);
    IsTree(a, b, 0);
    Names([a, b], 0);
    LeafAlone(cat, 1, 1);
    LeafAlone(cat, 1, 2);
    LeafAlone(cat, 2, 2);
    EntriesFromStart(cat, RANK, ENTRIES);
    assert IsEdge(cat, 0, 0, 0) && IsEdge(cat, 0, 0, 1);
    assert ExpandSubs(cat, RANK, 0, 0, 2, 2) == [];
    assert ExpandSubs(cat, RANK, 0, 0, 1, 1) == [Line(if b == "A" then 1 else 2, 2)];
    assert EntriesFrom(cat, RANK, ENTRIES, 1) == [];
  }

  /** The second sub-label of a default selection is lost: A's combo box, set to the blank entry it shows
      already, deletes B's row. No selection changes, yet the mandatory check, which B's missing selection made
      fail, now passes. */
  lemma SiblingLost()
    ensures var cat, lines := Labels(["A", "B"], 0), [Line(0, 0), Line(1, 1), Line(2, 2)];
      && Ranked(cat, RANK) && OneParent(cat, ENTRIES) && InSync((cat, lines), RANK, ENTRIES)
      && CanHappen(cat, lines, ComboSet(1, 0))
      && Combo(cat, lines, 1, 0) == (cat, [Line(0, 0), Line(1, 1)])
      && !InSync((cat, [Line(0, 0), Line(1, 1)]), RANK, ENTRIES)
      && !AllFilled(cat, lines) && AllFilled(cat, [Line(0, 0), Line(1, 1)])
  {
    var cat, lines := Labels(["A", "B"], 0), [Line(0, 0), Line(1, 1), Line(2, 2)];
    IsTree("A", "B", 0);
    FreshRows("A", "B");
    RunDeleted(cat, lines);
    MandatoryHidden(cat, lines);
  }

  lemma MandatoryHidden(cat: Catalog, lines: seq<Line>)
    requires cat == Labels(["A", "B"], 0) && lines == [Line(0, 0), Line(1, 1), Line(2, 2)]
    ensures !AllFilled(cat, lines) && AllFilled(cat, [Line(0, 0), Line(1, 1)])
  {
    assert cat[lines[2].item].mandatory && !cat[lines[2].item].Filled();
  }

  lemma RunDeleted(cat: Catalog, lines: seq<Line>)
    requires cat == Labels(["A", "B"], 0) && lines == [Line(0, 0), Line(1, 1), Line(2, 2)]
    ensures Combo(cat, lines, 1, 0) == (cat, [Line(0, 0), Line(1, 1)])
  {
    assert cat[1].Select(-1) == cat[1] && cat[1 := cat[1]] == cat;
    assert RunEnd(lines, 1, 3) == 3 && RunEnd(lines, 1, 2) == 3;
    assert lines[..2] + [] + lines[3..] == [Line(0, 0), Line(1, 1)];
  }

  /** At most one sub-label id resolves, but not the first: choosing the value shows no sub-label, where a fresh
      expansion shows A. */
  lemma SubLabelMissed()
    ensures var cat, lines := Labels(["missing", "A"], -1), [Line(0, 0)];
      && Ranked(cat, RANK) && OneParent(cat, ENTRIES) && AllLone(cat) && InSync((cat, lines), RANK, ENTRIES)
      && CanHappen(cat, lines, ComboSet(0, 1))
      && Combo(cat, lines, 0, 1) == (Labels(["missing", "A"], 0), lines)
      && !InSync(Combo(cat, lines, 0, 1), RANK, ENTRIES)
  {
    var cat, lines := Labels(["missing", "A"], -1), [Line(0, 0)];
    IsTree("missing", "A", -1);
    Names(["missing", "A"], -1);
    Names(["missing", "A"], 0);
    FreshRows("missing", "A");
    LeafAlone(cat, 0, 0);
    EntriesFromStart(cat, RANK, ENTRIES);
    assert EntriesFrom(cat, RANK, ENTRIES, 1) == [];
    var cat1 := cat[0 := cat[0].Select(0)];
    assert cat1 == Labels(["missing", "A"], 0);
    assert IsEdge(cat1, 0, 0, 0) && InsertRows(cat1, 0, 0, 0, 1) == (cat1, []);
    assert RunEnd(lines, 0, 1) == 1;
    assert lines[..1] + [] + lines[1..] == lines;
    forall k: nat, c: nat | Leads(cat, 0, 0, k, c)
      ensures k == 1
    {
    }
  }
}
