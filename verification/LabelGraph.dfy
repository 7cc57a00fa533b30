/** The label graph behind the classification list, and the rows it expands to. */
module LabelGraph {
  import opened Wrappers
  import opened ClassifyItem

  type Catalog = seq<ItemState>

  /** CClassifyData::GetItem: the first label with the id. */
  function Lookup(cat: Catalog, id: string): (r: Option<nat>)
    ensures r.Some? ==> r.value < |cat|
  {
    LookupFrom(cat, id, 0)
  }

  function LookupFrom(cat: Catalog, id: string, i: nat): (r: Option<nat>)
    requires i <= |cat|
    ensures r.Some? ==> i <= r.value < |cat|
    decreases |cat| - i
  {
    if i == |cat| then None
    else if cat[i].id == id then Some(i)
    else LookupFrom(cat, id, i + 1)
  }

  lemma {:induction false} LookupFindsFirst(cat: Catalog, id: string, i: nat)
    requires i <= |cat|
    ensures var r := LookupFrom(cat, id, i);
      && (r.Some? ==> cat[r.value].id == id)
      && forall j :: i <= j < |cat| && cat[j].id == id ==> r.Some? && r.value <= j
    decreases |cat| - i
  {
    if i < |cat| {
      LookupFindsFirst(cat, id, i + 1);
    }
  }

  // ------------------------------------------------------------------ edges

  /** Value v of label i has a k-th sub-label id. */
  predicate IsEdge(cat: Catalog, i: nat, v: nat, k: nat) {
    i < |cat| && !cat[i].multi && v < |cat[i].values| && k < |cat[i].values[v].subItems|
  }

  /** The label that id names, if any. */
  function Edge(cat: Catalog, i: nat, v: nat, k: nat): (c: Option<nat>)
    requires IsEdge(cat, i, v, k)
    ensures c.Some? ==> c.value < |cat|
  {
    Lookup(cat, cat[i].values[v].subItems[k])
  }

  /** rank witnesses that the label graph is acyclic: every sub-label ranks below its label. */
  ghost predicate Ranked(cat: Catalog, rank: seq<nat>) {
    && |rank| == |cat|
    && forall i: nat, v: nat, k: nat :: IsEdge(cat, i, v, k) && Edge(cat, i, v, k).Some? ==>
         rank[Edge(cat, i, v, k).value] < rank[i]
  }

  // ------------------------------------------------------------------ fresh expansion

  /** A displayed row: which label, at which level. */
  datatype Line = Line(item: nat, level: int)

  /** The pre-order expansion of a label under the current selections. The level grows inside the
      sibling loop: the k-th sub-label id, resolvable or not, stands k levels below its label. */
  ghost function Expand(cat: Catalog, rank: seq<nat>, i: nat, level: int): seq<Line>
    requires Ranked(cat, rank) && i < |cat|
    decreases rank[i], 1, 0
  {
    [Line(i, level)] + if cat[i].Shows() then ExpandSubs(cat, rank, i, cat[i].selid, 0, level) else []
  }

  /** The rows of the sub-label ids of value v from the k-th on. */
  ghost function ExpandSubs(cat: Catalog, rank: seq<nat>, i: nat, v: nat, k: nat, level: int): seq<Line>
    requires Ranked(cat, rank) && i < |cat| && !cat[i].multi && v < |cat[i].values|
    requires k <= |cat[i].values[v].subItems|
    decreases rank[i], 0, |cat[i].values[v].subItems| - k
  {
    if k == |cat[i].values[v].subItems| then []
    else
      assert IsEdge(cat, i, v, k);
      var c, rest := Edge(cat, i, v, k), ExpandSubs(cat, rank, i, v, k + 1, level + 1);
      if c.Some? then Expand(cat, rank, c.value, level + 1) + rest else rest
  }

  /** The rows of one entry. */
  ghost function Entry(cat: Catalog, rank: seq<nat>, id: string): seq<Line>
    requires Ranked(cat, rank)
  {
    var c := Lookup(cat, id);
    if c.Some? then Expand(cat, rank, c.value, 0) else []
  }

  ghost function EntryRows(cat: Catalog, rank: seq<nat>, entries: seq<string>): (rows: seq<seq<Line>>)
    requires Ranked(cat, rank)
    ensures |rows| == |entries| && forall p :: 0 <= p < |rows| ==> rows[p] == Entry(cat, rank, entries[p])
  {
    seq(|entries|, p requires 0 <= p < |entries| => Entry(cat, rank, entries[p]))
  }

  /** What CClassifyListCtrl::Init displays: the entries' expansions one after the other. */
  ghost function ExpandEntries(cat: Catalog, rank: seq<nat>, entries: seq<string>): seq<Line>
    requires Ranked(cat, rank)
  {
    Flatten(EntryRows(cat, rank, entries))
  }

  /** The rows of the entries from the k-th on. */
  ghost function EntriesFrom(cat: Catalog, rank: seq<nat>, entries: seq<string>, k: nat): seq<Line>
    requires Ranked(cat, rank) && k <= |entries|
    decreases |entries| - k
  {
    if k == |entries| then []
    else
      var c, rest := Lookup(cat, entries[k]), EntriesFrom(cat, rank, entries, k + 1);
      if c.Some? then Expand(cat, rank, c.value, 0) + rest else rest
  }

  lemma {:induction false} EntriesFromFlatten(cat: Catalog, rank: seq<nat>, entries: seq<string>, k: nat)
    requires Ranked(cat, rank) && k <= |entries|
    ensures EntriesFrom(cat, rank, entries, k) == Flatten(EntryRows(cat, rank, entries)[k..])
    decreases |entries| - k
  {
    if k < |entries| {
      EntriesFromFlatten(cat, rank, entries, k + 1);
      assert Entry(cat, rank, entries[k]) == EntryRows(cat, rank, entries)[k];
      var rows := EntryRows(cat, rank, entries)[k..];
      FlattenFirst(rows);
      assert rows[1..] == EntryRows(cat, rank, entries)[k + 1..];
    }
  }

  lemma EntriesFromStart(cat: Catalog, rank: seq<nat>, entries: seq<string>)
    requires Ranked(cat, rank)
    ensures EntriesFrom(cat, rank, entries, 0) == ExpandEntries(cat, rank, entries)
  {
    EntriesFromFlatten(cat, rank, entries, 0);
    assert EntryRows(cat, rank, entries)[0..] == EntryRows(cat, rank, entries);
  }

  function Flatten<T>(rows: seq<seq<T>>): seq<T> {
    if rows == [] then [] else Flatten(rows[..|rows| - 1]) + rows[|rows| - 1]
  }

  lemma {:induction false} FlattenSplit<T>(rows: seq<seq<T>>, p: nat)
    requires p <= |rows|
    ensures Flatten(rows) == Flatten(rows[..p]) + Flatten(rows[p..])
    decreases |rows| - p
  {
    if p == |rows| {
      assert rows[..p] == rows;
    } else {
      var last := |rows| - 1;
      FlattenSplit(rows[..last], p);
      assert rows[..last][..p] == rows[..p];
      assert rows[..last][p..] == rows[p..][..last - p];
      assert rows[p..][last - p] == rows[last];
    }
  }

  lemma FlattenAt<T>(rows: seq<seq<T>>, q: nat)
    requires q < |rows|
    ensures Flatten(rows) == Flatten(rows[..q]) + rows[q] + Flatten(rows[q + 1..])
  {
    FlattenSplit(rows, q + 1);
    assert rows[..q + 1][..q] == rows[..q];
  }

  lemma FlattenFirst<T>(rows: seq<seq<T>>)
    requires |rows| > 0
    ensures Flatten(rows) == rows[0] + Flatten(rows[1..])
    ensures |rows[0]| == 0 ==> Flatten(rows) == Flatten(rows[1..])
  {
    FlattenAt(rows, 0);
  }

  /** Element n of the concatenation is element m of some part. */
  lemma {:induction false} FlattenLocate<T>(rows: seq<seq<T>>, n: nat) returns (q: nat, m: nat)
    requires n < |Flatten(rows)|
    ensures q < |rows| && m < |rows[q]| && n == |Flatten(rows[..q])| + m && Flatten(rows)[n] == rows[q][m]
    decreases |rows|
  {
    var last := |rows| - 1;
    var before := Flatten(rows[..last]);
    if n < |before| {
      q, m := FlattenLocate(rows[..last], n);
      assert rows[..last][..q] == rows[..q];
    } else {
      q, m := last, n - |before|;
    }
  }

  /** The rows of the k-th sub-label id of value v alone: none if it does not resolve. */
  ghost function SubRow(cat: Catalog, rank: seq<nat>, i: nat, v: nat, k: nat, level: int): seq<Line>
    requires Ranked(cat, rank) && IsEdge(cat, i, v, k)
  {
    var c := Edge(cat, i, v, k);
    if c.Some? then Expand(cat, rank, c.value, level) else []
  }

  ghost function SubRows(cat: Catalog, rank: seq<nat>, i: nat, v: nat, level: int): (rows: seq<seq<Line>>)
    requires Ranked(cat, rank) && i < |cat| && !cat[i].multi && v < |cat[i].values|
    ensures |rows| == |cat[i].values[v].subItems|
    ensures forall k :: 0 <= k < |rows| ==> rows[k] == SubRow(cat, rank, i, v, k, level + 1 + k)
  {
    seq(|cat[i].values[v].subItems|, k requires 0 <= k < |cat[i].values[v].subItems| =>
      SubRow(cat, rank, i, v, k, level + 1 + k))
  }

  lemma FlattenNext<T>(rows: seq<seq<T>>, k: nat, row: seq<T>)
    requires k < |rows| && rows[k] == row
    ensures Flatten(rows[k..]) == row + Flatten(rows[k + 1..])
    ensures row == [] ==> Flatten(rows[k..]) == Flatten(rows[k + 1..])
  {
    FlattenFirst(rows[k..]);
    assert rows[k..][1..] == rows[k + 1..];
  }

  lemma {:induction false} ExpandSubsFlatten(
      cat: Catalog, rank: seq<nat>, i: nat, v: nat, k: nat, level: int, deep: int)
    requires Ranked(cat, rank) && i < |cat| && !cat[i].multi && v < |cat[i].values|
    requires k <= |cat[i].values[v].subItems| && deep == level + k
    ensures ExpandSubs(cat, rank, i, v, k, deep) == Flatten(SubRows(cat, rank, i, v, level)[k..])
    decreases |cat[i].values[v].subItems| - k
  {
    var rows := SubRows(cat, rank, i, v, level);
    if k < |rows| {
      assert IsEdge(cat, i, v, k);
      ExpandSubsFlatten(cat, rank, i, v, k + 1, level, deep + 1);
      FlattenNext(rows, k, SubRow(cat, rank, i, v, k, deep + 1));
    }
  }

  /** A label is followed by the expansions of the sub-label ids of its selected value, id after id, the k-th of
      them k + 1 levels up. */
  lemma ExpandShape(cat: Catalog, rank: seq<nat>, i: nat, level: int)
    requires Ranked(cat, rank) && i < |cat|
    ensures Expand(cat, rank, i, level) ==
      [Line(i, level)] + if cat[i].Shows() then Flatten(SubRows(cat, rank, i, cat[i].selid, level)) else []
  {
    if cat[i].Shows() {
      var rows := SubRows(cat, rank, i, cat[i].selid, level);
      ExpandSubsFlatten(cat, rank, i, cat[i].selid, 0, level, level);
      assert rows[0..] == rows;
    }
  }

  /** The expansion does not depend on how acyclicity is witnessed. */
  lemma {:induction false} ExpandRankFree(cat: Catalog, rank: seq<nat>, rank': seq<nat>, i: nat, level: int)
    requires Ranked(cat, rank) && Ranked(cat, rank') && i < |cat|
    ensures Expand(cat, rank, i, level) == Expand(cat, rank', i, level)
    decreases rank[i], 1, 0
  {
    if cat[i].Shows() {
      ExpandSubsRankFree(cat, rank, rank', i, cat[i].selid, 0, level);
    }
  }

  lemma {:induction false} ExpandSubsRankFree(
      cat: Catalog, rank: seq<nat>, rank': seq<nat>, i: nat, v: nat, k: nat, level: int)
    requires Ranked(cat, rank) && Ranked(cat, rank') && i < |cat| && !cat[i].multi && v < |cat[i].values|
    requires k <= |cat[i].values[v].subItems|
    ensures ExpandSubs(cat, rank, i, v, k, level) == ExpandSubs(cat, rank', i, v, k, level)
    decreases rank[i], 0, |cat[i].values[v].subItems| - k
  {
    if k < |cat[i].values[v].subItems| {
      assert IsEdge(cat, i, v, k);
      var c := Edge(cat, i, v, k);
      if c.Some? {
        ExpandRankFree(cat, rank, rank', c.value, level + 1);
      }
      ExpandSubsRankFree(cat, rank, rank', i, v, k + 1, level + 1);
    }
  }

  /** Every descendant stands above its ancestor's level. */
  predicate Above(lines: seq<Line>, level: int) {
    forall k :: 0 <= k < |lines| ==> lines[k].level > level
  }

  lemma {:induction false} DescendantsAbove(cat: Catalog, rank: seq<nat>, i: nat, level: int)
    requires Ranked(cat, rank) && i < |cat|
    ensures Expand(cat, rank, i, level)[0] == Line(i, level)
    ensures Above(Expand(cat, rank, i, level)[1..], level)
    decreases rank[i], 1, 0
  {
    if cat[i].Shows() {
      SubsAbove(cat, rank, i, cat[i].selid, 0, level);
    }
  }

  lemma {:induction false} SubsAbove(cat: Catalog, rank: seq<nat>, i: nat, v: nat, k: nat, level: int)
    requires Ranked(cat, rank) && i < |cat| && !cat[i].multi && v < |cat[i].values|
    requires k <= |cat[i].values[v].subItems|
    ensures Above(ExpandSubs(cat, rank, i, v, k, level), level)
    decreases rank[i], 0, |cat[i].values[v].subItems| - k
  {
    if k < |cat[i].values[v].subItems| {
      assert IsEdge(cat, i, v, k);
      SubsAbove(cat, rank, i, v, k + 1, level + 1);
      var c := Edge(cat, i, v, k);
      if c.Some? {
        DescendantsAbove(cat, rank, c.value, level + 1);
        var head := Expand(cat, rank, c.value, level + 1);
        assert head == [head[0]] + head[1..];
      }
    }
  }

  // ------------------------------------------------------------------ same graph, other selections

  /** The catalogs differ at most in what is selected. */
  predicate SameGraph(cat: Catalog, cat': Catalog) {
    && |cat| == |cat'|
    && forall i :: 0 <= i < |cat| ==> cat'[i] == cat[i].(selid := cat'[i].selid)
  }

  lemma {:induction false} LookupSame(cat: Catalog, cat': Catalog, id: string, i: nat)
    requires SameGraph(cat, cat') && i <= |cat|
    ensures LookupFrom(cat', id, i) == LookupFrom(cat, id, i)
    decreases |cat| - i
  {
    if i < |cat| {
      LookupSame(cat, cat', id, i + 1);
    }
  }

  lemma EdgeSame(cat: Catalog, cat': Catalog, i: nat, v: nat, k: nat)
    requires SameGraph(cat, cat')
    ensures IsEdge(cat', i, v, k) <==> IsEdge(cat, i, v, k)
    ensures IsEdge(cat, i, v, k) ==> Edge(cat', i, v, k) == Edge(cat, i, v, k)
  {
    if IsEdge(cat, i, v, k) {
      LookupSame(cat, cat', cat[i].values[v].subItems[k], 0);
    }
  }

  lemma RankedSame(cat: Catalog, cat': Catalog, rank: seq<nat>)
    requires SameGraph(cat, cat') && Ranked(cat, rank)
    ensures Ranked(cat', rank)
  {
    forall i: nat, v: nat, k: nat | IsEdge(cat', i, v, k) && Edge(cat', i, v, k).Some?
      ensures rank[Edge(cat', i, v, k).value] < rank[i]
    {
      EdgeSame(cat, cat', i, v, k);
    }
  }
}
