/** On a tree-shaped label graph a label is displayed at most once, and its sub-labels only below it. */
module ListTree {
  import opened Wrappers
  import opened LabelGraph

  // ------------------------------------------------------------------ tree-shaped label graphs

  /** The k-th sub-label id of value v of label i names label c. */
  predicate Leads(cat: Catalog, i: nat, v: nat, k: nat, c: nat) {
    IsEdge(cat, i, v, k) && Edge(cat, i, v, k) == Some(c)
  }

  predicate Roots(cat: Catalog, entries: seq<string>, p: nat, c: nat) {
    p < |entries| && Lookup(cat, entries[p]) == Some(c)
  }

  /** Each label is a sub-label of at most one label, under a value at most once, and an entry is nobody's
      sub-label and listed once. */
  ghost predicate OneParent(cat: Catalog, entries: seq<string>) {
    && (forall i: nat, v: nat, k: nat, i': nat, v': nat, k': nat, c: nat ::
          Leads(cat, i, v, k, c) && Leads(cat, i', v', k', c) ==> i == i' && (v == v' ==> k == k'))
    && (forall p: nat, i: nat, v: nat, k: nat, c: nat :: Roots(cat, entries, p, c) ==> !Leads(cat, i, v, k, c))
    && forall p: nat, q: nat, c: nat :: Roots(cat, entries, p, c) && Roots(cat, entries, q, c) ==> p == q
  }

  ghost predicate IsParent(cat: Catalog, i: nat, c: nat) {
    exists v: nat, k: nat :: Leads(cat, i, v, k, c)
  }

  ghost function Parent(cat: Catalog, c: nat): Option<nat> {
    if exists i: nat :: IsParent(cat, i, c) then
      var i: nat :| IsParent(cat, i, c);
      Some(i)
    else None
  }

  /** up names the one label each label is a sub-label of. */
  ghost predicate Ups(cat: Catalog, rank: seq<nat>, entries: seq<string>, up: seq<Option<nat>>) {
    && |up| == |cat| == |rank|
    && (forall c :: 0 <= c < |cat| && up[c].Some? ==> up[c].value < |cat| && rank[c] < rank[up[c].value])
    && (forall i: nat, v: nat, k: nat, c: nat :: Leads(cat, i, v, k, c) ==> up[c] == Some(i))
    && forall p: nat, c: nat :: Roots(cat, entries, p, c) ==> up[c] == None
  }

  lemma UpsExist(cat: Catalog, rank: seq<nat>, entries: seq<string>) returns (up: seq<Option<nat>>)
    requires Ranked(cat, rank) && OneParent(cat, entries)
    ensures Ups(cat, rank, entries, up)
  {
    up := seq(|cat|, c requires 0 <= c < |cat| => Parent(cat, c));
    forall c | 0 <= c < |cat| && up[c].Some?
      ensures up[c].value < |cat| && rank[c] < rank[up[c].value]
    {
      assert IsParent(cat, up[c].value, c);
      var v: nat, k: nat :| Leads(cat, up[c].value, v, k, c);
    }
    forall i: nat, v: nat, k: nat, c: nat | Leads(cat, i, v, k, c)
      ensures up[c] == Some(i)
    {
      assert IsParent(cat, i, c);
      assert IsParent(cat, up[c].value, c);
      var v', k' :| Leads(cat, up[c].value, v', k', c);
    }
    forall p: nat, c: nat | Roots(cat, entries, p, c)
      ensures up[c] == None
    {
    }
  }

  // ------------------------------------------------------------------ subtrees

  /** Label y is i or below it. */
  predicate Under(rank: seq<nat>, up: seq<Option<nat>>, i: nat, y: nat)
    requires |up| == |rank| && i < |up| && y < |up|
    requires forall c :: 0 <= c < |up| && up[c].Some? ==> up[c].value < |up| && rank[c] < rank[up[c].value]
    decreases rank[i] as int - rank[y] as int
  {
    i == y || (rank[y] < rank[i] && up[y].Some? && Under(rank, up, i, up[y].value))
  }

  /** What is below a label is below the label it is a sub-label of. */
  lemma {:induction false} UnderUp(
      cat: Catalog, rank: seq<nat>, entries: seq<string>, up: seq<Option<nat>>, i: nat, c: nat, y: nat)
    requires Ups(cat, rank, entries, up) && i < |cat| && c < |cat| && y < |cat|
    requires up[c] == Some(i) && Under(rank, up, c, y)
    ensures Under(rank, up, i, y) && rank[y] < rank[i]
    decreases rank[c] as int - rank[y] as int
  {
    if y != c {
      UnderUp(cat, rank, entries, up, i, c, up[y].value);
    }
  }

  /** Two labels with the same parent, or two entries, have nothing below them in common. */
  lemma {:induction false} SiblingsApart(
      cat: Catalog, rank: seq<nat>, entries: seq<string>, up: seq<Option<nat>>, a: nat, b: nat, y: nat)
    requires Ups(cat, rank, entries, up) && a < |cat| && b < |cat| && y < |cat|
    requires up[a] == up[b] && Under(rank, up, a, y) && Under(rank, up, b, y)
    ensures a == b
    decreases rank[a] as int - rank[y] as int
  {
    if y != a && y != b {
      SiblingsApart(cat, rank, entries, up, a, b, up[y].value);
    }
  }

  /** Label y is x or a sub-label of x. */
  predicate Near(up: seq<Option<nat>>, x: nat, y: nat) {
    y < |up| && (y == x || up[y] == Some(x))
  }

  /** Two siblings: nothing below one is near anything below the other. */
  lemma SiblingsNotNear(
      cat: Catalog, rank: seq<nat>, entries: seq<string>, up: seq<Option<nat>>, a: nat, b: nat, x: nat, y: nat)
    requires Ups(cat, rank, entries, up) && a < |cat| && b < |cat| && x < |cat| && y < |cat|
    requires up[a] == up[b] && a != b && Under(rank, up, a, x) && Under(rank, up, b, y)
    ensures !Near(up, x, y)
  {
    if y == x {
      SiblingsApart(cat, rank, entries, up, a, b, x);
    } else if up[y] == Some(x) {
      if y != b {
        SiblingsApart(cat, rank, entries, up, a, b, x);
      }
    }
  }

  // ------------------------------------------------------------------ rows and subtrees

  lemma {:induction false} RowUnder(
      cat: Catalog, rank: seq<nat>, entries: seq<string>, up: seq<Option<nat>>, i: nat, level: int, n: nat)
    requires Ranked(cat, rank) && Ups(cat, rank, entries, up) && i < |cat| && n < |Expand(cat, rank, i, level)|
    ensures var y := Expand(cat, rank, i, level)[n].item;
      y < |cat| && Under(rank, up, i, y) && (n > 0 ==> rank[y] < rank[i])
    decreases rank[i], 1, 0
  {
    if n > 0 {
      var k, c := SubRowUnder(cat, rank, entries, up, i, cat[i].selid, 0, level, n - 1);
      UnderUp(cat, rank, entries, up, i, c, Expand(cat, rank, i, level)[n].item);
    }
  }

  lemma {:induction false} SubRowUnder(
      cat: Catalog, rank: seq<nat>, entries: seq<string>, up: seq<Option<nat>>,
      i: nat, v: nat, k: nat, level: int, n: nat)
    returns (j: nat, c: nat)
    requires Ranked(cat, rank) && Ups(cat, rank, entries, up)
    requires i < |cat| && !cat[i].multi && v < |cat[i].values| && k <= |cat[i].values[v].subItems|
    requires n < |ExpandSubs(cat, rank, i, v, k, level)|
    ensures j >= k && Leads(cat, i, v, j, c) && up[c] == Some(i)
    ensures var y := ExpandSubs(cat, rank, i, v, k, level)[n].item; y < |cat| && Under(rank, up, c, y)
    decreases rank[i], 0, |cat[i].values[v].subItems| - k
  {
    assert IsEdge(cat, i, v, k);
    var child := Edge(cat, i, v, k);
    if child == None {
      j, c := SubRowUnder(cat, rank, entries, up, i, v, k + 1, level + 1, n);
    } else {
      var first := Expand(cat, rank, child.value, level + 1);
      if n < |first| {
        j, c := k, child.value;
        assert Leads(cat, i, v, k, c);
        RowUnder(cat, rank, entries, up, c, level + 1, n);
      } else {
        j, c := SubRowUnder(cat, rank, entries, up, i, v, k + 1, level + 1, n - |first|);
      }
    }
  }

  lemma {:induction false} EntryRowUnder(
      cat: Catalog, rank: seq<nat>, entries: seq<string>, up: seq<Option<nat>>, p: nat, n: nat) returns (q: nat, c: nat)
    requires Ranked(cat, rank) && Ups(cat, rank, entries, up) && p <= |entries|
    requires n < |EntriesFrom(cat, rank, entries, p)|
    ensures q >= p && Roots(cat, entries, q, c) && c < |cat|
    ensures var y := EntriesFrom(cat, rank, entries, p)[n].item; y < |cat| && Under(rank, up, c, y)
    decreases |entries| - p
  {
    var root := Lookup(cat, entries[p]);
    if root == None {
      q, c := EntryRowUnder(cat, rank, entries, up, p + 1, n);
    } else {
      var first := Expand(cat, rank, root.value, 0);
      if n < |first| {
        q, c := p, root.value;
        RowUnder(cat, rank, entries, up, c, 0, n);
      } else {
        q, c := EntryRowUnder(cat, rank, entries, up, p + 1, n - |first|);
      }
    }
  }

  // ------------------------------------------------------------------ displayed once

  /** Row m, which is near row n, stands in row n's own expansion. */
  ghost predicate Inside(cat: Catalog, rank: seq<nat>, rows: seq<Line>, n: nat, m: nat)
    requires Ranked(cat, rank)
  {
    && n < |rows| && m < |rows| && rows[n].item < |cat|
    && n <= m < n + |Expand(cat, rank, rows[n].item, rows[n].level)|
  }

  lemma {:induction false} NearInside(
      cat: Catalog, rank: seq<nat>, entries: seq<string>, up: seq<Option<nat>>, i: nat, level: int, n: nat, m: nat)
    requires Ranked(cat, rank) && OneParent(cat, entries) && Ups(cat, rank, entries, up) && i < |cat|
    requires n < |Expand(cat, rank, i, level)| && m < |Expand(cat, rank, i, level)|
    requires Near(up, Expand(cat, rank, i, level)[n].item, Expand(cat, rank, i, level)[m].item)
    ensures Inside(cat, rank, Expand(cat, rank, i, level), n, m)
    decreases rank[i], 1, 0
  {
    RowUnder(cat, rank, entries, up, i, level, n);
    RowUnder(cat, rank, entries, up, i, level, m);
    if n > 0 && m > 0 {
      NearInsideSubs(cat, rank, entries, up, i, cat[i].selid, 0, level, n - 1, m - 1);
    }
  }

  lemma {:induction false} NearInsideSubs(
      cat: Catalog, rank: seq<nat>, entries: seq<string>, up: seq<Option<nat>>, i: nat, v: nat, k: nat, level: int,
      n: nat, m: nat)
    requires Ranked(cat, rank) && OneParent(cat, entries) && Ups(cat, rank, entries, up)
    requires i < |cat| && !cat[i].multi && v < |cat[i].values| && k <= |cat[i].values[v].subItems|
    requires n < |ExpandSubs(cat, rank, i, v, k, level)| && m < |ExpandSubs(cat, rank, i, v, k, level)|
    requires Near(up, ExpandSubs(cat, rank, i, v, k, level)[n].item, ExpandSubs(cat, rank, i, v, k, level)[m].item)
    ensures Inside(cat, rank, ExpandSubs(cat, rank, i, v, k, level), n, m)
    decreases rank[i], 0, |cat[i].values[v].subItems| - k
  {
    assert IsEdge(cat, i, v, k);
    var child := Edge(cat, i, v, k);
    if child == None {
      NearInsideSubs(cat, rank, entries, up, i, v, k + 1, level + 1, n, m);
    } else {
      var c, rows := child.value, ExpandSubs(cat, rank, i, v, k, level);
      assert Leads(cat, i, v, k, c);
      var first, rest := Expand(cat, rank, c, level + 1), ExpandSubs(cat, rank, i, v, k + 1, level + 1);
      if n < |first| && m < |first| {
        NearInside(cat, rank, entries, up, c, level + 1, n, m);
      } else if n >= |first| && m >= |first| {
        NearInsideSubs(cat, rank, entries, up, i, v, k + 1, level + 1, n - |first|, m - |first|);
      } else if n < |first| {
        RowUnder(cat, rank, entries, up, c, level + 1, n);
        var j, d := SubRowUnder(cat, rank, entries, up, i, v, k + 1, level + 1, m - |first|);
        SiblingsNotNear(cat, rank, entries, up, c, d, rows[n].item, rows[m].item);
      } else {
        RowUnder(cat, rank, entries, up, c, level + 1, m);
        var j, d := SubRowUnder(cat, rank, entries, up, i, v, k + 1, level + 1, n - |first|);
        SiblingsNotNear(cat, rank, entries, up, d, c, rows[n].item, rows[m].item);
      }
    }
  }

  lemma {:induction false} NearInsideEntries(
      cat: Catalog, rank: seq<nat>, entries: seq<string>, up: seq<Option<nat>>, p: nat, n: nat, m: nat)
    requires Ranked(cat, rank) && OneParent(cat, entries) && Ups(cat, rank, entries, up) && p <= |entries|
    requires n < |EntriesFrom(cat, rank, entries, p)| && m < |EntriesFrom(cat, rank, entries, p)|
    requires Near(up, EntriesFrom(cat, rank, entries, p)[n].item, EntriesFrom(cat, rank, entries, p)[m].item)
    ensures Inside(cat, rank, EntriesFrom(cat, rank, entries, p), n, m)
    decreases |entries| - p
  {
    var root := Lookup(cat, entries[p]);
    if root == None {
      NearInsideEntries(cat, rank, entries, up, p + 1, n, m);
    } else {
      var c, rows := root.value, EntriesFrom(cat, rank, entries, p);
      assert Roots(cat, entries, p, c);
      var first, rest := Expand(cat, rank, c, 0), EntriesFrom(cat, rank, entries, p + 1);
      if n < |first| && m < |first| {
        NearInside(cat, rank, entries, up, c, 0, n, m);
      } else if n >= |first| && m >= |first| {
        NearInsideEntries(cat, rank, entries, up, p + 1, n - |first|, m - |first|);
      } else if n < |first| {
        RowUnder(cat, rank, entries, up, c, 0, n);
        var q, d := EntryRowUnder(cat, rank, entries, up, p + 1, m - |first|);
        SiblingsNotNear(cat, rank, entries, up, c, d, rows[n].item, rows[m].item);
      } else {
        RowUnder(cat, rank, entries, up, c, 0, m);
        var q, d := EntryRowUnder(cat, rank, entries, up, p + 1, n - |first|);
        SiblingsNotNear(cat, rank, entries, up, d, c, rows[n].item, rows[m].item);
      }
    }
  }
}
