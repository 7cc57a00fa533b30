/** Where a row's own expansion stands in the expansion of the entries, and what a change of selections leaves
    alone around it. */
module ListSplice {
  import opened Wrappers
  import opened LabelGraph

  // ------------------------------------------------------------------ a part and what is around it

  /** whole is pre, part and post, one after the other. */
  predicate Framed(whole: seq<Line>, pre: seq<Line>, part: seq<Line>, post: seq<Line>) {
    && |whole| == |pre| + |part| + |post|
    && whole[..|pre|] == pre && whole[|pre|..|pre| + |part|] == part && whole[|pre| + |part|..] == post
  }

  lemma FramedRight(whole: seq<Line>, pre: seq<Line>, part: seq<Line>, post: seq<Line>, b: seq<Line>)
    requires Framed(whole, pre, part, post)
    ensures Framed(whole + b, pre, part, post + b)
  {
    var all := whole + b;
    assert all[..|pre|] == whole[..|pre|];
    assert all[|pre|..|pre| + |part|] == whole[|pre|..|pre| + |part|];
    assert all[|pre| + |part|..] == whole[|pre| + |part|..] + b;
  }

  lemma FramedLeft(whole: seq<Line>, pre: seq<Line>, part: seq<Line>, post: seq<Line>, a: seq<Line>)
    requires Framed(whole, pre, part, post)
    ensures Framed(a + whole, a + pre, part, post)
  {
    var all := a + whole;
    assert all[..|a + pre|] == a + whole[..|pre|];
    assert all[|a + pre|..|a + pre| + |part|] == whole[|pre|..|pre| + |part|];
    assert all[|a + pre| + |part|..] == whole[|pre| + |part|..];
  }

  // ------------------------------------------------------------------ rows a change leaves alone

  /** Label y shows the same sub-labels in both catalogs. */
  predicate Same(cat: Catalog, cat': Catalog, y: nat)
    requires |cat'| == |cat|
  {
    y < |cat| && (cat'[y] == cat[y] || cat[y].multi)
  }

  predicate RowsSame(cat: Catalog, cat': Catalog, rows: seq<Line>)
    requires |cat'| == |cat|
  {
    forall m :: 0 <= m < |rows| ==> Same(cat, cat', rows[m].item)
  }

  lemma RowsSameParts(cat: Catalog, cat': Catalog, a: seq<Line>, b: seq<Line>)
    requires |cat'| == |cat|
    ensures RowsSame(cat, cat', a + b) <==> RowsSame(cat, cat', a) && RowsSame(cat, cat', b)
  {
    if RowsSame(cat, cat', a + b) {
      forall m | 0 <= m < |a|
        ensures Same(cat, cat', a[m].item)
      {
        assert (a + b)[m] == a[m];
      }
      forall m | 0 <= m < |b|
        ensures Same(cat, cat', b[m].item)
      {
        assert (a + b)[|a| + m] == b[m];
      }
    }
  }

  /** An expansion whose every label is left alone stays as it is. */
  lemma {:induction false} ExpandSame(cat: Catalog, cat': Catalog, rank: seq<nat>, i: nat, level: int)
    requires SameGraph(cat, cat') && Ranked(cat, rank) && Ranked(cat', rank) && i < |cat|
    requires RowsSame(cat, cat', Expand(cat, rank, i, level))
    ensures Expand(cat', rank, i, level) == Expand(cat, rank, i, level)
    decreases rank[i], 1, 0
  {
    assert Expand(cat, rank, i, level)[0].item == i;
    if cat[i].Shows() {
      var subs := ExpandSubs(cat, rank, i, cat[i].selid, 0, level);
      RowsSameParts(cat, cat', [Line(i, level)], subs);
      SubsSame(cat, cat', rank, i, cat[i].selid, 0, level);
    }
  }

  lemma {:induction false} SubsSame(
      cat: Catalog, cat': Catalog, rank: seq<nat>, i: nat, v: nat, k: nat, level: int)
    requires SameGraph(cat, cat') && Ranked(cat, rank) && Ranked(cat', rank)
    requires |cat'| == |cat| && i < |cat| && !cat[i].multi && v < |cat[i].values|
    requires cat'[i].multi == cat[i].multi && cat'[i].values == cat[i].values
    requires k <= |cat[i].values[v].subItems| && RowsSame(cat, cat', ExpandSubs(cat, rank, i, v, k, level))
    ensures ExpandSubs(cat', rank, i, v, k, level) == ExpandSubs(cat, rank, i, v, k, level)
    decreases rank[i], 0, |cat[i].values[v].subItems| - k
  {
    if k < |cat[i].values[v].subItems| {
      assert IsEdge(cat, i, v, k);
      EdgeSame(cat, cat', i, v, k);
      var c, rest := Edge(cat, i, v, k), ExpandSubs(cat, rank, i, v, k + 1, level + 1);
      if c.Some? {
        RowsSameParts(cat, cat', Expand(cat, rank, c.value, level + 1), rest);
        ExpandSame(cat, cat', rank, c.value, level + 1);
      }
      SubsSame(cat, cat', rank, i, v, k + 1, level + 1);
    }
  }

  lemma {:induction false} EntriesSame(
      cat: Catalog, cat': Catalog, rank: seq<nat>, entries: seq<string>, p: nat)
    requires SameGraph(cat, cat') && Ranked(cat, rank) && Ranked(cat', rank) && p <= |entries|
    requires RowsSame(cat, cat', EntriesFrom(cat, rank, entries, p))
    ensures EntriesFrom(cat', rank, entries, p) == EntriesFrom(cat, rank, entries, p)
    decreases |entries| - p
  {
    if p < |entries| {
      LookupSame(cat, cat', entries[p], 0);
      var c, rest := Lookup(cat, entries[p]), EntriesFrom(cat, rank, entries, p + 1);
      if c.Some? {
        RowsSameParts(cat, cat', Expand(cat, rank, c.value, 0), rest);
        ExpandSame(cat, cat', rank, c.value, 0);
      }
      EntriesSame(cat, cat', rank, entries, p + 1);
    }
  }

  // ------------------------------------------------------------------ the splice

  /** Row n of an expansion heads its own label's expansion. If the labels displayed around that part are left
      alone, the new expansion differs in that part only. */
  ghost predicate SpliceAt(
      cat: Catalog, cat': Catalog, rank: seq<nat>, whole: seq<Line>, whole': seq<Line>, n: nat,
      pre: seq<Line>, post: seq<Line>)
    requires |cat'| == |cat| && Ranked(cat, rank) && Ranked(cat', rank)
  {
    && n < |whole| && |pre| == n && whole[n].item < |cat|
    && Framed(whole, pre, Expand(cat, rank, whole[n].item, whole[n].level), post)
    && (RowsSame(cat, cat', pre) && RowsSame(cat, cat', post) ==>
          Framed(whole', pre, Expand(cat', rank, whole[n].item, whole[n].level), post))
  }

  lemma SpliceThen(
      cat: Catalog, cat': Catalog, rank: seq<nat>, whole: seq<Line>, whole': seq<Line>, n: nat,
      pre: seq<Line>, post: seq<Line>, b: seq<Line>, b': seq<Line>)
    requires |cat'| == |cat| && Ranked(cat, rank) && Ranked(cat', rank)
    requires SpliceAt(cat, cat', rank, whole, whole', n, pre, post)
    requires RowsSame(cat, cat', b) ==> b' == b
    ensures SpliceAt(cat, cat', rank, whole + b, whole' + b', n, pre, post + b)
  {
    var part := Expand(cat, rank, whole[n].item, whole[n].level);
    var part' := Expand(cat', rank, whole[n].item, whole[n].level);
    FramedRight(whole, pre, part, post, b);
    RowsSameParts(cat, cat', post, b);
    if RowsSame(cat, cat', pre) && RowsSame(cat, cat', post) && RowsSame(cat, cat', b) {
      FramedRight(whole', pre, part', post, b);
    }
  }

  lemma SpliceAfter(
      cat: Catalog, cat': Catalog, rank: seq<nat>, whole: seq<Line>, whole': seq<Line>, n: nat,
      pre: seq<Line>, post: seq<Line>, a: seq<Line>, a': seq<Line>, at: nat)
    requires |cat'| == |cat| && Ranked(cat, rank) && Ranked(cat', rank)
    requires SpliceAt(cat, cat', rank, whole, whole', n, pre, post) && at == |a| + n
    requires RowsSame(cat, cat', a) ==> a' == a
    ensures SpliceAt(cat, cat', rank, a + whole, a' + whole', at, a + pre, post)
  {
    var part := Expand(cat, rank, whole[n].item, whole[n].level);
    var part' := Expand(cat', rank, whole[n].item, whole[n].level);
    assert (a + whole)[at] == whole[n];
    FramedLeft(whole, pre, part, post, a);
    RowsSameParts(cat, cat', a, pre);
    if RowsSame(cat, cat', a) && RowsSame(cat, cat', pre) && RowsSame(cat, cat', post) {
      FramedLeft(whole', pre, part', post, a);
    }
  }

  lemma {:induction false} SpliceTree(
      cat: Catalog, cat': Catalog, rank: seq<nat>, i: nat, level: int, n: nat)
    returns (pre: seq<Line>, post: seq<Line>)
    requires SameGraph(cat, cat') && Ranked(cat, rank) && Ranked(cat', rank) && i < |cat|
    requires n < |Expand(cat, rank, i, level)|
    ensures SpliceAt(cat, cat', rank, Expand(cat, rank, i, level), Expand(cat', rank, i, level), n, pre, post)
    decreases rank[i], 1, 0
  {
    if n == 0 {
      pre, post := [], [];
    } else {
      var subs := ExpandSubs(cat, rank, i, cat[i].selid, 0, level);
      assert cat'[i] == cat[i].(selid := cat'[i].selid);
      var pre1, post1 := SpliceSubs(cat, cat', rank, i, cat[i].selid, 0, level, n - 1);
      pre, post := [Line(i, level)] + pre1, post1;
      var subs' := ExpandSubs(cat', rank, i, cat[i].selid, 0, level);
      if RowsSame(cat, cat', [Line(i, level)]) {
        assert Same(cat, cat', [Line(i, level)][0].item);
      }
      SpliceHead(cat, cat', rank, Line(i, level), subs, subs', Expand(cat', rank, i, level), n - 1, pre1, post1, n);
    }
  }

  /** The head row in front of its sub-labels' rows. */
  lemma SpliceHead(
      cat: Catalog, cat': Catalog, rank: seq<nat>, head: Line, subs: seq<Line>, subs': seq<Line>, whole': seq<Line>,
      n: nat, pre: seq<Line>, post: seq<Line>, at: nat)
    requires |cat'| == |cat| && Ranked(cat, rank) && Ranked(cat', rank)
    requires SpliceAt(cat, cat', rank, subs, subs', n, pre, post) && at == n + 1
    requires RowsSame(cat, cat', [head]) ==> whole' == [head] + subs'
    ensures SpliceAt(cat, cat', rank, [head] + subs, whole', at, [head] + pre, post)
  {
    SpliceAfter(cat, cat', rank, subs, subs', n, pre, post, [head], [head], at);
    RowsSameParts(cat, cat', [head], pre);
  }

  lemma {:induction false} SpliceSubs(
      cat: Catalog, cat': Catalog, rank: seq<nat>, i: nat, v: nat, k: nat, level: int, n: nat)
    returns (pre: seq<Line>, post: seq<Line>)
    requires SameGraph(cat, cat') && Ranked(cat, rank) && Ranked(cat', rank)
    requires |cat'| == |cat| && i < |cat| && !cat[i].multi && v < |cat[i].values|
    requires cat'[i].multi == cat[i].multi && cat'[i].values == cat[i].values
    requires k <= |cat[i].values[v].subItems| && n < |ExpandSubs(cat, rank, i, v, k, level)|
    ensures SpliceAt(cat, cat', rank,
      ExpandSubs(cat, rank, i, v, k, level), ExpandSubs(cat', rank, i, v, k, level), n, pre, post)
    decreases rank[i], 0, |cat[i].values[v].subItems| - k
  {
    assert IsEdge(cat, i, v, k);
    EdgeSame(cat, cat', i, v, k);
    var c := Edge(cat, i, v, k);
    var rest, rest' := ExpandSubs(cat, rank, i, v, k + 1, level + 1), ExpandSubs(cat', rank, i, v, k + 1, level + 1);
    if c == None {
      pre, post := SpliceSubs(cat, cat', rank, i, v, k + 1, level + 1, n);
    } else {
      var first, first' := Expand(cat, rank, c.value, level + 1), Expand(cat', rank, c.value, level + 1);
      if n < |first| {
        var post1;
        pre, post1 := SpliceTree(cat, cat', rank, c.value, level + 1, n);
        if RowsSame(cat, cat', rest) {
          SubsSame(cat, cat', rank, i, v, k + 1, level + 1);
        }
        SpliceThen(cat, cat', rank, first, first', n, pre, post1, rest, rest');
        post := post1 + rest;
      } else {
        var pre1;
        pre1, post := SpliceSubs(cat, cat', rank, i, v, k + 1, level + 1, n - |first|);
        if RowsSame(cat, cat', first) {
          ExpandSame(cat, cat', rank, c.value, level + 1);
        }
        SpliceAfter(cat, cat', rank, rest, rest', n - |first|, pre1, post, first, first', n);
        pre := first + pre1;
      }
    }
  }

  lemma {:induction false} SpliceEntries(
      cat: Catalog, cat': Catalog, rank: seq<nat>, entries: seq<string>, p: nat, n: nat)
    returns (pre: seq<Line>, post: seq<Line>)
    requires SameGraph(cat, cat') && Ranked(cat, rank) && Ranked(cat', rank) && |cat'| == |cat| && p <= |entries|
    requires n < |EntriesFrom(cat, rank, entries, p)|
    ensures SpliceAt(cat, cat', rank,
      EntriesFrom(cat, rank, entries, p), EntriesFrom(cat', rank, entries, p), n, pre, post)
    decreases |entries| - p
  {
    LookupSame(cat, cat', entries[p], 0);
    var c := Lookup(cat, entries[p]);
    var rest, rest' := EntriesFrom(cat, rank, entries, p + 1), EntriesFrom(cat', rank, entries, p + 1);
    if c == None {
      pre, post := SpliceEntries(cat, cat', rank, entries, p + 1, n);
    } else {
      var first, first' := Expand(cat, rank, c.value, 0), Expand(cat', rank, c.value, 0);
      if n < |first| {
        var post1;
        pre, post1 := SpliceTree(cat, cat', rank, c.value, 0, n);
        if RowsSame(cat, cat', rest) {
          EntriesSame(cat, cat', rank, entries, p + 1);
        }
        SpliceThen(cat, cat', rank, first, first', n, pre, post1, rest, rest');
        post := post1 + rest;
      } else {
        var pre1;
        pre1, post := SpliceEntries(cat, cat', rank, entries, p + 1, n - |first|);
        if RowsSame(cat, cat', first) {
          ExpandSame(cat, cat', rank, c.value, 0);
        }
        SpliceAfter(cat, cat', rank, rest, rest', n - |first|, pre1, post, first, first', n);
        pre := first + pre1;
      }
    }
  }
}
