/** When the rows a combo box change leaves behind are a fresh expansion of the entries, for one event and for
    whole runs. */
module ListSync {
  import opened Wrappers
  import opened LabelGraph
  import opened ListEvents
  import opened ListSplice
  import opened ListTree

  /** At most the first sub-label id of value v of label i resolves. */
  ghost predicate OnlyFirst(cat: Catalog, i: nat, v: nat) {
    forall k: nat :: k >= 1 && IsEdge(cat, i, v, k) ==> Edge(cat, i, v, k) == None
  }

  // ------------------------------------------------------------------ what one combo box change leaves alone

  /** Selections change at row n's label and its sub-labels only, and row n's label ends up as chosen. */
  lemma ChosenBelow(cat: Catalog, rank: seq<nat>, at: Line, sel: int)
    requires Ranked(cat, rank) && at.item < |cat| && !cat[at.item].multi
    ensures SameGraph(cat, Chosen(cat, at, sel).0) && Ranked(Chosen(cat, at, sel).0, rank)
    ensures Chosen(cat, at, sel).0[at.item] == cat[at.item].Select(sel - 1)
    ensures forall y :: 0 <= y < |cat| && Chosen(cat, at, sel).0[y] != cat[y] ==>
      y == at.item || IsParent(cat, at.item, y)
  {
    ChosenSameGraph(cat, at, sel);
    RankedSame(cat, Chosen(cat, at, sel).0, rank);
    ChosenSelections(cat, at, sel);
    ChosenRows(cat, at, sel);
    var rows := Chosen(cat, at, sel).1;
    forall j | 0 <= j < |rows|
      ensures IsParent(cat, at.item, rows[j].item) && rank[rows[j].item] < rank[at.item]
    {
      assert IsEdge(cat, at.item, sel - 1, j) && Leads(cat, at.item, sel - 1, j, rows[j].item);
    }
  }

  /** The labels the change touches are displayed nowhere but in row n's own expansion. */
  ghost predicate Undisturbed(cat: Catalog, cat': Catalog, rank: seq<nat>, lines: seq<Line>, n: nat)
    requires |cat'| == |cat| && Ranked(cat, rank)
  {
    forall m: nat :: m < |lines| ==> Inside(cat, rank, lines, n, m) || Same(cat, cat', lines[m].item)
  }

  /** So it is on every tree-shaped label graph. */
  lemma TreeUndisturbed(cat: Catalog, rank: seq<nat>, entries: seq<string>, lines: seq<Line>, n: nat, sel: int)
    requires Ranked(cat, rank) && OneParent(cat, entries) && lines == ExpandEntries(cat, rank, entries)
    requires n < |lines| && lines[n].item < |cat| && !cat[lines[n].item].multi
    ensures Undisturbed(cat, Combo(cat, lines, n, sel).0, rank, lines, n)
  {
    var x, cat' := lines[n].item, Combo(cat, lines, n, sel).0;
    var up := UpsExist(cat, rank, entries);
    EntriesFromStart(cat, rank, entries);
    ChosenBelow(cat, rank, lines[n], sel);
    forall m: nat | m < |lines|
      ensures Inside(cat, rank, lines, n, m) || Same(cat, cat', lines[m].item)
    {
      var q, c := EntryRowUnder(cat, rank, entries, up, 0, m);
      var y := lines[m].item;
      if cat'[y] != cat[y] {
        if y != x {
          var v: nat, k: nat :| Leads(cat, x, v, k, y);
        }
        NearInsideEntries(cat, rank, entries, up, 0, n, m);
      }
    }
  }

  // ------------------------------------------------------------------ the inserted rows

  lemma {:induction false} NoneResolve(cat: Catalog, rank: seq<nat>, i: nat, v: nat, k: nat, level: int)
    requires Ranked(cat, rank) && i < |cat| && !cat[i].multi && v < |cat[i].values|
    requires 1 <= k <= |cat[i].values[v].subItems| && OnlyFirst(cat, i, v)
    ensures ExpandSubs(cat, rank, i, v, k, level) == []
    decreases |cat[i].values[v].subItems| - k
  {
    if k < |cat[i].values[v].subItems| {
      assert IsEdge(cat, i, v, k);
      NoneResolve(cat, rank, i, v, k + 1, level + 1);
    }
  }

  /** Inserting the sub-labels of a value of which only the first id may resolve is expanding them. */
  lemma InsertIsExpand(cat: Catalog, rank: seq<nat>, x: nat, v: nat, level: int)
    requires Ranked(cat, rank) && x < |cat| && !cat[x].multi && v < |cat[x].values| && OnlyFirst(cat, x, v)
    ensures Ranked(InsertRows(cat, x, v, 0, level + 1).0, rank)
    ensures SameGraph(cat, InsertRows(cat, x, v, 0, level + 1).0)
    ensures InsertRows(cat, x, v, 0, level + 1).1
      == ExpandSubs(InsertRows(cat, x, v, 0, level + 1).0, rank, x, v, 0, level)
  {
    if IsEdge(cat, x, v, 0) {
      var c := Edge(cat, x, v, 0);
      if c == None {
        NoneResolve(cat, rank, x, v, 1, level + 1);
      } else {
        InsertOne(cat, rank, x, v, level, c.value);
      }
    }
  }

  lemma InsertOne(cat: Catalog, rank: seq<nat>, x: nat, v: nat, level: int, c: nat)
    requires Ranked(cat, rank) && OnlyFirst(cat, x, v) && IsEdge(cat, x, v, 0) && Edge(cat, x, v, 0) == Some(c)
    ensures var cat' := cat[c := cat[c].Select(-1)];
      && InsertRows(cat, x, v, 0, level + 1) == (cat', [Line(c, level + 1)])
      && SameGraph(cat, cat') && Ranked(cat', rank)
      && ExpandSubs(cat', rank, x, v, 0, level) == [Line(c, level + 1)]
  {
    var cat' := cat[c := cat[c].Select(-1)];
    assert SameGraph(cat, cat');
    RankedSame(cat, cat', rank);
    forall k: nat
      ensures IsEdge(cat', x, v, k) <==> IsEdge(cat, x, v, k)
      ensures IsEdge(cat, x, v, k) ==> Edge(cat', x, v, k) == Edge(cat, x, v, k)
    {
      EdgeSame(cat, cat', x, v, k);
    }
    NoneResolve(cat', rank, x, v, 1, level + 1);
    assert IsEdge(cat', x, v, 0);
    if |cat[x].values[v].subItems| > 1 {
      assert IsEdge(cat', x, v, 1);
    }
    assert Expand(cat', rank, c, level + 1) == [Line(c, level + 1)];
  }

  /** A resolvable sub-label id stands at its own level in the expansion. */
  lemma {:induction false} ExpansionReaches(
      cat: Catalog, rank: seq<nat>, x: nat, v: nat, j: nat, k: nat, level: int, deep: int) returns (at: nat)
    requires Ranked(cat, rank) && IsEdge(cat, x, v, k) && Edge(cat, x, v, k).Some? && j <= k
    requires deep == level + (k - j) + 1
    ensures at < |ExpandSubs(cat, rank, x, v, j, level)|
    ensures ExpandSubs(cat, rank, x, v, j, level)[at].level == deep
    decreases k - j
  {
    assert IsEdge(cat, x, v, j);
    var c := Edge(cat, x, v, j);
    var first := if c.Some? then Expand(cat, rank, c.value, level + 1) else [];
    if j == k {
      at := 0;
    } else {
      var at1 := ExpansionReaches(cat, rank, x, v, j + 1, k, level + 1, deep);
      at := |first| + at1;
    }
  }

  lemma Cancel<T>(a: seq<T>, b: seq<T>, b': seq<T>, c: seq<T>)
    ensures a + b + c == a + b' + c <==> b == b'
  {
    if a + b + c == a + b' + c {
      var l, r := a + b + c, a + b' + c;
      assert b == l[|a|..|l| - |c|];
      assert b' == r[|a|..|r| - |c|];
    }
  }

  lemma SameOnlyFirst(cat: Catalog, cat': Catalog, x: nat, v: nat)
    requires SameGraph(cat, cat')
    ensures OnlyFirst(cat', x, v) <==> OnlyFirst(cat, x, v)
  {
    forall k: nat
      ensures IsEdge(cat', x, v, k) <==> IsEdge(cat, x, v, k)
      ensures IsEdge(cat, x, v, k) ==> Edge(cat', x, v, k) == Edge(cat, x, v, k)
    {
      EdgeSame(cat, cat', x, v, k);
    }
  }

  lemma MatchIfOnlyFirst(cat: Catalog, rank: seq<nat>, at: Line, v: nat)
    requires Ranked(cat, rank) && at.item < |cat| && !cat[at.item].multi && v < |cat[at.item].values|
    requires OnlyFirst(cat, at.item, v)
    ensures SameGraph(cat, Chosen(cat, at, v + 1).0) && Ranked(Chosen(cat, at, v + 1).0, rank)
    ensures Chosen(cat, at, v + 1).1 == ExpandSubs(Chosen(cat, at, v + 1).0, rank, at.item, v, 0, at.level)
  {
    var cat1 := cat[at.item := cat[at.item].Select(v)];
    assert SameGraph(cat, cat1);
    RankedSame(cat, cat1, rank);
    SameOnlyFirst(cat, cat1, at.item, v);
    InsertIsExpand(cat1, rank, at.item, v, at.level);
    SameGraphThen(cat, cat1, Chosen(cat, at, v + 1).0);
  }

  /** Rows all on one level cannot be an expansion that reaches a second sub-label. */
  lemma DifferUnlessOnlyFirst(cat: Catalog, rank: seq<nat>, x: nat, v: nat, level: int, rows: seq<Line>)
    requires Ranked(cat, rank) && x < |cat| && !cat[x].multi && v < |cat[x].values| && !OnlyFirst(cat, x, v)
    requires forall j :: 0 <= j < |rows| ==> rows[j].level == level + 1
    ensures rows != ExpandSubs(cat, rank, x, v, 0, level)
  {
    var k: nat :| k >= 1 && IsEdge(cat, x, v, k) && Edge(cat, x, v, k) != None;
    var far := ExpansionReaches(cat, rank, x, v, 0, k, level, level + k + 1);
  }

  /** The rows the handler inserts are those of a fresh expansion exactly if only the first sub-label id
      of the chosen value may resolve. */
  lemma InsertMatchesIff(cat: Catalog, rank: seq<nat>, at: Line, sel: int)
    requires Ranked(cat, rank) && at.item < |cat| && !cat[at.item].multi
    requires 0 <= sel <= |cat[at.item].values|
    ensures Ranked(Chosen(cat, at, sel).0, rank)
    ensures [at] + Chosen(cat, at, sel).1 == Expand(Chosen(cat, at, sel).0, rank, at.item, at.level)
      <==> sel == 0 || OnlyFirst(cat, at.item, sel - 1)
  {
    ChosenBelow(cat, rank, at, sel);
    ChosenRows(cat, at, sel);
    if sel > 0 {
      var x, v := at.item, sel - 1;
      var cat', rows := Chosen(cat, at, sel).0, Chosen(cat, at, sel).1;
      var subs := ExpandSubs(cat', rank, x, v, 0, at.level);
      assert Expand(cat', rank, x, at.level) == [at] + subs;
      assert ([at] + subs)[1..] == subs && ([at] + rows)[1..] == rows;
      SameOnlyFirst(cat, cat', x, v);
      if OnlyFirst(cat, x, v) {
        MatchIfOnlyFirst(cat, rank, at, v);
      } else {
        DifferUnlessOnlyFirst(cat', rank, x, v, at.level, rows);
      }
    }
  }

  /** A fresh expansion shows every sub-label the insertion loop shows. */
  lemma {:induction false} ExpansionAtLeast(cat: Catalog, rank: seq<nat>, x: nat, v: nat, k: nat, level: int, m: nat)
    requires Ranked(cat, rank) && x < |cat| && !cat[x].multi && v < |cat[x].values|
    requires k + m <= |cat[x].values[v].subItems|
    requires forall j: nat :: k <= j < k + m ==> Lookup(cat, cat[x].values[v].subItems[j]).Some?
    ensures |ExpandSubs(cat, rank, x, v, k, level)| >= m
    decreases m
  {
    if m > 0 {
      assert IsEdge(cat, x, v, k);
      assert Lookup(cat, cat[x].values[v].subItems[k]).Some?;
      ExpansionAtLeast(cat, rank, x, v, k + 1, level + 1, m - 1);
    }
  }

  lemma InsertedNoMore(cat: Catalog, rank: seq<nat>, at: Line, sel: int)
    requires Ranked(cat, rank) && at.item < |cat| && !cat[at.item].multi && 0 <= sel <= |cat[at.item].values|
    ensures Ranked(Chosen(cat, at, sel).0, rank)
    ensures 1 + |Chosen(cat, at, sel).1| <= |Expand(Chosen(cat, at, sel).0, rank, at.item, at.level)|
  {
    ChosenBelow(cat, rank, at, sel);
    ChosenRows(cat, at, sel);
    if sel > 0 {
      var cat', rows := Chosen(cat, at, sel).0, Chosen(cat, at, sel).1;
      LookupsSame(cat, cat', cat[at.item].values[sel - 1].subItems);
      ExpansionAtLeast(cat', rank, at.item, sel - 1, 0, at.level, |rows|);
    }
  }

  // ------------------------------------------------------------------ one event

  /** Where row n's own expansion ends. */
  ghost function OwnEnd(cat: Catalog, rank: seq<nat>, lines: seq<Line>, n: nat): nat
    requires Ranked(cat, rank) && n < |lines| && lines[n].item < |cat|
  {
    n + |Expand(cat, rank, lines[n].item, lines[n].level)|
  }

  /** Setting row n to combo index sel keeps the rows in sync: only the first sub-label id of the chosen value
      may resolve, and the run the handler deletes is row n's own expansion, that is, the first row after that
      expansion stands no higher than row n. */
  ghost predicate Fits(cat: Catalog, rank: seq<nat>, lines: seq<Line>, n: nat, sel: int)
    requires Ranked(cat, rank) && n < |lines| && lines[n].item < |cat| && sel >= 0
  {
    && (sel == 0 || OnlyFirst(cat, lines[n].item, sel - 1))
    && RunEnd(lines, n, n + 1) == OwnEnd(cat, rank, lines, n)
  }

  lemma {:induction false} RunEndUnique(lines: seq<Line>, n: nat, k: nat, end: nat)
    requires n < k <= end <= |lines|
    requires forall j :: k <= j < end ==> lines[j].level > lines[n].level
    requires end < |lines| ==> lines[end].level <= lines[n].level
    ensures RunEnd(lines, n, k) == end
    decreases end - k
  {
    if k < end {
      RunEndUnique(lines, n, k + 1, end);
    }
  }

  /** The run covers row n's own expansion, and ends there exactly if the next row stands no higher. */
  lemma RunCovers(cat: Catalog, rank: seq<nat>, lines: seq<Line>, n: nat, pre: seq<Line>, post: seq<Line>)
    requires Ranked(cat, rank) && n < |lines| && |pre| == n && lines[n].item < |cat|
    requires Framed(lines, pre, Expand(cat, rank, lines[n].item, lines[n].level), post)
    ensures RunEnd(lines, n, n + 1) >= OwnEnd(cat, rank, lines, n)
    ensures RunEnd(lines, n, n + 1) == OwnEnd(cat, rank, lines, n)
      <==> OwnEnd(cat, rank, lines, n) == |lines| || lines[OwnEnd(cat, rank, lines, n)].level <= lines[n].level
  {
    var part, end := Expand(cat, rank, lines[n].item, lines[n].level), OwnEnd(cat, rank, lines, n);
    DescendantsAbove(cat, rank, lines[n].item, lines[n].level);
    forall j | n + 1 <= j < end
      ensures lines[j].level > lines[n].level
    {
      assert lines[n..end][j - n] == part[1..][j - n - 1];
    }
    RunIsMaximal(lines, n, n + 1);
  }

  /** What the handler and a fresh expansion leave behind, compared piece by piece. */
  lemma PiecesAgreeIff(
      pre: seq<Line>, at: Line, inserted: seq<Line>, part': seq<Line>, post: seq<Line>, cut: nat)
    requires cut <= |post| && 1 + |inserted| <= |part'|
    ensures pre + ([at] + inserted) + post[cut..] == pre + part' + post <==> [at] + inserted == part' && cut == 0
  {
    if cut == 0 {
      assert post[cut..] == post;
      Cancel(pre, [at] + inserted, part', post);
    } else {
      assert |pre + ([at] + inserted) + post[cut..]| < |pre + part' + post|;
    }
  }

  /** On any acyclic label graph: where the labels an event touches are displayed only in row n's own expansion,
      the event keeps the rows equal to a fresh expansion exactly if it fits. */
  lemma ComboInSyncIff(cat: Catalog, rank: seq<nat>, entries: seq<string>, lines: seq<Line>, n: nat, sel: int)
    requires Ranked(cat, rank) && lines == ExpandEntries(cat, rank, entries) && n < |lines|
    requires lines[n].item < |cat| && !cat[lines[n].item].multi && 0 <= sel <= |cat[lines[n].item].values|
    requires Undisturbed(cat, Combo(cat, lines, n, sel).0, rank, lines, n)
    ensures Ranked(Combo(cat, lines, n, sel).0, rank)
    ensures Combo(cat, lines, n, sel).1 == ExpandEntries(Combo(cat, lines, n, sel).0, rank, entries)
      <==> Fits(cat, rank, lines, n, sel)
  {
    var at := lines[n];
    var cat', inserted := Chosen(cat, at, sel).0, Chosen(cat, at, sel).1;
    InsertMatchesIff(cat, rank, at, sel);
    InsertedNoMore(cat, rank, at, sel);
    ChosenBelow(cat, rank, at, sel);
    var pre, post := SpliceRows(cat, cat', rank, entries, lines, n);
    RunCovers(cat, rank, lines, n, pre, post);
    HandlerAgreesIff(lines, ExpandEntries(cat', rank, entries), pre, Expand(cat, rank, at.item, at.level),
      Expand(cat', rank, at.item, at.level), post, inserted, RunEnd(lines, n, n + 1));
  }

  lemma HandlerAgreesIff(
      lines: seq<Line>, anew: seq<Line>, pre: seq<Line>, part: seq<Line>, part': seq<Line>, post: seq<Line>,
      inserted: seq<Line>, run: nat)
    requires Framed(lines, pre, part, post) && Framed(anew, pre, part', post)
    requires |part| > 0 && |pre| + |part| <= run <= |lines| && 1 + |inserted| <= |part'|
    ensures lines[..|pre| + 1] + inserted + lines[run..] == anew
      <==> [lines[|pre|]] + inserted == part' && run == |pre| + |part|
  {
    var cut := run - (|pre| + |part|);
    FramedWhole(anew, pre, part', post);
    HandlerPieces(lines, pre, part, post, cut, inserted);
    PiecesAgreeIff(pre, lines[|pre|], inserted, part', post, cut);
  }

  /** The rows before and after row n's own expansion are those of the new expansion. */
  lemma SpliceRows(
      cat: Catalog, cat': Catalog, rank: seq<nat>, entries: seq<string>, lines: seq<Line>, n: nat)
    returns (pre: seq<Line>, post: seq<Line>)
    requires SameGraph(cat, cat') && Ranked(cat, rank) && Ranked(cat', rank) && |cat'| == |cat|
    requires lines == ExpandEntries(cat, rank, entries) && n < |lines| && lines[n].item < |cat|
    requires Undisturbed(cat, cat', rank, lines, n)
    ensures |pre| == n && Framed(lines, pre, Expand(cat, rank, lines[n].item, lines[n].level), post)
    ensures Framed(ExpandEntries(cat', rank, entries), pre, Expand(cat', rank, lines[n].item, lines[n].level), post)
  {
    EntriesFromStart(cat, rank, entries);
    EntriesFromStart(cat', rank, entries);
    pre, post := SpliceEntries(cat, cat', rank, entries, 0, n);
    RowsAround(cat, cat', rank, lines, n, pre, post);
  }

  lemma RowsAround(
      cat: Catalog, cat': Catalog, rank: seq<nat>, lines: seq<Line>, n: nat, pre: seq<Line>, post: seq<Line>)
    requires |cat'| == |cat| && Ranked(cat, rank) && n < |lines| && lines[n].item < |cat| && |pre| == n
    requires Framed(lines, pre, Expand(cat, rank, lines[n].item, lines[n].level), post)
    requires Undisturbed(cat, cat', rank, lines, n)
    ensures RowsSame(cat, cat', pre) && RowsSame(cat, cat', post)
  {
    var end := OwnEnd(cat, rank, lines, n);
    forall m | 0 <= m < |pre|
      ensures Same(cat, cat', pre[m].item)
    {
      assert pre[m] == lines[..n][m] && !Inside(cat, rank, lines, n, m);
    }
    forall m | 0 <= m < |post|
      ensures Same(cat, cat', post[m].item)
    {
      assert post[m] == lines[end..][m] && !Inside(cat, rank, lines, n, end + m);
    }
  }

  lemma FramedWhole(whole: seq<Line>, pre: seq<Line>, part: seq<Line>, post: seq<Line>)
    requires Framed(whole, pre, part, post)
    ensures whole == pre + part + post
  {
    assert whole == whole[..|pre|] + whole[|pre|..|pre| + |part|] + whole[|pre| + |part|..];
  }

  lemma HandlerPieces(
      lines: seq<Line>, pre: seq<Line>, part: seq<Line>, post: seq<Line>, cut: nat, inserted: seq<Line>)
    requires Framed(lines, pre, part, post) && |part| > 0 && cut <= |post|
    ensures lines[..|pre| + 1] + inserted + lines[|pre| + |part| + cut..]
      == pre + ([lines[|pre|]] + inserted) + post[cut..]
  {
    assert lines[..|pre| + 1] == lines[..|pre|] + [lines[|pre|]];
    assert lines[|pre| + |part| + cut..] == lines[|pre| + |part|..][cut..];
    Assoc(pre, [lines[|pre|]], inserted);
  }

  /** On a tree-shaped label graph one combo box change keeps the rows equal to a fresh expansion exactly if it
      fits. */
  lemma TreeComboInSyncIff(cat: Catalog, rank: seq<nat>, entries: seq<string>, lines: seq<Line>, n: nat, sel: int)
    requires Ranked(cat, rank) && OneParent(cat, entries)
    requires lines == ExpandEntries(cat, rank, entries) && n < |lines|
    requires lines[n].item < |cat| && !cat[lines[n].item].multi && 0 <= sel <= |cat[lines[n].item].values|
    ensures Ranked(Combo(cat, lines, n, sel).0, rank)
    ensures Combo(cat, lines, n, sel).1 == ExpandEntries(Combo(cat, lines, n, sel).0, rank, entries)
      <==> Fits(cat, rank, lines, n, sel)
  {
    TreeUndisturbed(cat, rank, entries, lines, n, sel);
    ComboInSyncIff(cat, rank, entries, lines, n, sel);
  }

  // ------------------------------------------------------------------ at most one resolvable sub-label

  /** At most one sub-label id of value v of label i resolves. */
  ghost predicate AtMostOne(cat: Catalog, i: nat, v: nat) {
    forall k: nat, c: nat, k': nat, c': nat :: Leads(cat, i, v, k, c) && Leads(cat, i, v, k', c') ==> k == k'
  }

  /** So it is for every value selected now. */
  ghost predicate SelectedLone(cat: Catalog) {
    forall i: nat :: i < |cat| && cat[i].Shows() ==> AtMostOne(cat, i, cat[i].selid)
  }

  ghost predicate AllLone(cat: Catalog) {
    forall i: nat, v: nat :: i < |cat| && !cat[i].multi && v < |cat[i].values| ==> AtMostOne(cat, i, v)
  }

  lemma {:induction false} NoneAfter(
      cat: Catalog, rank: seq<nat>, i: nat, v: nat, j: nat, c: nat, k: nat, level: int)
    requires Ranked(cat, rank) && AtMostOne(cat, i, v) && Leads(cat, i, v, j, c)
    requires j < k <= |cat[i].values[v].subItems|
    ensures ExpandSubs(cat, rank, i, v, k, level) == []
    decreases |cat[i].values[v].subItems| - k
  {
    if k < |cat[i].values[v].subItems| {
      assert IsEdge(cat, i, v, k);
      if Edge(cat, i, v, k).Some? {
        assert Leads(cat, i, v, k, Edge(cat, i, v, k).value);
      }
      NoneAfter(cat, rank, i, v, j, c, k + 1, level + 1);
    }
  }

  /** Then the expansion of every displayed row reaches to the end of its tree. */
  lemma {:induction false} LoneTail(cat: Catalog, rank: seq<nat>, i: nat, level: int, n: nat)
    requires Ranked(cat, rank) && SelectedLone(cat) && i < |cat| && n < |Expand(cat, rank, i, level)|
    ensures var row := Expand(cat, rank, i, level)[n];
      && row.item < |cat| && row.level >= level
      && n + |Expand(cat, rank, row.item, row.level)| == |Expand(cat, rank, i, level)|
    decreases rank[i], 1, 0
  {
    if n > 0 {
      LoneTailSubs(cat, rank, i, 0, level, n - 1);
    }
  }

  lemma {:induction false} LoneTailSubs(cat: Catalog, rank: seq<nat>, i: nat, k: nat, level: int, n: nat)
    requires Ranked(cat, rank) && SelectedLone(cat) && i < |cat| && cat[i].Shows()
    requires k <= |cat[i].values[cat[i].selid].subItems| && n < |ExpandSubs(cat, rank, i, cat[i].selid, k, level)|
    ensures var rows := ExpandSubs(cat, rank, i, cat[i].selid, k, level);
      && rows[n].item < |cat| && rows[n].level >= level
      && n + |Expand(cat, rank, rows[n].item, rows[n].level)| == |rows|
    decreases rank[i], 0, |cat[i].values[cat[i].selid].subItems| - k
  {
    var v := cat[i].selid;
    assert IsEdge(cat, i, v, k);
    var c := Edge(cat, i, v, k);
    if c == None {
      LoneTailSubs(cat, rank, i, k + 1, level + 1, n);
    } else {
      assert Leads(cat, i, v, k, c.value);
      NoneAfter(cat, rank, i, v, k, c.value, k + 1, level + 1);
      LoneTail(cat, rank, c.value, level + 1, n);
    }
  }

  lemma {:induction false} RootsAtZero(cat: Catalog, rank: seq<nat>, entries: seq<string>, p: nat)
    requires Ranked(cat, rank) && p <= |entries|
    ensures |EntriesFrom(cat, rank, entries, p)| > 0 ==> EntriesFrom(cat, rank, entries, p)[0].level == 0
    decreases |entries| - p
  {
    if p < |entries| {
      RootsAtZero(cat, rank, entries, p + 1);
      var c := Lookup(cat, entries[p]);
      if c.Some? {
        DescendantsAbove(cat, rank, c.value, 0);
      }
    }
  }

  lemma {:induction false} LoneTailEntries(cat: Catalog, rank: seq<nat>, entries: seq<string>, p: nat, n: nat)
    requires Ranked(cat, rank) && SelectedLone(cat) && p <= |entries| && n < |EntriesFrom(cat, rank, entries, p)|
    ensures var rows := EntriesFrom(cat, rank, entries, p);
      && rows[n].item < |cat| && rows[n].level >= 0
      && var end := n + |Expand(cat, rank, rows[n].item, rows[n].level)|;
         end <= |rows| && (end < |rows| ==> rows[end].level == 0)
    decreases |entries| - p
  {
    var c := Lookup(cat, entries[p]);
    if c == None {
      LoneTailEntries(cat, rank, entries, p + 1, n);
    } else {
      var first := Expand(cat, rank, c.value, 0);
      if n < |first| {
        LoneTail(cat, rank, c.value, 0, n);
        RootsAtZero(cat, rank, entries, p + 1);
      } else {
        LoneTailEntries(cat, rank, entries, p + 1, n - |first|);
      }
    }
  }

  /** Where at most one sub-label id of every selected value resolves, the run the handler deletes is always row
      n's own expansion: an event fits exactly if only the first id of the chosen value may resolve. */
  lemma LoneFitsIff(cat: Catalog, rank: seq<nat>, entries: seq<string>, lines: seq<Line>, n: nat, sel: int)
    requires Ranked(cat, rank) && SelectedLone(cat)
    requires lines == ExpandEntries(cat, rank, entries) && n < |lines| && sel >= 0
    ensures lines[n].item < |cat|
    ensures RunEnd(lines, n, n + 1) == OwnEnd(cat, rank, lines, n)
    ensures Fits(cat, rank, lines, n, sel) <==> sel == 0 || OnlyFirst(cat, lines[n].item, sel - 1)
  {
    EntriesFromStart(cat, rank, entries);
    LoneTailEntries(cat, rank, entries, 0, n);
    assert SameGraph(cat, cat);
    var pre, post := SpliceEntries(cat, cat, rank, entries, 0, n);
    RunCovers(cat, rank, lines, n, pre, post);
  }

  // ------------------------------------------------------------------ whole runs

  /** The displayed rows are a fresh expansion of the entries. */
  ghost predicate InSync(s: (Catalog, seq<Line>), rank: seq<nat>, entries: seq<string>) {
    Ranked(s.0, rank) && s.1 == ExpandEntries(s.0, rank, entries)
  }

  /** A combo box event fits; a check box event always does. */
  ghost predicate Sound(s: (Catalog, seq<Line>), rank: seq<nat>, e: Event)
    requires CanHappen(s.0, s.1, e)
  {
    Ranked(s.0, rank) && (e.ComboSet? ==> Fits(s.0, rank, s.1, e.n, e.sel))
  }

  /** Check boxes never change which rows are displayed. */
  lemma CheckKeepsRows(cat: Catalog, rank: seq<nat>, entries: seq<string>, x: nat, i: nat, on: bool)
    requires Ranked(cat, rank) && x < |cat| && cat[x].multi
    ensures SameGraph(cat, Check(cat, x, i, on)) && Ranked(Check(cat, x, i, on), rank)
    ensures ExpandEntries(Check(cat, x, i, on), rank, entries) == ExpandEntries(cat, rank, entries)
  {
    var cat' := Check(cat, x, i, on);
    RankedSame(cat, cat', rank);
    EntriesFromStart(cat, rank, entries);
    EntriesFromStart(cat', rank, entries);
    forall m | 0 <= m < |EntriesFrom(cat, rank, entries, 0)|
      ensures Same(cat, cat', EntriesFrom(cat, rank, entries, 0)[m].item)
    {
      var pre, post := SpliceEntries(cat, cat', rank, entries, 0, m);
    }
    EntriesSame(cat, cat', rank, entries, 0);
  }

  lemma LeadsSame(cat: Catalog, cat': Catalog)
    requires SameGraph(cat, cat')
    ensures forall i: nat, v: nat, k: nat, c: nat :: Leads(cat', i, v, k, c) <==> Leads(cat, i, v, k, c)
  {
    forall i: nat, v: nat, k: nat, c: nat
      ensures Leads(cat', i, v, k, c) <==> Leads(cat, i, v, k, c)
    {
      EdgeSame(cat, cat', i, v, k);
    }
  }

  lemma OneParentSame(cat: Catalog, cat': Catalog, entries: seq<string>)
    requires SameGraph(cat, cat') && OneParent(cat, entries)
    ensures OneParent(cat', entries)
  {
    LeadsSame(cat, cat');
    forall p: nat, c: nat
      ensures Roots(cat', entries, p, c) <==> Roots(cat, entries, p, c)
    {
      if p < |entries| {
        LookupSame(cat, cat', entries[p], 0);
      }
    }
  }

  lemma HandleInSyncIff(s: (Catalog, seq<Line>), rank: seq<nat>, entries: seq<string>, e: Event)
    requires InSync(s, rank, entries) && OneParent(s.0, entries) && CanHappen(s.0, s.1, e)
    ensures InSync(Handle(s.0, s.1, e), rank, entries) <==> Sound(s, rank, e)
  {
    match e
    case ComboSet(n, sel) => TreeComboInSyncIff(s.0, rank, entries, s.1, n, sel);
    case CheckSet(n, i, on) => CheckKeepsRows(s.0, rank, entries, s.1[n].item, i, on);
  }

  /** Event t of the run keeps an in-sync state in sync exactly if it is sound. */
  lemma StepInSyncIff(
      run: seq<(Catalog, seq<Line>)>, events: seq<Event>, rank: seq<nat>, entries: seq<string>, t: nat)
    requires IsRun(run, events) && OneParent(run[0].0, entries) && t < |events| && InSync(run[t], rank, entries)
    ensures CanHappen(run[t].0, run[t].1, events[t])
    ensures InSync(run[t + 1], rank, entries) <==> Sound(run[t], rank, events[t])
  {
    assert CanHappen(run[t].0, run[t].1, events[t]);
    RunSameGraph(run, events, t);
    OneParentSame(run[0].0, run[t].0, entries);
    HandleInSyncIff(run[t], rank, entries, events[t]);
  }

  lemma {:induction false} SoundRunInSync(
      run: seq<(Catalog, seq<Line>)>, events: seq<Event>, rank: seq<nat>, entries: seq<string>, t: nat)
    requires IsRun(run, events) && InSync(run[0], rank, entries) && OneParent(run[0].0, entries) && t < |run|
    requires forall u :: 0 <= u < |events| ==>
      CanHappen(run[u].0, run[u].1, events[u]) && Sound(run[u], rank, events[u])
    ensures InSync(run[t], rank, entries)
  {
    if t > 0 {
      SoundRunInSync(run, events, rank, entries, t - 1);
      StepInSyncIff(run, events, rank, entries, t - 1);
      assert Sound(run[t - 1], rank, events[t - 1]) && run[t - 1 + 1] == run[t];
    }
  }

  /** Every state of the run is in sync. */
  ghost predicate StaysInSync(run: seq<(Catalog, seq<Line>)>, rank: seq<nat>, entries: seq<string>) {
    forall t :: 0 <= t < |run| ==> InSync(run[t], rank, entries)
  }

  /** Every event of the run is sound in the state it happens in. */
  ghost predicate AllSound(run: seq<(Catalog, seq<Line>)>, events: seq<Event>, rank: seq<nat>)
    requires IsRun(run, events)
  {
    forall t :: 0 <= t < |events| ==>
      CanHappen(run[t].0, run[t].1, events[t]) && Sound(run[t], rank, events[t])
  }

  /** On a tree-shaped label graph every state of a run of combo box and check box events is in sync exactly if
      every combo box event in it fits the state it happens in. */
  lemma RunInSyncIff(run: seq<(Catalog, seq<Line>)>, events: seq<Event>, rank: seq<nat>, entries: seq<string>)
    requires IsRun(run, events) && InSync(run[0], rank, entries) && OneParent(run[0].0, entries)
    ensures StaysInSync(run, rank, entries) <==> AllSound(run, events, rank)
  {
    if forall t :: 0 <= t < |run| ==> InSync(run[t], rank, entries) {
      forall t | 0 <= t < |events|
        ensures CanHappen(run[t].0, run[t].1, events[t]) && Sound(run[t], rank, events[t])
      {
        StepInSyncIff(run, events, rank, entries, t);
        assert InSync(run[t + 1], rank, entries);
      }
    } else if forall t :: 0 <= t < |events| ==>
        CanHappen(run[t].0, run[t].1, events[t]) && Sound(run[t], rank, events[t]) {
      forall t | 0 <= t < |run|
        ensures InSync(run[t], rank, entries)
      {
        SoundRunInSync(run, events, rank, entries, t);
      }
    }
  }

  /** A combo box event of the run chooses the blank entry or a value of which only the first sub-label id may
      resolve. */
  ghost predicate ChoosesFirst(cat: Catalog, lines: seq<Line>, e: Event)
    requires CanHappen(cat, lines, e)
  {
    e.ComboSet? ==> e.sel == 0 || OnlyFirst(cat, lines[e.n].item, e.sel - 1)
  }

  /** Where moreover at most one sub-label id of every value resolves, every state of a run is in sync exactly if
      every combo box event in it chooses the blank entry or a value of which only the first id may resolve. */
  lemma LoneRunInSyncIff(run: seq<(Catalog, seq<Line>)>, events: seq<Event>, rank: seq<nat>, entries: seq<string>)
    requires IsRun(run, events) && InSync(run[0], rank, entries) && OneParent(run[0].0, entries)
    requires AllLone(run[0].0)
    ensures (forall t :: 0 <= t < |run| ==> InSync(run[t], rank, entries)) <==>
      forall t :: 0 <= t < |events| ==>
        CanHappen(run[0].0, run[t].1, events[t]) && ChoosesFirst(run[0].0, run[t].1, events[t])
  {
    if forall t :: 0 <= t < |run| ==> InSync(run[t], rank, entries) {
      forall t | 0 <= t < |events|
        ensures CanHappen(run[0].0, run[t].1, events[t]) && ChoosesFirst(run[0].0, run[t].1, events[t])
      {
        LoneStep(run, events, rank, entries, t);
        assert InSync(run[t + 1], rank, entries);
      }
    } else if forall t :: 0 <= t < |events| ==>
        CanHappen(run[0].0, run[t].1, events[t]) && ChoosesFirst(run[0].0, run[t].1, events[t]) {
      forall t | 0 <= t < |run|
        ensures InSync(run[t], rank, entries)
      {
        LoneRunInSync(run, events, rank, entries, t);
      }
    }
  }

  lemma LoneStep(
      run: seq<(Catalog, seq<Line>)>, events: seq<Event>, rank: seq<nat>, entries: seq<string>, t: nat)
    requires IsRun(run, events) && OneParent(run[0].0, entries) && AllLone(run[0].0)
    requires t < |events| && InSync(run[t], rank, entries)
    ensures CanHappen(run[0].0, run[t].1, events[t])
    ensures InSync(run[t + 1], rank, entries) <==> ChoosesFirst(run[0].0, run[t].1, events[t])
  {
    var cat, cat', e := run[0].0, run[t].0, events[t];
    StepInSyncIff(run, events, rank, entries, t);
    RunSameGraph(run, events, t);
    assert cat'[run[t].1[e.n].item] == cat[run[t].1[e.n].item].(selid := cat'[run[t].1[e.n].item].selid);
    if e.ComboSet? {
      LoneSame(cat, cat');
      LoneFitsFirst(cat, cat', rank, entries, run[t].1, e);
    }
  }

  lemma LoneFitsFirst(
      cat: Catalog, cat': Catalog, rank: seq<nat>, entries: seq<string>, lines: seq<Line>, e: Event)
    requires SameGraph(cat, cat') && Ranked(cat', rank) && SelectedLone(cat')
    requires lines == ExpandEntries(cat', rank, entries) && CanHappen(cat', lines, e) && CanHappen(cat, lines, e)
    requires e.ComboSet?
    ensures Fits(cat', rank, lines, e.n, e.sel) <==> ChoosesFirst(cat, lines, e)
  {
    LoneFitsIff(cat', rank, entries, lines, e.n, e.sel);
    if e.sel > 0 {
      SameOnlyFirst(cat, cat', lines[e.n].item, e.sel - 1);
    }
  }

  lemma LoneSame(cat: Catalog, cat': Catalog)
    requires SameGraph(cat, cat') && AllLone(cat)
    ensures SelectedLone(cat')
  {
    LeadsSame(cat, cat');
    forall i: nat | i < |cat'| && cat'[i].Shows()
      ensures AtMostOne(cat', i, cat'[i].selid)
    {
      assert cat'[i] == cat[i].(selid := cat'[i].selid);
      assert AtMostOne(cat, i, cat'[i].selid);
    }
  }

  lemma {:induction false} LoneRunInSync(
      run: seq<(Catalog, seq<Line>)>, events: seq<Event>, rank: seq<nat>, entries: seq<string>, t: nat)
    requires IsRun(run, events) && InSync(run[0], rank, entries) && OneParent(run[0].0, entries)
    requires AllLone(run[0].0) && t < |run|
    requires forall u :: 0 <= u < |events| ==>
      CanHappen(run[0].0, run[u].1, events[u]) && ChoosesFirst(run[0].0, run[u].1, events[u])
    ensures InSync(run[t], rank, entries)
  {
    if t > 0 {
      LoneRunInSync(run, events, rank, entries, t - 1);
      LoneStep(run, events, rank, entries, t - 1);
      assert ChoosesFirst(run[0].0, run[t - 1].1, events[t - 1]) && run[t - 1 + 1] == run[t];
    }
  }
}
