/** The classification dialog from its initial tags to OK, on the objects themselves. */
module ClassifySession {
  import opened Wrappers
  import opened Text
  import opened ClassifyItem
  import opened LabelGraph
  import opened ListEvents
  import opened ClassifyList
  import opened ClassifyDialog
  import opened ListTree
  import opened ListSync
  import opened ListWitness

  // ------------------------------------------------------------------ narrowing keeps the graph acyclic

  lemma {:induction false} LookupSameIds(cat: Catalog, cat': Catalog, id: string, i: nat)
    requires |cat'| == |cat| && i <= |cat| && forall k :: 0 <= k < |cat| ==> cat'[k].id == cat[k].id
    ensures LookupFrom(cat', id, i) == LookupFrom(cat, id, i)
    decreases |cat| - i
  {
    if i < |cat| {
      LookupSameIds(cat, cat', id, i + 1);
    }
  }

  /** Narrowed values have no sub-labels the label did not have. */
  lemma NarrowedRanked(cat: Catalog, cat': Catalog, rank: seq<nat>)
    requires |cat'| == |cat| && Ranked(cat, rank)
    requires forall i :: 0 <= i < |cat| ==> Narrowed(cat[i], cat'[i])
    ensures Ranked(cat', rank)
  {
    forall i: nat, v: nat, k: nat | IsEdge(cat', i, v, k) && Edge(cat', i, v, k).Some?
      ensures rank[Edge(cat', i, v, k).value] < rank[i]
    {
      var at: seq<nat> :| Embeds(cat[i].values, |cat[i].values|, cat'[i].values, at);
      assert cat'[i].values[v] == cat[i].values[at[v]] && IsEdge(cat, i, at[v], k);
      LookupSameIds(cat, cat', cat'[i].values[v].subItems[k], 0);
    }
  }

  lemma AppliedRanked(cat: Catalog, rank: seq<nat>, tags: seq<Tag>)
    requires AllValid(cat) && Ranked(cat, rank)
    ensures Ranked(Apply(cat, tags, |tags|).0, rank) && AllValid(Apply(cat, tags, |tags|).0)
  {
    var cat' := Apply(cat, tags, |tags|).0;
    forall i | 0 <= i < |cat|
      ensures Narrowed(cat[i], cat'[i]) && AllValid(cat')
    {
      ValuesOnlyShrink(cat, tags, |tags|, i);
    }
    NarrowedRanked(cat, cat', rank);
  }

  // ------------------------------------------------------------------ narrowing keeps the graph a tree

  /** A narrowed label's edges are edges the label had, under values in the same order. */
  lemma NarrowedLeads(
      cat: Catalog, cat': Catalog, i: nat, at: seq<nat>, v: nat, k: nat, c: nat)
    requires |cat'| == |cat| && i < |cat| && Embeds(cat[i].values, |cat[i].values|, cat'[i].values, at)
    requires cat'[i].multi == cat[i].multi && forall m :: 0 <= m < |cat| ==> cat'[m].id == cat[m].id
    requires Leads(cat', i, v, k, c)
    ensures v < |at| && Leads(cat, i, at[v], k, c)
  {
    assert cat'[i].values[v] == cat[i].values[at[v]];
    LookupSameIds(cat, cat', cat'[i].values[v].subItems[k], 0);
  }

  /** Where one label has one parent, it still does, under one value once. */
  lemma NarrowedEdges(
      cat: Catalog, cat': Catalog, entries: seq<string>, i: nat, v: nat, k: nat, i': nat, v': nat, k': nat, c: nat)
    requires |cat'| == |cat| && OneParent(cat, entries) && forall m :: 0 <= m < |cat| ==> Narrowed(cat[m], cat'[m])
    requires Leads(cat', i, v, k, c) && Leads(cat', i', v', k', c)
    ensures i == i' && (v == v' ==> k == k')
  {
    var at: seq<nat> :| Embeds(cat[i].values, |cat[i].values|, cat'[i].values, at);
    var at': seq<nat> :| Embeds(cat[i'].values, |cat[i'].values|, cat'[i'].values, at');
    NarrowedLeads(cat, cat', i, at, v, k, c);
    NarrowedLeads(cat, cat', i', at', v', k', c);
    if i == i' && v == v' {
      NarrowedLeads(cat, cat', i, at, v', k', c);
    }
  }

  /** Narrowing a tree-shaped label graph leaves it tree-shaped. */
  lemma NarrowedOneParent(cat: Catalog, cat': Catalog, entries: seq<string>)
    requires |cat'| == |cat| && OneParent(cat, entries)
    requires forall i :: 0 <= i < |cat| ==> Narrowed(cat[i], cat'[i])
    ensures OneParent(cat', entries)
  {
    forall i: nat, v: nat, k: nat, i': nat, v': nat, k': nat, c: nat
        | Leads(cat', i, v, k, c) && Leads(cat', i', v', k', c)
      ensures i == i' && (v == v' ==> k == k')
    {
      NarrowedEdges(cat, cat', entries, i, v, k, i', v', k', c);
    }
    forall p: nat, c: nat
      ensures Roots(cat', entries, p, c) <==> Roots(cat, entries, p, c)
    {
      if p < |entries| {
        LookupSameIds(cat, cat', entries[p], 0);
      }
    }
    forall p: nat, i: nat, v: nat, k: nat, c: nat | Roots(cat', entries, p, c)
      ensures !Leads(cat', i, v, k, c)
    {
      if Leads(cat', i, v, k, c) {
        var at: seq<nat> :| Embeds(cat[i].values, |cat[i].values|, cat'[i].values, at);
        NarrowedLeads(cat, cat', i, at, v, k, c);
      }
    }
  }

  lemma AppliedOneParent(cat: Catalog, entries: seq<string>, tags: seq<Tag>)
    requires AllValid(cat) && OneParent(cat, entries)
    ensures OneParent(Apply(cat, tags, |tags|).0, entries)
  {
    var cat' := Apply(cat, tags, |tags|).0;
    forall i | 0 <= i < |cat|
      ensures Narrowed(cat[i], cat'[i])
    {
      ValuesOnlyShrink(cat, tags, |tags|, i);
    }
    NarrowedOneParent(cat, cat', entries);
  }

  // ------------------------------------------------------------------ one event

  /** The row's combo box has the blank entry and one for each value; its check boxes are one for each value. */
  predicate Offers(labels: Catalog, row: Row, e: Event) {
    && row.item < |labels|
    && match e
       case ComboSet(_, sel) => !labels[row.item].multi && (sel == 0 || 1 <= sel < |labels[row.item].values| + 1)
       case CheckSet(_, i, _) => labels[row.item].multi && i < |row.subs|
  }

  /** The event happens if the rows displayed offer its control; then rows and selections become those of the
      handler. */
  method Fire(list: ListCtrl, e: Event) returns (happened: bool)
    requires list.Valid()
    modifies list, list.data`labels, list.data.items
    ensures list.Valid()
    ensures happened <==> CanHappen(old(list.data.labels), old(list.Lines()), e)
    ensures happened <==> old(e.n < |list.rows| && Offers(list.data.labels, list.rows[e.n], e))
    ensures happened ==>
      (list.data.labels, list.Lines()) == Handle(old(list.data.labels), old(list.Lines()), e)
    ensures !happened ==> list.data.labels == old(list.data.labels) && list.Lines() == old(list.Lines())
  {
    if e.n >= |list.rows| {
      return false;
    }
    var st := list.data.Get(list.rows[e.n].item);
    assert RowOk(list.rows, list.listBox, e.n, list.data.labels);
    match e {
      case ComboSet(n, sel) =>
        if st.multi || !(0 <= sel <= |st.values|) {
          return false;
        }
        OwnedBy(list, n, 0);
        list.OnComboBoxSelectChange(list.rows[n].subs[0], sel);
      case CheckSet(n, i, on) =>
        if !st.multi || i >= |st.values| {
          return false;
        }
        OwnedBy(list, n, i);
        list.OnCheckBoxStateChange(list.rows[n].subs[i], on);
    }
    happened := true;
  }

  /** A sub-control belongs to its row only. */
  lemma OwnedBy(list: ListCtrl, n: nat, j: nat)
    requires list.Valid() && n < |list.rows| && j < |list.rows[n].subs|
    ensures Owns(list.rows, n, j, list.rows[n].subs[j])
    ensures forall m: nat, k: nat :: Owns(list.rows, m, k, list.rows[n].subs[j]) ==> m == n && k == j
  {
    var id := list.rows[n].subs[j];
    assert Owns(list.rows, n, j, id);
    forall m: nat, k: nat | Owns(list.rows, m, k, id)
      ensures m == n && k == j
    {
      OneOwner(list.rows, list.nextId, n, j, m, k, id);
    }
  }

  lemma RunMore(run: seq<(Catalog, seq<Line>)>, events: seq<Event>, e: Event, s: (Catalog, seq<Line>))
    requires IsRun(run, events) && CanHappen(run[|events|].0, run[|events|].1, e)
    requires s == Handle(run[|events|].0, run[|events|].1, e)
    ensures IsRun(run + [s], events + [e])
  {
    var run', events' := run + [s], events + [e];
    forall t | 0 <= t < |events'|
      ensures CanHappen(run'[t].0, run'[t].1, events'[t]) && run'[t + 1] == Handle(run'[t].0, run'[t].1, events'[t])
    {
      if t < |events| {
        assert run[t + 1] == Handle(run[t].0, run[t].1, events[t]);
      }
    }
  }

  /** Any run of events on the rows displayed. */
  method FireAll(list: ListCtrl, events: seq<Event>)
    returns (ghost run: seq<(Catalog, seq<Line>)>, ghost happened: seq<Event>)
    requires list.Valid()
    modifies list, list.data`labels, list.data.items
    ensures list.Valid() && IsRun(run, happened)
    ensures run[0] == (old(list.data.labels), old(list.Lines()))
    ensures run[|happened|] == (list.data.labels, list.Lines())
  {
    run, happened := [(list.data.labels, list.Lines())], [];
    for i := 0 to |events|
      invariant list.Valid() && IsRun(run, happened)
      invariant run[0] == (old(list.data.labels), old(list.Lines()))
      invariant run[|happened|] == (list.data.labels, list.Lines())
    {
      var done := Fire(list, events[i]);
      if done {
        RunMore(run, happened, events[i], (list.data.labels, list.Lines()));
        run, happened := run + [(list.data.labels, list.Lines())], happened + [events[i]];
      }
    }
  }

  // ------------------------------------------------------------------ the whole session

  /** Initial tag k matched value j of single-selection label i. */
  predicate MatchedBy(cat: Catalog, tags: seq<Tag>, k: nat, i: nat, j: nat) {
    && k < |tags| && MatchFrom(Apply(cat, tags, k).0, tags[k], 0) == Some((i, j))
    && !Apply(cat, tags, k).0[i].multi
  }

  /** Row contributes exactly one of the final tags, that of its label's one selected value, which has at least
      this priority. */
  ghost predicate Upheld(labels: Catalog, lines: seq<Line>, row: nat, floor: int, finalTags: seq<Tag>)
    requires row < |lines| && forall m :: 0 <= m < |lines| ==> lines[m].item < |labels|
  {
    var st, at := labels[lines[row].item], TagCount(labels, lines, row);
    exists value: ItemValue ::
      && st.ChosenValues() == [value] && value.priority >= floor
      && at < |finalTags| && finalTags[at] == Tag(st.name, value.data) && TagCount(labels, lines, row + 1) == at + 1
  }

  /** Every displayed label that an initial tag matched has kept the matched priority. */
  ghost predicate NothingDowngraded(
      cat: Catalog, tags: seq<Tag>, labels: Catalog, lines: seq<Line>, finalTags: seq<Tag>)
    requires |labels| == |cat| && forall m :: 0 <= m < |lines| ==> lines[m].item < |labels|
  {
    forall k: nat, i: nat, j: nat, row: nat ::
      MatchedBy(cat, tags, k, i, j) && row < |lines| && lines[row].item == i ==>
        Upheld(labels, lines, row, Apply(cat, tags, k).0[i].values[j].priority, finalTags)
  }

  lemma SessionKeepsPriorities(
      cat: Catalog, tags: seq<Tag>, run: seq<(Catalog, seq<Line>)>, events: seq<Event>,
      labels: Catalog, lines: seq<Line>, finalTags: seq<Tag>)
    requires AllValid(cat) && IsRun(run, events) && run[0].0 == Apply(cat, tags, |tags|).0
    requires run[|events|] == (labels, lines) && |labels| == |cat|
    requires forall m :: 0 <= m < |lines| ==> lines[m].item < |labels|
    requires AllFilled(labels, lines)
    requires ListTags(labels, lines, |lines|) <= finalTags
    ensures NothingDowngraded(cat, tags, labels, lines, finalTags)
  {
    forall k: nat, i: nat, j: nat, row: nat | MatchedBy(cat, tags, k, i, j) && row < |lines| && lines[row].item == i
      ensures Upheld(labels, lines, row, Apply(cat, tags, k).0[i].values[j].priority, finalTags)
    {
      var value := NoDowngrade(cat, tags, k, i, j, run, events, row);
      ValuesOnlyShrink(cat, tags, |tags|, i);
      RunSameGraph(run, events, |events|);
      assert labels[i] == run[0].0[i].(selid := labels[i].selid);
    }
  }

  // ------------------------------------------------------------------ what becomes of a matched tag

  predicate Displays(lines: seq<Line>, i: nat) {
    exists row :: 0 <= row < |lines| && lines[row].item == i
  }

  /** The row displays a label of that name with a selection. */
  predicate NamedRow(labels: Catalog, lines: seq<Line>, row: nat, name: string) {
    && row < |lines| && lines[row].item < |labels|
    && labels[lines[row].item].name == name && labels[lines[row].item].Filled()
  }

  predicate NameListed(tags: seq<Tag>, name: string) {
    exists tag :: tag in tags && tag.name == name
  }

  /** The displayed labels' tags name exactly the displayed labels that have a selection. */
  lemma {:induction false} NameListedIff(labels: Catalog, lines: seq<Line>, name: string)
    requires AllValid(labels) && forall m :: 0 <= m < |lines| ==> lines[m].item < |labels|
    ensures NameListed(ListTags(labels, lines, |lines|), name) <==>
      exists row: nat :: NamedRow(labels, lines, row, name)
  {
    if NameListed(ListTags(labels, lines, |lines|), name) {
      var tag :| tag in ListTags(labels, lines, |lines|) && tag.name == name;
      var row, k := TagHasRow(labels, lines, |lines|, tag);
      FilledIffNonEmpty(labels[lines[row].item]);
      assert NamedRow(labels, lines, row, name);
    }
    if exists row: nat :: NamedRow(labels, lines, row, name) {
      var row: nat :| NamedRow(labels, lines, row, name);
      FilledIffNonEmpty(labels[lines[row].item]);
      RowContributes(labels, lines, |lines|, row, 0);
    }
  }

  /** A row displays another label of label i's name, with a selection. */
  ghost predicate Namesake(labels: Catalog, lines: seq<Line>, i: nat)
    requires i < |labels|
  {
    exists row: nat :: NamedRow(labels, lines, row, labels[i].name) && lines[row].item != i
  }

  /** The tags of the displayed labels hold one for a label an initial tag matched exactly if some row displays
      it, or they have it from another label of the same name. A tag whose label is not displayed is lost: it is
      not among the unmatched ones either. */
  ghost predicate LostIffHidden(cat: Catalog, tags: seq<Tag>, labels: Catalog, lines: seq<Line>, shown: seq<Tag>)
    requires |labels| == |cat|
  {
    forall k: nat, i: nat, j: nat :: MatchedBy(cat, tags, k, i, j) ==>
      !LeftOver(cat, tags, k)
      && (NameListed(shown, labels[i].name) <==> Displays(lines, i) || Namesake(labels, lines, i))
  }

  lemma {:induction false} SessionLosesHidden(
      cat: Catalog, tags: seq<Tag>, run: seq<(Catalog, seq<Line>)>, events: seq<Event>,
      labels: Catalog, lines: seq<Line>)
    requires AllValid(cat) && IsRun(run, events) && run[0].0 == Apply(cat, tags, |tags|).0
    requires run[|events|] == (labels, lines) && |labels| == |cat|
    requires forall m :: 0 <= m < |lines| ==> lines[m].item < |labels|
    requires AllFilled(labels, lines)
    ensures LostIffHidden(cat, tags, labels, lines, ListTags(labels, lines, |lines|))
  {
    forall k: nat, i: nat, j: nat | MatchedBy(cat, tags, k, i, j)
      ensures NameListed(ListTags(labels, lines, |lines|), labels[i].name) <==>
        Displays(lines, i) || Namesake(labels, lines, i)
    {
      MatchedMandatory(cat, tags, run, events, k, i, j);
      NameListedIff(labels, lines, labels[i].name);
      if Displays(lines, i) {
        var row :| 0 <= row < |lines| && lines[row].item == i;
        assert NamedRow(labels, lines, row, labels[i].name);
      }
    }
  }

  /** A label that an initial tag matched is mandatory ever after. */
  lemma {:induction false} MatchedMandatory(
      cat: Catalog, tags: seq<Tag>, run: seq<(Catalog, seq<Line>)>, events: seq<Event>, k: nat, i: nat, j: nat)
    requires AllValid(cat) && IsRun(run, events) && run[0].0 == Apply(cat, tags, |tags|).0
    requires MatchedBy(cat, tags, k, i, j)
    ensures AllValid(run[|events|].0) && i < |run[|events|].0| && run[|events|].0[i].mandatory
  {
    FloorHolds(cat, tags, k, |tags|, i, j);
    ValuesOnlyShrink(cat, tags, |tags|, i);
    RunSameGraph(run, events, |events|);
    RunValid(run, events, |events|);
    assert run[|events|].0[i] == run[0].0[i].(selid := run[|events|].0[i].selid);
  }

  /** The tag of a sub-label is lost when no tag selects the value it belongs to: R has no selection, so A, which
      the tag matched, is not displayed; OK succeeds with no tags at all. */
  lemma TagLost()
    ensures var cat, tags := Labels(["A", "B"], -1), [Tag("A", "yes")];
      var (cat', unmatched), lines := Apply(cat, tags, 1), [Line(0, 0)];
      && Ranked(cat', RANK) && OneParent(cat', ENTRIES) && lines == ExpandEntries(cat', RANK, ENTRIES)
      && MatchedBy(cat, tags, 0, 1, 0) && AllFilled(cat', lines)
      && ListTags(cat', lines, 1) == [] && unmatched == []
  {
    var cat, tags := Labels(["A", "B"], -1), [Tag("A", "yes")];
    IsTree("A", "B", -1);
    AppliedRanked(cat, RANK, tags);
    AppliedOneParent(cat, ENTRIES, tags);
    OnlyAMatches();
    var cat' := Apply(cat, tags, 1).0;
    assert cat'[0] == cat[0] && cat'[0].ChosenValues() == [];
    LookupSameIds(cat, cat', "R", 0);
    LeafAlone(cat', 0, 0);
    EntriesFromStart(cat', RANK, ENTRIES);
    assert EntriesFrom(cat', RANK, ENTRIES, 1) == [];
    assert ListTags(cat', [Line(0, 0)], 0) == [];
  }

  lemma OnlyAMatches()
    ensures var cat, tags := Labels(["A", "B"], -1), [Tag("A", "yes")];
      && MatchFrom(cat, tags[0], 0) == Some((1, 0)) && Apply(cat, tags, 0) == (cat, [])
      && Apply(cat, tags, 1) == (cat[1 := Matched(cat[1], 0, "yes")], [])
  {
    var cat, tags := Labels(["A", "B"], -1), [Tag("A", "yes")];
    assert SameNoCase("A", "A") && SameNoCase("yes", "yes");
    assert Lower("A"[0]) != Lower("R"[0]) && !SameNoCase("A", "R");
    assert ValueFrom(cat[1].values, "yes", 0) == Some(0);
    assert MatchFrom(cat, tags[0], 1) == Some((1, 0));
  }

  // ------------------------------------------------------------------ the objects

  /** Initial tags, then display. */
  method Begin(dialog: Dialog, tags: seq<Tag>, ghost rank: seq<nat>)
    requires dialog.list.Valid() && dialog.list.rows == [] && Ranked(dialog.list.data.labels, rank)
    modifies dialog, dialog.list, dialog.list.data`labels, dialog.list.data.items
    ensures dialog.list.Valid() && dialog.finalTags == []
    ensures (dialog.list.data.labels, dialog.unmatched) == Apply(old(dialog.list.data.labels), tags, |tags|)
    ensures InSync((dialog.list.data.labels, dialog.list.Lines()), rank, dialog.list.data.entry)
  {
    DataAllValid(dialog.list.data);
    AppliedRanked(dialog.list.data.labels, rank, tags);
    dialog.SetInitialData(tags);
    assert dialog.list.Valid();
    dialog.list.Init(rank);
    ghost var lines := ExpandEntries(dialog.list.data.labels, rank, dialog.list.data.entry);
    assert lines + [] == lines;
  }

  /** OK. */
  method Finish(dialog: Dialog) returns (ok: bool)
    requires dialog.list.Valid() && dialog.finalTags == []
    modifies dialog`finalTags
    ensures ok <==> AllFilled(dialog.list.data.labels, dialog.list.Lines())
    ensures ok ==>
      var shown := ListTags(dialog.list.data.labels, dialog.list.Lines(), |dialog.list.rows|);
      dialog.finalTags == shown + dialog.unmatched
  {
    ok := dialog.OnOk();
    ghost var shown := ListTags(dialog.list.data.labels, dialog.list.Lines(), |dialog.list.rows|);
    assert [] + shown == shown;
  }

  /** Initial tags, display, any run of events, OK. The events that happened form a run from a fresh expansion of
      the narrowed labels; OK succeeds exactly if every displayed mandatory label has a selection; then the final
      tags are those of the displayed labels followed by the unmatched initial tags in their order, nothing
      displayed has been downgraded, and exactly the tags of labels not displayed are lost. */
  method Session(dialog: Dialog, tags: seq<Tag>, events: seq<Event>, ghost rank: seq<nat>)
    returns (ok: bool, ghost run: seq<(Catalog, seq<Line>)>, ghost happened: seq<Event>)
    requires dialog.list.Valid() && dialog.list.rows == [] && Ranked(dialog.list.data.labels, rank)
    modifies dialog, dialog.list, dialog.list.data`labels, dialog.list.data.items
    ensures dialog.list.Valid() && IsRun(run, happened)
    ensures run[0].0 == Apply(old(dialog.list.data.labels), tags, |tags|).0
    ensures InSync(run[0], rank, dialog.list.data.entry)
    ensures run[|happened|] == (dialog.list.data.labels, dialog.list.Lines())
    ensures ok <==> AllFilled(dialog.list.data.labels, dialog.list.Lines())
    ensures ok ==>
      var shown := ListTags(dialog.list.data.labels, dialog.list.Lines(), |dialog.list.rows|);
      dialog.finalTags == shown + Apply(old(dialog.list.data.labels), tags, |tags|).1
    ensures |dialog.list.data.labels| == |old(dialog.list.data.labels)|
    ensures ok ==> NothingDowngraded(old(dialog.list.data.labels), tags,
      dialog.list.data.labels, dialog.list.Lines(), dialog.finalTags)
    ensures ok ==> LostIffHidden(old(dialog.list.data.labels), tags, dialog.list.data.labels, dialog.list.Lines(),
      ListTags(dialog.list.data.labels, dialog.list.Lines(), |dialog.list.rows|))
    ensures OneParent(old(dialog.list.data.labels), dialog.list.data.entry) ==>
      (StaysInSync(run, rank, dialog.list.data.entry) <==> AllSound(run, happened, rank))
  {
    var list := dialog.list;
    ghost var cat := list.data.labels;
    DataAllValid(list.data);
    Begin(dialog, tags, rank);
    run, happened := FireAll(list, events);
    RunSameGraph(run, happened, |happened|);
    ok := Finish(dialog);
    if ok {
      SessionKeepsPriorities(cat, tags, run, happened, list.data.labels, list.Lines(), dialog.finalTags);
      SessionLosesHidden(cat, tags, run, happened, list.data.labels, list.Lines());
    }
    if OneParent(cat, list.data.entry) {
      AppliedOneParent(cat, list.data.entry, tags);
      RunInSyncIff(run, happened, rank, list.data.entry);
    }
  }

  lemma DataAllValid(data: LabelData)
    requires data.Valid()
    ensures AllValid(data.labels)
  {
    forall i | 0 <= i < |data.labels|
      ensures data.labels[i].Valid()
    {
      data.Expose(i);
    }
  }
}
