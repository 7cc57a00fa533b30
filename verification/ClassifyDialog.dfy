/** CDlgClassify2 (nxrmcmui/src/dlgclassify2.cpp): initial tags narrow the labels, OK collects the final tags. */
module ClassifyDialog {
  import opened Wrappers
  import opened Text
  import opened ClassifyItem
  import opened LabelGraph
  import opened ListEvents
  import opened ClassifyList

  // ------------------------------------------------------------------ matching one tag

  /** The first value from j on that equals the text, ignoring case. */
  function ValueFrom(values: seq<ItemValue>, text: string, j: nat): (r: Option<nat>)
    requires j <= |values|
    ensures r.Some? ==> j <= r.value < |values| && SameNoCase(text, values[r.value].data)
    decreases |values| - j
  {
    if j == |values| then None
    else if SameNoCase(text, values[j].data) then Some(j)
    else ValueFrom(values, text, j + 1)
  }

  /** The first label from i on whose name and one of whose values the tag equals, with its first such value. */
  function MatchFrom(cat: Catalog, tag: Tag, i: nat): (r: Option<(nat, nat)>)
    requires i <= |cat|
    ensures r.Some? ==> i <= r.value.0 < |cat| && r.value.1 < |cat[r.value.0].values|
    decreases |cat| - i
  {
    if i == |cat| then None
    else
      var j := ValueFrom(cat[i].values, tag.value, 0);
      if SameNoCase(tag.name, cat[i].name) && j.Some? then Some((i, j.value))
      else MatchFrom(cat, tag, i + 1)
  }

  predicate Equals(cat: Catalog, tag: Tag, i: nat, j: nat) {
    && i < |cat| && j < |cat[i].values|
    && SameNoCase(tag.name, cat[i].name) && SameNoCase(tag.value, cat[i].values[j].data)
  }

  lemma {:induction false} FirstValue(values: seq<ItemValue>, text: string, j: nat)
    requires j <= |values|
    ensures var r := ValueFrom(values, text, j);
      forall k :: j <= k < |values| && SameNoCase(text, values[k].data) ==> r.Some? && r.value <= k
    decreases |values| - j
  {
    if j < |values| {
      FirstValue(values, text, j + 1);
    }
  }

  /** A tag is left over exactly if it equals no value of any label; otherwise the first label and its first
      value win. */
  lemma {:induction false} MatchIsFirst(cat: Catalog, tag: Tag, i: nat)
    requires i <= |cat|
    ensures var r := MatchFrom(cat, tag, i);
      && (r.Some? ==> Equals(cat, tag, r.value.0, r.value.1))
      && forall i': nat, j: nat :: i <= i' && Equals(cat, tag, i', j) ==>
           r.Some? && (r.value.0 < i' || (r.value.0 == i' && r.value.1 <= j))
    decreases |cat| - i
  {
    if i < |cat| {
      FirstValue(cat[i].values, tag.value, 0);
      MatchIsFirst(cat, tag, i + 1);
    }
  }

  // ------------------------------------------------------------------ narrowing one label

  /** The values of at least the given priority among the first n, in order. */
  function Kept(values: seq<ItemValue>, floor: int, n: nat): seq<ItemValue>
    requires n <= |values|
  {
    if n == 0 then []
    else if values[n - 1].priority >= floor then Kept(values, floor, n - 1) + [values[n - 1]]
    else Kept(values, floor, n - 1)
  }

  /** The index that narrowing selects: the last kept value that equals the text, 0 if there is none. */
  function KeptIndex(values: seq<ItemValue>, floor: int, text: string, n: nat): nat
    requires n <= |values|
  {
    if n == 0 then 0
    else if values[n - 1].priority >= floor && SameNoCase(text, values[n - 1].data) then |Kept(values, floor, n - 1)|
    else KeptIndex(values, floor, text, n - 1)
  }

  /** at places every element of b among the first n of a, in order. */
  ghost predicate Embeds<T>(a: seq<T>, n: nat, b: seq<T>, at: seq<nat>) {
    && n <= |a| && |at| == |b|
    && (forall k :: 0 <= k < |b| ==> at[k] < n && b[k] == a[at[k]])
    && forall k: nat, l: nat :: k < l < |at| ==> Before(at, k, l)
  }

  predicate Before(at: seq<nat>, k: nat, l: nat) {
    k < |at| && l < |at| && at[k] < at[l]
  }

  /** Position i is one of those listed. */
  predicate Picked(at: seq<nat>, i: nat) {
    exists k :: 0 <= k < |at| && at[k] == i
  }

  ghost predicate Subsequence<T>(a: seq<T>, b: seq<T>) {
    exists at: seq<nat> :: Embeds(a, |a|, b, at)
  }

  lemma EmbedsMore<T>(a: seq<T>, n: nat, b: seq<T>, at: seq<nat>)
    requires Embeds(a, n, b, at) && n < |a|
    ensures Embeds(a, n + 1, b, at) && Embeds(a, n + 1, b + [a[n]], at + [n])
    ensures forall i: nat :: Picked(at + [n], i) <==> Picked(at, i) || i == n
    ensures !Picked(at, n)
  {
    forall k: nat, l: nat | k < l < |at + [n]|
      ensures Before(at + [n], k, l)
    {
      assert l < |at| ==> Before(at, k, l);
    }
    forall i: nat
      ensures Picked(at + [n], i) <==> Picked(at, i) || i == n
    {
      if Picked(at, i) {
        var k :| 0 <= k < |at| && at[k] == i;
        assert (at + [n])[k] == i;
      }
      if i == n {
        assert (at + [n])[|at|] == i;
      }
    }
  }

  lemma SubsequenceOfSelf<T>(a: seq<T>)
    ensures Subsequence(a, a)
  {
    assert Embeds(a, |a|, a, seq(|a|, k requires 0 <= k < |a| => k as nat));
  }

  lemma SubsequenceThen<T>(a: seq<T>, b: seq<T>, c: seq<T>)
    requires Subsequence(a, b) && Subsequence(b, c)
    ensures Subsequence(a, c)
  {
    var at: seq<nat> :| Embeds(a, |a|, b, at);
    var bt: seq<nat> :| Embeds(b, |b|, c, bt);
    var ct: seq<nat> := seq(|c|, k requires 0 <= k < |c| => at[bt[k]]);
    forall k: nat, l: nat | k < l < |ct|
      ensures Before(ct, k, l)
    {
      assert Before(bt, k, l) && Before(at, bt[k], bt[l]);
    }
    assert Embeds(a, |a|, c, ct);
  }

  predicate AtLeast(values: seq<ItemValue>, floor: int, k: nat) {
    k < |values| && values[k].priority >= floor
  }

  /** Exactly the values of at least the given priority are kept, in their order. */
  lemma {:induction false} KeptMeaning(values: seq<ItemValue>, floor: int, n: nat) returns (at: seq<nat>)
    requires n <= |values|
    ensures Embeds(values, n, Kept(values, floor, n), at)
    ensures forall k: nat :: Picked(at, k) <==> k < n && AtLeast(values, floor, k)
  {
    if n == 0 {
      at := [];
    } else {
      at := KeptMeaning(values, floor, n - 1);
      EmbedsMore(values, n - 1, Kept(values, floor, n - 1), at);
      if values[n - 1].priority >= floor {
        at := at + [n - 1];
      }
    }
  }

  /** What narrowing selects equals the text, and no later kept value does. */
  lemma {:induction false} KeptSelected(values: seq<ItemValue>, floor: int, text: string, j: nat, n: nat)
    requires j < n <= |values| && values[j].priority >= floor && SameNoCase(text, values[j].data)
    ensures var kept, sel := Kept(values, floor, n), KeptIndex(values, floor, text, n);
      && sel < |kept| && SameNoCase(text, kept[sel].data)
      && forall k :: sel < k < |kept| ==> !SameNoCase(text, kept[k].data)
  {
    if j < n - 1 {
      KeptSelected(values, floor, text, j, n - 1);
    } else {
    }
  }

  /** InitClassifyItem on a label one of whose values j equals the text. */
  function Matched(st: ItemState, j: nat, text: string): ItemState
    requires j < |st.values|
  {
    if st.multi then st.Select(j)
    else
      var floor := st.values[j].priority;
      st.(values := Kept(st.values, floor, |st.values|),
          selid := KeptIndex(st.values, floor, text, |st.values|),
          mandatory := true)
  }

  /** A single-selection label that must be given one of its values, all of at least this priority. */
  predicate Floored(st: ItemState, floor: int) {
    !st.multi && st.mandatory && forall k :: 0 <= k < |st.values| ==> st.values[k].priority >= floor
  }

  /** A match selects a value equal to the tag's and keeps the selection valid; a multiple selection keeps its
      values, a single one loses exactly those below the matched priority, and no floor ever falls. */
  lemma MatchedMeaning(st: ItemState, j: nat, text: string, floor: int)
    requires st.Valid() && j < |st.values| && SameNoCase(text, st.values[j].data)
    ensures var st' := Matched(st, j, text);
      && st'.Valid() && st'.Selection() != {}
      && st'.id == st.id && st'.name == st.name && st'.displayName == st.displayName && st'.multi == st.multi
      && Subsequence(st.values, st'.values)
      && (st.multi ==> st'.values == st.values && st'.mandatory == st.mandatory
                       && st'.Selection() == st.Selection() + {j})
      && (!st.multi ==> Floored(st', st.values[j].priority) && SameNoCase(text, st'.values[st'.selid].data))
      && (Floored(st, floor) ==> Floored(st', floor) && st.values[j].priority >= floor)
  {
    var st' := Matched(st, j, text);
    if st.multi {
      SelectRefinesInsert(st, j);
      SubsequenceOfSelf(st.values);
    } else {
      var p := st.values[j].priority;
      var at := KeptMeaning(st.values, p, |st.values|);
      forall k | 0 <= k < |st'.values|
        ensures st'.values[k].priority >= p && st'.values[k] in st.values
      {
        assert Picked(at, at[k]) && AtLeast(st.values, p, at[k]);
      }
      KeptSelected(st.values, p, text, j, |st.values|);
      assert st'.selid in st'.Selection();
    }
  }

  /** kept are exactly the values of at least the floor, in their order. */
  ghost predicate Filtered(values: seq<ItemValue>, floor: int, kept: seq<ItemValue>) {
    exists at: seq<nat> ::
      Embeds(values, |values|, kept, at) && forall k: nat :: Picked(at, k) <==> AtLeast(values, floor, k)
  }

  /** What a tag whose text equals value j does to a label: a multiple selection gains the value; a single one
      keeps exactly the values of at least its priority, selects the last that equals the text, and must from
      now on have a selection. */
  ghost predicate TakesTag(st: ItemState, st': ItemState, j: nat, text: string)
    requires j < |st.values|
  {
    && st'.Valid() && st' == st.(values := st'.values, selid := st'.selid, mandatory := st'.mandatory)
    && if st.multi then
         && st'.values == st.values && st'.mandatory == st.mandatory
         && st'.Selection() == st.Selection() + {j}
       else
         && st'.mandatory && Filtered(st.values, st.values[j].priority, st'.values)
         && 0 <= st'.selid < |st'.values| && SameNoCase(text, st'.values[st'.selid].data)
         && forall k :: st'.selid < k < |st'.values| ==> !SameNoCase(text, st'.values[k].data)
  }

  lemma MatchTakesTag(st: ItemState, j: nat, text: string)
    requires st.Valid() && j < |st.values| && SameNoCase(text, st.values[j].data)
    ensures TakesTag(st, Matched(st, j, text), j, text)
  {
    MatchedMeaning(st, j, text, 0);
    if !st.multi {
      var at := KeptMeaning(st.values, st.values[j].priority, |st.values|);
      assert forall k: nat :: Picked(at, k) <==> AtLeast(st.values, st.values[j].priority, k);
      KeptSelected(st.values, st.values[j].priority, text, j, |st.values|);
    }
  }

  // ------------------------------------------------------------------ matching all the initial tags

  /** The labels after one tag, and whether it matched. */
  function ApplyTag(cat: Catalog, tag: Tag): (r: (Catalog, bool))
    ensures |r.0| == |cat|
  {
    var m := MatchFrom(cat, tag, 0);
    if m == None then (cat, false)
    else (cat[m.value.0 := Matched(cat[m.value.0], m.value.1, tag.value)], true)
  }

  /** Label i takes the tag for its value j, and all others stay as they are. */
  ghost predicate OnlyTakes(cat: Catalog, cat': Catalog, i: nat, j: nat, text: string) {
    && i < |cat| == |cat'| && j < |cat[i].values| && TakesTag(cat[i], cat'[i], j, text)
    && forall k :: 0 <= k < |cat| && k != i ==> cat'[k] == cat[k]
  }

  /** A tag that equals no value of any label of its name changes nothing and does not match; any other is taken by
      the first such label, for the first such value. */
  lemma TagApplied(cat: Catalog, tag: Tag)
    requires AllValid(cat)
    ensures ApplyTag(cat, tag).1 <==> exists i: nat, j: nat :: Equals(cat, tag, i, j)
    ensures !ApplyTag(cat, tag).1 ==> ApplyTag(cat, tag).0 == cat
    ensures ApplyTag(cat, tag).1 ==> exists i: nat, j: nat ::
      && Equals(cat, tag, i, j) && OnlyTakes(cat, ApplyTag(cat, tag).0, i, j, tag.value)
      && forall i': nat, j': nat :: Equals(cat, tag, i', j') ==> i < i' || (i == i' && j <= j')
  {
    MatchIsFirst(cat, tag, 0);
    var m := MatchFrom(cat, tag, 0);
    if m.Some? {
      var (i, j) := m.value;
      assert Equals(cat, tag, i, j);
      MatchTakesTag(cat[i], j, tag.value);
      assert OnlyTakes(cat, ApplyTag(cat, tag).0, i, j, tag.value);
    }
  }

  /** The labels and the unmatched tags after the first n tags. */
  function Apply(cat: Catalog, tags: seq<Tag>, n: nat): (r: (Catalog, seq<Tag>))
    requires n <= |tags|
    ensures |r.0| == |cat|
  {
    if n == 0 then (cat, [])
    else
      var r := Apply(cat, tags, n - 1);
      var s := ApplyTag(r.0, tags[n - 1]);
      (s.0, if s.1 then r.1 else r.1 + [tags[n - 1]])
  }

  /** Tag k matches nothing when its turn comes. */
  predicate LeftOver(cat: Catalog, tags: seq<Tag>, k: nat) {
    k < |tags| && MatchFrom(Apply(cat, tags, k).0, tags[k], 0) == None
  }

  lemma UnmatchedStep(cat: Catalog, tags: seq<Tag>, n: nat)
    requires n < |tags|
    ensures Apply(cat, tags, n + 1).1 == Apply(cat, tags, n).1 + if LeftOver(cat, tags, n) then [tags[n]] else []
  {
  }

  /** One more element is looked at, and taken if it is to be. */
  lemma OneMore<T>(a: seq<T>, n: nat, b: seq<T>, before: seq<nat>, take: bool) returns (at: seq<nat>)
    requires Embeds(a, n, b, before) && n < |a|
    ensures Embeds(a, n + 1, b + if take then [a[n]] else [], at)
    ensures forall k: nat :: Picked(at, k) <==> Picked(before, k) || (take && k == n)
    ensures !Picked(before, n)
  {
    EmbedsMore(a, n, b, before);
    at := if take then before + [n] else before;
    assert !take ==> b + [] == b;
  }

  /** Every tag either matches when its turn comes or is among the unmatched ones, which keep their order. */
  lemma {:induction false} TagsConserved(cat: Catalog, tags: seq<Tag>, n: nat) returns (at: seq<nat>)
    requires n <= |tags|
    ensures Embeds(tags, n, Apply(cat, tags, n).1, at)
    ensures forall k: nat :: Picked(at, k) <==> k < n && LeftOver(cat, tags, k)
  {
    if n == 0 {
      at := [];
    } else {
      var before := TagsConserved(cat, tags, n - 1);
      UnmatchedStep(cat, tags, n - 1);
      at := OneMore(tags, n - 1, Apply(cat, tags, n - 1).1, before, LeftOver(cat, tags, n - 1));
      forall k: nat
        ensures Picked(at, k) <==> k < n && LeftOver(cat, tags, k)
      {
        assert Picked(before, k) <==> k < n - 1 && LeftOver(cat, tags, k);
      }
    }
  }

  /** What initial tags may do to a label. */
  ghost predicate Narrowed(st: ItemState, st': ItemState) {
    && st'.id == st.id && st'.name == st.name && st'.displayName == st.displayName && st'.multi == st.multi
    && (st.mandatory ==> st'.mandatory) && (st.multi ==> st'.values == st.values && st'.mandatory == st.mandatory)
    && Subsequence(st.values, st'.values)
  }

  lemma NarrowedByTag(cat: Catalog, tag: Tag, i: nat, floor: int)
    requires AllValid(cat) && i < |cat|
    ensures AllValid(ApplyTag(cat, tag).0) && Narrowed(cat[i], ApplyTag(cat, tag).0[i])
    ensures Floored(cat[i], floor) ==> Floored(ApplyTag(cat, tag).0[i], floor)
  {
    SubsequenceOfSelf(cat[i].values);
    var m := MatchFrom(cat, tag, 0);
    if m.Some? {
      MatchIsFirst(cat, tag, 0);
      MatchedMeaning(cat[m.value.0], m.value.1, tag.value, floor);
    }
  }

  /** Every label's values only shrink, to a subsequence, and every selection stays valid. */
  lemma {:induction false} ValuesOnlyShrink(cat: Catalog, tags: seq<Tag>, n: nat, i: nat)
    requires AllValid(cat) && n <= |tags| && i < |cat|
    ensures AllValid(Apply(cat, tags, n).0) && Narrowed(cat[i], Apply(cat, tags, n).0[i])
  {
    if n == 0 {
      SubsequenceOfSelf(cat[i].values);
    } else {
      ValuesOnlyShrink(cat, tags, n - 1, i);
      var cat1 := Apply(cat, tags, n - 1).0;
      NarrowedByTag(cat1, tags[n - 1], i, 0);
      SubsequenceThen(cat[i].values, cat1[i].values, Apply(cat, tags, n).0[i].values);
    }
  }

  lemma {:induction false} FloorStays(cat: Catalog, tags: seq<Tag>, m: nat, n: nat, i: nat, floor: int)
    requires AllValid(cat) && m <= n <= |tags| && i < |cat| && Floored(Apply(cat, tags, m).0[i], floor)
    ensures Floored(Apply(cat, tags, n).0[i], floor)
    decreases n
  {
    if m < n {
      FloorStays(cat, tags, m, n - 1, i, floor);
      ValuesOnlyShrink(cat, tags, n - 1, i);
      NarrowedByTag(Apply(cat, tags, n - 1).0, tags[n - 1], i, floor);
    }
  }

  lemma MatchFloors(cat: Catalog, tag: Tag, i: nat, j: nat)
    requires AllValid(cat) && MatchFrom(cat, tag, 0) == Some((i, j)) && !cat[i].multi
    ensures Floored(ApplyTag(cat, tag).0[i], cat[i].values[j].priority)
  {
    MatchIsFirst(cat, tag, 0);
    MatchedMeaning(cat[i], j, tag.value, 0);
  }

  /** Once tag k has matched value j of a single-selection label, the label stays mandatory and keeps only
      values of at least that priority, whatever tags follow. */
  lemma FloorHolds(cat: Catalog, tags: seq<Tag>, k: nat, n: nat, i: nat, j: nat)
    requires AllValid(cat) && k < n <= |tags|
    requires MatchFrom(Apply(cat, tags, k).0, tags[k], 0) == Some((i, j)) && !Apply(cat, tags, k).0[i].multi
    ensures Floored(Apply(cat, tags, n).0[i], Apply(cat, tags, k).0[i].values[j].priority)
  {
    ValuesOnlyShrink(cat, tags, k, i);
    MatchFloors(Apply(cat, tags, k).0, tags[k], i, j);
    FloorStays(cat, tags, k + 1, n, i, Apply(cat, tags, k).0[i].values[j].priority);
  }

  /** The tag is the one and only tag row contributes to those of the displayed labels. */
  predicate OwnTag(labels: Catalog, lines: seq<Line>, row: nat, tag: Tag)
    requires row < |lines| && forall m :: 0 <= m < |lines| ==> lines[m].item < |labels|
  {
    var at, all := TagCount(labels, lines, row), ListTags(labels, lines, |lines|);
    at < |all| && all[at] == tag && TagCount(labels, lines, row + 1) == at + 1
  }

  /** No downgrade, end to end: an initial tag matched value j of a single-selection label; after all the other
      tags and any run of edits the mandatory check passes. Then every row displaying that label contributes
      exactly one tag, of at least the matched priority. */
  lemma NoDowngrade(
      cat: Catalog, tags: seq<Tag>, k: nat, i: nat, j: nat,
      run: seq<(Catalog, seq<Line>)>, events: seq<Event>, row: nat) returns (value: ItemValue)
    requires AllValid(cat) && k < |tags|
    requires MatchFrom(Apply(cat, tags, k).0, tags[k], 0) == Some((i, j)) && !Apply(cat, tags, k).0[i].multi
    requires IsRun(run, events) && run[0].0 == Apply(cat, tags, |tags|).0
    requires forall m :: 0 <= m < |run[|events|].1| ==> run[|events|].1[m].item < |run[|events|].0|
    requires AllFilled(run[|events|].0, run[|events|].1)
    requires row < |run[|events|].1| && run[|events|].1[row].item == i
    ensures run[|events|].0[i].ChosenValues() == [value]
    ensures value.priority >= Apply(cat, tags, k).0[i].values[j].priority
    ensures OwnTag(run[|events|].0, run[|events|].1, row, Tag(cat[i].name, value.data))
  {
    var (labels, lines) := run[|events|];
    FloorHolds(cat, tags, k, |tags|, i, j);
    ValuesOnlyShrink(cat, tags, |tags|, i);
    RunSameGraph(run, events, |events|);
    RunValid(run, events, |events|);
    assert labels[i] == run[0].0[i].(selid := labels[i].selid);
    assert labels[lines[row].item].mandatory;
    SingleChosen(labels[i]);
    value := labels[i].values[labels[i].selid];
    TagAt(labels, lines, |lines|, row, 0);
  }

  // ------------------------------------------------------------------ the dialog

  class Dialog {
    const list: ListCtrl
    var unmatched: seq<Tag>
    var finalTags: seq<Tag>

    constructor (list: ListCtrl)
      ensures this.list == list && unmatched == [] && finalTags == []
    {
      this.list, unmatched, finalTags := list, [], [];
    }

    method SetInitialData(tags: seq<Tag>)
      requires list.data.Valid()
      modifies this, list.data`labels, list.data.items
      ensures list.data.Valid() && finalTags == []
      ensures (list.data.labels, unmatched) == Apply(old(list.data.labels), tags, |tags|)
    {
      unmatched := [];
      finalTags := [];
      for i := 0 to |tags|
        invariant list.data.Valid() && finalTags == []
        invariant (list.data.labels, unmatched) == Apply(old(list.data.labels), tags, i)
      {
        var matched := InitClassifyItem(tags[i]);
        if !matched {
          unmatched := unmatched + [tags[i]];
        }
      }
    }

    method InitClassifyItem(tag: Tag) returns (matched: bool)
      requires list.data.Valid()
      modifies list.data`labels, list.data.items
      ensures list.data.Valid() && (list.data.labels, matched) == ApplyTag(old(list.data.labels), tag)
    {
      var data := list.data;
      for i := 0 to |data.items|
        invariant data.Valid() && data.labels == old(data.labels)
        invariant MatchFrom(data.labels, tag, 0) == MatchFrom(data.labels, tag, i)
      {
        var st := data.Get(i);
        if SameNoCase(tag.name, st.name) {
          for j := 0 to |st.values|
            invariant ValueFrom(st.values, tag.value, 0) == ValueFrom(st.values, tag.value, j)
          {
            if SameNoCase(tag.value, st.values[j].data) {
              if st.multi {
                var _ := data.SelectAt(i, j);
              } else {
                NarrowAt(i, j, tag.value);
              }
              return true;
            }
          }
        }
      }
      matched := false;
    }

    /** Removes the values of single-selection label i below the priority of its value j. */
    method NarrowAt(i: nat, j: nat, text: string)
      requires list.data.Valid() && i < |list.data.labels| && !list.data.labels[i].multi
      requires j < |list.data.labels[i].values| && SameNoCase(text, list.data.labels[i].values[j].data)
      modifies list.data`labels, list.data.items
      ensures list.data.Valid()
      ensures list.data.labels == old(list.data.labels)[i := Matched(old(list.data.labels)[i], j, text)]
    {
      var st := list.data.Get(i);
      var priority := st.values[j].priority;
      var newValues: seq<ItemValue> := [];
      var selId: nat := 0;
      for k := 0 to |st.values|
        invariant newValues == Kept(st.values, priority, k)
        invariant selId == KeptIndex(st.values, priority, text, k)
      {
        if st.values[k].priority >= priority {
          newValues := newValues + [st.values[k]];
          if SameNoCase(text, st.values[k].data) {
            selId := |newValues| - 1;
          }
        }
      }
      KeptSelected(st.values, priority, text, j, |st.values|);
      list.data.Narrow(i, newValues, selId);
    }

    /** Fails, changing nothing, exactly if a displayed mandatory label has no selection; otherwise the final
        tags end with those of the displayed labels and the unmatched initial ones, unchanged. */
    method OnOk() returns (ok: bool)
      requires list.Valid()
      modifies `finalTags
      ensures ok <==> AllFilled(list.data.labels, list.Lines())
      ensures ok ==>
        finalTags == old(finalTags) + ListTags(list.data.labels, list.Lines(), |list.rows|) + unmatched
      ensures !ok ==> finalTags == old(finalTags)
    {
      var empty := list.MandatoryCheck();
      if empty.Some? {
        return false;
      }
      finalTags := list.GetResult(finalTags);
      ghost var before := finalTags;
      for i := 0 to |unmatched|
        invariant finalTags == before + unmatched[..i]
      {
        finalTags := finalTags + [unmatched[i]];
      }
      assert unmatched[..|unmatched|] == unmatched;
      ok := true;
    }
  }
}
