/** CClassifyListCtrl (nxrmcmui/src/classifylistctrl.cpp): the flat list of rows, its list box and its control
    ids, all changed in place. */
module ClassifyList {
  import opened Wrappers
  import opened Text
  import opened ClassifyItem
  import opened ClassifyData
  import opened LabelGraph
  import opened ListEvents

  // ------------------------------------------------------------------ the label data

  /** CClassifyData. The ghost field labels is the value of the whole label list. */
  class LabelData {
    const entry: seq<string>
    const items: seq<Item>
    ghost var labels: Catalog

    ghost predicate Valid()
      reads this, items
    {
      && |labels| == |items|
      && (forall i: nat :: i < |items| ==> Holds(i))
      && forall i: nat, j: nat :: i < j < |items| ==> Differ(i, j)
    }

    ghost predicate Holds(i: nat)
      reads this, items
    {
      i < |items| && i < |labels| && items[i].State() == labels[i] && labels[i].Valid()
    }

    /** Labels i and j are two objects. */
    ghost predicate Differ(i: nat, j: nat)
    {
      i < |items| && j < |items| && items[i] != items[j]
    }

    lemma Expose(c: nat)
      requires Valid() && c < |items|
      ensures items[c].State() == labels[c] && labels[c].Valid()
    {
      assert Holds(c);
    }

    constructor (entry: seq<string>, items: seq<Item>)
      requires forall i :: 0 <= i < |items| ==> items[i].State().Valid()
      requires forall i, j :: 0 <= i < j < |items| ==> items[i] != items[j]
      ensures Valid() && this.entry == entry && this.items == items
    {
      this.entry, this.items := entry, items;
      labels := seq(|items|, i requires 0 <= i < |items| reads items => items[i].State());
    }

    method GetItem(id: string) returns (r: Option<nat>)
      requires Valid()
      ensures r == Lookup(labels, id)
      ensures r.Some? ==> r.value < |items| && labels[r.value].id == id
    {
      for i := 0 to |items|
        invariant Lookup(labels, id) == LookupFrom(labels, id, i)
      {
        Expose(i);
        if items[i].id == id {
          return Some(i);
        }
      }
      r := None;
    }

    /** The getters of label c, all at once. */
    method Get(c: nat) returns (st: ItemState)
      requires Valid() && c < |items|
      ensures st == labels[c] && st.Valid()
    {
      Expose(c);
      st := items[c].State();
    }

    method SelectAt(c: nat, i: int) returns (value: Option<ItemValue>)
      requires Valid() && c < |items|
      modifies `labels, items[c]
      ensures Valid() && labels == old(labels)[c := old(labels)[c].Select(i)]
      ensures value == if 0 <= i < |old(labels)[c].values| then Some(old(labels)[c].values[i]) else None
    {
      Expose(c);
      value := items[c].Select(i);
      labels := labels[c := items[c].State()];
      forall i: nat | i < |items|
        ensures Holds(i)
      {
        assert old(Holds(i));
        assert i < c ==> Differ(i, c);
        assert c < i ==> Differ(c, i);
      }
    }

    /** The value list of a single selection is replaced, one of the new values selected, and the label made
        mandatory. */
    method Narrow(c: nat, newValues: seq<ItemValue>, sel: nat)
      requires Valid() && c < |items| && !labels[c].multi && sel < |newValues|
      modifies `labels, items[c]
      ensures Valid()
      ensures labels == old(labels)[c := old(labels)[c].(values := newValues, selid := sel, mandatory := true)]
    {
      Expose(c);
      items[c].values := newValues;
      var _ := items[c].Select(sel);
      items[c].SetMandatory(true);
      labels := labels[c := items[c].State()];
      forall i: nat | i < |items|
        ensures Holds(i)
      {
        assert old(Holds(i));
        assert i < c ==> Differ(i, c);
        assert c < i ==> Differ(c, i);
      }
    }

    method UnselectAt(c: nat, i: int)
      requires Valid() && c < |items|
      modifies `labels, items[c]
      ensures Valid() && labels == old(labels)[c := old(labels)[c].Unselect(i)]
    {
      Expose(c);
      items[c].Unselect(i);
      labels := labels[c := items[c].State()];
      forall i: nat | i < |items|
        ensures Holds(i)
      {
        assert old(Holds(i));
        assert i < c ==> Differ(i, c);
        assert c < i ==> Differ(c, i);
      }
    }
  }

  // ------------------------------------------------------------------ control ids

  const FIRST_SUB_CTRL_ID: nat := 5000

  /** A CListItem: its label, its level, the id of its caption and those of its combo or check boxes. */
  datatype Row = Row(item: nat, level: int, caption: nat, subs: seq<nat>)

  /** The ids of row n are consecutive and all below the next id. */
  predicate RowIds(rows: seq<Row>, n: nat, nextId: nat) {
    && n < |rows| && rows[n].caption + |rows[n].subs| < nextId
    && forall j :: 0 <= j < |rows[n].subs| ==> rows[n].subs[j] == rows[n].caption + 1 + j
  }

  /** The ids of rows m and n do not overlap. */
  predicate Apart(rows: seq<Row>, m: nat, n: nat) {
    && m < |rows| && n < |rows|
    && (rows[m].caption + |rows[m].subs| < rows[n].caption || rows[n].caption + |rows[n].subs| < rows[m].caption)
  }

  ghost predicate IdsOk(rows: seq<Row>, nextId: nat) {
    && (forall n: nat :: n < |rows| ==> RowIds(rows, n, nextId))
    && forall m: nat, n: nat :: m < n < |rows| ==> Apart(rows, m, n)
  }

  /** Sub-control j of row n has this id. */
  predicate Owns(rows: seq<Row>, n: nat, j: nat, id: nat) {
    n < |rows| && j < |rows[n].subs| && rows[n].subs[j] == id
  }

  /** An id has at most one owner, it is below the next id, and no caption has it. */
  lemma OneOwner(rows: seq<Row>, nextId: nat, n: nat, j: nat, n': nat, j': nat, id: nat)
    requires IdsOk(rows, nextId) && Owns(rows, n, j, id)
    ensures id < nextId
    ensures Owns(rows, n', j', id) ==> n' == n && j' == j
    ensures n' < |rows| ==> rows[n'].caption != id
  {
    assert RowIds(rows, n, nextId);
    if n' < |rows| {
      assert RowIds(rows, n', nextId);
      assert n < n' ==> Apart(rows, n, n');
      assert n' < n ==> Apart(rows, n', n);
    }
  }

  lemma InsertIds(rows: seq<Row>, nextId: nat, index: nat, row: Row, nextId': nat)
    requires IdsOk(rows, nextId) && index <= |rows|
    requires row.caption == nextId && RowIds([row], 0, nextId')
    ensures IdsOk(rows[..index] + [row] + rows[index..], nextId')
  {
    var rows' := rows[..index] + [row] + rows[index..];
    forall n: nat | n < |rows'|
      ensures RowIds(rows', n, nextId')
    {
      assert n != index ==> RowIds(rows, if n < index then n else n - 1, nextId);
    }
    forall m: nat, n: nat | m < n < |rows'|
      ensures Apart(rows', m, n)
    {
      var m', n' := if m < index then m else m - 1, if n < index then n else n - 1;
      if m != index && n != index {
        assert Apart(rows, m', n');
      } else if n == index {
        assert RowIds(rows, m, nextId);
      } else {
        assert RowIds(rows, n', nextId);
      }
    }
  }

  lemma DeleteIds(rows: seq<Row>, nextId: nat, index: nat)
    requires IdsOk(rows, nextId) && index < |rows|
    ensures IdsOk(rows[..index] + rows[index + 1..], nextId)
  {
    var rows' := rows[..index] + rows[index + 1..];
    forall n: nat | n < |rows'|
      ensures RowIds(rows', n, nextId)
    {
      assert RowIds(rows, if n < index then n else n + 1, nextId);
    }
    forall m: nat, n: nat | m < n < |rows'|
      ensures Apart(rows', m, n)
    {
      assert Apart(rows, if m < index then m else m + 1, if n < index then n else n + 1);
    }
  }

  // ------------------------------------------------------------------ the list box beside the rows

  /** Row n shows its label's name and one check box per value, or one combo box. */
  predicate RowOk(rows: seq<Row>, listBox: seq<string>, n: nat, cat: Catalog) {
    && n < |rows| && n < |listBox| && rows[n].item < |cat|
    && listBox[n] == cat[rows[n].item].displayName
    && |rows[n].subs| == if cat[rows[n].item].multi then |cat[rows[n].item].values| else 1
  }

  ghost predicate InStep(rows: seq<Row>, listBox: seq<string>, cat: Catalog) {
    && |listBox| == |rows|
    && (forall n :: 0 <= n < |rows| ==> rows[n].item < |cat|)
    && forall n: nat :: n < |rows| ==> RowOk(rows, listBox, n, cat)
  }

  lemma InsertInStep(rows: seq<Row>, listBox: seq<string>, cat: Catalog, index: nat, row: Row, text: string)
    requires InStep(rows, listBox, cat) && index <= |rows| && RowOk([row], [text], 0, cat)
    ensures InStep(rows[..index] + [row] + rows[index..], listBox[..index] + [text] + listBox[index..], cat)
  {
    var rows', listBox' := rows[..index] + [row] + rows[index..], listBox[..index] + [text] + listBox[index..];
    forall n: nat | n < |rows'|
      ensures RowOk(rows', listBox', n, cat)
    {
      assert n != index ==> RowOk(rows, listBox, if n < index then n else n - 1, cat);
    }
  }

  lemma DeleteInStep(rows: seq<Row>, listBox: seq<string>, cat: Catalog, index: nat)
    requires InStep(rows, listBox, cat) && index < |rows|
    ensures InStep(rows[..index] + rows[index + 1..], listBox[..index] + listBox[index + 1..], cat)
  {
    var rows', listBox' := rows[..index] + rows[index + 1..], listBox[..index] + listBox[index + 1..];
    forall n: nat | n < |rows'|
      ensures RowOk(rows', listBox', n, cat)
    {
      assert RowOk(rows, listBox, if n < index then n else n + 1, cat);
    }
  }

  lemma InStepSame(rows: seq<Row>, listBox: seq<string>, cat: Catalog, cat': Catalog)
    requires InStep(rows, listBox, cat) && SameGraph(cat, cat')
    ensures InStep(rows, listBox, cat')
  {
    forall n: nat | n < |rows|
      ensures RowOk(rows, listBox, n, cat')
    {
      assert RowOk(rows, listBox, n, cat);
      assert cat'[rows[n].item] == cat[rows[n].item].(selid := cat'[rows[n].item].selid);
    }
  }

  // ------------------------------------------------------------------ the tags a list yields

  function TagsOf(name: string, values: seq<ItemValue>): (tags: seq<Tag>)
    ensures |tags| == |values|
    ensures forall k :: 0 <= k < |tags| ==> tags[k] == Tag(name, values[k].data)
  {
    seq(|values|, k requires 0 <= k < |values| => Tag(name, values[k].data))
  }

  /** What the first n rows contribute, in row order. */
  function ListTags(cat: Catalog, lines: seq<Line>, n: nat): seq<Tag>
    requires n <= |lines| && forall k :: 0 <= k < |lines| ==> lines[k].item < |cat|
  {
    if n == 0 then []
    else
      var st := cat[lines[n - 1].item];
      ListTags(cat, lines, n - 1) + TagsOf(st.name, st.ChosenValues())
  }

  /** How many values of the first n rows' labels are selected, row by row. */
  function TagCount(cat: Catalog, lines: seq<Line>, n: nat): nat
    requires n <= |lines| && forall k :: 0 <= k < |lines| ==> lines[k].item < |cat|
  {
    if n == 0 then 0 else TagCount(cat, lines, n - 1) + |cat[lines[n - 1].item].ChosenValues()|
  }

  lemma {:induction false} TagTotal(cat: Catalog, lines: seq<Line>, n: nat)
    requires n <= |lines| && forall m :: 0 <= m < |lines| ==> lines[m].item < |cat|
    ensures |ListTags(cat, lines, n)| == TagCount(cat, lines, n)
  {
    if n > 0 {
      TagTotal(cat, lines, n - 1);
    }
  }

  /** There is one tag for each selected value of each displayed row, in row order and, within a row, in value
      order. */
  lemma {:induction false} TagAt(cat: Catalog, lines: seq<Line>, n: nat, row: nat, k: nat)
    requires row < n <= |lines| && forall m :: 0 <= m < |lines| ==> lines[m].item < |cat|
    requires k < |cat[lines[row].item].ChosenValues()|
    ensures |ListTags(cat, lines, n)| == TagCount(cat, lines, n) > TagCount(cat, lines, row) + k
    ensures var st := cat[lines[row].item];
      ListTags(cat, lines, n)[TagCount(cat, lines, row) + k] == Tag(st.name, st.ChosenValues()[k].data)
  {
    TagTotal(cat, lines, n);
    TagTotal(cat, lines, n - 1);
    if row < n - 1 {
      TagAt(cat, lines, n - 1, row, k);
    }
  }

  lemma RowContributes(cat: Catalog, lines: seq<Line>, n: nat, row: nat, k: nat)
    requires row < n <= |lines| && forall m :: 0 <= m < |lines| ==> lines[m].item < |cat|
    requires k < |cat[lines[row].item].ChosenValues()|
    ensures Tag(cat[lines[row].item].name, cat[lines[row].item].ChosenValues()[k].data) in ListTags(cat, lines, n)
  {
    TagAt(cat, lines, n, row, k);
  }

  /** The tag is that of the k-th selected value of row's label. */
  predicate Gives(cat: Catalog, lines: seq<Line>, row: nat, k: nat, tag: Tag) {
    && row < |lines| && lines[row].item < |cat| && k < |cat[lines[row].item].ChosenValues()|
    && tag == Tag(cat[lines[row].item].name, cat[lines[row].item].ChosenValues()[k].data)
  }

  /** Nothing else is among the tags: each is that of a selected value of a displayed label. */
  lemma {:induction false} TagHasRow(cat: Catalog, lines: seq<Line>, n: nat, tag: Tag) returns (row: nat, k: nat)
    requires n <= |lines| && forall m :: 0 <= m < |lines| ==> lines[m].item < |cat|
    requires tag in ListTags(cat, lines, n)
    ensures row < n && Gives(cat, lines, row, k, tag)
  {
    var st := cat[lines[n - 1].item];
    var last := TagsOf(st.name, st.ChosenValues());
    if tag in last {
      row, k :| row == n - 1 && 0 <= k < |last| && last[k] == tag;
    } else {
      row, k := TagHasRow(cat, lines, n - 1, tag);
    }
  }

  /** Every displayed mandatory label has a selection. */
  predicate AllFilled(cat: Catalog, lines: seq<Line>)
    requires forall m :: 0 <= m < |lines| ==> lines[m].item < |cat|
  {
    forall n :: 0 <= n < |lines| && cat[lines[n].item].mandatory ==> cat[lines[n].item].Filled()
  }

  /** Row n is the first whose label is mandatory and has no selection. */
  ghost predicate FirstEmpty(cat: Catalog, lines: seq<Line>, n: nat)
    requires forall m :: 0 <= m < |lines| ==> lines[m].item < |cat|
  {
    && n < |lines| && AllFilled(cat, lines[..n])
    && cat[lines[n].item].mandatory && cat[lines[n].item].Selection() == {}
  }

  /** Once the mandatory check passes, every displayed mandatory label contributes at least one of its own
      values to the tags. */
  lemma MandatoryContributes(cat: Catalog, lines: seq<Line>, row: nat)
    requires forall m :: 0 <= m < |lines| ==> lines[m].item < |cat|
    requires row < |lines| && cat[lines[row].item].Valid()
    requires AllFilled(cat, lines) && cat[lines[row].item].mandatory
    ensures var st := cat[lines[row].item];
      exists k :: 0 <= k < |st.values| && Tag(st.name, st.values[k].data) in ListTags(cat, lines, |lines|)
  {
    var st := cat[lines[row].item];
    FilledIffNonEmpty(st);
    var value := st.ChosenValues()[0];
    RowContributes(cat, lines, |lines|, row, 0);
    var k :| 0 <= k < |st.values| && st.values[k] == value;
  }

  // ------------------------------------------------------------------ the control

  /** The rows without their controls. */
  function LinesOf(rows: seq<Row>): (lines: seq<Line>)
    ensures |lines| == |rows|
  {
    seq(|rows|, n requires 0 <= n < |rows| => Line(rows[n].item, rows[n].level))
  }

  class ListCtrl {
    const data: LabelData
    var rows: seq<Row>
    var listBox: seq<string>
    var nextId: nat

    ghost predicate Valid()
      reads this, data, data.items
    {
      data.Valid() && IdsOk(rows, nextId) && InStep(rows, listBox, data.labels)
    }

    ghost function Lines(): seq<Line>
      reads this
    {
      LinesOf(rows)
    }

    constructor (data: LabelData)
      requires data.Valid()
      ensures Valid() && this.data == data && Lines() == [] && nextId == FIRST_SUB_CTRL_ID
    {
      this.data := data;
      rows, listBox, nextId := [], [], FIRST_SUB_CTRL_ID;
    }

    /** CListItem::Create, whose control creation is taken to succeed. */
    method CreateRow(item: nat, level: int) returns (row: Row)
      requires data.Valid() && item < |data.labels|
      modifies `nextId
      ensures row.item == item && row.level == level && row.caption == old(nextId) && RowIds([row], 0, nextId)
      ensures |row.subs| == if data.labels[item].multi then |data.labels[item].values| else 1
      ensures nextId == old(nextId) + 1 + |row.subs|
    {
      var st := data.Get(item);
      var caption := nextId;
      nextId := nextId + 1;
      var subs := [];
      if st.multi {
        for i := 0 to |st.values|
          invariant |subs| == i && nextId == caption + 1 + i
          invariant forall j :: 0 <= j < i ==> subs[j] == caption + 1 + j
        {
          subs := subs + [nextId];
          nextId := nextId + 1;
        }
      } else {
        subs := [nextId];
        nextId := nextId + 1;
      }
      row := Row(item, level, caption, subs);
    }

    method InsertItem(index: nat, item: nat, level: int)
      requires Valid() && index <= |rows| && item < |data.labels|
      modifies this
      ensures Valid() && nextId > old(nextId)
      ensures |rows| == old(|rows|) + 1 && rows[index].caption == old(nextId)
      ensures rows == old(rows)[..index] + [rows[index]] + old(rows)[index..]
      ensures Spliced(old(Lines()), index, [Line(item, level)], Lines())
    {
      ghost var rows0, listBox0, id0 := rows, listBox, nextId;
      var st := data.Get(item);
      listBox := listBox[..index] + [st.displayName] + listBox[index..];
      var row := CreateRow(item, level);
      rows := rows[..index] + [row] + rows[index..];
      InsertIds(rows0, id0, index, row, nextId);
      InsertInStep(rows0, listBox0, data.labels, index, row, st.displayName);
    }

    method EraseRow(index: nat)
      requires Valid() && index < |rows|
      modifies `rows, `listBox
      ensures Valid() && rows == old(rows)[..index] + old(rows)[index + 1..]
      ensures Lines() == old(Lines())[..index] + old(Lines())[index + 1..]
    {
      DeleteIds(rows, nextId, index);
      DeleteInStep(rows, listBox, data.labels, index);
      rows := rows[..index] + rows[index + 1..];
      listBox := listBox[..index] + listBox[index + 1..];
    }

    /** Splices in exactly the pre-order expansion of the label at the index, and returns the index after
        it. */
    method InsertClassifyItem(index: nat, level: int, item: nat, ghost rank: seq<nat>) returns (next: nat)
      requires Valid() && index <= |rows| && item < |data.labels| && Ranked(data.labels, rank)
      modifies this
      ensures Valid() && nextId > old(nextId)
      ensures next == index + |Expand(data.labels, rank, item, level)|
      ensures Spliced(old(Lines()), index, Expand(data.labels, rank, item, level), Lines())
      decreases rank[item], 1
    {
      ghost var before := Lines();
      InsertItem(index, item, level);
      next := index + 1;
      data.Expose(item);
      var selected := data.items[item].IsSelected();
      ghost var st := data.labels[item];
      ShowsIfSelected(st);
      if !data.items[item].multi && selected {
        var value := data.items[item].GetFirstSelectedValue();
        SingleChosen(st);
        ghost var lines := Lines();
        ghost var subs := ExpandSubs(data.labels, rank, item, st.selid, 0, level);
        next := InsertSubItems(next, level, item, value.value.subItems, rank);
        SpliceAfter(before, index, [Line(item, level)], subs, lines, Lines());
      }
    }

    /** The loop over the sub-label ids of the selected value. */
    method InsertSubItems(index: nat, level: int, item: nat, subItems: seq<string>, ghost rank: seq<nat>)
      returns (next: nat)
      requires Valid() && index <= |rows| && item < |data.labels| && Ranked(data.labels, rank)
      requires data.labels[item].Shows()
      requires subItems == data.labels[item].values[data.labels[item].selid].subItems
      modifies this
      ensures Valid() && nextId >= old(nextId)
      ensures var part := ExpandSubs(data.labels, rank, item, data.labels[item].selid, 0, level);
        && next == index + |part|
        && Spliced(old(Lines()), index, part, Lines())
      decreases rank[item], 0
    {
      ghost var cat, before, v := data.labels, Lines(), data.labels[item].selid;
      ghost var done: seq<Line> := [];
      next := index;
      var deep := level;
      for k := 0 to |subItems|
        invariant Valid() && nextId >= old(nextId) && data.labels == cat
        invariant Joins(done, ExpandSubs(cat, rank, item, v, k, deep), ExpandSubs(cat, rank, item, v, 0, level))
        invariant next == index + |done|
        invariant Spliced(before, index, done, Lines())
      {
        assert IsEdge(cat, item, v, k);
        var sub := data.GetItem(subItems[k]);
        deep := deep + 1;
        if sub.Some? {
          ghost var part, lines := Expand(cat, rank, sub.value, deep), Lines();
          next := InsertClassifyItem(next, deep, sub.value, rank);
          SpliceAfter(before, index, done, part, lines, Lines());
          JoinsMore(done, part, ExpandSubs(cat, rank, item, v, k + 1, deep), ExpandSubs(cat, rank, item, v, 0, level));
          done := done + part;
        }
      }
      JoinsAll(done, ExpandSubs(cat, rank, item, v, 0, level));
    }

    /** Inserts the entries' expansions one after the other, before whatever is displayed. */
    method Init(ghost rank: seq<nat>)
      requires Valid() && Ranked(data.labels, rank)
      modifies this
      ensures Valid() && nextId >= old(nextId)
      ensures Lines() == ExpandEntries(data.labels, rank, data.entry) + old(Lines())
    {
      ghost var cat, before := data.labels, Lines();
      ghost var done: seq<Line> := [];
      var currentIndex := 0;
      for i := 0 to |data.entry|
        invariant Valid() && nextId >= old(nextId) && data.labels == cat
        invariant Joins(done, EntriesFrom(cat, rank, data.entry, i), EntriesFrom(cat, rank, data.entry, 0))
        invariant currentIndex == |done|
        invariant Spliced(before, 0, done, Lines())
      {
        var item := data.GetItem(data.entry[i]);
        if item == None {
          continue;
        }
        ghost var part, lines := Expand(cat, rank, item.value, 0), Lines();
        currentIndex := InsertClassifyItem(currentIndex, 0, item.value, rank);
        SpliceAfter(before, 0, done, part, lines, Lines());
        JoinsMore(done, part, EntriesFrom(cat, rank, data.entry, i + 1), EntriesFrom(cat, rank, data.entry, 0));
        done := done + part;
      }
      JoinsAll(done, EntriesFrom(cat, rank, data.entry, 0));
      SplicedInFront(before, done, Lines());
      EntriesFromStart(cat, rank, data.entry);
    }

    method FindItemBySubControlId(id: nat) returns (r: Option<(nat, nat)>)
      requires Valid()
      ensures r.Some? ==> Owns(rows, r.value.0, r.value.1, id)
      ensures r.Some? ==> forall n: nat, j: nat :: Owns(rows, n, j, id) ==> n == r.value.0 && j == r.value.1
      ensures r.None? ==> forall n: nat, j: nat :: !Owns(rows, n, j, id)
    {
      for i := 0 to |rows|
        invariant forall n: nat, j: nat :: n < i ==> !Owns(rows, n, j, id)
      {
        for k := 0 to |rows[i].subs|
          invariant forall j: nat :: j < k ==> !Owns(rows, i, j, id)
        {
          if rows[i].subs[k] == id {
            assert Owns(rows, i, k, id);
            forall n: nat, j: nat | Owns(rows, n, j, id)
              ensures n == i && j == k
            {
              OneOwner(rows, nextId, i, k, n, j, id);
            }
            return Some((i, k));
          }
        }
      }
      r := None;
    }

    /** Deletes the run of rows above row n's level. */
    method DeleteBelow(n: nat)
      requires Valid() && n < |rows|
      modifies `rows, `listBox
      ensures Valid() && n < |rows| && rows[n] == old(rows[n])
      ensures Cut(old(Lines()), n, RunEnd(old(Lines()), n, n + 1), Lines())
    {
      ghost var before, row, end := Lines(), rows[n], n + 1;
      var delItem := n + 1;
      while delItem < |rows| && rows[delItem].level > rows[n].level
        invariant Valid() && n < |rows| && rows[n] == row
        invariant Cut(before, n, end, Lines())
        invariant RunEnd(before, n, end) == RunEnd(before, n, n + 1)
        decreases |rows|
      {
        ghost var lines := Lines();
        CutNext(before, n, end, lines);
        EraseRow(delItem);
        CutMore(before, n, end, lines, Lines());
        end := end + 1;
      }
      CutNext(before, n, end, Lines());
    }

    /** A selection does not disturb what the list shows. */
    method SelectRow(c: nat, i: int) returns (value: Option<ItemValue>)
      requires Valid() && c < |data.labels|
      modifies data`labels, data.items
      ensures Valid() && data.labels == old(data.labels)[c := old(data.labels)[c].Select(i)]
      ensures value == if 0 <= i < |old(data.labels)[c].values| then Some(old(data.labels)[c].values[i]) else None
    {
      ghost var cat := data.labels;
      value := data.SelectAt(c, i);
      InStepSame(rows, listBox, cat, data.labels);
    }

    /** The insertion loop: clears and shows the resolvable sub-labels of value v of label x. */
    method InsertChildren(index: nat, level: int, x: nat, v: nat, subItems: seq<string>)
      requires Valid() && index <= |rows| && x < |data.labels|
      requires !data.labels[x].multi && v < |data.labels[x].values|
      requires subItems == data.labels[x].values[v].subItems
      modifies this, data`labels, data.items
      ensures Valid() && nextId >= old(nextId)
      ensures data.labels == InsertRows(old(data.labels), x, v, 0, level).0
      ensures Spliced(old(Lines()), index, InsertRows(old(data.labels), x, v, 0, level).1, Lines())
    {
      ghost var cat, before := data.labels, Lines();
      ghost var inserted: seq<Line> := [];
      var nextItem := index;
      for i := 0 to |subItems|
        invariant Valid() && nextId >= old(nextId)
        invariant |data.labels| == |cat| && !data.labels[x].multi && data.labels[x].values == cat[x].values
        invariant nextItem == index + |inserted|
        invariant Spliced(before, index, inserted, Lines())
        invariant InsertRows(cat, x, v, 0, level).0 == InsertRows(data.labels, x, v, i, level).0
        invariant Joins(inserted, InsertRows(data.labels, x, v, i, level).1, InsertRows(cat, x, v, 0, level).1)
      {
        var item := data.GetItem(subItems[i]);
        if item == None {
          JoinsAll(inserted, InsertRows(cat, x, v, 0, level).1);
          return;
        }
        ghost var lines := Lines();
        var _ := SelectRow(item.value, -1);
        InsertItem(nextItem, item.value, level);
        nextItem := nextItem + 1;
        JoinsMore(inserted, [Line(item.value, level)], InsertRows(data.labels, x, v, i + 1, level).1,
                  InsertRows(cat, x, v, 0, level).1);
        SpliceAfter(before, index, inserted, [Line(item.value, level)], lines, Lines());
        inserted := inserted + [Line(item.value, level)];
      }
      JoinsAll(inserted, InsertRows(cat, x, v, 0, level).1);
    }

    /** Combo box id, which belongs to a single-selection label, is now at index sel. */
    method OnComboBoxSelectChange(id: nat, sel: int)
      requires Valid()
      requires forall n: nat, j: nat :: Owns(rows, n, j, id) ==> !data.labels[rows[n].item].multi
      modifies this, data`labels, data.items
      ensures Valid() && nextId >= old(nextId)
      ensures forall n: nat, j: nat :: Owns(old(rows), n, j, id) ==>
        (data.labels, Lines()) == Combo(old(data.labels), old(Lines()), n, sel)
      ensures (forall n: nat, j: nat :: !Owns(old(rows), n, j, id)) ==>
        rows == old(rows) && data.labels == old(data.labels)
    {
      var found := FindItemBySubControlId(id);
      if found.Some? {
        ComboChanged(found.value.0, sel);
      }
    }

    /** The rest of the handler, once the row is found. */
    method ComboChanged(n: nat, sel: int)
      requires Valid() && n < |rows| && !data.labels[rows[n].item].multi
      modifies this, data`labels, data.items
      ensures Valid() && nextId >= old(nextId)
      ensures (data.labels, Lines()) == Combo(old(data.labels), old(Lines()), n, sel)
    {
      ghost var cat, before, end := data.labels, Lines(), RunEnd(Lines(), n, n + 1);
      var row := rows[n];
      DeleteBelow(n);
      ghost var between := Lines();
      var value := SelectRow(row.item, sel - 1);
      if value.Some? {
        InsertChildren(n + 1, row.level + 1, row.item, sel - 1, value.value.subItems);
      }
      CutAndSplice(before, n, end, between, Chosen(cat, before[n], sel).1, Lines());
    }

    /** Check box id, which belongs to a multiple-selection label, is now ticked or cleared. */
    method OnCheckBoxStateChange(id: nat, checked: bool)
      requires Valid()
      requires forall n: nat, j: nat :: Owns(rows, n, j, id) ==> data.labels[rows[n].item].multi
      modifies data`labels, data.items
      ensures Valid()
      ensures forall n: nat, j: nat :: Owns(rows, n, j, id) ==>
        data.labels == Check(old(data.labels), rows[n].item, j, checked)
        && OnlyTicked(old(data.labels), data.labels, rows[n].item, j, checked)
      ensures rows == old(rows)
      ensures (forall n: nat, j: nat :: !Owns(rows, n, j, id)) ==> data.labels == old(data.labels)
    {
      var found := FindItemBySubControlId(id);
      if found == None {
        return;
      }
      ghost var cat := data.labels;
      var item, sub := rows[found.value.0].item, found.value.1;
      assert RowOk(rows, listBox, found.value.0, cat) && Owns(rows, found.value.0, sub, id);
      data.Expose(item);
      CheckTicks(cat, item, sub, checked);
      if checked {
        var _ := SelectRow(item, sub);
      } else {
        data.UnselectAt(item, sub);
      }
      InStepSame(rows, listBox, cat, data.labels);
    }

    /** On failure, returns the first displayed mandatory label without a selection. */
    method MandatoryCheck() returns (empty: Option<nat>)
      requires Valid()
      ensures empty == None <==> AllFilled(data.labels, Lines())
      ensures empty.Some? ==> exists n: nat :: FirstEmpty(data.labels, Lines(), n) && rows[n].item == empty.value
    {
      for n := 0 to |rows|
        invariant forall m :: 0 <= m < n && data.labels[rows[m].item].mandatory ==>
          data.labels[rows[m].item].Filled()
      {
        var shown := data.Get(rows[n].item);
        FilledIffNonEmpty(shown);
        if shown.mandatory {
          if shown.multi {
            if shown.selid <= 0 {
              assert FirstEmpty(data.labels, Lines(), n);
              return Some(rows[n].item);
            }
          } else if shown.selid < 0 {
            assert FirstEmpty(data.labels, Lines(), n);
            return Some(rows[n].item);
          }
        }
      }
      empty := None;
    }

    /** Appends the tags of the displayed labels. */
    method GetResult(tags: seq<Tag>) returns (result: seq<Tag>)
      requires Valid()
      ensures result == tags + ListTags(data.labels, Lines(), |rows|)
    {
      result := tags;
      for n := 0 to |rows|
        invariant result == tags + ListTags(data.labels, Lines(), n)
      {
        var shown := data.items[rows[n].item];
        data.Expose(rows[n].item);
        var values, count := shown.GetSelectedValues([]);
        result := AppendTags(result, shown.name, values, count);
        Assoc(tags, ListTags(data.labels, Lines(), n), TagsOf(shown.name, values));
      }
    }

    static method AppendTags(tags: seq<Tag>, name: string, values: seq<ItemValue>, count: nat)
      returns (result: seq<Tag>)
      requires count == |values|
      ensures result == tags + TagsOf(name, values)
    {
      result := tags;
      ghost var part := TagsOf(name, values);
      for i := 0 to count
        invariant result == tags + part[..i]
      {
        result := result + [Tag(name, values[i].data)];
      }
      assert part[..count] == part;
    }
  }

  lemma ShowsIfSelected(st: ItemState)
    requires st.Valid()
    ensures st.Shows() <==> !st.multi && st.Selection() != {}
  {
    FilledIffNonEmpty(st);
  }

  /** part stands at the index, with everything before and after kept. */
  predicate Spliced(before: seq<Line>, index: nat, part: seq<Line>, after: seq<Line>) {
    index <= |before| && after == before[..index] + part + before[index..]
  }

  lemma SplicedInFront(before: seq<Line>, part: seq<Line>, after: seq<Line>)
    requires Spliced(before, 0, part, after)
    ensures after == part + before
  {
  }

  lemma SpliceAfter(
      before: seq<Line>, index: nat, done: seq<Line>, part: seq<Line>, lines: seq<Line>, lines': seq<Line>)
    requires Spliced(before, index, done, lines) && Spliced(lines, index + |done|, part, lines')
    ensures Spliced(before, index, done + part, lines')
  {
    assert lines[..index + |done|] == before[..index] + done;
    assert lines[index + |done|..] == before[index..];
  }

  /** The rows between n and end are gone. */
  predicate Cut(before: seq<Line>, n: nat, end: nat, after: seq<Line>) {
    n < end <= |before| && after == before[..n + 1] + before[end..]
  }

  lemma CutNext(before: seq<Line>, n: nat, end: nat, lines: seq<Line>)
    requires Cut(before, n, end, lines)
    ensures n < |lines| && lines[n] == before[n]
    ensures n + 1 < |lines| <==> end < |before|
    ensures end < |before| ==> lines[n + 1] == before[end]
  {
  }

  lemma CutMore(before: seq<Line>, n: nat, end: nat, lines: seq<Line>, lines': seq<Line>)
    requires Cut(before, n, end, lines) && n + 1 < |lines| && lines' == lines[..n + 1] + lines[n + 2..]
    ensures Cut(before, n, end + 1, lines')
  {
  }

  lemma CutAndSplice(before: seq<Line>, n: nat, end: nat, between: seq<Line>, part: seq<Line>, after: seq<Line>)
    requires Cut(before, n, end, between) && (Spliced(between, n + 1, part, after) || (part == [] && after == between))
    ensures after == before[..n + 1] + part + before[end..]
  {
  }
}
