/** CDlgClassify (nxrmcmui/src/dlgclassify.cpp): the pages of the classification wizard over a label tree. */
module Wizard {
  import opened Wrappers
  import opened Text
  import opened Bits
  import opened LabelXml
  import opened Labels

  // ------------------------------------------------------------------ one label

  /** What OnBtnClickNext asks of a label before it leaves its page. */
  ghost predicate Passes(n: Label)
    requires InRange(n)
    reads n`selected, n`values, n`multi, n`mandatory
  {
    n.mandatory ==> if n.multi then n.selected != 0 else |n.values[n.selected].value| > 0
  }

  /** The label the selected value leads to, if any; the selection of a multiple one leads nowhere. */
  ghost function NextOf(n: Label): Label?
    requires InRange(n)
    reads n`selected, n`values, n`multi
  {
    if n.multi then null else n.values[n.selected].sub
  }

  /** What the label itself contributes to the tags. */
  ghost function OwnTags(n: Label): seq<Tag>
    requires InRange(n)
    reads n`selected, n`values, n`multi, n`name
  {
    if n.multi then MultiTags(n, 0) else [Tag(n.name, n.values[n.selected].value)]
  }

  /** A single selection gives one tag with a text that is not empty, a multiple one at least one tag. */
  ghost predicate Contributes(n: Label)
    requires InRange(n)
    reads n`selected, n`values, n`multi, n`name
  {
    |OwnTags(n)| > 0 && (!n.multi ==> |OwnTags(n)| == 1 && |OwnTags(n)[0].value| > 0)
  }

  lemma {:induction false} ChosenGivesTag(n: Label, from: nat, i: nat)
    requires InRange(n) && n.multi && from <= i < |n.values| && Bit(n.selected, i)
    ensures |MultiTags(n, from)| > 0
    decreases i - from
  {
    if from < i {
      ChosenGivesTag(n, from + 1, i);
    }
  }

  lemma PassedContributes(n: Label)
    requires InRange(n) && Passes(n) && n.mandatory
    ensures Contributes(n)
  {
    if n.multi {
      var i := LowestBit(n.selected, |n.values|);
      ChosenGivesTag(n, 0, i);
    }
  }

  // ------------------------------------------------------------------ the selected path

  /** Label k of the path has passed the mandatory check, and its selected value leads to the next label. */
  ghost predicate Step(path: seq<Label>, k: nat, pool: set<Label>)
    requires AllInRange(pool)
    reads pool`selected, pool`values, pool`multi, pool`mandatory
  {
    && k + 1 < |path| && path[k] in pool && InRange(path[k])
    && NextOf(path[k]) == path[k + 1] && Passes(path[k])
  }

  /** path leads from the root along selected values, one level at a time, and every label on it but the last
      has passed the mandatory check. */
  ghost predicate IsPath(path: seq<Label>, root: Label, pool: set<Label>)
    requires AllInRange(pool)
    reads pool`selected, pool`values, pool`multi, pool`depth, pool`mandatory
  {
    && |path| > 0 && path[0] == root
    && (forall k :: 0 <= k < |path| ==> path[k] in pool && path[k].depth == k)
    && forall k: nat :: k + 1 < |path| ==> Step(path, k, pool)
  }

  /** What the labels of the path contribute, from the k-th on. */
  ghost function PathTags(path: seq<Label>, k: nat, pool: set<Label>): seq<Tag>
    requires AllInRange(pool) && k <= |path| && forall j :: 0 <= j < |path| ==> path[j] in pool
    reads pool`selected, pool`values, pool`multi, pool`name
    decreases |path| - k
  {
    if k == |path| then []
    else if k == |path| - 1 then OwnTags(path[k])
    else OwnTags(path[k]) + PathTags(path, k + 1, pool)
  }

  /** At the end of a path, the tags of the whole tree are those of the path and no others. */
  lemma {:induction false} TagsCoverPath(path: seq<Label>, k: nat, root: Label, pool: set<Label>)
    requires AllLinked(pool) && AllInRange(pool) && IsPath(path, root, pool)
    requires k < |path| && NextOf(path[|path| - 1]) == null
    ensures AllWalkable(pool)
    ensures TagsFrom(path[k], pool) == PathTags(path, k, pool)
    decreases |path| - k
  {
    var n := path[k];
    RangeWalkable(pool);
    assert InRange(n);
    if k + 1 < |path| {
      TagsCoverPath(path, k + 1, root, pool);
      assert Step(path, k, pool);
      assert TagsFrom(n, pool) == OwnTags(n) + TagsFrom(path[k + 1], pool);
    } else {
      assert TagsFrom(n, pool) == OwnTags(n);
      assert PathTags(path, k, pool) == OwnTags(n);
    }
  }

  /** A wizard path that has ended is the walk from its root. */
  lemma PathWalks(path: seq<Label>, root: Label, pool: set<Label>)
    requires AllInRange(pool) && IsPath(path, root, pool) && NextOf(path[|path| - 1]) == null
    ensures Walks(path, root, pool)
  {
    forall k: nat | k + 1 < |path|
      ensures Follows(path[k], path[k + 1])
    {
      assert Step(path, k, pool);
    }
  }

  /** Labels are followed in one way only. */
  lemma {:induction false} OneWalk(path: seq<Label>, other: seq<Label>, n: Label, pool: set<Label>, k: nat)
    requires Walks(path, n, pool) && Walks(other, n, pool) && k <= |path|
    ensures k <= |other| && other[..k] == path[..k]
    ensures k == |path| ==> other == path
  {
    if k > 0 {
      OneWalk(path, other, n, pool, k - 1);
      if k > 1 {
        assert Follows(path[k - 2], path[k - 1]) && path[k - 2] == other[k - 2];
        assert k - 2 + 1 < |other|;
        assert Follows(other[k - 2], other[k - 1]);
      }
      assert other[..k] == other[..k - 1] + [other[k - 1]] && path[..k] == path[..k - 1] + [path[k - 1]];
      assert k < |other| ==> Follows(other[k - 1], other[k]);
    }
  }

  /** The tags of a path that has ended: of each label but the last its name and its selected value, in path order,
      then those of the last. */
  lemma PathTagsListed(path: seq<Label>, root: Label, pool: set<Label>)
    requires AllLinked(pool) && AllInRange(pool) && IsPath(path, root, pool) && NextOf(path[|path| - 1]) == null
    ensures WalkTags(path, PathTags(path, 0, pool))
  {
    TagsCoverPath(path, 0, root, pool);
    PathWalks(path, root, pool);
    var other := WalkListed(root, pool);
    OneWalk(path, other, root, pool, |path|);
  }

  lemma ParentOnPath(path: seq<Label>, k: nat, root: Label, pool: set<Label>)
    requires AllLinked(pool) && AllInRange(pool) && IsPath(path, root, pool) && k + 1 < |path|
    ensures path[k + 1].parent == path[k]
  {
    var n := path[k];
    assert Step(path, k, pool) && Linked(n, pool);
    assert LinkedValue(n.values[n.selected], n.tree.values[n.selected], n, n.depth, pool);
  }

  // ------------------------------------------------------------------ the dialog

  datatype Event = Next | Back | Combo(index: nat) | Toggle(index: nat)

  /** What the window shows: the summary or the page of the current label, which buttons, the rows of the summary
      list, and the check boxes of a multiple selection. */
  datatype View = View(summary: bool, back: bool, next: bool, ok: bool, rows: seq<Tag>, checks: seq<bool>)

  /** The check boxes are those of the label's selection. */
  ghost predicate ChecksShown(n: Label, checks: seq<bool>)
    reads n`selected, n`values
  {
    |checks| == |n.values| && forall i :: 0 <= i < |checks| ==> (checks[i] <==> Bit(n.selected, i))
  }

  /** Every mandatory label on the path contributes to the tags. */
  ghost predicate MandatoryCovered(path: seq<Label>, pool: set<Label>)
    requires AllInRange(pool) && forall k :: 0 <= k < |path| ==> path[k] in pool
    reads pool`selected, pool`values, pool`multi, pool`mandatory, pool`name
  {
    forall k :: 0 <= k < |path| && path[k].mandatory ==> Contributes(path[k])
  }

  lemma {:induction false} NothingGivesNoTag(n: Label, i: nat)
    requires InRange(n) && n.multi && n.selected == 0 && i <= |n.values|
    ensures MultiTags(n, i) == []
    decreases |n.values| - i
  {
    if i < |n.values| {
      BitOfZero(i);
      NothingGivesNoTag(n, i + 1);
    }
  }

  /** The mandatory check is exact: a mandatory label contributes if and only if it passes. */
  lemma CoveredIffPasses(path: seq<Label>, root: Label, pool: set<Label>)
    requires AllInRange(pool) && IsPath(path, root, pool)
    ensures MandatoryCovered(path, pool) <==> Passes(path[|path| - 1])
  {
    var last := path[|path| - 1];
    assert InRange(last);
    if Passes(last) {
      forall k | 0 <= k < |path| && path[k].mandatory
        ensures Contributes(path[k])
      {
        assert k + 1 < |path| ==> Step(path, k, pool);
        PassedContributes(path[k]);
      }
    } else if last.multi {
      NothingGivesNoTag(last, 0);
    }
  }

  /** The label tree, as loaded and with its selections in range, and a path into it. */
  ghost predicate OnPath(path: seq<Label>, root: Label, pool: set<Label>)
    reads pool
  {
    && root in pool && root.parent == null
    && AllLinked(pool) && AllInRange(pool) && MultiEnds(pool) && IsPath(path, root, pool)
  }

  lemma PathGrows(path: seq<Label>, root: Label, pool: set<Label>, next: Label)
    requires OnPath(path, root, pool) && next in pool && next.depth == |path|
    requires NextOf(path[|path| - 1]) == next && Passes(path[|path| - 1])
    ensures OnPath(path + [next], root, pool)
  {
    var longer := path + [next];
    forall k: nat | k + 1 < |longer|
      ensures Step(longer, k, pool)
    {
      assert k + 1 < |path| ==> Step(path, k, pool);
    }
  }

  lemma PathShrinks(path: seq<Label>, root: Label, pool: set<Label>)
    requires OnPath(path, root, pool) && |path| > 1
    ensures OnPath(path[..|path| - 1], root, pool)
    ensures path[|path| - 1].parent == path[|path| - 2]
  {
    var shorter := path[..|path| - 1];
    ParentOnPath(path, |path| - 2, root, pool);
    forall k: nat | k + 1 < |shorter|
      ensures Step(shorter, k, pool)
    {
      assert Step(path, k, pool);
    }
  }

  /** There is a label to go back to exactly below the root. */
  lemma ParentIffBelow(path: seq<Label>, root: Label, pool: set<Label>)
    requires OnPath(path, root, pool)
    ensures path[|path| - 1].parent != null <==> |path| > 1
  {
    if |path| > 1 {
      ParentOnPath(path, |path| - 2, root, pool);
    }
  }

  lemma RootOnPath(root: Label, pool: set<Label>)
    requires root in pool && root.parent == null && root.depth == 0
    requires AllLinked(pool) && AllInRange(pool) && MultiEnds(pool)
    ensures OnPath([root], root, pool)
  {
  }

  class Dialog {
    const labels: Label
    var cur: Label
    var view: View

    ghost const pool: set<Label>
    ghost var path: seq<Label>

    /** The current label is on the selected path from the root, and every strict ancestor has passed the
        mandatory check. */
    ghost predicate Placed()
      reads this, pool
    {
      OnPath(path, labels, pool) && cur == path[|path| - 1]
    }

    /** Moreover the window shows what the page allows: on the summary exactly the path's tags, on the page of a
        multiple selection its check boxes, and OK only where the path ends. */
    ghost predicate Valid()
      reads this, pool
    {
      && Placed()
      && (view.back <==> view.summary || |path| > 1)
      && (view.next ==> !view.summary)
      && (view.ok ==> NextOf(cur) == null)
      && (view.summary ==> view.ok && Passes(cur) && view.rows == PathTags(path, 0, pool))
      && (!view.summary && cur.multi ==> ChecksShown(cur, view.checks))
    }

    constructor (labels: Label, ghost pool: set<Label>)
      ensures this.labels == cur == labels && this.pool == pool && path == [labels]
    {
      this.labels, this.pool, cur, path := labels, pool, labels, [labels];
      view := View(false, false, false, false, [], []);
    }

    /** The page of the current label. */
    method SetPage()
      requires Placed()
      modifies `view
      ensures Valid() && view == View(false, |path| > 1, true, false, [], view.checks)
    {
      ParentIffBelow(path, labels, pool);
      var checks := Checks();
      view := View(false, cur.parent != null, true, false, [], checks);
    }

    /** One check box per value of a multiple selection, ticked if the value is selected. */
    method Checks() returns (checks: seq<bool>)
      requires Placed()
      ensures cur.multi ==> ChecksShown(cur, checks)
    {
      checks := [];
      if !cur.multi {
        return;
      }
      assert InRange(cur);
      for i := 0 to |cur.values|
        invariant |checks| == i && forall k :: 0 <= k < i ==> (checks[k] <==> Bit(cur.selected, k))
      {
        if i > 30 {
          break;
        }
        AndShift(cur.selected, i);
        checks := checks + [And(cur.selected, Shift(i)) != 0];
      }
    }

    /** At the end of the path, the tags of the whole tree are those of the path. */
    method GetClassificationTags() returns (tags: seq<Tag>)
      requires OnPath(path, labels, pool) && NextOf(path[|path| - 1]) == null
      ensures tags == PathTags(path, 0, pool)
    {
      RangeWalkable(pool);
      tags := labels.GetClassificationTags([], pool);
      TagsCoverPath(path, 0, labels, pool);
      assert [] + TagsFrom(labels, pool) == TagsFrom(labels, pool);
    }

    /** The tags shown cover exactly the path, and every mandatory label on it contributes. */
    method ShowSummary()
      requires Placed() && Passes(cur) && NextOf(cur) == null
      modifies `view
      ensures Valid() && view.summary && MandatoryCovered(path, pool)
    {
      CoveredIffPasses(path, labels, pool);
      var tags := GetClassificationTags();
      ShowRows(tags);
    }

    method ShowRows(tags: seq<Tag>)
      requires Placed() && Passes(cur) && NextOf(cur) == null && tags == PathTags(path, 0, pool)
      modifies `view
      ensures Valid() && view.summary
    {
      view := View(true, true, false, true, tags, []);
    }

    /** Whenever the summary is shown, its rows are one tag for each label of the path but the last, and those of
        the last. */
    lemma SummaryListed()
      requires Valid() && view.summary
      ensures WalkTags(path, view.rows)
    {
      PathTagsListed(path, labels, pool);
    }

    /** The mandatory check of the current page, and the sub-label the page leads to. */
    method CheckPage() returns (passed: bool, next: Label?)
      requires Placed()
      ensures passed <==> Passes(cur)
      ensures next == NextOf(cur)
      ensures next != null ==> next in pool && next.depth == |path|
    {
      assert InRange(cur) && Linked(cur, pool);
      passed, next := true, null;
      if cur.multi {
        if cur.mandatory && 0 == cur.selected {
          passed := false;
        }
      } else {
        var value := cur.GetValue(cur.selected);
        if cur.mandatory && value.value.value == "" {
          passed := false;
        }
      }
      var value := cur.GetValue(cur.selected);
      if value.Some? && value.value.sub != null {
        next := value.value.sub;
        assert LinkedValue(value.value, cur.tree.values[cur.selected], cur, cur.depth, pool);
      }
    }

    /** Stays on a page whose label fails the mandatory check, moves down to the selected value's sub-label,
        or shows the summary, whose rows are exactly the path's tags. */
    method OnBtnClickNext()
      requires Valid() && view.next
      modifies this
      ensures Valid()
      ensures !Passes(old(cur)) ==> view == old(view) && path == old(path)
      ensures Passes(old(cur)) && NextOf(old(cur)) != null ==>
        !view.summary && view.next && path == old(path) + [NextOf(old(cur))]
      ensures Passes(old(cur)) && NextOf(old(cur)) == null ==>
        view.summary && path == old(path) && MandatoryCovered(path, pool)
    {
      var passed, next := CheckPage();
      if !passed {
        return;
      }
      if next != null {
        MoveDown(next);
      } else {
        ShowSummary();
      }
    }

    /** Shows the page of the selected value's sub-label. */
    method MoveDown(next: Label)
      requires Placed() && Passes(cur) && NextOf(cur) == next && next in pool && next.depth == |path|
      modifies `cur, `path, `view
      ensures Valid() && !view.summary && view.next && path == old(path) + [next]
    {
      PathGrows(path, labels, pool, next);
      cur := next;
      path := path + [next];
      SetPage();
    }

    /** Leaves the summary, or returns to the parent label, which is there. */
    method OnBtnClickBack()
      requires Valid() && view.back
      modifies `cur, `path, `view
      ensures Valid() && !view.summary && view.next
      ensures path == if old(view.summary) then old(path) else old(path)[..|old(path)| - 1]
    {
      if view.summary {
        SetPage();
      } else {
        MoveUp();
      }
    }

    /** Shows the page of the parent label. */
    method MoveUp()
      requires Placed() && |path| > 1
      modifies `cur, `path, `view
      ensures Valid() && !view.summary && view.next && path == old(path)[..|old(path)| - 1]
    {
      PathShrinks(path, labels, pool);
      cur := cur.parent;
      path := path[..|path| - 1];
      SetPage();
    }

    /** A new selection of the current label leaves the path to it as it was. */
    method Choose(index: nat, on: bool)
      requires Placed() && index < |cur.values|
      modifies cur`selected
      ensures Placed()
      ensures !cur.multi ==> cur.selected == if on then index else old(cur.selected)
      ensures cur.multi ==>
        forall k: nat :: Bit(cur.selected, k) <==> if k == index then on else Bit(old(cur.selected), k)
    {
      assert InRange(cur);
      if on {
        cur.SelectValue(index);
      } else {
        cur.UnselectValue(index);
      }
      forall n | n in pool
        ensures InRange(n)
      {
        assert old(InRange(n));
      }
      forall k: nat | k + 1 < |path|
        ensures Step(path, k, pool)
      {
        assert old(Step(path, k, pool)) && path[k].depth != cur.depth;
      }
    }

    method OnComboBoxSelChanged(index: nat)
      requires Valid() && !view.summary && !cur.multi && index < |cur.values|
      modifies `view, cur`selected
      ensures Valid() && cur.selected == index && !view.summary
      ensures view.back == old(view.back)
      ensures view.next <==> NextOf(cur) != null
      ensures view.ok <==> NextOf(cur) == null
    {
      Choose(index, true);
      assert InRange(cur);
      var more := cur.values[index].sub != null;
      view := View(view.summary, view.back, more, !more, view.rows, view.checks);
    }

    /** A click on check box index selects or unselects the value, by what the box shows, and flips the box: the
        value is flipped and no other. */
    method OnToggle(index: nat)
      requires Valid() && !view.summary && cur.multi && index < |cur.values|
      modifies `view, cur`selected
      ensures Valid() && !view.summary
      ensures forall k: nat :: Bit(cur.selected, k) <==> (Bit(old(cur.selected), k) != (k == index))
    {
      var checked := view.checks[index];
      Choose(index, !checked);
      var checks := view.checks[index := !checked];
      assert ChecksShown(cur, checks);
      view := View(view.summary, view.back, view.next, view.ok, view.rows, checks);
    }

    /** The tags of the path. On the summary every mandatory label contributes; where a combo box choice showed
        OK early, exactly if the last label would have passed the check that was skipped. */
    method OnOk() returns (tags: seq<Tag>)
      requires Valid() && view.ok
      ensures tags == PathTags(path, 0, pool) && WalkTags(path, tags)
      ensures MandatoryCovered(path, pool) <==> Passes(cur)
      ensures view.summary ==> MandatoryCovered(path, pool) && tags == view.rows
    {
      tags := GetClassificationTags();
      CoveredIffPasses(path, labels, pool);
      PathTagsListed(path, labels, pool);
    }

    /** Back undoes Next. */
    method NextThenBack()
      requires Valid() && view.next && Passes(cur)
      modifies this
      ensures Valid() && path == old(path) && cur == old(cur) && !view.summary
    {
      ghost var before := path;
      OnBtnClickNext();
      assert if view.summary then path == before else path[..|path| - 1] == before;
      OnBtnClickBack();
    }

    /** Any run of clicks on the controls shown; the hidden ones cannot be clicked. Whenever the summary is shown,
        its rows are exactly the path's tags, and every mandatory label on the path contributes. */
    method Run(events: seq<Event>)
      requires Valid()
      modifies this, pool`selected
      ensures Valid()
      ensures view.summary ==> view.rows == PathTags(path, 0, pool) && MandatoryCovered(path, pool)
    {
      for i := 0 to |events|
        invariant Valid()
      {
        match events[i]
        case Next =>
          if view.next {
            OnBtnClickNext();
          }
        case Back =>
          if view.back {
            OnBtnClickBack();
          }
        case Combo(index) =>
          if !view.summary && !cur.multi && index < |cur.values| {
            OnComboBoxSelChanged(index);
          }
        case Toggle(index) =>
          if !view.summary && cur.multi && index < |cur.values| {
            OnToggle(index);
          }
      }
      CoveredIffPasses(path, labels, pool);
    }
  }

  /** SetXml: fails exactly if the root is not a label that loads; otherwise the wizard is at the root of the tree
      loaded, on a page it can show if the defaults name existing values. */
  method Open(root: Node) returns (dialog: Dialog?)
    requires root.Element?
    ensures dialog != null <==> Named(root, "LABEL") && ParseLabel(root).Some?
    ensures dialog != null ==> fresh(dialog) && fresh(dialog.pool) && dialog.path == [dialog.labels]
    ensures dialog != null ==> dialog.labels in dialog.pool && dialog.cur == dialog.labels
    ensures dialog != null ==> AllLinked(dialog.pool) && dialog.labels.tree == ParseLabel(root).value
    ensures dialog != null && DefaultsOk(ParseLabel(root).value) ==> dialog.Placed()
  {
    if !SameNoCase(root.name, "LABEL") {
      return null;
    }
    var labels := new Label();
    var loaded, pool := labels.Load(root, null, 0);
    if !loaded {
      return null;
    }
    if DefaultsOk(labels.tree) {
      DefaultsInRange(pool);
      RootOnPath(labels, pool);
    }
    dialog := new Dialog(labels, pool);
  }

  // ------------------------------------------------------------------ OK before the summary

  /** A mandatory label whose one value is an empty text. */
  function EmptyValueDocument(): (root: Node)
    ensures root.Element?
  {
    Element("LABEL", map["name" := "L", "display-name" := "L"], [Element("VALUE", map["value" := ""], [])])
  }

  lemma EmptyValueLoads()
    ensures ParseLabel(EmptyValueDocument()) ==
      Some(LabelTree("L", "L", "", true, false, 0, [ValueTree("", None)]))
  {
    var root := EmptyValueDocument();
    assert Named(root.children[0], "VALUE");
    assert ParseValues(root, 1) == [];
    assert ParseValue(root.children[0]) == Some(ValueTree("", None));
    assert ParseValues(root, 0) == [ValueTree("", None)];
    assert "name" in root.attrs && root.attrs["name"] == "L";
    assert "display-name" in root.attrs && root.attrs["display-name"] == "L";
    assert ReadMandatory(root.attrs) && !ReadMulti(root.attrs) && ReadDefault(root.attrs) == 0;
    assert ReadDescription(root.attrs) == "";
  }

  method OpenEmptyValue() returns (dialog: Dialog)
    ensures fresh(dialog) && fresh(dialog.pool) && dialog.Placed() && dialog.cur.mandatory && !dialog.cur.multi
    ensures dialog.cur.values == [LabelValue("", null)]
  {
    EmptyValueLoads();
    var wizard := Open(EmptyValueDocument());
    dialog := wizard;
    assert Linked(dialog.cur, dialog.pool);
    assert LinkedValue(dialog.cur.values[0], dialog.cur.tree.values[0], dialog.cur, dialog.cur.depth, dialog.pool);
  }

  /** A user who chooses the value in the combo box gets OK, although the mandatory check would fail. */
  method EarlyOk() returns (dialog: Dialog)
    ensures fresh(dialog) && fresh(dialog.pool) && dialog.Valid()
    ensures dialog.view.ok && !dialog.view.summary && !Passes(dialog.cur)
  {
    dialog := OpenEmptyValue();
    dialog.SetPage();
    dialog.OnComboBoxSelChanged(0);
  }

  /** The tags then miss a mandatory label. */
  method EarlyTags() returns (dialog: Dialog, tags: seq<Tag>)
    ensures dialog.Valid() && tags == PathTags(dialog.path, 0, dialog.pool)
    ensures !MandatoryCovered(dialog.path, dialog.pool)
  {
    dialog := EarlyOk();
    tags := dialog.OnOk();
  }
}
