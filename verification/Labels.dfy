/** CLabel and CLabelValue as linked objects (nxrmcmui/src/labelinfo.cpp). */
module Labels {
  import opened Wrappers
  import opened Text
  import opened Bits
  import opened LabelXml

  /** A CLabelValue; its fields never change after loading. */
  datatype LabelValue = LabelValue(value: string, sub: Label?)

  class Label {
    var parent: Label?
    var defaultValue: int
    var selected: int
    var mandatory: bool
    var multi: bool
    var name: string
    var display: string
    var description: string
    var values: seq<LabelValue>

    /** The tree below this label, and its distance from the root. */
    ghost var tree: LabelTree
    ghost var depth: nat

    constructor ()
      ensures values == [] && parent == null
    {
      parent, defaultValue, selected, mandatory, multi := null, 0, 0, true, false;
      name, display, description, values := "", "", "", [];
      tree, depth := LabelTree("", "", "", true, false, 0, []), 0;
    }

    /** Fills this label from an element; pool collects it and the labels created below it. */
    method Load(node: Node, parent: Label?, ghost depth: nat) returns (ok: bool, ghost pool: set<Label>)
      requires node.Element? && values == []
      modifies this
      ensures this in pool && fresh(pool - {this})
      ensures ok <==> ParseLabel(node).Some?
      ensures ok ==> tree == ParseLabel(node).value && this.parent == parent && this.depth == depth
      ensures ok ==> AllLinked(pool) && AllDefault(pool)
      ensures ok && DefaultsOk(tree) ==> AllDefaultsOk(pool)
      decreases node, 1
    {
      this.parent := parent;
      this.depth := depth;
      pool := {this};
      if ParseLabel(node).Some? {
        tree := ParseLabel(node).value;
      }
      if "name" !in node.attrs || "display-name" !in node.attrs {
        return false, pool;
      }
      LoadAttributes(node);
      pool := LoadValues(node, parent);
      ok := |values| > 0;
      if ok {
        assert Linked(this, pool);
      }
    }

    method LoadAttributes(node: Node)
      requires node.Element? && "name" in node.attrs && "display-name" in node.attrs
      modifies `name, `display, `mandatory, `multi, `defaultValue, `selected, `description
      ensures name == node.attrs["name"] && display == node.attrs["display-name"]
      ensures mandatory == ReadMandatory(node.attrs) && multi == ReadMulti(node.attrs)
      ensures description == ReadDescription(node.attrs)
      ensures selected == defaultValue == ReadDefault(node.attrs)
    {
      name, display := node.attrs["name"], node.attrs["display-name"];
      mandatory := ReadMandatory(node.attrs);
      multi := ReadMulti(node.attrs);
      defaultValue := ReadDefault(node.attrs);
      selected := defaultValue;
      description := ReadDescription(node.attrs);
    }

    /** The loop over the child nodes. */
    method LoadValues(node: Node, ghost up: Label?) returns (ghost pool: set<Label>)
      requires node.Element? && values == [] && parent == up
      modifies `values
      ensures this in pool && fresh(pool - {this})
      ensures LinkedValues(values, ParseValues(node, 0), this, depth, pool)
      ensures forall n :: n in pool - {this} ==> Linked(n, pool) && n.selected == n.defaultValue
      ensures ValuesDefaultsOk(ParseValues(node, 0)) ==> AllDefaultsOk(pool - {this})
      decreases node, 0
    {
      pool := {this};
      ghost var done: seq<ValueTree> := [];
      for i := 0 to |node.children|
        invariant this in pool && fresh(pool - {this})
        invariant Joins(done, ParseValues(node, i), ParseValues(node, 0))
        invariant LinkedValues(values, done, this, depth, pool)
        invariant forall n :: n in pool - {this} ==> Linked(n, pool) && n.selected == n.defaultValue
        invariant ValuesDefaultsOk(done) ==> AllDefaultsOk(pool - {this})
      {
        var child := node.children[i];
        if Named(child, "VALUE") {
          var ok, value, more := LoadValue(child, this, depth);
          if ok {
            ghost var t := ParseValue(child).value;
            JoinsMore(done, [t], ParseValues(node, i + 1), ParseValues(node, 0));
            LinkedValuesMore(values, done, this, depth, pool, value, t, pool + more);
            values := values + [value];
            DefaultsSplit(done, t);
            done := done + [t];
            LinkedMore(pool - {this}, pool, pool + more);
            LinkedMore(more, more, pool + more);
            pool := pool + more;
          }
        }
      }
      JoinsAll(done, ParseValues(node, 0));
    }

    /** CLabelValue::Load. */
    static method LoadValue(node: Node, owner: Label, ghost depth: nat)
      returns (ok: bool, value: LabelValue, ghost pool: set<Label>)
      requires node.Element?
      ensures fresh(pool)
      ensures ok <==> ParseValue(node).Some?
      ensures ok ==> LinkedValue(value, ParseValue(node).value, owner, depth, pool)
      ensures ok ==> AllLinked(pool) && AllDefault(pool)
      ensures ok && ValueDefaultsOk(ParseValue(node).value) ==> AllDefaultsOk(pool)
      decreases node, 1
    {
      value, pool := LabelValue("", null), {};
      if "value" !in node.attrs {
        return false, value, pool;
      }
      value := LabelValue(node.attrs["value"], null);
      var found := FindChild(node.children, "LABEL", 0);
      if found.Some? {
        var sub := new Label();
        var loaded, more := sub.Load(node.children[found.value], owner, depth + 1);
        if loaded {
          value := LabelValue(node.attrs["value"], sub);
          pool := more;
        }
      }
      ok := true;
    }

    method ToXmlObject(ghost pool: set<Label>) returns (node: Node)
      requires this in pool && AllLinked(pool)
      ensures node == PrintLabel(tree)
      decreases tree, 1
    {
      var children: seq<Node> := [];
      for i := 0 to |values|
        invariant |children| == i
        invariant forall k :: 0 <= k < i ==> children[k] == PrintValue(tree.values[k])
      {
        assert LinkedValue(values[i], tree.values[i], this, depth, pool);
        var child := ValueToXmlObject(values[i], tree.values[i], this, depth, pool);
        children := children + [child];
      }
      node := Element("LABEL", map[
        "default-value" := FromInt(defaultValue),
        "mandatory" := if mandatory then "true" else "false",
        "multi-select" := if multi then "true" else "false",
        "name" := name, "display-name" := display, "description" := description], children);
      assert node.children == PrintLabel(tree).children;
    }

    /** CLabelValue::ToXmlObject. */
    static method ValueToXmlObject(
        v: LabelValue, ghost t: ValueTree, ghost owner: Label, ghost depth: nat, ghost pool: set<Label>)
      returns (node: Node)
      requires AllLinked(pool) && LinkedValue(v, t, owner, depth, pool)
      ensures node == PrintValue(t)
      decreases t, 0
    {
      var children: seq<Node> := [];
      if v.sub != null {
        var child := v.sub.ToXmlObject(pool);
        children := [child];
      }
      node := Element("VALUE", map["value" := v.value], children);
    }

    /** None where the source returns NULL. A negative id would be out of range. */
    method GetValue(id: int) returns (value: Option<LabelValue>)
      requires id >= 0
      ensures value == if id < |values| then Some(values[id]) else None
    {
      if |values| <= id {
        return None;
      }
      value := Some(values[id]);
    }

    /** A negative index would be a negative shift for a multiple selection. */
    method SelectValue(index: int)
      requires multi ==> index >= 0 && Walkable(this)
      modifies `selected
      ensures old(InRange(this)) && index >= 0 ==> InRange(this)
      ensures index >= |values| ==> selected == old(selected)
      ensures index < |values| && !multi ==> selected == index
      ensures index < |values| && multi ==>
        selected > 0 && forall k: nat :: Bit(selected, k) <==> Bit(old(selected), k) || k == index
    {
      if index >= |values| {
        return;
      }
      if multi {
        SetsBit(selected, index);
        if InRange(this) {
          InsertBit(selected, index, |values|);
        }
        selected := Or(selected, Shift(index));
      } else {
        selected := index;
      }
    }

    method UnselectValue(index: int)
      requires multi ==> index >= 0 && Walkable(this)
      modifies `selected
      ensures old(InRange(this)) ==> InRange(this)
      ensures index >= |values| || !multi ==> selected == old(selected)
      ensures index < |values| && multi ==>
        selected >= 0 && forall k: nat :: Bit(selected, k) <==> Bit(old(selected), k) && k != index
    {
      if index >= |values| {
        return;
      }
      if multi {
        ClearsBit(selected, index);
        if InRange(this) {
          RemoveBit(selected, index, |values|);
        }
        selected := AndNot(selected, Shift(index));
      }
    }

    /** Appends the tags of the selected values of a multiple selection. */
    method MultiSelected(tags: seq<Tag>) returns (all: seq<Tag>)
      requires Walkable(this) && multi
      ensures all == tags + MultiTags(this, 0) && ListsSelected(this, all[|tags|..])
    {
      MultiTagsListed(this);
      all := tags;
      for i := 0 to |values|
        invariant all + MultiTags(this, i) == tags + MultiTags(this, 0)
      {
        AndShift(selected, i);
        if 0 != And(selected, Shift(i)) {
          all := all + [Tag(name, values[i].value)];
        }
      }
      assert all + [] == all;
      assert all[|tags|..] == MultiTags(this, 0);
    }

    /** Appends the tags along the selected path. */
    method GetClassificationTags(tags: seq<Tag>, ghost pool: set<Label>) returns (all: seq<Tag>)
      requires this in pool && AllLinked(pool) && AllWalkable(pool)
      ensures all == tags + TagsFrom(this, pool)
      ensures exists path :: Walks(path, this, pool) && WalkTags(path, all[|tags|..])
    {
      all := tags;
      var shown: Label? := this;
      ghost var left := tree;
      while shown != null
        invariant shown != null ==> shown in pool && left == shown.tree
        invariant tags + TagsFrom(this, pool) == if shown != null then all + TagsFrom(shown, pool) else all
        decreases shown != null, left
      {
        if shown.multi {
          all := shown.MultiSelected(all);
          shown := null;
        } else {
          var value := shown.GetValue(shown.selected);
          if value == None {
            assert all + [] == all;
            break;
          }
          assert LinkedValue(shown.values[shown.selected], left.values[shown.selected], shown, shown.depth, pool);
          all := all + [Tag(shown.name, value.value.value)];
          shown := value.value.sub;
          if shown != null {
            left := shown.tree;
          }
        }
      }
      SuffixIs(tags, TagsFrom(this, pool), all);
      ghost var path := WalkListed(this, pool);
    }
  }

  // ------------------------------------------------------------------ a linked pool of labels

  /** The value object stands for t; its sub-label, if any, is in the pool and points back to the owner. */
  ghost predicate LinkedValue(v: LabelValue, t: ValueTree, owner: Label, depth: nat, pool: set<Label>)
    reads pool`tree, pool`parent, pool`depth
  {
    && v.value == t.value
    && if v.sub == null then t.sub == None
       else v.sub in pool && t.sub == Some(v.sub.tree) && v.sub.parent == owner && v.sub.depth == depth + 1
  }

  ghost predicate LinkedValues(values: seq<LabelValue>, ts: seq<ValueTree>, owner: Label, depth: nat, pool: set<Label>)
    reads pool`tree, pool`parent, pool`depth
  {
    |values| == |ts| && forall i :: 0 <= i < |values| ==> LinkedValue(values[i], ts[i], owner, depth, pool)
  }

  lemma LinkedValuesMore(
      values: seq<LabelValue>, ts: seq<ValueTree>, owner: Label, depth: nat, pool: set<Label>,
      v: LabelValue, t: ValueTree, more: set<Label>)
    requires LinkedValues(values, ts, owner, depth, pool) && LinkedValue(v, t, owner, depth, more) && pool <= more
    ensures LinkedValues(values + [v], ts + [t], owner, depth, more)
  {
    forall i | 0 <= i < |values|
      ensures LinkedValue(values[i], ts[i], owner, depth, more)
    {
      assert LinkedValue(values[i], ts[i], owner, depth, pool);
    }
  }

  /** The label's fields are those of its tree. */
  ghost predicate Linked(n: Label, pool: set<Label>)
    requires n in pool
    reads pool`tree, pool`parent, pool`depth, pool`values
    reads pool`name, pool`display, pool`description, pool`mandatory, pool`multi, pool`defaultValue
  {
    && n.tree == LabelTree(n.name, n.display, n.description, n.mandatory, n.multi, n.defaultValue, n.tree.values)
    && |n.values| > 0 && LinkedValues(n.values, n.tree.values, n, n.depth, pool)
  }

  ghost predicate AllLinked(pool: set<Label>)
    reads pool`tree, pool`parent, pool`depth, pool`values
    reads pool`name, pool`display, pool`description, pool`mandatory, pool`multi, pool`defaultValue
  {
    forall n :: n in pool ==> Linked(n, pool)
  }

  /** A larger pool links the same labels. */
  lemma LinkedMore(some: set<Label>, pool: set<Label>, more: set<Label>)
    requires some <= pool <= more && forall n :: n in some ==> Linked(n, pool)
    ensures forall n :: n in some ==> Linked(n, more)
  {
    forall n | n in some
      ensures Linked(n, more)
    {
      forall i | 0 <= i < |n.values|
        ensures LinkedValue(n.values[i], n.tree.values[i], n, n.depth, more)
      {
        assert LinkedValue(n.values[i], n.tree.values[i], n, n.depth, pool);
      }
    }
  }

  /** The selection is not negative, and a multiple one has no more values than bits. */
  ghost predicate Walkable(n: Label)
    reads n`selected, n`values, n`multi
  {
    n.selected >= 0 && (n.multi ==> |n.values| <= 31)
  }

  ghost predicate AllWalkable(pool: set<Label>)
    reads pool`selected, pool`values, pool`multi
  {
    forall n :: n in pool ==> Walkable(n)
  }

  lemma RangeWalkable(pool: set<Label>)
    requires AllInRange(pool)
    ensures AllWalkable(pool)
  {
    forall n | n in pool
      ensures Walkable(n)
    {
      assert InRange(n);
    }
  }

  ghost predicate AllInRange(pool: set<Label>)
    reads pool`selected, pool`values, pool`multi
  {
    forall n :: n in pool ==> InRange(n)
  }

  /** Every selection is the default one. */
  ghost predicate AllDefault(pool: set<Label>)
    reads pool`selected, pool`defaultValue
  {
    forall n :: n in pool ==> n.selected == n.defaultValue
  }

  ghost predicate AllDefaultsOk(pool: set<Label>)
    reads pool`tree
  {
    forall n :: n in pool ==> DefaultsOk(n.tree)
  }

  lemma DefaultsSplit(done: seq<ValueTree>, t: ValueTree)
    ensures ValuesDefaultsOk(done + [t]) ==> ValuesDefaultsOk(done) && ValueDefaultsOk(t)
  {
    if ValuesDefaultsOk(done + [t]) {
      assert (done + [t])[|done|] == t;
      forall i | 0 <= i < |done|
        ensures ValueDefaultsOk(done[i])
      {
        assert (done + [t])[i] == done[i];
      }
    }
  }

  /** Labels with their default selections are in range if the defaults are. */
  lemma DefaultsInRange(pool: set<Label>)
    requires AllLinked(pool) && AllDefault(pool) && AllDefaultsOk(pool)
    ensures AllInRange(pool) && MultiEnds(pool)
  {
    forall n | n in pool
      ensures InRange(n)
      ensures n.multi ==> forall i :: 0 <= i < |n.values| ==> n.values[i].sub == null
    {
      assert Linked(n, pool) && DefaultsOk(n.tree);
      if n.multi {
        forall i | 0 <= i < |n.values|
          ensures n.values[i].sub == null
        {
          assert LinkedValue(n.values[i], n.tree.values[i], n, n.depth, pool);
        }
      }
    }
  }

  /** No value of a multiple selection has sub-labels. */
  ghost predicate MultiEnds(pool: set<Label>)
    reads pool`values, pool`multi
  {
    forall n, i :: n in pool && n.multi && 0 <= i < |n.values| ==> n.values[i].sub == null
  }

  /** The selection names existing values; a multiple selection has at most 31 of them. */
  ghost predicate InRange(n: Label)
    reads n`selected, n`values, n`multi
  {
    if n.multi then |n.values| <= 31 && 0 <= n.selected < Shift(|n.values|) else 0 <= n.selected < |n.values|
  }

  // ------------------------------------------------------------------ the tags of the selected path

  /** The tags of the selected values of a multiple selection from the i-th on. */
  ghost function MultiTags(n: Label, i: nat): seq<Tag>
    requires i <= |n.values| && n.selected >= 0
    reads n`selected, n`values, n`name
    decreases |n.values| - i
  {
    if i == |n.values| then []
    else if Bit(n.selected, i) then [Tag(n.name, n.values[i].value)] + MultiTags(n, i + 1)
    else MultiTags(n, i + 1)
  }

  /** The tags from label n downwards. A single selection past its values ends the path. */
  ghost function TagsFrom(n: Label, pool: set<Label>): seq<Tag>
    requires n in pool && AllLinked(pool) && AllWalkable(pool)
    reads pool
    decreases n.tree
  {
    assert Walkable(n) && Linked(n, pool);
    if n.multi then MultiTags(n, 0)
    else if n.selected >= |n.values| then []
    else
      var v := n.values[n.selected];
      assert LinkedValue(v, n.tree.values[n.selected], n, n.depth, pool);
      [Tag(n.name, v.value)] + if v.sub == null then [] else TagsFrom(v.sub, pool)
  }

  /** The positions of the selected values from the i-th on. */
  ghost function SelectedAt(n: Label, i: nat): (at: seq<nat>)
    requires i <= |n.values|
    reads n`selected, n`values
    decreases |n.values| - i
  {
    if i == |n.values| then []
    else if Bit(n.selected, i) then [i] + SelectedAt(n, i + 1)
    else SelectedAt(n, i + 1)
  }

  lemma {:induction false} SelectedAtListed(n: Label, i: nat)
    requires i <= |n.values|
    ensures Ascending(SelectedAt(n, i))
    ensures forall k: nat :: k in SelectedAt(n, i) <==> i <= k < |n.values| && Bit(n.selected, k)
    decreases |n.values| - i
  {
    if i < |n.values| {
      SelectedAtListed(n, i + 1);
      AscendingFrom(i, SelectedAt(n, i + 1));
    }
  }

  /** One tag for each selected value, in value order, of the label's name and the value's text. */
  ghost predicate ListsSelected(n: Label, tags: seq<Tag>)
    reads n`selected, n`values, n`name
  {
    exists at: seq<nat> :: ListsAt(n, at, tags)
  }

  ghost predicate ListsAt(n: Label, at: seq<nat>, tags: seq<Tag>)
    reads n`selected, n`values, n`name
  {
    && Ascending(at) && (forall k: nat :: k in at <==> k < |n.values| && Bit(n.selected, k))
    && |tags| == |at|
    && forall k :: 0 <= k < |at| ==> at[k] < |n.values| && tags[k] == Tag(n.name, n.values[at[k]].value)
  }

  lemma {:induction false} MultiTagAt(n: Label, i: nat, k: nat)
    requires i <= |n.values| && n.selected >= 0
    ensures |MultiTags(n, i)| == |SelectedAt(n, i)|
    ensures k < |MultiTags(n, i)| ==>
      SelectedAt(n, i)[k] < |n.values| && MultiTags(n, i)[k] == Tag(n.name, n.values[SelectedAt(n, i)[k]].value)
    decreases |n.values| - i
  {
    if i < |n.values| {
      MultiTagAt(n, i + 1, if Bit(n.selected, i) && k > 0 then k - 1 else k);
    }
  }

  lemma MultiTagsListed(n: Label)
    requires n.selected >= 0
    ensures ListsSelected(n, MultiTags(n, 0))
  {
    var at := SelectedAt(n, 0);
    SelectedAtListed(n, 0);
    MultiTagAt(n, 0, 0);
    forall k | 0 <= k < |at|
      ensures at[k] < |n.values| && MultiTags(n, 0)[k] == Tag(n.name, n.values[at[k]].value)
    {
      MultiTagAt(n, 0, k);
    }
    assert ListsAt(n, at, MultiTags(n, 0));
  }

  /** From n the path follows the selected values' sub-labels as far as it can. */
  ghost predicate Walks(path: seq<Label>, n: Label, pool: set<Label>)
    reads pool`selected, pool`values, pool`multi
  {
    && |path| > 0 && path[0] == n && (forall k :: 0 <= k < |path| ==> path[k] in pool)
    && (forall k: nat :: k + 1 < |path| ==> Follows(path[k], path[k + 1]))
    && Ends(path[|path| - 1])
  }

  /** No label follows. */
  ghost predicate Ends(n: Label)
    reads n`selected, n`values, n`multi
  {
    0 <= n.selected < |n.values| && !n.multi ==> n.values[n.selected].sub == null
  }

  ghost predicate Follows(n: Label, next: Label)
    reads n`selected, n`values, n`multi
  {
    !n.multi && 0 <= n.selected < |n.values| && n.values[n.selected].sub == next
  }

  /** One tag for each label of the path but the last, in path order, of the label's name and its selected value's
      text; then those of the last, none if it is a single selection past its values. */
  ghost predicate WalkTags(path: seq<Label>, tags: seq<Tag>)
    requires |path| > 0
    reads path
  {
    var last := |path| - 1;
    && last <= |tags|
    && (forall k :: 0 <= k < last ==> SingleTag(path[k], tags[k]))
    && if path[last].multi then ListsSelected(path[last], tags[last..])
       else if path[last].selected >= |path[last].values| then |tags| == last
       else |tags| == last + 1 && SingleTag(path[last], tags[last])
  }

  ghost predicate SingleTag(n: Label, tag: Tag)
    reads n`selected, n`values, n`name
  {
    0 <= n.selected < |n.values| && tag == Tag(n.name, n.values[n.selected].value)
  }

  lemma WalkLonger(n: Label, path: seq<Label>, first: Tag, tags: seq<Tag>)
    requires |path| > 0 && WalkTags(path, tags) && SingleTag(n, first)
    ensures WalkTags([n] + path, [first] + tags)
  {
    var longer, all := [n] + path, [first] + tags;
    var last := |path| - 1;
    assert all[last + 1..] == tags[last..];
    forall k | 0 <= k < last + 1
      ensures SingleTag(longer[k], all[k])
    {
      assert k > 0 ==> SingleTag(path[k - 1], tags[k - 1]);
    }
  }

  /** The tags from a label downwards are those of the path its selections lead along. */
  lemma {:induction false} WalkListed(n: Label, pool: set<Label>) returns (path: seq<Label>)
    requires n in pool && AllLinked(pool) && AllWalkable(pool)
    ensures Walks(path, n, pool) && WalkTags(path, TagsFrom(n, pool))
    decreases n.tree
  {
    assert Walkable(n) && Linked(n, pool);
    path := [n];
    if n.multi {
      MultiTagsListed(n);
      assert MultiTags(n, 0)[0..] == MultiTags(n, 0);
    } else if n.selected < |n.values| {
      var v := n.values[n.selected];
      assert LinkedValue(v, n.tree.values[n.selected], n, n.depth, pool);
      if v.sub != null {
        var rest := WalkListed(v.sub, pool);
        path := [n] + rest;
        WalkLonger(n, rest, Tag(n.name, v.value), TagsFrom(v.sub, pool));
        forall k: nat | k + 1 < |path|
          ensures Follows(path[k], path[k + 1])
        {
          assert k > 0 ==> Follows(rest[k - 1], rest[k]);
        }
      }
    }
  }

  // ------------------------------------------------------------------ round trip over objects

  /** Printing a label and loading what was printed gives a new, separate tree of labels: the same tree, with
      parent links rebuilt and every selection reset to its default, exactly if every label has a value. */
  method Reload(original: Label, ghost pool: set<Label>) returns (ok: bool, copy: Label, ghost copies: set<Label>)
    requires original in pool && AllLinked(pool)
    ensures fresh(copies) && copy in copies
    ensures WellFormed(original.tree) ==> ok
    ensures ok ==> AllLinked(copies) && AllDefault(copies) && copy.parent == null && copy.depth == 0
    ensures ok && copy.tree == original.tree <==> WellFormed(original.tree)
  {
    var node := original.ToXmlObject(pool);
    copy := new Label();
    ok, copies := copy.Load(node, null, 0);
    RoundTripIff(original.tree);
  }
}
