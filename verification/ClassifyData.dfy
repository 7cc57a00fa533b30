/** CItem and CClassifyData (nxrmcmui/src/classifydata.cpp, nxrmcmui/inc/classifydata.hpp) as objects. */
module ClassifyData {
  import opened Wrappers
  import opened Bits
  import opened ClassifyItem

  class Item {
    const id: string
    const name: string
    const displayName: string
    const multi: bool
    var values: seq<ItemValue>
    var mandatory: bool
    var selid: int

    function State(): ItemState
      reads this
    {
      ItemState(id, name, displayName, values, mandatory, multi, selid)
    }

    constructor (id: string, name: string, displayName: string, mandatory: bool, multi: bool)
      ensures State() == ItemState(id, name, displayName, [], mandatory, multi, -1)
    {
      this.id, this.name, this.displayName, this.multi := id, name, displayName, multi;
      this.values, this.mandatory, this.selid := [], mandatory, -1;
    }

    method SetMandatory(b: bool)
      modifies this`mandatory
      ensures State() == old(State()).(mandatory := b)
    {
      mandatory := b;
    }

    method AddValue(value: ItemValue)
      modifies this`values
      ensures State() == old(State()).(values := old(values) + [value])
    {
      values := values + [value];
    }

    /** Returns the selected value, or None where the source returns NULL. */
    method Select(i: int) returns (value: Option<ItemValue>)
      requires State().Valid() || (!multi && 0 <= i < |values|)
      modifies this`selid
      ensures State() == old(State()).Select(i) && State().Valid()
      ensures 0 <= i < |values| ==>
        && value == Some(values[i])
        && State().Selection() == if multi then old(State().Selection()) + {i as nat} else {i as nat}
      ensures !(0 <= i < |values|) ==> value == None
      ensures i == -1 ==> State().Selection() == {}
    {
      ghost var before := State();
      SelectRefinesInsert(before, i);
      value := None;
      if i == -1 {
        selid := i;
      } else if i >= 0 && i < |values| {
        if multi {
          if selid == -1 {
            selid := 0;
          }
          var mask := 1;
          if i > 0 {
            mask := Shift(i);
          }
          selid := ToInt(Or(ToUlong(selid), mask));
        } else {
          selid := i;
        }
        value := Some(values[i]);
      }
    }

    method Unselect(i: int)
      requires State().Valid()
      modifies this`selid
      ensures State() == old(State()).Unselect(i) && State().Valid()
      ensures multi && i >= 0 ==> State().Selection() == old(State().Selection()) - {i as nat}
      ensures !multi ==> State().Selection() == {}
    {
      UnselectRefinesRemove(State(), i);
      if multi {
        if i >= 0 && i < |values| && i < MAX_MULTI {
          if selid != -1 {
            var mask := 1;
            if i > 0 {
              mask := Shift(i);
            }
            selid := ToInt(AndNot(ToUlong(selid), mask));
          }
        }
      } else {
        selid := -1;
      }
    }

    /** The source indexes out of range for a single selection without a selected value; its callers
        ask IsSelected first. */
    method GetFirstSelectedValue() returns (value: Option<ItemValue>)
      requires State().Valid() && (!multi ==> State().Filled())
      ensures State().Filled() <==> |State().ChosenValues()| > 0
      ensures value == if State().Filled() then Some(State().ChosenValues()[0]) else None
    {
      ghost var st := State();
      FilledIffNonEmpty(st);
      if !multi {
        SingleChosen(st);
        return Some(values[selid]);
      }
      if selid <= 0 {
        return None;
      }
      var mask := 1;
      for i := 0 to Min(MAX_MULTI, |values|)
        invariant mask == Shift(i)
        invariant st.ChosenValues() == st.ValuesFrom(i)
      {
        MaskTest(st, i);
        if And(ToUlong(selid), mask) != 0 {
          return Some(values[i]);
        }
        mask := mask * 2;
      }
      assert false;
      value := None;
    }

    /** Appends the selected values to out; the count returned is the length of the whole vector. */
    method GetSelectedValues(out: seq<ItemValue>) returns (all: seq<ItemValue>, count: nat)
      requires State().Valid()
      ensures all == out + State().ChosenValues()
      ensures count == if multi && !State().Filled() then 0 else |all|
      ensures out == [] ==> count == |all|
    {
      ghost var st := State();
      all := out;
      if !multi {
        SingleChosen(st);
        if selid >= 0 && selid < |values| {
          all := all + [values[selid]];
        }
        return all, |all|;
      }
      if selid <= 0 {
        NothingChosen(st);
        return all, 0;
      }
      var mask := 1;
      for i := 0 to Min(MAX_MULTI, |values|)
        invariant mask == Shift(i)
        invariant out + st.ValuesFrom(0) == all + st.ValuesFrom(i)
      {
        MaskTest(st, i);
        if And(ToUlong(selid), mask) != 0 {
          all := all + [values[i]];
        }
        mask := mask * 2;
      }
      assert st.ValuesFrom(|values|) == [];
      count := |all|;
    }

    method IsSelected() returns (selected: bool)
      requires State().Valid()
      ensures selected == (State().Selection() != {})
    {
      FilledIffNonEmpty(State());
      if multi {
        return selid > 0;
      }
      return selid >= 0 && selid < |values|;
    }

    method IsSelectedAt(i: nat) returns (selected: bool)
      requires State().Valid() && i < |values|
      ensures selected == (i in State().Selection())
    {
      if multi {
        if selid <= 0 {
          return false;
        }
        MaskTest(State(), i);
        var mask := 1;
        if i > 0 {
          mask := Shift(i);
        }
        return mask == And(ToUlong(selid), mask);
      }
      return selid == i;
    }
  }
}
