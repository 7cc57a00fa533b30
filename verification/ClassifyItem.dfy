/** Classification labels and their selection state (nxrmcmui/src/classifydata.cpp). */
module ClassifyItem {
  import opened Bits

  /** A selection int has 31 usable bits: the sign bit is taken by "nothing selected". */
  const MAX_MULTI: nat := 31

  datatype ItemValue = ItemValue(priority: int, data: string, description: string, subItems: seq<string>)

  /** The value of a CItem. selid is -1 or an index for a single selection, and -1 or a bit mask for a
      multiple one. */
  datatype ItemState = ItemState(
    id: string, name: string, displayName: string, values: seq<ItemValue>,
    mandatory: bool, multi: bool, selid: int)
  {
    /** What every member function keeps: a selection names existing values only. */
    predicate Valid() {
      if multi then |values| <= MAX_MULTI && (selid == -1 || 0 <= selid < Shift(|values|))
      else -1 <= selid < |values|
    }

    /** Value i is selected. */
    predicate Chosen(i: nat) {
      if multi then selid > 0 && Bit(selid, i) else selid == i
    }

    ghost function Selection(): set<nat> {
      set i: nat | i < |values| && Chosen(i)
    }

    /** The selected values from index i on, in index order. */
    function ChosenFrom(i: nat): seq<nat>
      requires i <= |values|
      decreases |values| - i
    {
      if i == |values| then []
      else if Chosen(i) then [i] + ChosenFrom(i + 1)
      else ChosenFrom(i + 1)
    }

    /** The selected values themselves, in the same order. */
    function ValuesFrom(i: nat): seq<ItemValue>
      requires i <= |values|
      decreases |values| - i
    {
      if i == |values| then []
      else if Chosen(i) then [values[i]] + ValuesFrom(i + 1)
      else ValuesFrom(i + 1)
    }

    function ChosenValues(): seq<ItemValue> {
      ValuesFrom(0)
    }

    /** What MandatoryCheck accepts. */
    predicate Filled() {
      if multi then selid > 0 else selid >= 0
    }

    /** A single-selection label with a selected value: the only kind that shows sub-labels. */
    predicate Shows() {
      !multi && 0 <= selid < |values|
    }

    function Select(i: int): ItemState {
      if i == -1 then this.(selid := -1)
      else if 0 <= i < |values| then
        this.(selid := if multi then SetBit(selid, i) else i)
      else this
    }

    function Unselect(i: int): ItemState {
      if !multi then this.(selid := -1)
      else if 0 <= i < |values| && i < MAX_MULTI && selid != -1 then this.(selid := ClearBit(selid, i))
      else this
    }
  }

  /** _selid after Select on a multiple selection, with the source's conversions through ULONG. */
  function SetBit(selid: int, i: nat): int {
    ToInt(Or(ToUlong(if selid == -1 then 0 else selid), Shift(i)))
  }

  function ClearBit(selid: int, i: nat): int {
    ToInt(AndNot(ToUlong(selid), Shift(i)))
  }

  // ------------------------------------------------------------------ the int is a set

  function BitsBefore(selid: int): nat
    requires selid >= -1
  {
    if selid == -1 then 0 else selid
  }

  lemma SetBitValue(selid: int, i: nat, w: nat)
    requires i < w <= MAX_MULTI && (selid == -1 || 0 <= selid < Shift(w))
    ensures SetBit(selid, i) == Or(BitsBefore(selid), Shift(i)) < Shift(w)
  {
    var bits := BitsBefore(selid);
    Shift31();
    ShiftMonotone(w, MAX_MULTI);
    InsertBit(bits, i, w);
    SmallCasts(bits);
    SmallCasts(Or(bits, Shift(i)));
  }

  lemma SetBitIsInsert(selid: int, i: nat, w: nat)
    requires i < w <= MAX_MULTI && (selid == -1 || 0 <= selid < Shift(w))
    ensures 0 < SetBit(selid, i) < Shift(w)
    ensures forall k: nat :: Bit(SetBit(selid, i), k) <==> (selid > 0 && Bit(selid, k)) || k == i
  {
    SetBitValue(selid, i, w);
    InsertBit(BitsBefore(selid), i, w);
    forall k: nat
      ensures Bit(BitsBefore(selid), k) <==> selid > 0 && Bit(selid, k)
    {
      BitOfZero(k);
    }
  }

  lemma ClearBitValue(selid: int, i: nat, w: nat)
    requires i < w <= MAX_MULTI && 0 <= selid < Shift(w)
    ensures ClearBit(selid, i) == AndNot(selid, Shift(i)) < Shift(w)
  {
    Shift31();
    ShiftMonotone(w, MAX_MULTI);
    RemoveBit(selid, i, w);
    SmallCasts(selid);
    SmallCasts(AndNot(selid, Shift(i)));
  }

  lemma ClearBitIsRemove(selid: int, i: nat, w: nat)
    requires i < w <= MAX_MULTI && 0 <= selid < Shift(w)
    ensures 0 <= ClearBit(selid, i) < Shift(w)
    ensures forall k: nat :: Bit(ClearBit(selid, i), k) <==> Bit(selid, k) && k != i
  {
    ClearBitValue(selid, i, w);
    RemoveBit(selid, i, w);
  }

  /** Select inserts into a multiple selection and replaces a single one; -1 clears both; any other
      index changes nothing. */
  lemma SelectRefinesInsert(st: ItemState, i: int)
    requires st.Valid() || (!st.multi && 0 <= i < |st.values|)
    ensures st.Select(i).Valid()
    ensures 0 <= i < |st.values| ==>
      st.Select(i).Selection() == if st.multi then st.Selection() + {i as nat} else {i as nat}
    ensures i == -1 ==> st.Select(i) == st.(selid := -1) && st.Select(i).Selection() == {} && !st.Select(i).Filled()
    ensures i < -1 || i >= |st.values| ==> st.Select(i) == st
  {
    var st' := st.Select(i);
    if st.multi && 0 <= i < |st.values| {
      SetBitIsInsert(st.selid, i, |st.values|);
      assert st'.Selection() == st.Selection() + {i as nat};
    }
  }

  lemma ChosenIsBit(st: ItemState, k: nat)
    requires st.multi && st.selid >= 0
    ensures st.Chosen(k) <==> Bit(st.selid, k)
  {
    BitOfZero(k);
  }

  lemma ClearedSelection(st: ItemState, i: nat)
    requires st.Valid() && st.multi && i < |st.values| && st.selid != -1
    ensures st.Unselect(i).Valid() && st.Unselect(i).Selection() == st.Selection() - {i}
  {
    var st' := st.Unselect(i);
    ClearBitIsRemove(st.selid, i, |st.values|);
    forall k: nat
      ensures st'.Chosen(k) <==> st.Chosen(k) && k != i
    {
      ChosenIsBit(st, k);
      ChosenIsBit(st', k);
    }
  }

  /** Unselect removes from a multiple selection and clears a single one. */
  lemma UnselectRefinesRemove(st: ItemState, i: int)
    requires st.Valid()
    ensures st.Unselect(i).Valid() && (!st.multi ==> st.Unselect(i).selid == -1)
    ensures st.Unselect(i).Selection() ==
      if !st.multi then {} else if i >= 0 then st.Selection() - {i as nat} else st.Selection()
  {
    if st.multi && 0 <= i < |st.values| && st.selid != -1 {
      ClearedSelection(st, i);
    }
  }

  /** The listing is the set: increasing indices, every selected one and no other. */
  lemma {:induction false} ListingOrder(st: ItemState, i: nat)
    requires i <= |st.values|
    ensures var indices := st.ChosenFrom(i);
      && (forall k :: 0 <= k < |indices| ==> i <= indices[k] < |st.values| && st.Chosen(indices[k]))
      && (forall k, l :: 0 <= k < l < |indices| ==> indices[k] < indices[l])
      && (forall j :: i <= j < |st.values| && st.Chosen(j) ==> j in indices)
    decreases |st.values| - i
  {
    if i < |st.values| {
      ListingOrder(st, i + 1);
      var indices := st.ChosenFrom(i);
      forall j | i <= j < |st.values| && st.Chosen(j)
        ensures j in indices
      {
        if j == i {
          assert indices[0] == i;
        }
      }
    }
  }

  lemma {:induction false} ListedValues(st: ItemState, i: nat)
    requires i <= |st.values|
    ensures var indices, vs := st.ChosenFrom(i), st.ValuesFrom(i);
      |vs| == |indices| && forall k :: 0 <= k < |vs| ==> indices[k] < |st.values| && vs[k] == st.values[indices[k]]
    decreases |st.values| - i
  {
    if i < |st.values| {
      ListedValues(st, i + 1);
    }
  }

  /** Both spellings of "nothing selected" are the empty set, and only they are; the listing of the
      selected values is empty exactly then. */
  lemma FilledIffNonEmpty(st: ItemState)
    requires st.Valid()
    ensures st.Filled() <==> st.Selection() != {}
    ensures st.Filled() <==> |st.ChosenValues()| > 0
    ensures |st.ChosenValues()| > 0 ==> st.ChosenValues()[0] in st.values
  {
    ListingOrder(st, 0);
    ListedValues(st, 0);
    if st.Filled() {
      if st.multi {
        var i := LowestBit(st.selid, |st.values|);
        assert i in st.Selection() && i in st.ChosenFrom(0);
      } else {
        assert st.selid in st.Selection() && st.selid in st.ChosenFrom(0);
      }
    }
    if |st.ChosenFrom(0)| > 0 {
      assert st.ChosenFrom(0)[0] in st.Selection();
    }
  }

  lemma Bit31IsSign(selid: int, i: nat)
    requires i == 31 && (selid == -1 || 0 <= selid < 0x8000_0000)
    ensures SetBit(selid, i) < 0
  {
    var bits := BitsBefore(selid);
    SmallCasts(bits);
    OrTopBit(bits, i);
    SignBit(Or(bits, Shift(i)));
  }

  /** The 31-value bound is exact: selecting bit 31 makes the int negative, and the whole selection
      reads as empty. */
  lemma SelectInsertsIff(selid: int, i: nat)
    requires i <= 31 && (selid == -1 || 0 <= selid < Shift(31))
    ensures BitsOf(SetBit(selid, i)) == BitsOf(selid) + {i} <==> i < 31
  {
    if i < 31 {
      SetBitIsInsert(selid, i, 31);
      assert BitsOf(SetBit(selid, i)) == BitsOf(selid) + {i};
    } else {
      Shift31();
      Bit31IsSign(selid, i);
      assert i !in BitsOf(SetBit(selid, i));
    }
  }

  /** The members a selection int of a multiple selection stands for. */
  ghost function BitsOf(selid: int): set<nat> {
    set i: nat | i < 32 && selid > 0 && Bit(selid, i)
  }

  /** The source's bit test, for a selection int that is not negative. */
  lemma MaskTest(st: ItemState, i: nat)
    requires st.Valid() && st.multi && st.selid > 0
    ensures And(ToUlong(st.selid), Shift(i)) == (if st.Chosen(i) then Shift(i) else 0)
  {
    Shift31();
    ShiftMonotone(|st.values|, MAX_MULTI);
    SmallCasts(st.selid);
    AndShift(st.selid, i);
  }

  lemma {:induction false} OnlyChosen(st: ItemState, i: nat)
    requires st.Valid() && !st.multi && i <= |st.values|
    ensures st.ChosenFrom(i) == if i <= st.selid then [st.selid] else []
    decreases |st.values| - i
  {
    if i < |st.values| {
      OnlyChosen(st, i + 1);
    }
  }

  lemma SingleChosen(st: ItemState)
    requires st.Valid() && !st.multi
    ensures st.ChosenValues() == if st.Filled() then [st.values[st.selid]] else []
  {
    OnlyChosen(st, 0);
    ListedValues(st, 0);
  }

  lemma NothingChosen(st: ItemState)
    requires st.Valid() && !st.Filled()
    ensures st.ChosenValues() == []
  {
    FilledIffNonEmpty(st);
  }
}
