/** Multi-strings of name=value items: two encoders and one decoder (nxrmconv/src/nxrmconv.cpp,
    nxrmcmui/src/commonui.cpp). */
module TagBuffer {
  import opened Wrappers

  /** A WCHAR, and a byte. */
  type Word = x: int | 0 <= x < 0x1_0000
  type Byte = x: int | 0 <= x < 0x100

  const EQ: Word := 61

  datatype Pair = Pair(name: seq<Word>, value: seq<Word>)

  // ------------------------------------------------------------------ encoding

  function Item(p: Pair): seq<Word> {
    p.name + [EQ] + p.value
  }

  /** The items one after the other, each with its NUL. */
  function Joined(pairs: seq<Pair>): seq<Word> {
    if |pairs| == 0 then [] else Joined(pairs[..|pairs| - 1]) + (Item(pairs[|pairs| - 1]) + [0])
  }

  predicate BothFilled(p: Pair) {
    |p.name| > 0 && |p.value| > 0
  }

  /** The pairs among the first n with both parts filled, in order. */
  function Kept(pairs: seq<Pair>, n: nat): seq<Pair>
    requires n <= |pairs|
  {
    if n == 0 then []
    else if BothFilled(pairs[n - 1]) then Kept(pairs, n - 1) + [pairs[n - 1]]
    else Kept(pairs, n - 1)
  }

  /** Where the pairs with both parts filled stand among the first n. */
  function FilledAt(pairs: seq<Pair>, n: nat): (at: seq<nat>)
    requires n <= |pairs|
  {
    if n == 0 then [] else FilledAt(pairs, n - 1) + if BothFilled(pairs[n - 1]) then [n - 1] else []
  }

  lemma {:induction false} FilledAtListed(pairs: seq<Pair>, n: nat)
    requires n <= |pairs|
    ensures Ascending(FilledAt(pairs, n))
    ensures forall k: nat :: k in FilledAt(pairs, n) <==> k < n && BothFilled(pairs[k])
  {
    if n > 0 {
      FilledAtListed(pairs, n - 1);
      AscendingThen(FilledAt(pairs, n - 1), n - 1);
    }
  }

  /** Exactly the pairs with both parts filled are kept, in their order. */
  lemma {:induction false} KeptExactly(pairs: seq<Pair>, n: nat, k: nat)
    requires n <= |pairs|
    ensures |Kept(pairs, n)| == |FilledAt(pairs, n)|
    ensures k < |Kept(pairs, n)| ==> FilledAt(pairs, n)[k] < n && Kept(pairs, n)[k] == pairs[FilledAt(pairs, n)[k]]
  {
    if n > 0 {
      KeptExactly(pairs, n - 1, k);
    }
  }

  function Encoded(pairs: seq<Pair>): seq<Word> {
    var kept := Kept(pairs, |pairs|);
    if |kept| == 0 then [] else Joined(kept) + [0]
  }

  lemma JoinedMore(pairs: seq<Pair>, p: Pair)
    ensures Joined(pairs + [p]) == Joined(pairs) + (Item(p) + [0])
  {
    assert (pairs + [p])[..|pairs|] == pairs;
  }

  /** The loop that pushes the words of one item. */
  method PushAll(buf: seq<Word>, ws: seq<Word>) returns (longer: seq<Word>)
    ensures longer == buf + ws
  {
    longer := buf;
    for j := 0 to |ws|
      invariant longer == buf + ws[..j]
    {
      longer := longer + [ws[j]];
    }
    assert ws[..|ws|] == ws;
  }

  method PairToBuffer(pairs: seq<Pair>) returns (buf: seq<Word>)
    ensures buf == Encoded(pairs)
  {
    buf := [];
    for i := 0 to |pairs|
      invariant buf == Joined(Kept(pairs, i))
      invariant |buf| == 0 <==> |Kept(pairs, i)| == 0
    {
      if |pairs[i].name| == 0 || |pairs[i].value| == 0 {
        continue;
      }
      ghost var before := buf;
      var ws := pairs[i].name;
      ws := ws + [EQ];
      ws := ws + pairs[i].value;
      buf := PushAll(buf, ws);
      buf := buf + [0];
      JoinedMore(Kept(pairs, i), pairs[i]);
      Assoc(before, ws, [0]);
    }
    if |buf| != 0 {
      buf := buf + [0];
    }
  }

  lemma {:induction false} JoinedPrefix(pairs: seq<Pair>, n: nat)
    requires n <= |pairs|
    ensures Joined(pairs[..n]) <= Joined(pairs)
    decreases |pairs|
  {
    if n == |pairs| {
      assert pairs[..n] == pairs;
    } else {
      JoinedPrefix(pairs[..|pairs| - 1], n);
      assert pairs[..|pairs| - 1][..n] == pairs[..n];
    }
  }

  /** Where the n-th item stands among the joined ones. */
  lemma ItemAt(pairs: seq<Pair>, n: nat) returns (at: nat, next: nat)
    requires n < |pairs|
    ensures at == |Joined(pairs[..n])| && next == |Joined(pairs[..n + 1])|
    ensures next == at + |Item(pairs[n])| + 1 <= |Joined(pairs)|
    ensures forall k :: at <= k < next - 1 ==> Joined(pairs)[k] == Item(pairs[n])[k - at]
    ensures Joined(pairs)[next - 1] == 0
  {
    at, next := |Joined(pairs[..n])|, |Joined(pairs[..n + 1])|;
    JoinedPrefix(pairs, n + 1);
    assert pairs[..n] + [pairs[n]] == pairs[..n + 1];
    JoinedMore(pairs[..n], pairs[n]);
    forall k | at <= k < next
      ensures Joined(pairs)[k] == (Item(pairs[n]) + [0])[k - at]
    {
      assert Joined(pairs)[k] == Joined(pairs[..n + 1])[k];
    }
  }

  /** The first pass: the length of all the items and the final NUL. */
  method CountWords(tags: seq<Pair>) returns (count: nat)
    ensures count == |Joined(tags)| + 1
  {
    count := 0;
    for i := 0 to |tags|
      invariant count == |Joined(tags[..i])|
    {
      ghost var at, next := ItemAt(tags, i);
      count := count + (|tags[i].name| + 1 + |tags[i].value| + 1);
    }
    assert tags[..|tags|] == tags;
    count := count + 1;
  }

  /** RmuShowClassifyDialog2, for a list of tags that is not empty: a first pass computes the length, a second
      copies into the zeroed buffer. */
  method SizeThenFill(tags: seq<Pair>) returns (buffer: array<Word>)
    ensures fresh(buffer)
    ensures buffer[..] == Joined(tags) + [0]
  {
    var count := CountWords(tags);
    buffer := new Word[count](_ => 0);
    ghost var all := Joined(tags);
    var pos, left := 0, count;
    for i := 0 to |tags|
      invariant pos == |Joined(tags[..i])| < count && left == count - pos
      invariant forall k :: 0 <= k < pos ==> buffer[k] == all[k]
      invariant forall k :: pos <= k < count ==> buffer[k] == 0
    {
      ghost var at, next := ItemAt(tags, i);
      var item := tags[i].name + [EQ] + tags[i].value;
      Copy(buffer, pos, item);
      pos := pos + |item| + 1;
      left := left - (|item| + 1);
    }
    assert tags[..|tags|] == tags;
  }

  /** memcpy of the item to the position, inside the buffer. */
  method Copy(buffer: array<Word>, pos: nat, item: seq<Word>)
    requires pos + |item| < buffer.Length
    modifies buffer
    ensures forall k :: 0 <= k < buffer.Length ==>
      buffer[k] == if pos <= k < pos + |item| then item[k - pos] else old(buffer[k])
  {
    for j := 0 to |item|
      invariant forall k :: 0 <= k < buffer.Length ==>
        buffer[k] == if pos <= k < pos + j then item[k - pos] else old(buffer[k])
    {
      buffer[pos + j] := item[j];
    }
  }

  lemma {:induction false} KeptSame(pairs: seq<Pair>, n: nat)
    requires n <= |pairs| && forall i :: 0 <= i < n ==> BothFilled(pairs[i])
    ensures Kept(pairs, n) == pairs[..n]
  {
    if n > 0 {
      KeptSame(pairs, n - 1);
      assert pairs[..n - 1] + [pairs[n - 1]] == pairs[..n];
    }
  }

  lemma JoinedStep(pairs: seq<Pair>, n: nat)
    requires n < |pairs|
    ensures |Joined(pairs[..n + 1])| == |Joined(pairs[..n])| + |Item(pairs[n])| + 1
  {
    assert pairs[..n] + [pairs[n]] == pairs[..n + 1];
    JoinedMore(pairs[..n], pairs[n]);
  }

  lemma KeptStep(pairs: seq<Pair>, n: nat)
    requires n < |pairs|
    ensures |Joined(Kept(pairs, n + 1))| ==
      |Joined(Kept(pairs, n))| + if BothFilled(pairs[n]) then |Item(pairs[n])| + 1 else 0
  {
    if BothFilled(pairs[n]) {
      JoinedMore(Kept(pairs, n), pairs[n]);
    }
  }

  lemma {:induction false} KeptNotLonger(pairs: seq<Pair>, n: nat)
    requires n <= |pairs|
    ensures |Joined(Kept(pairs, n))| <= |Joined(pairs[..n])|
  {
    if n > 0 {
      KeptNotLonger(pairs, n - 1);
      JoinedStep(pairs, n - 1);
      KeptStep(pairs, n - 1);
    }
  }

  lemma {:induction false} KeptShorter(pairs: seq<Pair>, n: nat, i: nat)
    requires i < n <= |pairs| && !BothFilled(pairs[i])
    ensures |Joined(Kept(pairs, n))| < |Joined(pairs[..n])|
  {
    JoinedStep(pairs, n - 1);
    KeptStep(pairs, n - 1);
    if i == n - 1 {
      KeptNotLonger(pairs, n - 1);
    } else {
      KeptShorter(pairs, n - 1, i);
    }
  }

  /** On a list that is not empty the two encoders agree exactly if every pair has both parts. */
  lemma EncodersAgreeIff(pairs: seq<Pair>)
    requires |pairs| > 0
    ensures Joined(pairs) + [0] == Encoded(pairs) <==> forall i :: 0 <= i < |pairs| ==> BothFilled(pairs[i])
  {
    assert pairs[..|pairs|] == pairs;
    if forall i :: 0 <= i < |pairs| ==> BothFilled(pairs[i]) {
      KeptSame(pairs, |pairs|);
    } else {
      var i :| 0 <= i < |pairs| && !BothFilled(pairs[i]);
      KeptShorter(pairs, |pairs|, i);
    }
  }

  // ------------------------------------------------------------------ decoding

  /** The first NUL from j on, or the end. */
  function NextZero(buf: seq<Word>, j: nat): (r: nat)
    requires j <= |buf|
    ensures j <= r <= |buf|
    decreases |buf| - j
  {
    if j == |buf| || buf[j] == 0 then j else NextZero(buf, j + 1)
  }

  lemma {:induction false} NextZeroIsFirst(buf: seq<Word>, j: nat)
    requires j <= |buf|
    ensures NextZero(buf, j) < |buf| ==> buf[NextZero(buf, j)] == 0
    ensures forall k :: j <= k < NextZero(buf, j) ==> buf[k] != 0
    decreases |buf| - j
  {
    if j < |buf| && buf[j] != 0 {
      NextZeroIsFirst(buf, j + 1);
    }
  }

  /** The first equals sign from j on, or the end. */
  function FindEq(s: seq<Word>, j: nat): (r: nat)
    requires j <= |s|
    ensures j <= r <= |s|
    decreases |s| - j
  {
    if j == |s| || s[j] == EQ then j else FindEq(s, j + 1)
  }

  lemma {:induction false} FindEqIsFirst(s: seq<Word>, j: nat)
    requires j <= |s|
    ensures FindEq(s, j) < |s| ==> s[FindEq(s, j)] == EQ
    ensures forall k :: j <= k < FindEq(s, j) ==> s[k] != EQ
    decreases |s| - j
  {
    if j < |s| && s[j] != EQ {
      FindEqIsFirst(s, j + 1);
    }
  }

  function TrimLeft(s: seq<Word>, space: Word -> bool): (r: seq<Word>)
    ensures |r| <= |s|
  {
    if |s| > 0 && space(s[0]) then TrimLeft(s[1..], space) else s
  }

  function TrimRight(s: seq<Word>, space: Word -> bool): (r: seq<Word>)
    ensures |r| <= |s|
  {
    if |s| > 0 && space(s[|s| - 1]) then TrimRight(s[..|s| - 1], space) else s
  }

  /** boost::algorithm::trim, for whatever characters the locale calls spaces. */
  function Trim(s: seq<Word>, space: Word -> bool): seq<Word> {
    TrimRight(TrimLeft(s, space), space)
  }

  predicate Trimmed(s: seq<Word>, space: Word -> bool) {
    |s| > 0 ==> !space(s[0]) && !space(s[|s| - 1])
  }

  lemma TrimIff(s: seq<Word>, space: Word -> bool)
    ensures Trim(s, space) == s <==> Trimmed(s, space)
  {
    if |s| > 0 && space(s[0]) {
      assert |Trim(s, space)| <= |TrimLeft(s[1..], space)| < |s|;
    }
  }

  predicate AllSpace(s: seq<Word>, space: Word -> bool) {
    forall k :: 0 <= k < |s| ==> space(s[k])
  }

  /** r is what is left of s between the spaces at both ends. */
  ghost predicate TrimsTo(s: seq<Word>, r: seq<Word>, space: Word -> bool) {
    exists a: nat, b: nat :: Between(s, a, b, r, space)
  }

  predicate Between(s: seq<Word>, a: nat, b: nat, r: seq<Word>, space: Word -> bool) {
    a <= b <= |s| && r == s[a..b] && AllSpace(s[..a], space) && AllSpace(s[b..], space) && Trimmed(r, space)
  }

  lemma {:induction false} TrimLeftMeaning(s: seq<Word>, space: Word -> bool) returns (a: nat)
    ensures a <= |s| && TrimLeft(s, space) == s[a..] && AllSpace(s[..a], space) && (a < |s| ==> !space(s[a]))
    decreases |s|
  {
    a := 0;
    if |s| > 0 && space(s[0]) {
      a := TrimLeftMeaning(s[1..], space);
      forall k | 0 <= k < a + 1
        ensures space(s[k])
      {
        assert k > 0 ==> s[1..][..a][k - 1] == s[k];
      }
      a := a + 1;
    }
  }

  lemma {:induction false} TrimRightMeaning(s: seq<Word>, space: Word -> bool) returns (b: nat)
    ensures b <= |s| && TrimRight(s, space) == s[..b] && AllSpace(s[b..], space) && (b > 0 ==> !space(s[b - 1]))
    decreases |s|
  {
    b := |s|;
    if |s| > 0 && space(s[|s| - 1]) {
      b := TrimRightMeaning(s[..|s| - 1], space);
      forall k | b <= k < |s|
        ensures space(s[k])
      {
        assert k < |s| - 1 ==> s[..|s| - 1][b..][k - b] == s[k];
      }
    }
  }

  /** Trimming removes the spaces at both ends and nothing else. */
  lemma TrimMeaning(s: seq<Word>, space: Word -> bool)
    ensures TrimsTo(s, Trim(s, space), space)
  {
    var a := TrimLeftMeaning(s, space);
    var b := TrimRightMeaning(s[a..], space);
    assert s[a..][b..] == s[a + b..] && s[a..][..b] == s[a..a + b];
    assert Between(s, a, a + b, Trim(s, space), space);
  }

  /** The pair an item stands for; None if it has no equals sign. */
  function SplitItem(s: seq<Word>, space: Word -> bool): Option<Pair> {
    var pos := FindEq(s, 0);
    if pos == |s| then None else Some(Pair(Trim(s[..pos], space), Trim(s[pos + 1..], space)))
  }

  /** The scan from position i on reads only words of the buffer. */
  predicate StaysInside(buf: seq<Word>, i: nat)
    decreases |buf| - i
  {
    && i < |buf|
    && (buf[i] == 0 || (NextZero(buf, i) < |buf| && StaysInside(buf, NextZero(buf, i) + 1)))
  }

  /** The pairs of the items from position i on, up to an empty item. */
  function DecodeFrom(buf: seq<Word>, i: nat, space: Word -> bool): seq<Pair>
    requires StaysInside(buf, i)
    decreases |buf| - i
  {
    if buf[i] == 0 then []
    else Prepend(SplitItem(buf[i..NextZero(buf, i)], space), DecodeFrom(buf, NextZero(buf, i) + 1, space))
  }

  /** The items one after the other, each with its NUL. */
  function Terminated(items: seq<seq<Word>>): seq<Word> {
    if |items| == 0 then [] else items[0] + [0] + Terminated(items[1..])
  }

  lemma {:induction false} TerminatedThen(items: seq<seq<Word>>, item: seq<Word>)
    ensures Terminated(items + [item]) == Terminated(items) + (item + [0])
    decreases |items|
  {
    var all := items + [item];
    if |items| == 0 {
      assert all[1..] == [] && all[0] == item;
      assert item + [0] + [] == item + [0];
    } else {
      TerminatedThen(items[1..], item);
      assert all[1..] == items[1..] + [item];
      Assoc(items[0] + [0], Terminated(items[1..]), item + [0]);
    }
  }

  function ItemsOf(pairs: seq<Pair>): (items: seq<seq<Word>>)
    ensures |items| == |pairs| && forall k :: 0 <= k < |items| ==> items[k] == pairs[k].name + [EQ] + pairs[k].value
  {
    seq(|pairs|, k requires 0 <= k < |pairs| => Item(pairs[k]))
  }

  lemma {:induction false} JoinedTerminated(pairs: seq<Pair>)
    ensures Joined(pairs) == Terminated(ItemsOf(pairs))
    decreases |pairs|
  {
    if |pairs| > 0 {
      var last := |pairs| - 1;
      JoinedTerminated(pairs[..last]);
      TerminatedThen(ItemsOf(pairs[..last]), Item(pairs[last]));
      assert ItemsOf(pairs) == ItemsOf(pairs[..last]) + [Item(pairs[last])];
    }
  }

  /** Nothing is written if no pair has both parts; otherwise the items name=value of those that have, each with
      its NUL, and one more NUL. */
  lemma EncodedMeaning(pairs: seq<Pair>)
    ensures !SomeFilled(pairs) ==> Encoded(pairs) == []
    ensures SomeFilled(pairs) ==> Encoded(pairs) == Terminated(ItemsOf(Kept(pairs, |pairs|))) + [0]
  {
    SomeKept(pairs);
    JoinedTerminated(Kept(pairs, |pairs|));
  }

  predicate SomeFilled(pairs: seq<Pair>) {
    exists k :: 0 <= k < |pairs| && BothFilled(pairs[k])
  }

  lemma SomeKept(pairs: seq<Pair>)
    ensures SomeFilled(pairs) <==> |Kept(pairs, |pairs|)| > 0
  {
    var at := FilledAt(pairs, |pairs|);
    FilledAtListed(pairs, |pairs|);
    KeptExactly(pairs, |pairs|, 0);
    assert |at| > 0 ==> at[0] in at;
    if k :| 0 <= k < |pairs| && BothFilled(pairs[k]) {
      assert k in at;
    }
  }

  /** From position i on the buffer holds these items, none of them empty, and then an empty one. */
  predicate HoldsItems(buf: seq<Word>, i: nat, items: seq<seq<Word>>) {
    && i + |Terminated(items)| < |buf| && buf[i + |Terminated(items)|] == 0
    && buf[i..i + |Terminated(items)|] == Terminated(items)
    && forall k :: 0 <= k < |items| ==> |items[k]| > 0 && NoZero(items[k])
  }

  /** The item is split at its first equals sign, and both parts are trimmed. */
  ghost predicate SplitsTo(item: seq<Word>, p: Pair, space: Word -> bool) {
    exists n: nat :: SplitsAt(item, n, p, space)
  }

  ghost predicate SplitsAt(item: seq<Word>, n: nat, p: Pair, space: Word -> bool) {
    && n < |item| && item[n] == EQ && EQ !in item[..n]
    && TrimsTo(item[..n], p.name, space) && TrimsTo(item[n + 1..], p.value, space)
  }

  /** Every item with an equals sign gives a pair, in order, and no other item does. */
  ghost predicate Decodes(items: seq<seq<Word>>, pairs: seq<Pair>, space: Word -> bool)
    decreases |items|
  {
    if |items| == 0 then pairs == []
    else if EQ in items[0] then
      |pairs| > 0 && SplitsTo(items[0], pairs[0], space) && Decodes(items[1..], pairs[1..], space)
    else Decodes(items[1..], pairs, space)
  }

  lemma SplitMeaning(item: seq<Word>, space: Word -> bool)
    ensures SplitItem(item, space).Some? <==> EQ in item
    ensures SplitItem(item, space).Some? ==> SplitsTo(item, SplitItem(item, space).value, space)
  {
    FindEqIsFirst(item, 0);
    var n := FindEq(item, 0);
    if n < |item| {
      TrimMeaning(item[..n], space);
      TrimMeaning(item[n + 1..], space);
      assert SplitsAt(item, n, SplitItem(item, space).value, space);
    }
  }

  lemma NextItem(buf: seq<Word>, i: nat) returns (j: nat)
    requires StaysInside(buf, i) && buf[i] != 0
    ensures j == NextZero(buf, i) && i < j < |buf| && buf[j] == 0 && StaysInside(buf, j + 1)
    ensures forall k :: i <= k < j ==> buf[k] != 0
  {
    j := NextZero(buf, i);
    NextZeroIsFirst(buf, i);
  }

  lemma HoldsNone(buf: seq<Word>, i: nat)
    requires i < |buf| && buf[i] == 0
    ensures HoldsItems(buf, i, [])
  {
    assert buf[i..i] == [];
  }

  lemma HoldsOneMore(buf: seq<Word>, i: nat, j: nat, rest: seq<seq<Word>>)
    requires i < j < |buf| && buf[j] == 0 && (forall k :: i <= k < j ==> buf[k] != 0) && HoldsItems(buf, j + 1, rest)
    ensures HoldsItems(buf, i, [buf[i..j]] + rest)
  {
    var items := [buf[i..j]] + rest;
    assert items[1..] == rest;
    assert buf[i..j] + [0] == buf[i..j + 1];
    assert buf[i..j + 1] + buf[j + 1..j + 1 + |Terminated(rest)|] == buf[i..j + 1 + |Terminated(rest)|];
  }

  lemma DecodesOneMore(item: seq<Word>, rest: seq<seq<Word>>, pairs: seq<Pair>, space: Word -> bool)
    requires Decodes(rest, pairs, space)
    ensures Decodes([item] + rest, Prepend(SplitItem(item, space), pairs), space)
  {
    SplitMeaning(item, space);
    assert ([item] + rest)[1..] == rest;
    if EQ in item {
      assert Prepend(SplitItem(item, space), pairs)[1..] == pairs;
    }
  }

  /** Whatever the buffer holds: the pairs decoded are those of its items up to the first empty one. */
  lemma {:induction false} DecodedMeaning(buf: seq<Word>, i: nat, space: Word -> bool)
    returns (items: seq<seq<Word>>)
    requires StaysInside(buf, i)
    ensures HoldsItems(buf, i, items) && Decodes(items, DecodeFrom(buf, i, space), space)
    decreases |buf| - i
  {
    if buf[i] == 0 {
      items := [];
      HoldsNone(buf, i);
    } else {
      var j := NextItem(buf, i);
      DecodeStep(buf, i, space);
      var rest := DecodedMeaning(buf, j + 1, space);
      items := [buf[i..j]] + rest;
      HoldsOneMore(buf, i, j, rest);
      DecodesOneMore(buf[i..j], rest, DecodeFrom(buf, j + 1, space), space);
    }
  }

  function Prepend(p: Option<Pair>, rest: seq<Pair>): seq<Pair> {
    if p.None? then rest else [p.value] + rest
  }

  /** A NUL stands at k, where an item starts. */
  predicate EndsAt(buf: seq<Word>, i: nat, k: nat) {
    i <= k < |buf| && buf[k] == 0 && (k == i || buf[k - 1] == 0)
  }

  lemma EndsLater(buf: seq<Word>, i: nat, k: nat)
    requires i < |buf| && buf[i] != 0
    ensures EndsAt(buf, i, k) <==> NextZero(buf, i) < |buf| && EndsAt(buf, NextZero(buf, i) + 1, k)
  {
    NextZeroIsFirst(buf, i);
  }

  lemma {:induction false} InsideIfEnds(buf: seq<Word>, i: nat, k: nat)
    requires EndsAt(buf, i, k)
    ensures StaysInside(buf, i)
    decreases |buf| - i
  {
    if buf[i] != 0 {
      EndsLater(buf, i, k);
      InsideIfEnds(buf, NextZero(buf, i) + 1, k);
    }
  }

  lemma {:induction false} EndsIfInside(buf: seq<Word>, i: nat) returns (k: nat)
    requires StaysInside(buf, i)
    ensures EndsAt(buf, i, k)
    decreases |buf| - i
  {
    if buf[i] == 0 {
      k := i;
    } else {
      k := EndsIfInside(buf, NextZero(buf, i) + 1);
      EndsLater(buf, i, k);
    }
  }

  /** The scan stays inside the buffer exactly if there is an empty item. */
  lemma StaysInsideIff(buf: seq<Word>, i: nat)
    ensures StaysInside(buf, i) <==> exists k: nat :: EndsAt(buf, i, k)
  {
    if StaysInside(buf, i) {
      var k := EndsIfInside(buf, i);
    }
    if k: nat :| EndsAt(buf, i, k) {
      InsideIfEnds(buf, i, k);
    }
  }

  /** The decoding loop of ReadTag, on a buffer its scan stays inside. */
  method ReadTag(buf: seq<Word>, tags: seq<Pair>, space: Word -> bool) returns (all: seq<Pair>)
    requires StaysInside(buf, 0)
    ensures all == tags + DecodeFrom(buf, 0, space)
    ensures exists items :: HoldsItems(buf, 0, items) && Decodes(items, all[|tags|..], space)
  {
    ghost var done: seq<Pair> := [];
    all := tags;
    var p := 0;
    while buf[p] != 0
      invariant 0 <= p < |buf| && StaysInside(buf, p)
      invariant all == tags + done
      invariant Joins(done, DecodeFrom(buf, p, space), DecodeFrom(buf, 0, space))
      decreases |buf| - p
    {
      var tag := buf[p..NextZero(buf, p)];
      ghost var rest := DecodeFrom(buf, p, space);
      p := p + |tag| + 1;
      var pos := FindEq(tag, 0);
      if pos == |tag| {
        continue;
      }
      var name := Trim(tag[..pos], space);
      var value := Trim(tag[pos + 1..], space);
      assert rest == [Pair(name, value)] + DecodeFrom(buf, p, space);
      JoinsMore(done, [Pair(name, value)], DecodeFrom(buf, p, space), DecodeFrom(buf, 0, space));
      Assoc(tags, done, [Pair(name, value)]);
      all := all + [Pair(name, value)];
      done := done + [Pair(name, value)];
    }
    JoinsAll(done, DecodeFrom(buf, 0, space));
    assert all[|tags|..] == done;
    ghost var items := DecodedMeaning(buf, 0, space);
  }

  // ------------------------------------------------------------------ the buffer read from a file

  function ByteAt(bytes: seq<Byte>, k: nat): (b: int)
    ensures 0 <= b < 256
  {
    if k < |bytes| then bytes[k] else 0
  }

  /** The bytes as little-endian words, read into TagSectionSize / 2 + 2 zeroed words. */
  function Padded(bytes: seq<Byte>): (buf: seq<Word>)
    ensures |buf| == |bytes| / 2 + 2
  {
    seq(|bytes| / 2 + 2, k requires 0 <= k < |bytes| / 2 + 2 => ByteAt(bytes, 2 * k) + 256 * ByteAt(bytes, 2 * k + 1))
  }

  /** Whatever the section holds, the scan stays inside if the section has an even number of bytes; with an odd
      number, exactly if the last byte is 0 or an empty item comes before it. */
  lemma SectionStaysInsideIff(bytes: seq<Byte>)
    ensures StaysInside(Padded(bytes), 0) <==>
      || |bytes| % 2 == 0 || bytes[|bytes| - 1] == 0
      || exists k: nat :: k < |bytes| / 2 && EndsAt(Padded(bytes), 0, k)
  {
    var buf, half := Padded(bytes), |bytes| / 2;
    StaysInsideIff(buf, 0);
    assert buf[half + 1] == 0;
    if |bytes| % 2 == 0 || bytes[|bytes| - 1] == 0 {
      assert buf[half] == 0;
      assert EndsAt(buf, 0, half + 1);
    } else {
      assert buf[half] != 0;
      assert !EndsAt(buf, 0, half) && !EndsAt(buf, 0, half + 1);
    }
  }

  /** A section of one byte that is not 0: the scan steps past the buffer. */
  lemma OddSectionLeaves()
    ensures Padded([1]) == [1, 0] && !StaysInside(Padded([1]), 0)
  {
    var buf := Padded([1]);
    assert buf[0] == 1 && buf[1] == 0;
    assert NextZero(buf, 0) == 1;
  }

  /** A section as the encoder's words are stored. */
  function Stored(buf: seq<Word>): (bytes: seq<Byte>)
    ensures |bytes| == 2 * |buf|
  {
    seq(2 * |buf|, k requires 0 <= k < 2 * |buf| => if k % 2 == 0 then buf[k / 2] % 256 else buf[k / 2] / 256)
  }

  lemma StoredWord(buf: seq<Word>, k: nat)
    requires k < |buf|
    ensures Padded(Stored(buf))[k] == buf[k]
  {
    var bytes := Stored(buf);
    assert bytes[2 * k] == buf[k] % 256;
    assert bytes[2 * k + 1] == buf[k] / 256;
  }

  lemma StoredThenPadded(buf: seq<Word>)
    ensures Padded(Stored(buf)) == buf + [0, 0]
  {
    var again := Padded(Stored(buf));
    forall k | 0 <= k < |buf|
      ensures again[k] == buf[k]
    {
      StoredWord(buf, k);
    }
    assert again[|buf|] == 0 && again[|buf| + 1] == 0;
  }

  // ------------------------------------------------------------------ round trip

  predicate NoZero(s: seq<Word>) {
    forall k :: 0 <= k < |s| ==> s[k] != 0
  }

  /** No NUL in either part, no equals sign in the name, and no space around either. */
  predicate Clean(p: Pair, space: Word -> bool) {
    && NoZero(p.name) && NoZero(p.value)
    && (forall k :: 0 <= k < |p.name| ==> p.name[k] != EQ)
    && Trimmed(p.name, space) && Trimmed(p.value, space)
  }

  /** What an item of a pair without NULs decodes to. */
  function Reread(p: Pair, space: Word -> bool): Pair
  {
    var s := SplitItem(Item(p), space);
    if s.Some? then s.value else p
  }

  lemma SplitOfItem(p: Pair, space: Word -> bool)
    ensures Reread(p, space) == p <==>
      (forall k :: 0 <= k < |p.name| ==> p.name[k] != EQ) && Trimmed(p.name, space) && Trimmed(p.value, space)
  {
    var s, n := Item(p), |p.name|;
    assert s[n] == EQ;
    FindEqIsFirst(s, 0);
    var pos := FindEq(s, 0);
    TrimIff(p.name, space);
    TrimIff(p.value, space);
    if pos < n {
      assert p.name[pos] == EQ;
      assert |Trim(s[..pos], space)| <= |TrimLeft(s[..pos], space)| <= pos;
    } else {
      assert s[..n] == p.name && s[n + 1..] == p.value;
      assert forall k :: 0 <= k < n ==> p.name[k] == s[k];
    }
  }

  lemma {:induction false} NextZeroIs(buf: seq<Word>, i: nat, r: nat)
    requires i <= r < |buf| && buf[r] == 0 && forall k :: i <= k < r ==> buf[k] != 0
    ensures NextZero(buf, i) == r
    decreases r - i
  {
    if i < r {
      NextZeroIs(buf, i + 1, r);
    }
  }

  lemma ItemSplits(p: Pair, space: Word -> bool)
    ensures SplitItem(Item(p), space) == Some(Reread(p, space))
  {
    assert Item(p)[|p.name|] == EQ;
    FindEqIsFirst(Item(p), 0);
  }

  lemma DecodeStep(buf: seq<Word>, i: nat, space: Word -> bool)
    requires StaysInside(buf, i) && buf[i] != 0
    ensures DecodeFrom(buf, i, space) == Prepend(
      SplitItem(buf[i..NextZero(buf, i)], space), DecodeFrom(buf, NextZero(buf, i) + 1, space))
  {
  }

  lemma DecodeItem(buf: seq<Word>, i: nat, p: Pair, next: nat, space: Word -> bool)
    requires NoZero(p.name) && NoZero(p.value) && next == i + |Item(p)| + 1 && StaysInside(buf, next)
    requires buf[next - 1] == 0 && forall k :: i <= k < next - 1 ==> buf[k] == Item(p)[k - i]
    ensures StaysInside(buf, i) && DecodeFrom(buf, i, space) == [Reread(p, space)] + DecodeFrom(buf, next, space)
  {
    forall k | i <= k < next - 1
      ensures buf[k] != 0
    {
      assert buf[k] == Item(p)[k - i];
    }
    NextZeroIs(buf, i, next - 1);
    assert buf[i..next - 1] == Item(p);
    ItemSplits(p, space);
    DecodeStep(buf, i, space);
  }

  function RereadAll(pairs: seq<Pair>, space: Word -> bool): (r: seq<Pair>)
    ensures |r| == |pairs|
  {
    seq(|pairs|, k requires 0 <= k < |pairs| => Reread(pairs[k], space))
  }

  lemma {:induction false} DecodeJoined(pairs: seq<Pair>, n: nat, buf: seq<Word>, space: Word -> bool)
    requires n <= |pairs| && forall k :: 0 <= k < |pairs| ==> NoZero(pairs[k].name) && NoZero(pairs[k].value)
    requires |buf| > |Joined(pairs)| && buf[|Joined(pairs)|] == 0
    requires forall k :: 0 <= k < |Joined(pairs)| ==> buf[k] == Joined(pairs)[k]
    ensures StaysInside(buf, |Joined(pairs[..n])|)
    ensures DecodeFrom(buf, |Joined(pairs[..n])|, space) == RereadAll(pairs, space)[n..]
    decreases |pairs| - n
  {
    if n == |pairs| {
      assert pairs[..n] == pairs;
    } else {
      DecodeJoined(pairs, n + 1, buf, space);
      var at, next := ItemAt(pairs, n);
      DecodeItem(buf, at, pairs[n], next, space);
      RereadStep(pairs, n, space);
    }
  }

  lemma RereadStep(pairs: seq<Pair>, n: nat, space: Word -> bool)
    requires n < |pairs|
    ensures RereadAll(pairs, space)[n..] == [Reread(pairs[n], space)] + RereadAll(pairs, space)[n + 1..]
  {
  }

  lemma {:induction false} TrimNoZero(s: seq<Word>, space: Word -> bool)
    requires NoZero(s)
    ensures NoZero(TrimLeft(s, space)) && NoZero(TrimRight(s, space))
    decreases |s|
  {
    if |s| > 0 {
      TrimNoZero(s[1..], space);
      TrimNoZero(s[..|s| - 1], space);
    }
  }

  /** Nothing decoded holds a NUL. */
  lemma {:induction false} DecodedNoZero(buf: seq<Word>, i: nat, space: Word -> bool)
    requires StaysInside(buf, i)
    ensures forall p :: p in DecodeFrom(buf, i, space) ==> NoZero(p.name) && NoZero(p.value)
    decreases |buf| - i
  {
    if buf[i] != 0 {
      var j := NextZero(buf, i);
      DecodedNoZero(buf, j + 1, space);
      NextZeroIsFirst(buf, i);
      var s := buf[i..j];
      assert NoZero(s);
      var pos := FindEq(s, 0);
      if pos < |s| {
        TrimNoZero(s[..pos], space);
        TrimNoZero(TrimLeft(s[..pos], space), space);
        TrimNoZero(s[pos + 1..], space);
        TrimNoZero(TrimLeft(s[pos + 1..], space), space);
      }
    }
  }

  /** The encoder's words with two zeros after them. */
  lemma NoZeroRoundTrip(pairs: seq<Pair>, kept: seq<Pair>, buf: seq<Word>, space: Word -> bool)
    requires kept == Kept(pairs, |pairs|) && buf == Encoded(pairs) + [0, 0]
    requires forall k :: 0 <= k < |kept| ==> NoZero(kept[k].name) && NoZero(kept[k].value)
    ensures StaysInside(buf, 0) && DecodeFrom(buf, 0, space) == RereadAll(kept, space)
  {
    assert kept[..0] == [];
    DecodeJoined(kept, 0, buf, space);
    assert RereadAll(kept, space)[0..] == RereadAll(kept, space);
  }

  lemma RereadSameIff(kept: seq<Pair>, space: Word -> bool)
    requires forall k :: 0 <= k < |kept| ==> NoZero(kept[k].name) && NoZero(kept[k].value)
    ensures RereadAll(kept, space) == kept <==> forall k :: 0 <= k < |kept| ==> Clean(kept[k], space)
  {
    var again := RereadAll(kept, space);
    forall k | 0 <= k < |kept|
      ensures again[k] == kept[k] <==> Clean(kept[k], space)
    {
      SplitOfItem(kept[k], space);
    }
  }

  /** Decoding what was encoded, stored in a section and read back never leaves the buffer, and yields exactly
      the pairs with both parts filled, in order, if and only if each of those is clean. */
  lemma RoundTripIff(pairs: seq<Pair>, kept: seq<Pair>, buf: seq<Word>, space: Word -> bool)
    requires kept == Kept(pairs, |pairs|) && buf == Padded(Stored(Encoded(pairs)))
    ensures StaysInside(buf, 0)
    ensures DecodeFrom(buf, 0, space) == kept <==> forall k :: 0 <= k < |kept| ==> Clean(kept[k], space)
  {
    SectionStaysInsideIff(Stored(Encoded(pairs)));
    StoredThenPadded(Encoded(pairs));
    DecodedNoZero(buf, 0, space);
    if forall k :: 0 <= k < |kept| ==> NoZero(kept[k].name) && NoZero(kept[k].value) {
      NoZeroRoundTrip(pairs, kept, buf, space);
      RereadSameIff(kept, space);
    } else {
      var k :| 0 <= k < |kept| && !(NoZero(kept[k].name) && NoZero(kept[k].value));
      assert kept[k] in kept;
    }
  }
}
