/** What single calls do, whatever the other threads do meanwhile: AllocRecord on a section that is not ready,
    WaitForResponse on a timeout, post_response. */
module TransportCalls {
  import opened Wrappers
  import opened Transport
  import opened TransportInvariant
  import opened TransportSafety

  lemma {:induction false} RunLast(s: System, actions: seq<Action>, n: nat)
    requires Shape(s) && n < |actions|
    ensures Run(s, actions[..n + 1]) == Next(Run(s, actions[..n]), actions[n])
    decreases n
  {
    ShapeKept(s, actions[0]);
    var s1 := Next(s, actions[0]);
    assert actions[..n + 1][1..] == actions[1..][..n];
    if n > 0 {
      RunLast(s1, actions[1..], n - 1);
      assert actions[..n][1..] == actions[1..][..n - 1];
      assert actions[1..][..n - 1 + 1] == actions[1..][..n];
    }
  }

  // ------------------------------------------------------------------ a section that is not ready

  /** The thread has not read ready in its present call, if it is in one. */
  predicate Outside(pc: Pc) {
    pc.Idle? || pc.CheckReady?
  }

  /** Nobody has got further since s0. */
  predicate Dormant(s0: System, s: System) {
    && !s.ready && s.slots == s0.slots && s.worker == Resting && |s.clients| == |s0.clients|
    && forall t :: 0 <= t < |s.clients| ==> Outside(s.clients[t].pc)
  }

  lemma DormantStep(s0: System, s: System, a: Action)
    requires Initial(s0) && Shape(s) && Dormant(s0, s) && a != Toggle(true)
    ensures Shape(Next(s, a)) && Dormant(s0, Next(s, a))
  {
    ShapeKept(s, a);
    match a
    case ClientStep(_, _, _, _) =>
    case WorkerStep(_) =>
    case HandlerStep(r, _) =>
      assert r < |s.slots| ==> s.slots[r := s.slots[r]] == s.slots;
    case Toggle(_) =>
  }

  lemma {:induction false} DormantRun(s0: System, s: System, actions: seq<Action>)
    requires Initial(s0) && Shape(s) && Dormant(s0, s)
    requires forall i :: 0 <= i < |actions| ==> actions[i] != Toggle(true)
    ensures Dormant(s0, Run(s, actions))
    decreases |actions|
  {
    if actions != [] {
      DormantStep(s0, s, actions[0]);
      DormantRun(s0, Next(s, actions[0]), actions[1..]);
    }
  }

  /** Over every run, as long as the section is not made ready no record changes and no thread holds a slot. */
  lemma NotReadyUntouched(s: System, actions: seq<Action>)
    requires Initial(s) && !s.ready && forall i :: 0 <= i < |actions| ==> actions[i] != Toggle(true)
    ensures Run(s, actions).slots == s.slots
    ensures forall t :: 0 <= t < |Run(s, actions).clients| ==> Held(Run(s, actions).clients[t].pc) == None
  {
    DormantRun(s, s, actions);
  }

  /** A thread that calls then is refused. */
  lemma NotReadyRefused(s: System, t: nat, job: Job)
    requires Shape(s) && t < |s.clients| && s.clients[t].pc == Idle && !s.ready
    ensures var a := ClientStep(t, job, 0, false);
      Run(s, [a, a]) == s.(clients := s.clients[t := s.clients[t].(probes := [], refused := true)])
  {
    var a := ClientStep(t, job, 0, false);
    TwoSteps(s, a);
  }

  lemma TwoSteps(s: System, a: Action)
    requires Shape(s)
    ensures Shape(Next(s, a)) && Run(s, [a]) == Next(s, a) && Run(s, [a, a]) == Next(Next(s, a), a)
  {
    ShapeKept(s, a);
    ShapeKept(Next(s, a), a);
    assert [a, a][1..] == [a] && [a][1..] == [];
    assert Run(Next(s, a), [a]) == Run(Next(Next(s, a), a), []);
  }

  /** Step i of the run is thread t's look at ready; it finds the section ready, and up to the end of the run the
      thread stays in that call. */
  predicate Admitted(s: System, actions: seq<Action>, t: nat, i: nat)
    requires Shape(s)
  {
    && i < |actions| && actions[i].ClientStep? && actions[i].t == t
    && t < |Run(s, actions[..i]).clients| && Run(s, actions[..i]).ready
    && Run(s, actions[..i]).clients[t].pc.CheckReady?
    && forall j :: i < j <= |actions| ==> Inside(s, actions, t, j)
  }

  predicate Inside(s: System, actions: seq<Action>, t: nat, j: nat)
    requires Shape(s)
  {
    j <= |actions| && t < |Run(s, actions[..j]).clients| && !Outside(Run(s, actions[..j]).clients[t].pc)
  }

  lemma GetsInside(s: System, a: Action, t: nat)
    requires Shape(s) && t < |Next(s, a).clients|
    ensures |Next(s, a).clients| == |s.clients|
    ensures !Outside(Next(s, a).clients[t].pc) && Outside(s.clients[t].pc) ==>
      a.ClientStep? && a.t == t && s.clients[t].pc.CheckReady? && s.ready
  {
    if a.ClientStep? && a.t < |s.clients| {
      ClientTouchesOne(s, a.t, a.job, a.buffer, a.expired);
    }
  }

  /** Over every run: a thread that holds a slot, or looks for one, read ready as true in that very call. */
  lemma {:induction false} HolderSawReady(s: System, actions: seq<Action>, t: nat) returns (i: nat)
    requires Initial(s) && t < |Run(s, actions).clients| && !Outside(Run(s, actions).clients[t].pc)
    ensures Admitted(s, actions, t, i)
    decreases |actions|
  {
    var n := |actions| - 1;
    var before, a := actions[..n], actions[n];
    assert actions[..n + 1] == actions;
    RunLast(s, actions, n);
    GetsInside(Run(s, before), a, t);
    assert Inside(s, actions, t, n + 1);
    if Outside(Run(s, before).clients[t].pc) {
      i := n;
    } else {
      i := HolderSawReady(s, before, t);
      assert before[..i] == actions[..i];
      forall j | i < j <= |actions|
        ensures Inside(s, actions, t, j)
      {
        if j <= n {
          assert Inside(s, before, t, j) && before[..j] == actions[..j];
        }
      }
    }
  }

  // ------------------------------------------------------------------ giving up

  /** A CCoreObject thread whose timeout has expired returns TRUE at once and leaves the record alone. */
  lemma ConvTimesOut(s: System, t: nat, job: Job, buffer: nat)
    requires Shape(s) && t < |s.clients| && s.clients[t].pc.Slept? && s.clients[t].kind == Conv
    ensures var c, s' := s.clients[t], Run(s, [ClientStep(t, job, buffer, true)]);
      && |s'.clients| == |s.clients| && |s'.slots| == |s.slots|
      && s'.clients[t] == c.(pc := Idle, outcomes := c.outcomes + [Outcome(c.pc.call, true, None)])
      && s'.slots[c.pc.r].rec == s.slots[c.pc.r].rec
  {
    TwoSteps(s, ClientStep(t, job, buffer, true));
  }

  lemma LooksOnce(s: System, t: nat, job: Job, buffer: nat)
    requires Shape(s) && t < |s.clients| && s.clients[t].pc.Slept? && s.clients[t].kind == Common
    ensures var c := s.clients[t];
      Next(s, ClientStep(t, job, buffer, true)) == Jump(s, t, Recheck(c.pc.call, c.pc.r, c.pc.buffer, true))
  {
  }

  /** Any other looks once more, and returns FALSE with the record cancelled unless it is ready now. */
  lemma CommonTimesOut(s: System, t: nat, job: Job, buffer: nat)
    requires Shape(s) && t < |s.clients| && s.clients[t].pc.Slept? && s.clients[t].kind == Common
    requires s.slots[s.clients[t].pc.r].rec.state != ReadyForClient
    ensures var a, c := ClientStep(t, job, buffer, true), s.clients[t];
      var s' := Run(Run(s, [a, a]), [a]);
      && |s'.clients| == |s.clients| && |s'.slots| == |s.slots|
      && s'.clients[t] == c.(pc := Idle, outcomes := c.outcomes + [Outcome(c.pc.call, false, None)])
      && s'.slots[c.pc.r].rec == s.slots[c.pc.r].rec.(cancelled := true)
  {
    var a, c := ClientStep(t, job, buffer, true), s.clients[t];
    TwoSteps(s, a);
    LooksOnce(s, t, job, buffer);
    var s2 := Run(s, [a, a]);
    assert s2.slots == s.slots && s2.clients[t] == c.(pc := LateCancel(c.pc.call, c.pc.r));
    TwoSteps(s2, a);
  }

  lemma CommonFindsAnswer(s: System, t: nat, job: Job, buffer: nat)
    requires Shape(s) && t < |s.clients| && s.clients[t].pc.Slept? && s.clients[t].kind == Common
    requires s.slots[s.clients[t].pc.r].rec.state == ReadyForClient
    ensures var a, c := ClientStep(t, job, buffer, true), s.clients[t];
      var s' := Run(s, [a, a]);
      |s'.clients| == |s.clients| && s'.clients[t] == c.(pc := ReadLength(c.pc.call, c.pc.r, c.pc.buffer))
  {
    TwoSteps(s, ClientStep(t, job, buffer, true));
    LooksOnce(s, t, job, buffer);
  }

  /** Step i of the run finds thread t in its wait loop with the timeout expired or the section not ready. */
  predicate Cause(s: System, actions: seq<Action>, t: nat, i: nat)
    requires Shape(s)
  {
    && i < |actions| && actions[i].ClientStep? && actions[i].t == t && t < |Run(s, actions[..i]).clients|
    && Run(s, actions[..i]).clients[t].pc.Slept? && (actions[i].expired || !Run(s, actions[..i]).ready)
  }

  predicate AllAnswered(outcomes: seq<Outcome>) {
    forall i :: 0 <= i < |outcomes| ==> outcomes[i].receipt.Some?
  }

  /** The thread has been told of a call that had no answer, or is about to be. */
  predicate GaveUp(c: Client) {
    c.pc.LateCancel? || (c.pc.Recheck? && c.pc.late) || !AllAnswered(c.outcomes)
  }

  lemma HolderGoesOn(s: System, t: nat, job: Job, buffer: nat, expired: bool)
    requires Shape(s) && t < |s.clients| && !GaveUp(s.clients[t])
    requires var pc := s.clients[t].pc; pc.Fill? || pc.Release? || pc.PutCancel?
    ensures !GaveUp(ClientNext(s, t, job, buffer, expired).clients[t])
  {
  }

  lemma ReaderGoesOn(s: System, t: nat, job: Job, buffer: nat, expired: bool)
    requires Shape(s) && t < |s.clients| && !GaveUp(s.clients[t])
    requires var pc := s.clients[t].pc; !pc.Fill? && !pc.Release? && !pc.PutCancel?
    requires s.clients[t].pc.Recheck? ==> s.slots[s.clients[t].pc.r].rec.state == ReadyForClient
    requires !(s.clients[t].pc.Slept? && (expired || !s.ready))
    ensures !GaveUp(ClientNext(s, t, job, buffer, expired).clients[t])
  {
  }

  predicate MayGiveUp(s: System, a: Action, t: nat)
    requires t < |s.clients|
  {
    a.ClientStep? && a.t == t && s.clients[t].pc.Slept? && (a.expired || !s.ready)
  }

  lemma GoesOn(s: System, a: Action, t: nat)
    requires Inv(s) && t < |s.clients| && !GaveUp(s.clients[t]) && !MayGiveUp(s, a, t)
    ensures |Next(s, a).clients| == |s.clients| && !GaveUp(Next(s, a).clients[t])
  {
    if a.ClientStep? && a.t < |s.clients| {
      ClientTouchesOne(s, a.t, a.job, a.buffer, a.expired);
      if a.t == t {
        assert ClientOk(s.clients[t], t, s.slots, s.length);
        var pc := s.clients[t].pc;
        if pc.Fill? || pc.Release? || pc.PutCancel? {
          HolderGoesOn(s, t, a.job, a.buffer, a.expired);
        } else {
          ReaderGoesOn(s, t, a.job, a.buffer, a.expired);
        }
      }
    }
  }

  lemma LastGivesUp(s: System, actions: seq<Action>, n: nat, bounds: Bounds, t: nat)
    requires Initial(s) && LegalRun(s, actions, bounds) && bounds.Fit() && n < |actions|
    requires t < |Run(s, actions[..n]).clients| && !GaveUp(Run(s, actions[..n]).clients[t])
    requires !MayGiveUp(Run(s, actions[..n]), actions[n], t)
    ensures t < |Run(s, actions[..n + 1]).clients| && !GaveUp(Run(s, actions[..n + 1]).clients[t])
  {
    LegalPrefix(s, actions, n, bounds);
    InitialInv(s);
    RunInv(s, actions[..n], bounds);
    RunLast(s, actions, n);
    GoesOn(Run(s, actions[..n]), actions[n], t);
  }

  lemma {:induction false} ClientsStay(s: System, actions: seq<Action>)
    requires Shape(s)
    ensures |Run(s, actions).clients| == |s.clients|
    decreases |actions|
  {
    if actions != [] {
      ShapeKept(s, actions[0]);
      ClientsStay(Next(s, actions[0]), actions[1..]);
      if actions[0].ClientStep? && actions[0].t < |s.clients| {
        ClientTouchesOne(s, actions[0].t, actions[0].job, actions[0].buffer, actions[0].expired);
      }
    }
  }

  /** Over every run, as long as requests and answers fit: nobody is told of a call without an answer unless the
      timeout expired in its wait loop, or the section was not ready then. */
  lemma {:induction false} SilenceHasCause(s: System, actions: seq<Action>, bounds: Bounds, t: nat, n: nat)
    returns (i: nat)
    requires Initial(s) && LegalRun(s, actions, bounds) && bounds.Fit() && n <= |actions|
    requires t < |Run(s, actions[..n]).clients| && GaveUp(Run(s, actions[..n]).clients[t])
    ensures i < n && Cause(s, actions, t, i)
    decreases n
  {
    ClientsStay(s, actions[..n]);
    ClientsStay(s, actions[..n - 1]);
    if GaveUp(Run(s, actions[..n - 1]).clients[t]) {
      i := SilenceHasCause(s, actions, bounds, t, n - 1);
    } else {
      i := n - 1;
      if !MayGiveUp(Run(s, actions[..n - 1]), actions[n - 1], t) {
        LastGivesUp(s, actions, n - 1, bounds, t);
      }
    }
  }

  lemma {:induction false} LegalPrefix(s: System, actions: seq<Action>, n: nat, bounds: Bounds)
    requires Shape(s) && n <= |actions| && LegalRun(s, actions, bounds)
    ensures LegalRun(s, actions[..n], bounds)
    decreases n
  {
    if n > 0 {
      ShapeKept(s, actions[0]);
      LegalPrefix(Next(s, actions[0]), actions[1..], n - 1, bounds);
      assert actions[..n][1..] == actions[1..][..n - 1];
    }
  }

  // ------------------------------------------------------------------ the engine's worker

  /** What two steps of a resting worker do at a record: it claims one that is ready for the engine, starts to
      recycle one that is answered or rejected and cancelled, and leaves any other alone. */
  lemma WorkerLooks(s: System, r: nat)
    requires Shape(s) && s.worker == Resting && r < |s.slots|
    ensures var slot, s' := s.slots[r], Run(s, [WorkerStep(r), WorkerStep(r)]);
      if slot.rec.state == ReadyForEngine then
        && s'.worker == Resting
        && s'.slots == s.slots[r := slot.(rec := slot.rec.(state := InProcessing), handler := ReadKind)]
      else if slot.rec.state in {ReadyForClient, BadRecord} && slot.rec.cancelled then
        s'.worker == Recycling(r, 0) && s'.slots == s.slots[r := slot.(use := Scrubbing)]
      else s'.worker == Resting && s'.slots == s.slots
  {
    TwoSteps(s, WorkerStep(r));
  }

  // ------------------------------------------------------------------ post_response

  /** The handler of a slot takes n steps on its own. */
  function Alone(slot: Slot, n: nat): (slot': Slot)
    requires SlotShape(slot)
    ensures SlotShape(slot')
  {
    if n == 0 then slot else SlotNext(Alone(slot, n - 1), None)
  }

  /** A cancelled record, or one whose answer is too long, is scrubbed and freed; any other gets the whole answer
      and is published, with nothing else changed but its flags. */
  predicate Posted(was: Slot, bytes: seq<Byte>, now: Slot)
    requires SlotShape(was) && SlotShape(now)
  {
    && now.handler == Off && now.call == was.call && now.answer == was.answer
    && if was.rec.cancelled || |bytes| > MAX_DATA then now.rec == Scrubbed() && now.use == Vacant
       else
         && now.use == was.use && now.rec.data[..|bytes|] == bytes && now.rec.data[|bytes|..] == was.rec.data[|bytes|..]
         && now.rec == was.rec.(flags := 0, length := |bytes|, state := ReadyForClient, data := now.rec.data)
  }

  lemma ScrubOne(slot: Slot, s: Slot, j: nat)
    requires SlotShape(slot) && j + 1 < |RecycleProgram()| && SlotShape(s)
    requires s == slot.(rec := s.rec, handler := Scrub(j)) && DoneUpTo(RecycleProgram(), j, s.rec)
    ensures var s' := SlotNext(s, None);
      s' == slot.(rec := s'.rec, handler := Scrub(j + 1)) && DoneUpTo(RecycleProgram(), j + 1, s'.rec)
  {
    RecycleDistinct();
    StoreKeepsDone(RecycleProgram(), j, s.rec);
  }

  lemma {:induction false} ScrubsAlone(slot: Slot, j: nat)
    requires SlotShape(slot) && slot.handler == Scrub(0) && j < |RecycleProgram()|
    ensures var s := Alone(slot, j);
      && s == slot.(rec := s.rec, handler := Scrub(j)) && DoneUpTo(RecycleProgram(), j, s.rec)
  {
    if j > 0 {
      ScrubsAlone(slot, j - 1);
      ScrubOne(slot, Alone(slot, j - 1), j - 1);
    }
  }

  /** The stores of the answer change nothing but flags, and the first bytes. */
  predicate Untouched(rec: Record, rec': Record, bytes: nat) {
    && |rec'.data| == |rec.data| && bytes <= |rec.data| && rec'.data[bytes..] == rec.data[bytes..]
    && rec' == rec.(flags := rec'.flags, length := rec'.length, data := rec'.data)
  }

  predicate Posting(slot: Slot, s: Slot, bytes: seq<Byte>, j: nat) {
    && s == slot.(rec := s.rec, handler := Post(bytes, j)) && DoneUpTo(AnswerProgram(bytes), j, s.rec)
    && Untouched(slot.rec, s.rec, |bytes|)
  }

  lemma PostOne(slot: Slot, s: Slot, bytes: seq<Byte>, j: nat)
    requires SlotShape(slot) && SlotShape(s) && |bytes| <= MAX_DATA && j + 1 < |AnswerProgram(bytes)|
    requires Posting(slot, s, bytes, j)
    ensures Posting(slot, SlotNext(s, None), bytes, j + 1)
  {
    AnswerDistinct(bytes);
    StoreKeepsDone(AnswerProgram(bytes), j, s.rec);
  }

  lemma {:induction false} PostsAlone(slot: Slot, bytes: seq<Byte>, j: nat)
    requires SlotShape(slot) && |bytes| <= MAX_DATA && slot.handler == Post(bytes, 0) && j < |AnswerProgram(bytes)|
    ensures Posting(slot, Alone(slot, j), bytes, j)
  {
    if j > 0 {
      PostsAlone(slot, bytes, j - 1);
      PostOne(slot, Alone(slot, j - 1), bytes, j - 1);
    }
  }

  lemma {:induction false} AloneFrom(slot: Slot, n: nat)
    requires SlotShape(slot)
    ensures SlotShape(SlotNext(slot, None)) && Alone(slot, n + 1) == Alone(SlotNext(slot, None), n)
  {
    assert Alone(slot, 1) == SlotNext(Alone(slot, 0), None);
    if n > 0 {
      AloneFrom(slot, n - 1);
    }
  }

  lemma LastScrub(slot: Slot)
    requires SlotShape(slot) && slot.handler == Scrub(0)
    ensures var now := Alone(slot, |RecycleProgram()|);
      now == slot.(rec := Scrubbed(), handler := Off, use := Vacant)
  {
    var last := |RecycleProgram()| - 1;
    ScrubsAlone(slot, last);
    RecycleComplete(Alone(slot, last).rec);
    assert Alone(slot, last + 1) == SlotNext(Alone(slot, last), None);
  }

  lemma LastPost(slot: Slot, bytes: seq<Byte>)
    requires SlotShape(slot) && |bytes| <= MAX_DATA && slot.handler == Post(bytes, 0)
    ensures var now := Alone(slot, |AnswerProgram(bytes)|);
      && now == slot.(rec := now.rec, handler := Off)
      && now.rec.data[..|bytes|] == bytes && now.rec.data[|bytes|..] == slot.rec.data[|bytes|..]
      && now.rec == slot.rec.(flags := 0, length := |bytes|, state := ReadyForClient, data := now.rec.data)
  {
    var program, last := AnswerProgram(bytes), |AnswerProgram(bytes)| - 1;
    PostsAlone(slot, bytes, last);
    var s := Alone(slot, last);
    AnswerComplete(bytes, s.rec);
    assert program[0] == SetFlags(0) && Done(program[0], s.rec);
    assert program[last] == SetState(ReadyForClient);
    assert Alone(slot, last + 1) == SlotNext(s, None);
  }

  /** post_response, run to its end. */
  lemma PostResponds(slot: Slot, bytes: seq<Byte>) returns (n: nat)
    requires SlotShape(slot) && slot.handler == PostCheck(bytes)
    ensures Posted(slot, bytes, Alone(slot, n))
  {
    var next := SlotNext(slot, None);
    n := if slot.rec.cancelled || |bytes| > MAX_DATA then |RecycleProgram()| else |AnswerProgram(bytes)|;
    AloneFrom(slot, n);
    if slot.rec.cancelled || |bytes| > MAX_DATA {
      LastScrub(next);
    } else {
      LastPost(next, bytes);
    }
    n := n + 1;
  }
}
