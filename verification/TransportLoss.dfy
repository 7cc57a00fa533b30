/** A published request can be recycled before the engine claims it: recycle_cancel_request looks at record_state
    and at record_cancelled one after the other, and between the two looks the record can change hands. */
module TransportLoss {
  import opened Wrappers
  import opened Transport
  import opened TransportInvariant
  import opened TransportSafety
  import opened TransportBound

  /** The record in slot r is published and not being recycled. */
  predicate Pending(s: System, r: nat) {
    r < |s.slots| && s.slots[r].rec.state == ReadyForEngine && s.slots[r].use != Scrubbing
  }

  /** The worker is scrubbing slot r. */
  predicate BeingScrubbed(s: System, r: nat) {
    r < |s.slots| && s.slots[r].use == Scrubbing && s.worker.Recycling? && s.worker.r == r
  }

  /** The worker has seen an answered or rejected record in slot r and now looks at record_cancelled. */
  predicate SecondLook(s: System, a: Action, r: nat) {
    a.WorkerStep? && a.r < |s.slots| && s.worker == CheckingCancel(r)
  }

  // ------------------------------------------------------------------ the exact condition

  /** A pending request is dropped in a step exactly if the step is the worker's second look at its record and
      the request has been cancelled: a notification, or a request its client gave up. */
  lemma DroppedIff(s: System, a: Action, bounds: Bounds, r: nat)
    requires Inv(s) && Legal(s, a, bounds) && Pending(s, r)
    ensures |Next(s, a).slots| == |s.slots|
    ensures Next(s, a).slots[r].use == Scrubbing <==> SecondLook(s, a, r) && s.slots[r].rec.cancelled
    ensures Next(s, a).slots[r].use == Scrubbing ==>
      BeingScrubbed(Next(s, a), r) && Carries(s.slots[r]) && Next(s, a).slots[r].rec == s.slots[r].rec
  {
    assert SlotOk(s.slots[r]) && OwnerOk(s, r);
    match a
    case ClientStep(t, job, buffer, expired) => ClientScrubsNothing(s, t, job, buffer, expired, r);
    case WorkerStep(q) =>
    case HandlerStep(q, reply) =>
    case Toggle(_) =>
  }

  lemma ClientScrubsNothing(s: System, t: nat, job: Job, buffer: nat, expired: bool, r: nat)
    requires Inv(s) && t < |s.clients| && r < |s.slots| && s.slots[r].use != Scrubbing
    ensures |ClientNext(s, t, job, buffer, expired).slots| == |s.slots|
    ensures ClientNext(s, t, job, buffer, expired).slots[r].use != Scrubbing
  {
    ClientTouchesOne(s, t, job, buffer, expired);
    ClientMovesUse(s, t, job, buffer, expired);
  }

  /** Over every run: a pending request is dropped exactly by a second look at a request nobody awaits any more. A
      request whose client still waits for the answer, or abandoned on a timeout, is never dropped. */
  lemma OnlyDisownedDropped(s: System, actions: seq<Action>, a: Action, bounds: Bounds, r: nat)
    requires Initial(s) && LegalRun(s, actions, bounds) && bounds.Fit()
    requires Legal(Run(s, actions), a, bounds) && Pending(Run(s, actions), r)
    ensures |Next(Run(s, actions), a).slots| == |Run(s, actions).slots|
    ensures Next(Run(s, actions), a).slots[r].use == Scrubbing
      <==> SecondLook(Run(s, actions), a, r) && Run(s, actions).slots[r].use == Disowned
  {
    InitialInv(s);
    RunInv(s, actions, bounds);
    DroppedIff(Run(s, actions), a, bounds, r);
    assert SlotOk(Run(s, actions).slots[r]);
  }

  /** Once dropped, the request stays with the worker for one more step, or its record is scrubbed. */
  lemma DroppedStep(s: System, a: Action, bounds: Bounds, r: nat)
    requires Inv(s) && Legal(s, a, bounds) && bounds.Fit() && BeingScrubbed(s, r)
    ensures Inv(Next(s, a)) && r < |Next(s, a).slots| && Next(s, a).slots[r].handler == Off
    ensures BeingScrubbed(Next(s, a), r) || Next(s, a).slots[r].rec == Scrubbed()
  {
    StepInv(s, a, bounds);
    assert SlotOk(s.slots[r]) && OwnerOk(s, r) && WorkerOk(s.worker, s.slots);
    match a
    case ClientStep(t, job, buffer, expired) =>
      ClientTouchesOne(s, t, job, buffer, expired);
      assert ClientOk(s.clients[t], t, s.slots, s.length);
    case WorkerStep(q) =>
      if s.worker.j + 1 == |RecycleProgram()| {
        RecycleComplete(s.slots[r].rec);
      }
    case HandlerStep(q, reply) =>
    case Toggle(_) =>
  }

  /** Until the record is scrubbed the worker keeps at it, and no handler serves it. */
  predicate ScrubbedFirst(s: System, actions: seq<Action>, r: nat)
    requires Shape(s)
    decreases |actions|
  {
    && r < |s.slots|
    && (s.slots[r].rec == Scrubbed()
        || (BeingScrubbed(s, r) && s.slots[r].handler == Off
            && (actions == [] || (ShapeKept(s, actions[0]); ScrubbedFirst(Next(s, actions[0]), actions[1..], r)))))
  }

  /** Over every run from a dropped request: every state up to the first in which its record is scrubbed has the
      worker scrubbing it and no handler, so no engine ever reads it. */
  lemma {:induction false} DroppedForGood(s: System, actions: seq<Action>, bounds: Bounds, r: nat)
    requires Inv(s) && LegalRun(s, actions, bounds) && bounds.Fit() && BeingScrubbed(s, r)
    ensures ScrubbedFirst(s, actions, r)
    decreases |actions|
  {
    assert SlotOk(s.slots[r]) && WorkerOk(s.worker, s.slots);
    if actions != [] {
      DroppedStep(s, actions[0], bounds, r);
      if BeingScrubbed(Next(s, actions[0]), r) {
        DroppedForGood(Next(s, actions[0]), actions[1..], bounds, r);
      }
    }
  }

  // ------------------------------------------------------------------ a run that drops a request

  const NOTE: Job := Job(true, 7, [])
  const NO_BYTES: Bounds := Bounds(0, 0)

  function NoteStep(t: nat): Action {
    ClientStep(t, NOTE, 0, false)
  }

  lemma ReachedInv(s: System)
    requires FromStart(s, NO_BYTES)
    ensures Inv(s)
  {
    InitialInv(Start());
    var actions :| Path(actions, s, NO_BYTES);
    RunInv(Start(), actions, NO_BYTES);
  }

  function AnsweredScene(handler: Handler, state: RecordState): System {
    Scene(Submitted(CALL, 0), [HEADER_SIZE], Idle, [],
          Slot(PartlyFilled(5).(state := state), Awaited(0), CALL, handler, Some(Answer(0, 7, [], []))), Resting, 1)
  }

  lemma AnswerIs()
    ensures AnswerProgram([]) == [SetFlags(0), SetLength(0), SetState(ReadyForClient)]
  {
    assert CopyOps([]) == [];
  }

  /** The engine decides to answer client 0's request with nothing, and makes the first j stores of the answer. */
  lemma {:induction false} Posts(j: nat)
    requires j <= 2
    ensures FromStart(AnsweredScene(Post([], j), InProcessing), NO_BYTES)
  {
    AnswerIs();
    if j == 0 {
      ReadsRequest(NO_BYTES);
      var s0 := Goes(WaitingScene(Decide(7, []), Resting, InProcessing), Engine(Some([])), NO_BYTES);
      assert s0.slots[0] == AnsweredScene(PostCheck([]), InProcessing).slots[0];
      var s := Goes(s0, Engine(None), NO_BYTES);
      assert s.slots[0] == AnsweredScene(Post([], 0), InProcessing).slots[0];
      assert s == AnsweredScene(Post([], 0), InProcessing);
    } else {
      Posts(j - 1);
      PostsOne(j - 1);
    }
  }

  lemma PostsOne(j: nat)
    requires j < 2 && FromStart(AnsweredScene(Post([], j), InProcessing), NO_BYTES)
    ensures FromStart(AnsweredScene(Post([], j + 1), InProcessing), NO_BYTES)
  {
    AnswerIs();
    var s := Goes(AnsweredScene(Post([], j), InProcessing), Engine(None), NO_BYTES);
    assert s.slots[0] == AnsweredScene(Post([], j + 1), InProcessing).slots[0];
    assert s == AnsweredScene(Post([], j + 1), InProcessing);
  }

  lemma Answered0()
    ensures FromStart(AnsweredScene(Off, ReadyForClient), NO_BYTES)
  {
    AnswerIs();
    Posts(2);
    var s := Goes(AnsweredScene(Post([], 2), InProcessing), Engine(None), NO_BYTES);
    assert s.slots[0] == AnsweredScene(Off, ReadyForClient).slots[0];
    assert s == AnsweredScene(Off, ReadyForClient);
  }

  function LookScene(pc: Pc, use: Use): System {
    Scene(pc, [HEADER_SIZE], Idle, [],
          Slot(PartlyFilled(5).(state := ReadyForClient), use, CALL, Off, Some(Answer(0, 7, [], []))),
          CheckingCancel(0), 1)
  }

  const NOTHING: Receipt := Receipt(CALL, Some(Answer(0, 7, [], [])), 0, [], 0)

  /** The worker takes its first look, and client 0 polls. */
  lemma FirstLook()
    ensures FromStart(LookScene(Poll(CALL, 0, 0), Awaited(0)), NO_BYTES)
  {
    Answered0();
    var s0 := AnsweredScene(Off, ReadyForClient);
    var s1 := Goes(s0, WorkerStep(0), NO_BYTES);
    assert s1 == LookScene(Submitted(CALL, 0), Awaited(0));
    var s2 := Goes(s1, Step(0), NO_BYTES);
    assert s2 == LookScene(Poll(CALL, 0, 0), Awaited(0));
  }

  /** It finds the answer. */
  lemma Found()
    ensures FromStart(LookScene(ReadLength(CALL, 0, 0), Draining(0)), NO_BYTES)
  {
    FirstLook();
    var s1 := Goes(LookScene(Poll(CALL, 0, 0), Awaited(0)), Step(0), NO_BYTES);
    assert s1 == LookScene(Recheck(CALL, 0, 0, false), Awaited(0));
    var s2 := Goes(s1, Step(0), NO_BYTES);
    assert s2.slots[0] == LookScene(ReadLength(CALL, 0, 0), Draining(0)).slots[0];
    assert s2 == LookScene(ReadLength(CALL, 0, 0), Draining(0));
  }

  /** It copies the answer, which is empty, and starts to release the record. */
  lemma Drained()
    ensures FromStart(LookScene(Release(CALL, 0, 0, NOTHING), Draining(0)), NO_BYTES)
  {
    Found();
    var s1 := Goes(LookScene(ReadLength(CALL, 0, 0), Draining(0)), Step(0), NO_BYTES);
    assert s1 == LookScene(CopyOut(CALL, 0, 0, 0, []), Draining(0));
    var s2 := Goes(s1, Step(0), NO_BYTES);
    assert s2 == LookScene(ReadLengthAgain(CALL, 0, 0, []), Draining(0));
    var s3 := Goes(s2, Step(0), NO_BYTES);
    assert s3 == LookScene(Release(CALL, 0, 0, NOTHING), Draining(0));
  }

  /** Client 0 has made the first j stores of the release. */
  predicate Releasing(s: System, j: nat) {
    var t := LookScene(Release(CALL, 0, j, NOTHING), Draining(0));
    |s.slots| == 1 && s == t.(slots := [t.slots[0].(rec := s.slots[0].rec)])
  }

  lemma {:induction false} Releases(j: nat) returns (s: System)
    requires j < |FreeProgram()|
    ensures FromStart(s, NO_BYTES) && Releasing(s, j)
  {
    if j == 0 {
      Drained();
      s := LookScene(Release(CALL, 0, 0, NOTHING), Draining(0));
      assert s.slots == [s.slots[0].(rec := s.slots[0].rec)];
    } else {
      var s0 := Releases(j - 1);
      s := Goes(s0, Step(0), NO_BYTES);
      var t := LookScene(Release(CALL, 0, j, NOTHING), Draining(0));
      assert s.clients == t.clients && s.slots == [t.slots[0].(rec := s.slots[0].rec)];
    }
  }

  /** The slot is free again; client 1 is at pc. */
  function FreedScene(pc: Pc, probes: seq<nat>, slot: Slot, next: nat): System {
    System(true, HEADER_SIZE + RECORD_SIZE, [slot],
           [Client(Conv, 1, Idle, [HEADER_SIZE], false, [Outcome(CALL, true, Some(NOTHING))]),
            Client(Conv, 2, pc, probes, false, [])],
           CheckingCancel(0), next)
  }

  const FREED: Slot := Slot(Scrubbed(), Vacant, CALL, Off, Some(Answer(0, 7, [], [])))

  lemma Released()
    ensures FromStart(FreedScene(Idle, [], FREED, 1), NO_BYTES)
  {
    var s0 := Releases(|FreeProgram()| - 1);
    ReachedInv(s0);
    assert SlotOk(s0.slots[0]) && ClientOk(s0.clients[0], 0, s0.slots, s0.length);
    FreeComplete(s0.slots[0].rec);
    var s := Goes(s0, Step(0), NO_BYTES);
    assert [] + [Outcome(CALL, true, Some(NOTHING))] == [Outcome(CALL, true, Some(NOTHING))];
    assert s.slots == [FREED] && s.clients == FreedScene(Idle, [], FREED, 1).clients;
  }

  const NOTE_CALL: Call := Call(NOTE, 1)

  /** Client 1 has taken the slot and made the first j stores of its notification. */
  function RefilledSlot(j: nat): Slot {
    var rec := PartlyFilled(j).(taken := 2, owner := if j > 0 then 2 else SYSTEM_PID);
    Slot(rec, Filling(1), NOTE_CALL, Off, None)
  }

  function RefillScene(j: nat): System {
    FreedScene(Fill(NOTE_CALL, 0, j), [HEADER_SIZE], RefilledSlot(j), 2)
  }

  lemma Retaken()
    ensures FromStart(RefillScene(0), NO_BYTES)
  {
    NoteIs();
    Released();
    var s1 := Goes(FreedScene(Idle, [], FREED, 1), NoteStep(1), NO_BYTES);
    assert s1 == FreedScene(CheckReady(NOTE), [], FREED, 1);
    var s2 := Goes(s1, NoteStep(1), NO_BYTES);
    assert s2 == FreedScene(Scan(NOTE, 0, HEADER_SIZE), [], FREED, 1);
    var s3 := Goes(s2, NoteStep(1), NO_BYTES);
    assert [] + [HEADER_SIZE] == [HEADER_SIZE];
    assert s3.slots == [RefilledSlot(0)] && s3.clients == RefillScene(0).clients;
  }

  lemma {:induction false} Refills(j: nat)
    requires j <= 4
    ensures FromStart(RefillScene(j), NO_BYTES)
  {
    NoteIs();
    if j == 0 {
      Retaken();
    } else {
      Refills(j - 1);
      var s := Goes(RefillScene(j - 1), NoteStep(1), NO_BYTES);
      assert s.slots == [RefilledSlot(j)] && s.clients == RefillScene(j).clients;
    }
  }

  lemma NoteIs()
    ensures FillProgram(2, NOTE) == [SetOwner(2), SetFlags(0), SetKind(7), SetLength(0), SetState(ReadyForEngine)]
  {
    assert CopyOps(NOTE.data) == [];
  }

  function PublishedScene(pc: Pc, use: Use, cancelled: bool): System {
    FreedScene(pc, [HEADER_SIZE], RefilledSlot(5).(rec := RefilledSlot(5).rec.(cancelled := cancelled), use := use), 2)
  }

  lemma Cancelled()
    ensures FromStart(PublishedScene(Idle, Disowned, true), NO_BYTES)
  {
    NoteIs();
    Refills(4);
    var s1 := Goes(RefillScene(4), NoteStep(1), NO_BYTES);
    assert s1.slots == PublishedScene(PutCancel(NOTE_CALL, 0), Awaited(1), false).slots;
    assert s1.clients == PublishedScene(PutCancel(NOTE_CALL, 0), Awaited(1), false).clients;
    var s2 := Goes(s1, NoteStep(1), NO_BYTES);
    assert s2.slots == PublishedScene(Idle, Disowned, true).slots;
    assert s2.clients == PublishedScene(Idle, Disowned, true).clients;
  }

  /** A run after which a whole, published notification is about to be scrubbed unserved: the worker sees client
      0's answered record, client 0 releases it, client 1 publishes a notification there, and the worker's second
      look finds it cancelled. */
  lemma RequestLost() returns (before: System, after: System)
    ensures FromStart(before, NO_BYTES) && Pending(before, 0) && Carries(before.slots[0])
    ensures after == Next(before, WorkerStep(0)) && FromStart(after, NO_BYTES) && BeingScrubbed(after, 0)
  {
    Cancelled();
    before := PublishedScene(Idle, Disowned, true);
    after := Goes(before, WorkerStep(0), NO_BYTES);
    assert before.slots[0].rec.data[..0] == [];
  }
}
