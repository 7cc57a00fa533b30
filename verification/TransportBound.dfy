/** Runs that go wrong when a request or an answer is longer than a record's data: post_response frees the record
    on an oversized answer although its client still awaits it; SubmitRequest stores the full length of an
    oversized request but only the bytes that fit. */
module TransportBound {
  import opened Wrappers
  import opened Transport
  import opened TransportInvariant
  import opened TransportSafety

  const JOB: Job := Job(false, 7, [])
  const CALL: Call := Call(JOB, 0)

  /** Two clients, one slot. */
  function Scene(
      pc0: Pc, probes0: seq<nat>, pc1: Pc, probes1: seq<nat>, slot: Slot, worker: Worker, next: nat): System
  {
    System(true, HEADER_SIZE + RECORD_SIZE, [slot],
           [Client(Conv, 1, pc0, probes0, false, []), Client(Conv, 2, pc1, probes1, false, [])], worker, next)
  }

  function Start(): System {
    Scene(Idle, [], Idle, [], Slot(Scrubbed(), Vacant, CALL, Off, None), Resting, 0)
  }

  function Step(t: nat): Action {
    ClientStep(t, JOB, 0, false)
  }

  function Engine(reply: Option<seq<Byte>>): Action {
    HandlerStep(0, reply)
  }

  lemma FillIs(pid: nat)
    ensures FillProgram(pid, JOB) ==
      [SetOwner(pid), SetFlags(0), SetKind(7), SetLength(0), SetState(ReadyForEngine)]
  {
    assert CopyOps(JOB.data) == [];
  }

  // ------------------------------------------------------------------ chaining steps

  predicate Path(actions: seq<Action>, s: System, bounds: Bounds) {
    Shape(Start()) && LegalRun(Start(), actions, bounds) && Run(Start(), actions) == s
  }

  /** The start leads to s. */
  ghost predicate FromStart(s: System, bounds: Bounds) {
    exists actions :: Path(actions, s, bounds)
  }

  lemma {:induction false} RunThen(s: System, actions: seq<Action>, a: Action, bounds: Bounds)
    requires Shape(s) && LegalRun(s, actions, bounds) && Legal(Run(s, actions), a, bounds)
    ensures LegalRun(s, actions + [a], bounds) && Run(s, actions + [a]) == Next(Run(s, actions), a)
    decreases |actions|
  {
    if actions == [] {
      ShapeKept(s, a);
      assert actions + [a] == [a] && [a][1..] == [];
      assert Run(s, [a]) == Run(Next(s, a), []);
    } else {
      ShapeKept(s, actions[0]);
      RunThen(Next(s, actions[0]), actions[1..], a, bounds);
      assert (actions + [a])[1..] == actions[1..] + [a];
    }
  }

  lemma Begins(bounds: Bounds)
    ensures FromStart(Start(), bounds)
  {
    assert Path([], Start(), bounds);
  }

  /** One more step. */
  lemma Goes(s: System, a: Action, bounds: Bounds) returns (s': System)
    requires FromStart(s, bounds) && Legal(s, a, bounds)
    ensures Shape(s) && s' == Next(s, a) && FromStart(s', bounds)
  {
    var actions :| Path(actions, s, bounds);
    RunThen(Start(), actions, a, bounds);
    s' := Next(s, a);
    assert Path(actions + [a], s', bounds);
  }

  // ------------------------------------------------------------------ the oversized answer

  function PartlyFilled(j: nat): Record {
    var rec := Scrubbed().(taken := 1);
    var rec := if j > 0 then rec.(owner := 1) else rec;
    var rec := if j > 2 then rec.(kind := 7) else rec;
    if j > 4 then rec.(state := ReadyForEngine) else rec
  }

  function FillingScene(j: nat): System {
    Scene(Fill(CALL, 0, j), [HEADER_SIZE], Idle, [], Slot(PartlyFilled(j), Filling(0), CALL, Off, None), Resting, 1)
  }

  function WaitingScene(handler: Handler, worker: Worker, state: RecordState): System {
    Scene(Submitted(CALL, 0), [HEADER_SIZE], Idle, [],
          Slot(PartlyFilled(5).(state := state), Awaited(0), CALL, handler, None), worker, 1)
  }

  /** Client 0 takes the only slot. */
  lemma Takes(bounds: Bounds)
    ensures FromStart(FillingScene(0), bounds)
  {
    FillIs(1);
    Begins(bounds);
    var s1 := Goes(Start(), Step(0), bounds);
    assert s1.slots == Start().slots && s1.clients[0].pc == CheckReady(JOB);
    var s2 := Goes(s1, Step(0), bounds);
    assert s2.slots == Start().slots && s2.clients[0].pc == Scan(JOB, 0, HEADER_SIZE);
    var s3 := Goes(s2, Step(0), bounds);
    assert [] + [HEADER_SIZE] == [HEADER_SIZE];
    assert s3.slots[0] == FillingScene(0).slots[0] && s3.clients[0] == FillingScene(0).clients[0];
    assert s3 == FillingScene(0);
  }

  /** It publishes and waits. */
  lemma {:induction false} Fills(j: nat, bounds: Bounds)
    requires j <= 4
    ensures FromStart(FillingScene(j), bounds)
  {
    FillIs(1);
    if j == 0 {
      Takes(bounds);
    } else {
      Fills(j - 1, bounds);
      var s := Goes(FillingScene(j - 1), Step(0), bounds);
      assert s.slots[0] == FillingScene(j).slots[0] && s.clients[0] == FillingScene(j).clients[0];
      assert s == FillingScene(j);
    }
  }

  lemma Publishes(bounds: Bounds)
    ensures FromStart(WaitingScene(Off, Resting, ReadyForEngine), bounds)
  {
    FillIs(1);
    Fills(4, bounds);
    var s := Goes(FillingScene(4), Step(0), bounds);
    var s' := WaitingScene(Off, Resting, ReadyForEngine);
    assert s.slots[0] == s'.slots[0] && s.clients[0] == s'.clients[0];
    assert s == s';
  }

  /** The engine's worker claims the record. */
  lemma Claims(bounds: Bounds)
    ensures FromStart(WaitingScene(ReadKind, Resting, InProcessing), bounds)
  {
    Publishes(bounds);
    var s1 := Goes(WaitingScene(Off, Resting, ReadyForEngine), WorkerStep(0), bounds);
    var s2 := Goes(s1, WorkerStep(0), bounds);
    assert s2.slots[0] == WaitingScene(ReadKind, Resting, InProcessing).slots[0];
    assert s2 == WaitingScene(ReadKind, Resting, InProcessing);
  }

  function Reply(bound: nat): seq<Byte> {
    seq(bound, _ => 0)
  }

  function RejectedSlot(bound: nat, handler: Handler, use: Use): Slot {
    Slot(PartlyFilled(5).(state := InProcessing), use, CALL, handler, Some(Answer(0, 7, [], Reply(bound))))
  }

  function RejectedScene(bound: nat, handler: Handler, use: Use): System {
    Scene(Submitted(CALL, 0), [HEADER_SIZE], Idle, [], RejectedSlot(bound, handler, use), Resting, 1)
  }

  /** The handler reads the request. */
  lemma ReadsRequest(bounds: Bounds)
    ensures FromStart(WaitingScene(Decide(7, []), Resting, InProcessing), bounds)
  {
    Claims(bounds);
    var s1 := Goes(WaitingScene(ReadKind, Resting, InProcessing), Engine(None), bounds);
    assert s1.slots[0] == WaitingScene(ReadSize(7), Resting, InProcessing).slots[0];
    var s2 := Goes(s1, Engine(None), bounds);
    assert s2.slots[0] == WaitingScene(ReadBytes(7, 0, []), Resting, InProcessing).slots[0];
    var s3 := Goes(s2, Engine(None), bounds);
    assert s3.slots[0] == WaitingScene(Decide(7, []), Resting, InProcessing).slots[0];
    assert s3 == WaitingScene(Decide(7, []), Resting, InProcessing);
  }

  /** It decides on an oversized answer, and starts to free the record. */
  lemma Answers(bounds: Bounds)
    requires bounds.answer > MAX_DATA
    ensures FromStart(RejectedScene(bounds.answer, Scrub(0), Scrubbing), bounds)
  {
    ReadsRequest(bounds);
    var s0 := WaitingScene(Decide(7, []), Resting, InProcessing);
    var s1 := Goes(s0, Engine(Some(Reply(bounds.answer))), bounds);
    assert s1.slots[0] == RejectedSlot(bounds.answer, PostCheck(Reply(bounds.answer)), Awaited(0));
    var s2 := Goes(s1, Engine(None), bounds);
    assert s2.slots[0] == RejectedSlot(bounds.answer, Scrub(0), Scrubbing);
    assert s2 == RejectedScene(bounds.answer, Scrub(0), Scrubbing);
  }

  /** A scene in which client 0 still waits and the handler is at store j of freeing its record. */
  ghost predicate Freeing(s: System, j: nat) {
    && |s.slots| == 1 && |s.clients| == 2 && s.ready && s.length == HEADER_SIZE + RECORD_SIZE
    && s.clients[0].pc == Submitted(CALL, 0) && s.clients[1] == Client(Conv, 2, Idle, [], false, [])
    && s.worker == Resting
    && s.slots[0].handler == (if j < |RecycleProgram()| then Scrub(j) else Off)
    && (j == |RecycleProgram()| ==> s.slots[0].rec.taken == 0)
    && |s.slots[0].rec.data| == MAX_DATA
  }

  lemma {:induction false} Frees(bounds: Bounds, j: nat) returns (s: System)
    requires bounds.answer > MAX_DATA && j <= |RecycleProgram()|
    ensures FromStart(s, bounds) && Freeing(s, j)
  {
    if j == 0 {
      Answers(bounds);
      s := RejectedScene(bounds.answer, Scrub(0), Scrubbing);
    } else {
      var s0 := Frees(bounds, j - 1);
      s := Goes(s0, Engine(None), bounds);
    }
  }

  /** Then client 1 takes the record client 0 is still waiting on. */
  lemma TakenTwice(bounds: Bounds) returns (s: System)
    requires bounds.answer > MAX_DATA
    ensures FromStart(s, bounds) && !Exclusive(s)
  {
    var s0 := Frees(bounds, |RecycleProgram()|);
    var s1 := Goes(s0, Step(1), bounds);
    assert s1.clients[1].pc == CheckReady(JOB) && s1.clients[0] == s0.clients[0] && s1.slots == s0.slots;
    var s2 := Goes(s1, Step(1), bounds);
    assert s2.clients[1].pc == Scan(JOB, 0, HEADER_SIZE) && s2.clients[0] == s0.clients[0];
    s := Goes(s2, Step(1), bounds);
    assert Held(s.clients[1].pc) == Some(0) && Held(s.clients[0].pc) == Some(0);
  }

  // ------------------------------------------------------------------ the overlong request

  /** A request one byte longer than a record's data. */
  function Overlong(): Job {
    Job(false, 7, Reply(MAX_DATA + 1))
  }

  function OverlongProgram(): seq<Op> {
    FillProgram(1, Overlong())
  }

  lemma OverlongIs()
    ensures var program := OverlongProgram();
      && |program| == MAX_DATA + 5 && Distinct(program)
      && program[3] == SetLength(MAX_DATA + 1) && program[MAX_DATA + 4] == SetState(ReadyForEngine)
  {
    FillDistinct(1, Overlong());
  }

  function OverlongStep(): Action {
    ClientStep(0, Overlong(), 0, false)
  }

  /** Client 0 has made the first j stores of submitting the overlong request. */
  predicate Overfilling(s: System, j: nat) {
    var call := Call(Overlong(), 0);
    && |s.slots| == 1 && |s.clients| == 2 && s.clients[0].pid == 1
    && s.clients[0].pc == (if j < |OverlongProgram()| then Fill(call, 0, j) else Submitted(call, 0))
    && s.slots[0].call == call && DoneUpTo(OverlongProgram(), j, s.slots[0].rec)
  }

  lemma {:induction false} Overfills(bounds: Bounds, j: nat) returns (s: System)
    requires bounds.job > MAX_DATA && j <= |OverlongProgram()|
    ensures FromStart(s, bounds) && Overfilling(s, j)
  {
    if j == 0 {
      Begins(bounds);
      var s1 := Goes(Start(), OverlongStep(), bounds);
      assert s1.clients[0].pc == CheckReady(Overlong()) && s1.slots == Start().slots;
      var s2 := Goes(s1, OverlongStep(), bounds);
      assert s2.clients[0].pc == Scan(Overlong(), 0, HEADER_SIZE) && s2.slots == Start().slots;
      s := Goes(s2, OverlongStep(), bounds);
    } else {
      var s0 := Overfills(bounds, j - 1);
      s := Goes(s0, OverlongStep(), bounds);
      OverfillsOne(s0, j - 1);
    }
  }

  lemma OverfillsOne(s: System, j: nat)
    requires Shape(s) && j < |OverlongProgram()| && Overfilling(s, j)
    ensures Overfilling(Next(s, OverlongStep()), j + 1)
  {
    OverlongIs();
    StoreKeepsDone(OverlongProgram(), j, s.slots[0].rec);
  }

  /** Then the engine may claim a record whose length is not that of the bytes in it. */
  lemma PublishedCut(bounds: Bounds) returns (s: System)
    requires bounds.job > MAX_DATA
    ensures FromStart(s, bounds) && Shape(s) && !RequestsWhole(s)
    ensures s.slots[0].rec.state == ReadyForEngine && s.slots[0].rec.length > |s.slots[0].rec.data|
  {
    s := Overfills(bounds, |OverlongProgram()|);
    var actions :| Path(actions, s, bounds);
    var program := OverlongProgram();
    OverlongIs();
    assert Done(program[3], s.slots[0].rec) && Done(program[MAX_DATA + 4], s.slots[0].rec);
    assert SlotShape(s.slots[0]);
  }
}
