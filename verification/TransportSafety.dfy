/** What the request transport guarantees over whole runs, and the two bounds it depends on. */
module TransportSafety {
  import opened Wrappers
  import opened Transport
  import opened TransportInvariant
  import opened TransportTickets

  // ------------------------------------------------------------------ runs

  /** The slot a client step may write: the one it holds, or the one it is trying to take. */
  function Touched(s: System, t: nat): nat
    requires Shape(s) && t < |s.clients|
  {
    var pc := s.clients[t].pc;
    if pc.Idle? || pc.CheckReady? then 0 else if pc.Scan? then IndexOf(pc.offset) else pc.r
  }

  /** A client step changes its own thread and at most the touched slot. */
  predicate OneClientStep(s: System, s': System, t: nat)
    requires Shape(s) && t < |s.clients|
  {
    var r := Touched(s, t);
    && s'.length == s.length && s'.worker == s.worker && |s'.clients| == |s.clients| && |s'.slots| == |s.slots|
    && s'.clients == s.clients[t := s'.clients[t]] && PcShape(s'.clients[t], |s.slots|)
    && r < |s.slots| && s'.slots == s.slots[r := s'.slots[r]] && SlotShape(s'.slots[r])
    && (Held(s.clients[t].pc) == None && s.slots[r].rec.taken != 0 ==> s'.slots[r] == s.slots[r])
  }

  lemma StartTouchesOne(s: System, t: nat, job: Job, buffer: nat, expired: bool)
    requires Shape(s) && t < |s.clients| && Held(s.clients[t].pc) == None
    ensures OneClientStep(s, ClientNext(s, t, job, buffer, expired), t)
  {
    assert SlotShape(s.slots[Touched(s, t)]);
    assert s.slots == s.slots[Touched(s, t) := s.slots[Touched(s, t)]];
  }

  lemma FillTouchesOne(s: System, t: nat, job: Job, buffer: nat, expired: bool)
    requires Shape(s) && t < |s.clients| && s.clients[t].pc.Fill?
    ensures OneClientStep(s, ClientNext(s, t, job, buffer, expired), t)
  {
    assert SlotShape(s.slots[Touched(s, t)]);
  }

  lemma ReleaseTouchesOne(s: System, t: nat, job: Job, buffer: nat, expired: bool)
    requires Shape(s) && t < |s.clients| && s.clients[t].pc.Release?
    ensures OneClientStep(s, ClientNext(s, t, job, buffer, expired), t)
  {
    assert SlotShape(s.slots[Touched(s, t)]);
  }

  lemma CancelTouchesOne(s: System, t: nat, job: Job, buffer: nat, expired: bool)
    requires Shape(s) && t < |s.clients| && (s.clients[t].pc.PutCancel? || s.clients[t].pc.LateCancel?)
    ensures OneClientStep(s, ClientNext(s, t, job, buffer, expired), t)
  {
    assert SlotShape(s.slots[Touched(s, t)]);
  }

  lemma WaitTouchesOne(s: System, t: nat, job: Job, buffer: nat, expired: bool)
    requires Shape(s) && t < |s.clients|
    requires var pc := s.clients[t].pc; pc.Submitted? || pc.Poll? || pc.Slept? || pc.Recheck?
    ensures OneClientStep(s, ClientNext(s, t, job, buffer, expired), t)
  {
    assert SlotShape(s.slots[Touched(s, t)]);
    assert s.slots == s.slots[Touched(s, t) := s.slots[Touched(s, t)]];
  }

  predicate CopiesOut(pc: Pc) {
    pc.ReadLength? || pc.CopyOut? || pc.ReadLengthAgain?
  }

  lemma CopyTouchesOne(s: System, t: nat, job: Job, buffer: nat, expired: bool)
    requires Shape(s) && t < |s.clients| && CopiesOut(s.clients[t].pc)
    ensures OneClientStep(s, ClientNext(s, t, job, buffer, expired), t)
  {
    assert SlotShape(s.slots[Touched(s, t)]);
    assert s.slots == s.slots[Touched(s, t) := s.slots[Touched(s, t)]];
  }

  lemma ClientTouchesOne(s: System, t: nat, job: Job, buffer: nat, expired: bool)
    requires Shape(s) && t < |s.clients|
    ensures OneClientStep(s, ClientNext(s, t, job, buffer, expired), t)
  {
    if Held(s.clients[t].pc) == None {
      StartTouchesOne(s, t, job, buffer, expired);
    } else if s.clients[t].pc.Fill? {
      FillTouchesOne(s, t, job, buffer, expired);
    } else if s.clients[t].pc.Release? {
      ReleaseTouchesOne(s, t, job, buffer, expired);
    } else if s.clients[t].pc.PutCancel? || s.clients[t].pc.LateCancel? {
      CancelTouchesOne(s, t, job, buffer, expired);
    } else if CopiesOut(s.clients[t].pc) {
      CopyTouchesOne(s, t, job, buffer, expired);
    } else {
      WaitTouchesOne(s, t, job, buffer, expired);
    }
  }

  /** A CCoreObject thread leaves its wait loop on a timeout. */
  predicate TimesOut(s: System, t: nat, expired: bool)
    requires t < |s.clients|
  {
    s.clients[t].pc.Slept? && s.clients[t].kind == Conv && (expired || !s.ready)
  }

  /** What a client step may start to use its slot for. */
  predicate UseMoves(s: System, s': System, t: nat, expired: bool)
    requires Shape(s) && t < |s.clients|
  {
    var r := Touched(s, t);
    && r < |s.slots| == |s'.slots|
    && (s'.slots[r].use in {s.slots[r].use, Filling(t), Awaited(t), Draining(t), Disowned, Vacant}
        || (s'.slots[r].use == Abandoned && TimesOut(s, t, expired)))
  }

  lemma HolderMovesUse(s: System, t: nat, job: Job, buffer: nat, expired: bool)
    requires Shape(s) && t < |s.clients|
    requires var pc := s.clients[t].pc; pc.Fill? || pc.Release? || pc.PutCancel? || pc.LateCancel?
    ensures UseMoves(s, ClientNext(s, t, job, buffer, expired), t, expired)
  {
  }

  lemma ReaderMovesUse(s: System, t: nat, job: Job, buffer: nat, expired: bool)
    requires Shape(s) && t < |s.clients|
    requires var pc := s.clients[t].pc; !pc.Fill? && !pc.Release? && !pc.PutCancel? && !pc.LateCancel?
    ensures UseMoves(s, ClientNext(s, t, job, buffer, expired), t, expired)
  {
  }

  lemma ClientMovesUse(s: System, t: nat, job: Job, buffer: nat, expired: bool)
    requires Shape(s) && t < |s.clients|
    ensures UseMoves(s, ClientNext(s, t, job, buffer, expired), t, expired)
  {
    var pc := s.clients[t].pc;
    if pc.Fill? || pc.Release? || pc.PutCancel? || pc.LateCancel? {
      HolderMovesUse(s, t, job, buffer, expired);
    } else {
      ReaderMovesUse(s, t, job, buffer, expired);
    }
  }

  /** No step, legal or not, leaves the section or a program: every later step is defined. */
  lemma ShapeKept(s: System, a: Action)
    requires Shape(s)
    ensures Shape(Next(s, a))
  {
    match a
    case ClientStep(t, job, buffer, expired) =>
      if t < |s.clients| {
        ClientTouchesOne(s, t, job, buffer, expired);
      }
    case WorkerStep(r) =>
      if r < |s.slots| {
        WorkerShape(s, r);
      }
    case HandlerStep(r, reply) =>
      if r < |s.slots| {
        HandlerShape(s, r, reply);
      }
    case Toggle(_) =>
  }

  lemma WorkerShape(s: System, r: nat)
    requires Shape(s) && r < |s.slots|
    ensures Shape(WorkerNext(s, r))
  {
  }

  lemma HandlerShape(s: System, r: nat, reply: Option<seq<Byte>>)
    requires Shape(s) && r < |s.slots|
    ensures Shape(HandlerNext(s, r, reply))
  {
    assert SlotShape(s.slots[r]);
  }

  function Run(s: System, actions: seq<Action>): (s': System)
    requires Shape(s)
    ensures Shape(s')
    decreases |actions|
  {
    if actions == [] then s else ShapeKept(s, actions[0]); Run(Next(s, actions[0]), actions[1..])
  }

  predicate LegalRun(s: System, actions: seq<Action>, bounds: Bounds)
    requires Shape(s)
    decreases |actions|
  {
    actions == []
    || (ShapeKept(s, actions[0]);
        Legal(s, actions[0], bounds) && LegalRun(Next(s, actions[0]), actions[1..], bounds))
  }

  lemma {:induction false} RunInv(s: System, actions: seq<Action>, bounds: Bounds)
    requires Inv(s) && LegalRun(s, actions, bounds) && bounds.Fit()
    ensures Inv(Run(s, actions))
    decreases |actions|
  {
    if actions != [] {
      StepInv(s, actions[0], bounds);
      RunInv(Next(s, actions[0]), actions[1..], bounds);
    }
  }

  lemma {:induction false} RunTickets(s: System, actions: seq<Action>)
    requires Shape(s) && TicketsDistinct(s)
    ensures TicketsDistinct(Run(s, actions))
    decreases |actions|
  {
    if actions != [] {
      ShapeKept(s, actions[0]);
      StepTickets(s, actions[0]);
      RunTickets(Next(s, actions[0]), actions[1..]);
    }
  }

  // ------------------------------------------------------------------ what is safe

  /** No slot is held by two threads between a winning compare-and-swap and the release. */
  predicate Exclusive(s: System) {
    forall t, u | 0 <= t < |s.clients| && 0 <= u < |s.clients| && Held(s.clients[t].pc).Some? ::
      Held(s.clients[t].pc) == Held(s.clients[u].pc) ==> t == u
  }

  /** A record nobody has taken is scrubbed, and a record somebody holds is taken. */
  predicate FreeIsScrubbed(s: System)
    requires Shape(s)
  {
    && (forall r :: 0 <= r < |s.slots| && s.slots[r].rec.taken == 0 ==> Clean(s.slots[r].rec))
    && (forall t :: 0 <= t < |s.clients| && Held(s.clients[t].pc).Some? ==>
          s.slots[s.clients[t].pc.r].rec.taken != 0)
  }

  /** A record the engine may claim holds one submission's request in full, and if the submitting
      thread still holds the record it is that thread's request. */
  predicate RequestsWhole(s: System)
    requires Shape(s)
  {
    && (forall r :: 0 <= r < |s.slots| && s.slots[r].rec.state == ReadyForEngine ==> Carries(s.slots[r]))
    && (forall t :: 0 <= t < |s.clients| && Held(s.clients[t].pc).Some? ==>
          s.slots[s.clients[t].pc.r].call == s.clients[t].pc.call)
  }

  /** Every answer a thread has copied out was given to that thread's own submission, and TRUE or FALSE tells a
      thread whether it has one, except that a CCoreObject thread is always told TRUE. */
  predicate AnswersOwn(s: System) {
    && (forall t, i :: 0 <= t < |s.clients| && 0 <= i < |s.clients[t].outcomes| ==>
          OutcomeOk(s.clients[t].outcomes[i], s.clients[t].kind))
    && forall t :: 0 <= t < |s.clients| && s.clients[t].pc.Release? ==> ReceiptOk(s.clients[t].pc.receipt)
  }

  /** A CCoreObject thread never reaches the branch behind its wait loop that finds the record not ready. */
  predicate NotReadyUnreachable(s: System)
    requires Shape(s)
  {
    forall t :: 0 <= t < |s.clients| && s.clients[t].kind == Conv ==>
      && !s.clients[t].pc.LateCancel?
      && (s.clients[t].pc.Recheck? ==> s.slots[s.clients[t].pc.r].rec.state == ReadyForClient)
  }

  /** The taken records are exactly those a thread holds, those abandoned by a timeout, those handed
      to the engine by a cancel (record_cancelled is set), and those the engine is recycling. */
  ghost predicate Accounted(s: System)
    requires Shape(s)
  {
    forall r :: 0 <= r < |s.slots| ==>
      (s.slots[r].rec.taken != 0 <==>
        || (exists t: nat :: HeldBy(s, t, r))
        || s.slots[r].use == Abandoned
        || (s.slots[r].use == Disowned && s.slots[r].rec.cancelled)
        || (s.slots[r].use == Scrubbing
            && (s.slots[r].handler.Scrub? || (s.worker.Recycling? && s.worker.r == r))))
  }

  /** AllocRecord has returned NULL only after reading ready == 0 or after PASSES full passes. */
  predicate GivesUpLate(s: System) {
    forall t :: 0 <= t < |s.clients| && s.clients[t].refused ==>
      s.clients[t].probes == [] || s.clients[t].probes == Rounds(s.length, PASSES)
  }

  ghost predicate Safe(s: System)
    requires Shape(s)
  {
    && Exclusive(s) && FreeIsScrubbed(s) && RequestsWhole(s) && AnswersOwn(s)
    && NotReadyUnreachable(s) && Accounted(s) && GivesUpLate(s) && TicketsDistinct(s)
  }

  lemma InvExclusive(s: System)
    requires Inv(s)
    ensures Exclusive(s) && FreeIsScrubbed(s) && RequestsWhole(s)
  {
    forall t | 0 <= t < |s.clients| && Held(s.clients[t].pc).Some?
      ensures s.slots[s.clients[t].pc.r].use == UseOf(s.clients[t].pc, t)
      ensures s.slots[s.clients[t].pc.r].rec.taken != 0
      ensures s.slots[s.clients[t].pc.r].call == s.clients[t].pc.call
    {
      assert ClientOk(s.clients[t], t, s.slots, s.length);
      assert SlotOk(s.slots[s.clients[t].pc.r]);
    }
    forall r | 0 <= r < |s.slots|
      ensures s.slots[r].rec.taken == 0 ==> Clean(s.slots[r].rec)
      ensures s.slots[r].rec.state == ReadyForEngine ==> Carries(s.slots[r])
    {
      assert SlotOk(s.slots[r]);
    }
  }

  lemma InvAccounted(s: System)
    requires Inv(s)
    ensures Accounted(s)
  {
    forall r | 0 <= r < |s.slots|
      ensures s.slots[r].rec.taken != 0 <==>
        || (exists t: nat :: HeldBy(s, t, r))
        || s.slots[r].use == Abandoned
        || (s.slots[r].use == Disowned && s.slots[r].rec.cancelled)
        || (s.slots[r].use == Scrubbing
            && (s.slots[r].handler.Scrub? || (s.worker.Recycling? && s.worker.r == r)))
    {
      assert SlotOk(s.slots[r]) && OwnerOk(s, r);
      if exists t: nat :: HeldBy(s, t, r) {
        var t: nat :| HeldBy(s, t, r);
        assert ClientOk(s.clients[t], t, s.slots, s.length);
      }
    }
  }

  lemma InvAnswers(s: System)
    requires Inv(s)
    ensures AnswersOwn(s) && NotReadyUnreachable(s) && GivesUpLate(s)
  {
    forall t | 0 <= t < |s.clients|
      ensures ClientOk(s.clients[t], t, s.slots, s.length)
    {
    }
  }

  lemma InvSafe(s: System)
    requires Inv(s) && TicketsDistinct(s)
    ensures Safe(s)
  {
    InvExclusive(s);
    InvAccounted(s);
    InvAnswers(s);
  }

  /** Safety over every interleaving of any number of clients and the engine. */
  lemma TransportSafe(s: System, actions: seq<Action>, bounds: Bounds)
    requires Initial(s) && LegalRun(s, actions, bounds) && bounds.Fit()
    ensures Safe(Run(s, actions))
  {
    InitialInv(s);
    InitialTickets(s);
    RunInv(s, actions, bounds);
    RunTickets(s, actions);
    InvSafe(Run(s, actions));
  }

  // ------------------------------------------------------------------ scan bounds

  /** One pass lists every whole record behind the header once, in order, and nothing else. */
  lemma PassCoversSection(length: nat, offset: nat)
    requires length >= HEADER_SIZE + RECORD_SIZE
    ensures offset in PassOffsets(length) <==>
      offset >= HEADER_SIZE && (offset - HEADER_SIZE) % RECORD_SIZE == 0 && offset + RECORD_SIZE <= length
    ensures forall i, j :: 0 <= i < j < |PassOffsets(length)| ==> PassOffsets(length)[i] < PassOffsets(length)[j]
  {
    var pass := PassOffsets(length);
    if offset >= HEADER_SIZE && (offset - HEADER_SIZE) % RECORD_SIZE == 0 && offset + RECORD_SIZE <= length {
      var r := (offset - HEADER_SIZE) / RECORD_SIZE;
      assert pass[r] == offset;
    }
  }

  lemma RoundsAreProbes(length: nat)
    requires length >= HEADER_SIZE + RECORD_SIZE
    ensures Rounds(length, PASSES) == PassOffsets(length) + PassOffsets(length) + PassOffsets(length)
  {
    assert Rounds(length, 1) == PassOffsets(length);
    assert Rounds(length, 2) == PassOffsets(length) + PassOffsets(length);
  }

  // ------------------------------------------------------------------ abandoned slots

  lemma AbandonedClientStep(s: System, t: nat, job: Job, buffer: nat, expired: bool, r: nat)
    requires Inv(s) && t < |s.clients| && r < |s.slots| && s.slots[r].use == Abandoned
    ensures var slots' := ClientNext(s, t, job, buffer, expired).slots; |slots'| == |s.slots| && slots'[r] == s.slots[r]
  {
    ClientTouchesOne(s, t, job, buffer, expired);
    assert SlotOk(s.slots[r]);
    assert ClientOk(s.clients[t], t, s.slots, s.length);
  }

  lemma AbandonedStep(s: System, a: Action, bounds: Bounds, r: nat)
    requires Inv(s) && Legal(s, a, bounds) && bounds.Fit()
    requires r < |s.slots| && s.slots[r].use == Abandoned
    ensures |Next(s, a).slots| == |s.slots|
    ensures Next(s, a).slots[r].use == Abandoned && Next(s, a).slots[r].call == s.slots[r].call
  {
    assert SlotOk(s.slots[r]) && OwnerOk(s, r);
    match a
    case ClientStep(t, job, buffer, expired) => AbandonedClientStep(s, t, job, buffer, expired, r);
    case WorkerStep(q) =>
      assert WorkerOk(s.worker, s.slots);
    case HandlerStep(q, reply) =>
      if q == r && s.slots[r].handler != Off {
        HandlerKeeps(s.slots[r], reply);
      }
    case Toggle(_) =>
  }

  /** A slot a CCoreObject timeout abandoned stays taken, for the same submission, for ever: whatever
      the engine still writes there, no later request can be given that slot. */
  lemma {:induction false} AbandonedForEver(s: System, actions: seq<Action>, bounds: Bounds, r: nat)
    requires Inv(s) && LegalRun(s, actions, bounds) && bounds.Fit()
    requires r < |s.slots| && s.slots[r].use == Abandoned
    ensures var s' := Run(s, actions);
      && Inv(s') && r < |s'.slots|
      && s'.slots[r].use == Abandoned && s'.slots[r].call == s.slots[r].call && s'.slots[r].rec.taken != 0
    decreases |actions|
  {
    if actions == [] {
      assert SlotOk(s.slots[r]);
    } else {
      StepInv(s, actions[0], bounds);
      AbandonedStep(s, actions[0], bounds, r);
      AbandonedForEver(Next(s, actions[0]), actions[1..], bounds, r);
    }
  }
}
