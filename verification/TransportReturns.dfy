/** What TRUE and FALSE from WaitForResponse mean. CCoreObject returns TRUE on a timeout as well, with nothing
    copied: such a return leaves its slot abandoned. */
module TransportReturns {
  import opened Wrappers
  import opened Transport
  import opened TransportInvariant
  import opened TransportTickets
  import opened TransportSafety
  import opened TransportBound

  /** Return i of thread t handed nothing back, although it said TRUE. */
  predicate Silent(s: System, t: nat, i: nat) {
    && t < |s.clients| && i < |s.clients[t].outcomes| && s.clients[t].outcomes[i].ok
    && s.clients[t].outcomes[i].receipt == None
  }

  predicate AbandonedBy(s: System, r: nat, call: Call) {
    r < |s.slots| && s.slots[r].use == Abandoned && s.slots[r].call == call
  }

  /** A silent return left a slot abandoned for its call. */
  ghost predicate LeavesSlot(s: System, t: nat, i: nat) {
    Silent(s, t, i) ==> exists r: nat :: AbandonedBy(s, r, s.clients[t].outcomes[i].call)
  }

  predicate Left(s: System, r: nat, t: nat, i: nat) {
    Silent(s, t, i) && AbandonedBy(s, r, s.clients[t].outcomes[i].call)
  }

  /** An abandoned slot was left by a silent return. */
  ghost predicate WasLeft(s: System, r: nat) {
    r < |s.slots| && s.slots[r].use == Abandoned ==> exists t: nat, i: nat :: Left(s, r, t, i)
  }

  /** Silent returns and abandoned slots belong together. */
  ghost predicate Traced(s: System) {
    (forall t: nat, i: nat :: LeavesSlot(s, t, i)) && forall r: nat :: WasLeft(s, r)
  }

  lemma InitialTraced(s: System)
    requires Initial(s)
    ensures Traced(s)
  {
  }

  // ------------------------------------------------------------------ one step

  /** The same slots are abandoned for the same calls, and the same returns are silent. */
  ghost predicate SameTraces(s: System, s': System) {
    && (forall r: nat, call: Call :: AbandonedBy(s', r, call) <==> AbandonedBy(s, r, call))
    && forall t: nat, i: nat :: (Silent(s', t, i) <==> Silent(s, t, i))
         && (Silent(s, t, i) ==> s'.clients[t].outcomes[i] == s.clients[t].outcomes[i])
  }

  lemma SameStaysTraced(s: System, s': System)
    requires Traced(s) && SameTraces(s, s')
    ensures Traced(s')
  {
    forall t: nat, i: nat
      ensures LeavesSlot(s', t, i)
    {
      if Silent(s', t, i) {
        assert LeavesSlot(s, t, i);
        var r: nat :| AbandonedBy(s, r, s.clients[t].outcomes[i].call);
        assert AbandonedBy(s', r, s'.clients[t].outcomes[i].call);
      }
    }
    forall r: nat
      ensures WasLeft(s', r)
    {
      if r < |s'.slots| && s'.slots[r].use == Abandoned {
        assert AbandonedBy(s', r, s'.slots[r].call) && AbandonedBy(s, r, s'.slots[r].call) && WasLeft(s, r);
        var t: nat, i: nat :| Left(s, r, t, i);
        assert Left(s', r, t, i);
      }
    }
  }

  lemma NoClientAbandons(s: System, t: nat, job: Job, buffer: nat, expired: bool, r: nat)
    requires Inv(s) && t < |s.clients| && r < |s.slots| && s.slots[r].use != Abandoned && !TimesOut(s, t, expired)
    ensures |ClientNext(s, t, job, buffer, expired).slots| == |s.slots|
    ensures ClientNext(s, t, job, buffer, expired).slots[r].use != Abandoned
  {
    ClientTouchesOne(s, t, job, buffer, expired);
    ClientMovesUse(s, t, job, buffer, expired);
  }

  lemma NoHandlerAbandons(s: System, q: nat, reply: Option<seq<Byte>>, r: nat)
    requires Inv(s) && q < |s.slots| && r < |s.slots| && s.slots[r].use != Abandoned
    requires reply.Some? ==> |reply.value| <= MAX_DATA
    ensures HandlerNext(s, q, reply).slots[r].use != Abandoned
  {
    if q == r && s.slots[r].handler != Off {
      assert SlotOk(s.slots[r]);
      HandlerKeeps(s.slots[r], reply);
    }
  }

  /** A slot is abandoned after a step by anyone but a thread that times out exactly if it was before. */
  lemma NobodyElseAbandons(s: System, a: Action, bounds: Bounds, r: nat, call: Call)
    requires Inv(s) && Legal(s, a, bounds) && bounds.Fit()
    requires a.ClientStep? ==> !TimesOut(s, a.t, a.expired)
    ensures AbandonedBy(Next(s, a), r, call) <==> AbandonedBy(s, r, call)
  {
    if r < |s.slots| {
      if s.slots[r].use == Abandoned {
        AbandonedStep(s, a, bounds, r);
      } else {
        match a
        case ClientStep(t, job, buffer, expired) => NoClientAbandons(s, t, job, buffer, expired, r);
        case HandlerStep(q, reply) => NoHandlerAbandons(s, q, reply, r);
        case WorkerStep(_) =>
        case Toggle(_) =>
      }
    } else {
      SlotsStay(s, a);
    }
  }

  lemma SlotsStay(s: System, a: Action)
    requires Shape(s)
    ensures |Next(s, a).slots| == |s.slots|
  {
    if a.ClientStep? && a.t < |s.clients| {
      ClientTouchesOne(s, a.t, a.job, a.buffer, a.expired);
    }
  }

  /** What a client step may add to what its thread was told: on a timeout a silent return, otherwise at most one
      that is not silent. */
  predicate Told(s: System, s': System, t: nat, expired: bool)
    requires t < |s.clients|
  {
    && |s'.clients| == |s.clients|
    && var before, after := s.clients[t].outcomes, s'.clients[t].outcomes;
       if TimesOut(s, t, expired) then after == before + [Outcome(s.clients[t].pc.call, true, None)]
       else after == before || (|after| == |before| + 1 && after == before + [after[|before|]] && Says(after[|before|]))
  }

  predicate Says(o: Outcome) {
    !o.ok || o.receipt.Some?
  }

  lemma HolderTold(s: System, t: nat, job: Job, buffer: nat, expired: bool)
    requires Shape(s) && t < |s.clients|
    requires var pc := s.clients[t].pc; pc.Fill? || pc.Release? || pc.PutCancel? || pc.LateCancel?
    ensures Told(s, ClientNext(s, t, job, buffer, expired), t, expired)
  {
  }

  lemma ReaderTold(s: System, t: nat, job: Job, buffer: nat, expired: bool)
    requires Shape(s) && t < |s.clients|
    requires var pc := s.clients[t].pc; !pc.Fill? && !pc.Release? && !pc.PutCancel? && !pc.LateCancel?
    ensures Told(s, ClientNext(s, t, job, buffer, expired), t, expired)
  {
  }

  lemma ClientTold(s: System, t: nat, job: Job, buffer: nat, expired: bool)
    requires Shape(s) && t < |s.clients|
    ensures Told(s, ClientNext(s, t, job, buffer, expired), t, expired)
  {
    var pc := s.clients[t].pc;
    if pc.Fill? || pc.Release? || pc.PutCancel? || pc.LateCancel? {
      HolderTold(s, t, job, buffer, expired);
    } else {
      ReaderTold(s, t, job, buffer, expired);
    }
  }

  /** Every step but a timeout of a CCoreObject thread leaves silent returns and abandoned slots as they are. */
  lemma OtherStepTraces(s: System, a: Action, bounds: Bounds)
    requires Inv(s) && Legal(s, a, bounds) && bounds.Fit()
    requires a.ClientStep? ==> !TimesOut(s, a.t, a.expired)
    ensures SameTraces(s, Next(s, a))
  {
    forall r: nat, call: Call
      ensures AbandonedBy(Next(s, a), r, call) <==> AbandonedBy(s, r, call)
    {
      NobodyElseAbandons(s, a, bounds, r, call);
    }
    if a.ClientStep? {
      ClientTouchesOne(s, a.t, a.job, a.buffer, a.expired);
      ClientTold(s, a.t, a.job, a.buffer, a.expired);
    }
  }

  /** A timeout adds one silent return, and abandons one slot, for the same call. */
  lemma TimeoutTraces(s: System, t: nat, job: Job, buffer: nat, expired: bool)
    requires Inv(s) && Traced(s) && t < |s.clients| && TimesOut(s, t, expired)
    ensures Traced(ClientNext(s, t, job, buffer, expired))
  {
    var s', c := ClientNext(s, t, job, buffer, expired), s.clients[t];
    var q, n := c.pc.r, |c.outcomes|;
    assert ClientOk(c, t, s.slots, s.length);
    assert AbandonedBy(s', q, c.pc.call) && Silent(s', t, n);
    forall u: nat, i: nat
      ensures LeavesSlot(s', u, i)
    {
      if Silent(s', u, i) && (u != t || i < n) {
        assert Silent(s, u, i) && LeavesSlot(s, u, i);
        var r: nat :| AbandonedBy(s, r, s.clients[u].outcomes[i].call);
        assert AbandonedBy(s', r, s'.clients[u].outcomes[i].call);
      }
    }
    forall r: nat
      ensures WasLeft(s', r)
    {
      if r == q {
        assert Left(s', r, t, n);
      } else if r < |s'.slots| && s'.slots[r].use == Abandoned {
        assert WasLeft(s, r);
        var u: nat, i: nat :| Left(s, r, u, i);
        assert Left(s', r, u, i);
      }
    }
  }

  lemma StepTraced(s: System, a: Action, bounds: Bounds)
    requires Inv(s) && Traced(s) && Legal(s, a, bounds) && bounds.Fit()
    ensures Traced(Next(s, a))
  {
    if a.ClientStep? && TimesOut(s, a.t, a.expired) {
      TimeoutTraces(s, a.t, a.job, a.buffer, a.expired);
    } else {
      OtherStepTraces(s, a, bounds);
      SameStaysTraced(s, Next(s, a));
    }
  }

  lemma {:induction false} RunTraced(s: System, actions: seq<Action>, bounds: Bounds)
    requires Inv(s) && Traced(s) && LegalRun(s, actions, bounds) && bounds.Fit()
    ensures Traced(Run(s, actions))
    decreases |actions|
  {
    if actions != [] {
      StepInv(s, actions[0], bounds);
      StepTraced(s, actions[0], bounds);
      RunTraced(Next(s, actions[0]), actions[1..], bounds);
    }
  }

  // ------------------------------------------------------------------ whole runs

  /** A return says TRUE with nothing handed back exactly if a slot is abandoned for its call. */
  ghost predicate SilenceAbandons(s: System) {
    forall t: nat, i: nat :: t < |s.clients| && i < |s.clients[t].outcomes| ==>
      (Silent(s, t, i) <==> exists r: nat :: AbandonedBy(s, r, s.clients[t].outcomes[i].call))
  }

  lemma TracedSilence(s: System)
    requires Traced(s) && TicketsDistinct(s)
    ensures SilenceAbandons(s)
  {
    forall t: nat, i: nat | t < |s.clients| && i < |s.clients[t].outcomes|
      ensures Silent(s, t, i) <==> exists r: nat :: AbandonedBy(s, r, s.clients[t].outcomes[i].call)
    {
      var call := s.clients[t].outcomes[i].call;
      if Silent(s, t, i) {
        assert LeavesSlot(s, t, i);
      }
      if exists r: nat :: AbandonedBy(s, r, call) {
        var r: nat :| AbandonedBy(s, r, call);
        assert WasLeft(s, r);
        var u: nat, j: nat :| Left(s, r, u, j);
        assert Issued(s, t, i, call.ticket) && Issued(s, u, j, call.ticket);
      }
    }
  }

  /** Over every run: FALSE comes without an answer, and only to threads that are not CCoreObject's; TRUE comes
      with the answer to the call, or, to CCoreObject threads only, with nothing, and then exactly if the call's
      slot is abandoned. */
  lemma ReturnsTell(s: System, actions: seq<Action>, bounds: Bounds)
    requires Initial(s) && LegalRun(s, actions, bounds) && bounds.Fit()
    ensures SilenceAbandons(Run(s, actions))
    ensures forall t, i :: 0 <= t < |Run(s, actions).clients| && 0 <= i < |Run(s, actions).clients[t].outcomes| ==>
      OutcomeOk(Run(s, actions).clients[t].outcomes[i], Run(s, actions).clients[t].kind)
  {
    InitialInv(s);
    InitialTraced(s);
    RunTraced(s, actions, bounds);
    TransportSafe(s, actions, bounds);
    TracedSilence(Run(s, actions));
  }

  /** A run in which a CCoreObject thread is told TRUE and handed nothing: its request is published, the timeout
      expires before the engine looks. */
  lemma SilentReturn(bounds: Bounds)
    ensures exists s :: FromStart(s, bounds) && Silent(s, 0, 0) && AbandonedBy(s, 0, CALL)
  {
    Publishes(bounds);
    var s0, a := WaitingScene(Off, Resting, ReadyForEngine), ClientStep(0, JOB, 0, true);
    var s1 := Goes(s0, a, bounds);
    assert s1.clients[0].pc == Poll(CALL, 0, 0) && s1.slots == s0.slots;
    var s2 := Goes(s1, a, bounds);
    assert s2.clients[0].pc == Slept(CALL, 0, 0) && s2.slots == s0.slots;
    var s3 := Goes(s2, a, bounds);
    assert Silent(s3, 0, 0) && AbandonedBy(s3, 0, CALL);
  }
}
