/** Every submission has a ticket of its own. */
module TransportTickets {
  import opened Wrappers
  import opened Transport
  import opened TransportInvariant

  /** How many submissions a thread has had a return for or holds a slot for. */
  function Submissions(c: Client): nat {
    |c.outcomes| + if Held(c.pc).Some? then 1 else 0
  }

  function TicketOf(c: Client, i: nat): nat
    requires i < Submissions(c)
  {
    if i < |c.outcomes| then c.outcomes[i].call.ticket else c.pc.call.ticket
  }

  /** Submission i of thread t has ticket k. */
  predicate Issued(s: System, t: nat, i: nat, k: nat) {
    t < |s.clients| && i < Submissions(s.clients[t]) && TicketOf(s.clients[t], i) == k
  }

  /** No two submissions share a ticket, and none has a ticket still to be issued. */
  ghost predicate TicketsDistinct(s: System) {
    && (forall t: nat, i: nat, k: nat :: Issued(s, t, i, k) ==> k < s.next)
    && forall t: nat, i: nat, u: nat, j: nat, k: nat :: Issued(s, t, i, k) && Issued(s, u, j, k) ==> t == u && i == j
  }

  lemma InitialTickets(s: System)
    requires Initial(s)
    ensures TicketsDistinct(s)
  {
    forall t: nat, i: nat, k: nat
      ensures !Issued(s, t, i, k)
    {
      if t < |s.clients| {
        assert s.clients[t].pc == Idle;
      }
    }
  }

  /** A thread keeps or drops submissions, or adds one with the next ticket. */
  predicate Evolves(c: Client, c': Client, next: nat, next': nat) {
    && ((next' == next && Submissions(c') <= Submissions(c))
        || (next' == next + 1 && Submissions(c') == Submissions(c) + 1 && TicketOf(c', Submissions(c)) == next))
    && forall i: nat :: i < Submissions(c') && i < Submissions(c) ==> TicketOf(c', i) == TicketOf(c, i)
  }

  predicate ClientEvolved(s: System, s': System, t: nat)
    requires t < |s.clients|
  {
    && |s'.clients| == |s.clients| && s'.clients == s.clients[t := s'.clients[t]]
    && Evolves(s.clients[t], s'.clients[t], s.next, s'.next)
  }

  lemma StartEvolves(s: System, t: nat, job: Job, buffer: nat, expired: bool)
    requires Shape(s) && t < |s.clients| && Held(s.clients[t].pc) == None
    ensures ClientEvolved(s, ClientNext(s, t, job, buffer, expired), t)
  {
  }

  lemma WriteEvolves(s: System, t: nat, job: Job, buffer: nat, expired: bool)
    requires Shape(s) && t < |s.clients|
    requires s.clients[t].pc.Fill? || s.clients[t].pc.Release? || s.clients[t].pc.PutCancel?
    ensures ClientEvolved(s, ClientNext(s, t, job, buffer, expired), t)
  {
  }

  lemma PollEvolves(s: System, t: nat, job: Job, buffer: nat, expired: bool)
    requires Shape(s) && t < |s.clients|
    requires var pc := s.clients[t].pc;
      pc.Submitted? || pc.Poll? || pc.Slept? || pc.Recheck? || pc.LateCancel?
    ensures ClientEvolved(s, ClientNext(s, t, job, buffer, expired), t)
  {
  }

  lemma CopyEvolves(s: System, t: nat, job: Job, buffer: nat, expired: bool)
    requires Shape(s) && t < |s.clients|
    requires var pc := s.clients[t].pc; pc.ReadLength? || pc.CopyOut? || pc.ReadLengthAgain?
    ensures ClientEvolved(s, ClientNext(s, t, job, buffer, expired), t)
  {
  }

  lemma ClientEvolves(s: System, t: nat, job: Job, buffer: nat, expired: bool)
    requires Shape(s) && t < |s.clients|
    ensures ClientEvolved(s, ClientNext(s, t, job, buffer, expired), t)
  {
    var pc := s.clients[t].pc;
    if Held(pc) == None {
      StartEvolves(s, t, job, buffer, expired);
    } else if pc.Fill? || pc.Release? || pc.PutCancel? {
      WriteEvolves(s, t, job, buffer, expired);
    } else if pc.ReadLength? || pc.CopyOut? || pc.ReadLengthAgain? {
      CopyEvolves(s, t, job, buffer, expired);
    } else {
      PollEvolves(s, t, job, buffer, expired);
    }
  }

  lemma EvolvedTickets(s: System, s': System, t: nat)
    requires TicketsDistinct(s) && t < |s.clients| == |s'.clients| && s'.clients == s.clients[t := s'.clients[t]]
    requires Evolves(s.clients[t], s'.clients[t], s.next, s'.next)
    ensures TicketsDistinct(s')
  {
    forall u: nat, i: nat, k: nat | Issued(s', u, i, k)
      ensures Issued(s, u, i, k) || (u == t && i == Submissions(s.clients[t]) && k == s.next && s'.next == s.next + 1)
    {
    }
  }

  lemma StepTickets(s: System, a: Action)
    requires Shape(s) && TicketsDistinct(s)
    ensures TicketsDistinct(Next(s, a))
  {
    match a
    case ClientStep(t, job, buffer, expired) =>
      if t < |s.clients| {
        ClientEvolves(s, t, job, buffer, expired);
        EvolvedTickets(s, Next(s, a), t);
      }
    case WorkerStep(r) => SameTickets(s, Next(s, a));
    case HandlerStep(r, reply) => SameTickets(s, Next(s, a));
    case Toggle(_) => SameTickets(s, Next(s, a));
  }

  lemma SameTickets(s: System, s': System)
    requires TicketsDistinct(s) && s'.clients == s.clients && s'.next == s.next
    ensures TicketsDistinct(s')
  {
    forall t: nat, i: nat, k: nat
      ensures Issued(s', t, i, k) <==> Issued(s, t, i, k)
    {
    }
  }
}
