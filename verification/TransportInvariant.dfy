/** The inductive invariant of the request transport, and its preservation by every step. */
module TransportInvariant {
  import opened Wrappers
  import opened Transport

  // ------------------------------------------------------------------ programs store each field once

  /** Which field an operation stores to: bytes by index, the other fields by a negative tag. */
  function Target(op: Op): int {
    match op
    case SetTaken(_) => -1
    case SetState(_) => -2
    case SetCancelled(_) => -3
    case SetKind(_) => -4
    case SetOwner(_) => -5
    case SetFlags(_) => -6
    case SetLength(_) => -7
    case SetByte(i, _) => i
  }

  /** The record holds the value op stores. */
  predicate Done(op: Op, rec: Record) {
    match op
    case SetTaken(n) => rec.taken == n
    case SetState(st) => rec.state == st
    case SetCancelled(c) => rec.cancelled == c
    case SetKind(k) => rec.kind == k
    case SetOwner(o) => rec.owner == o
    case SetFlags(f) => rec.flags == f
    case SetLength(n) => rec.length == n
    case SetByte(i, b) => i < |rec.data| ==> rec.data[i] == b
  }

  predicate Distinct(program: seq<Op>) {
    forall i, j :: 0 <= i < j < |program| ==> Target(program[i]) != Target(program[j])
  }

  /** The first j stores of the program are in the record. */
  predicate DoneUpTo(program: seq<Op>, j: nat, rec: Record) {
    j <= |program| && forall i :: 0 <= i < j ==> Done(program[i], rec)
  }

  lemma FillDistinct(pid: nat, job: Job)
    ensures Distinct(FillProgram(pid, job))
  {
  }

  lemma FreeDistinct()
    ensures Distinct(FreeProgram())
  {
  }

  lemma RecycleDistinct()
    ensures Distinct(RecycleProgram())
  {
  }

  lemma AnswerDistinct(reply: seq<Byte>)
    ensures Distinct(AnswerProgram(reply))
  {
  }

  lemma StoreKeepsDone(program: seq<Op>, j: nat, rec: Record)
    requires Distinct(program) && j < |program| && DoneUpTo(program, j, rec)
    ensures DoneUpTo(program, j + 1, Apply(program[j], rec))
  {
    var rec' := Apply(program[j], rec);
    forall i | 0 <= i < j + 1
      ensures Done(program[i], rec')
    {
      if i < j {
        assert Target(program[i]) != Target(program[j]);
      }
    }
  }

  /** After all but the last store of SubmitRequest the record carries the whole request. */
  lemma FillComplete(pid: nat, job: Job, rec: Record)
    requires |job.data| <= MAX_DATA == |rec.data|
    requires DoneUpTo(FillProgram(pid, job), |FillProgram(pid, job)| - 1, rec)
    ensures rec.kind == job.kind && rec.length == |job.data| && rec.data[..|job.data|] == job.data
  {
    var program := FillProgram(pid, job);
    assert program[2] == SetKind(job.kind) && program[3] == SetLength(|job.data|);
    forall i | 0 <= i < |job.data|
      ensures rec.data[i] == job.data[i]
    {
      assert program[4 + i] == SetByte(i, job.data[i]);
    }
  }

  /** FreeRecord leaves nothing behind, whatever the record held. */
  lemma FreeComplete(rec: Record)
    requires |rec.data| == MAX_DATA
    requires DoneUpTo(FreeProgram(), |FreeProgram()| - 1, rec)
    ensures Apply(FreeProgram()[|FreeProgram()| - 1], rec) == Scrubbed()
  {
    var program := FreeProgram();
    var z := ZeroData();
    forall i | 0 <= i < MAX_DATA
      ensures rec.data[i] == 0
    {
      assert program[i] == SetByte(i, z[i]);
    }
    assert rec.data == z;
    assert program[MAX_DATA] == SetCancelled(false) && program[MAX_DATA + 1] == SetFlags(0);
    assert program[MAX_DATA + 2] == SetState(Free) && program[MAX_DATA + 3] == SetOwner(SYSTEM_PID);
    assert program[MAX_DATA + 4] == SetKind(TYPE_INVALID) && program[MAX_DATA + 5] == SetLength(0);
  }

  /** The engine's release order ends in the same record. */
  lemma RecycleComplete(rec: Record)
    requires |rec.data| == MAX_DATA
    requires DoneUpTo(RecycleProgram(), |RecycleProgram()| - 1, rec)
    ensures Apply(RecycleProgram()[|RecycleProgram()| - 1], rec) == Scrubbed()
  {
    var program := RecycleProgram();
    var z := ZeroData();
    forall i | 0 <= i < MAX_DATA
      ensures rec.data[i] == 0
    {
      assert program[5 + i] == SetByte(i, z[i]);
    }
    assert rec.data == z;
    assert program[0] == SetCancelled(false) && program[1] == SetFlags(0) && program[2] == SetState(Free);
    assert program[3] == SetOwner(SYSTEM_PID) && program[4] == SetKind(TYPE_INVALID);
    assert program[5 + MAX_DATA] == SetLength(0);
  }

  /** After all but the last store of post_response the record carries the whole answer. */
  lemma AnswerComplete(reply: seq<Byte>, rec: Record)
    requires |reply| <= MAX_DATA == |rec.data|
    requires DoneUpTo(AnswerProgram(reply), |AnswerProgram(reply)| - 1, rec)
    ensures rec.length == |reply| && rec.data[..|reply|] == reply
  {
    var program := AnswerProgram(reply);
    assert program[1 + |reply|] == SetLength(|reply|);
    forall i | 0 <= i < |reply|
      ensures rec.data[i] == reply[i]
    {
      assert program[1 + i] == SetByte(i, reply[i]);
    }
  }

  // ------------------------------------------------------------------ the invariant

  /** The record holds exactly the request its submission asked for. */
  predicate Carries(slot: Slot) {
    && slot.rec.kind == slot.call.job.kind
    && slot.rec.length == |slot.call.job.data| <= MAX_DATA == |slot.rec.data|
    && slot.rec.data[..slot.rec.length] == slot.call.job.data
  }

  /** The engine's answer was made for this submission, from what this submission asked. */
  predicate Serves(answer: Option<Answer>, call: Call) {
    && answer.Some?
    && answer.value.ticket == call.ticket
    && answer.value.kind == call.job.kind
    && answer.value.request == call.job.data
  }

  /** The record holds exactly that answer. */
  predicate Answered(slot: Slot) {
    && Serves(slot.answer, slot.call)
    && slot.rec.length == |slot.answer.value.reply| <= MAX_DATA == |slot.rec.data|
    && slot.rec.data[..slot.rec.length] == slot.answer.value.reply
  }

  predicate InFlight(slot: Slot) {
    match slot.rec.state
    case ReadyForEngine => slot.handler == Off && Carries(slot)
    case InProcessing =>
      (match slot.handler
       case ReadKind => Carries(slot)
       case ReadSize(kind) => Carries(slot) && kind == slot.call.job.kind
       case ReadBytes(kind, size, got) =>
         && Carries(slot) && kind == slot.call.job.kind && size == slot.rec.length
         && |got| <= size && got == slot.rec.data[..|got|]
       case Decide(kind, request) => kind == slot.call.job.kind && request == slot.call.job.data
       case PostCheck(bytes) =>
         Serves(slot.answer, slot.call) && slot.answer.value.reply == bytes && |bytes| <= MAX_DATA
       case Post(bytes, j) =>
         && Serves(slot.answer, slot.call) && slot.answer.value.reply == bytes && |bytes| <= MAX_DATA
         && j < |AnswerProgram(bytes)| && DoneUpTo(AnswerProgram(bytes), j, slot.rec)
       case Reject => true
       case _ => false)
    case ReadyForClient => slot.handler == Off && Answered(slot)
    case BadRecord => slot.handler == Off
    case _ => false
  }

  /** A record nobody has taken holds no trace of an earlier use. */
  predicate Clean(rec: Record) {
    rec == Zeroed() || rec == Scrubbed()
  }

  predicate SlotOk(slot: Slot) {
    && SlotShape(slot)
    && (slot.use == Vacant <==> slot.rec.taken == 0)
    && match slot.use
       case Vacant => Clean(slot.rec) && slot.handler == Off
       case Filling(_) => slot.rec.state in {Unset, Free} && !slot.rec.cancelled && slot.handler == Off
       case Awaited(_) => !slot.rec.cancelled && InFlight(slot)
       case Abandoned => !slot.rec.cancelled && InFlight(slot)
       case Disowned => slot.rec.cancelled && InFlight(slot)
       case Draining(_) => slot.rec.state in {ReadyForClient, Free} && !slot.rec.cancelled && slot.handler == Off
       case Scrubbing =>
         && (slot.rec.state == ReadyForEngine ==> Carries(slot))
         && (slot.handler != Off ==>
               && slot.handler.Scrub? && slot.rec.state in {InProcessing, Free}
               && DoneUpTo(RecycleProgram(), slot.handler.j, slot.rec))
  }

  /** The offsets of one pass of AllocRecord, and of p passes. */
  function PassOffsets(length: nat): (offsets: seq<nat>)
    ensures |offsets| == Capacity(length)
    ensures forall i :: 0 <= i < |offsets| ==> offsets[i] == OffsetOf(i)
  {
    seq(Capacity(length), i requires 0 <= i => OffsetOf(i))
  }

  function Rounds(length: nat, passes: nat): seq<nat> {
    if passes == 0 then [] else Rounds(length, passes - 1) + PassOffsets(length)
  }

  predicate ProbesOk(c: Client, length: nat) {
    && (c.refused ==> c.probes == [] || c.probes == Rounds(length, PASSES))
    && (c.pc.Scan? ==>
          var i := IndexOf(c.pc.offset);
          && !c.refused && i < Capacity(length) && c.pc.offset == OffsetOf(i) && c.pc.pass < PASSES
          && c.probes == Rounds(length, c.pc.pass) + PassOffsets(length)[..i])
  }

  /** What WaitForResponse returned is what the engine answered to this very submission. */
  predicate ReceiptOk(receipt: Receipt) {
    && Serves(receipt.answer, receipt.call)
    && var reply := receipt.answer.value.reply;
       && receipt.count == Min(receipt.buffer, |reply|)
       && receipt.bytes == reply[..receipt.count]
  }

  /** A CCoreObject thread is always told TRUE, any other exactly if it was handed an answer. */
  predicate OutcomeOk(ret: Outcome, kind: Kind) {
    && (ret.ok <==> kind == Conv || ret.receipt.Some?)
    && (ret.receipt.Some? ==> ReceiptOk(ret.receipt.value) && ret.receipt.value.call == ret.call)
  }

  /** The request a thread is about to publish fits a record. */
  predicate JobFits(pc: Pc) {
    match pc
    case CheckReady(job) => |job.data| <= MAX_DATA
    case Scan(job, _, _) => |job.data| <= MAX_DATA
    case Fill(call, _, _) => |call.job.data| <= MAX_DATA
    case _ => true
  }

  /** The slot a thread holds, from its winning compare-and-swap until it lets go. */
  function Held(pc: Pc): Option<nat> {
    if pc.Idle? || pc.CheckReady? || pc.Scan? then None else Some(pc.r)
  }

  /** The use a thread at pc gives its slot. */
  function UseOf(pc: Pc, t: nat): Use
    requires Held(pc).Some?
  {
    match pc
    case Fill(_, _, _) => Filling(t)
    case ReadLength(_, _, _) => Draining(t)
    case CopyOut(_, _, _, _, _) => Draining(t)
    case ReadLengthAgain(_, _, _, _) => Draining(t)
    case Release(_, _, _, _) => Draining(t)
    case _ => Awaited(t)
  }

  predicate HolderOk(c: Client, slot: Slot)
    requires Held(c.pc).Some? && PcShape(c, c.pc.r + 1)
  {
    && slot.call == c.pc.call
    && match c.pc
       case Fill(call, _, j) => DoneUpTo(FillProgram(c.pid, call.job), j, slot.rec)
       case Recheck(_, _, _, late) => if late then c.kind == Common else slot.rec.state == ReadyForClient
       case LateCancel(_, _) => c.kind == Common
       case ReadLength(_, _, _) => slot.rec.state == ReadyForClient && Answered(slot)
       case CopyOut(_, _, buffer, count, got) =>
         && slot.rec.state == ReadyForClient && Answered(slot)
         && count == Min(buffer, slot.rec.length) && |got| <= count && got == slot.rec.data[..|got|]
       case ReadLengthAgain(_, _, buffer, got) =>
         && slot.rec.state == ReadyForClient && Answered(slot)
         && got == slot.rec.data[..Min(buffer, slot.rec.length)]
       case Release(call, _, j, receipt) =>
         DoneUpTo(FreeProgram(), j, slot.rec) && ReceiptOk(receipt) && receipt.call == call
       case _ => true
  }

  predicate ClientOk(c: Client, t: nat, slots: seq<Slot>, length: nat)
    requires PcShape(c, |slots|)
  {
    && c.pid > 0
    && ProbesOk(c, length)
    && JobFits(c.pc)
    && (forall i :: 0 <= i < |c.outcomes| ==> OutcomeOk(c.outcomes[i], c.kind))
    && (Held(c.pc).Some? ==>
          slots[c.pc.r].use == UseOf(c.pc, t) && HolderOk(c, slots[c.pc.r]))
  }

  predicate WorkerOk(w: Worker, slots: seq<Slot>) {
    match w
    case Resting => true
    case Claiming(r) =>
      && r < |slots| && slots[r].rec.state == ReadyForEngine
      && (slots[r].use.Awaited? || slots[r].use == Disowned || slots[r].use == Abandoned)
    case CheckingCancel(r) => r < |slots| && slots[r].handler == Off
    case Recycling(r, j) =>
      && r < |slots| && slots[r].use == Scrubbing && slots[r].handler == Off
      && DoneUpTo(RecycleProgram(), j, slots[r].rec)
  }

  /** A slot marked as held names the thread that holds it; one being recycled has its recycler. */
  predicate OwnerOk(s: System, r: nat)
    requires r < |s.slots|
  {
    match s.slots[r].use
    case Filling(t) => HeldBy(s, t, r)
    case Awaited(t) => HeldBy(s, t, r)
    case Draining(t) => HeldBy(s, t, r)
    case Scrubbing => s.slots[r].handler.Scrub? || (s.worker.Recycling? && s.worker.r == r)
    case _ => true
  }

  predicate HeldBy(s: System, t: nat, r: nat) {
    t < |s.clients| && Held(s.clients[t].pc) == Some(r)
  }

  predicate Inv(s: System) {
    && Shape(s)
    && (forall r :: 0 <= r < |s.slots| ==> SlotOk(s.slots[r]) && OwnerOk(s, r))
    && (forall t :: 0 <= t < |s.clients| ==> ClientOk(s.clients[t], t, s.slots, s.length))
    && WorkerOk(s.worker, s.slots)
  }

  lemma InitialInv(s: System)
    requires Initial(s)
    ensures Inv(s)
  {
  }

  // ------------------------------------------------------------------ handler steps

  /** What a handler step may do to its slot. */
  predicate HandlerEffect(slot: Slot, slot': Slot) {
    && SlotOk(slot') && slot'.call == slot.call
    && (slot'.use != slot.use ==>
          || (slot.use == Disowned && slot'.use == Scrubbing)
          || (slot.use == Scrubbing && slot'.use == Vacant))
    && (slot'.use == Scrubbing ==> slot'.handler.Scrub?)
    && slot.rec.state !in {ReadyForClient, ReadyForEngine, BadRecord}
  }

  lemma PostKeeps(slot: Slot, reply: Option<seq<Byte>>)
    requires SlotOk(slot) && slot.handler.Post?
    ensures HandlerEffect(slot, SlotNext(slot, reply))
  {
    var bytes, j := slot.handler.reply, slot.handler.j;
    var program := AnswerProgram(bytes);
    AnswerDistinct(bytes);
    StoreKeepsDone(program, j, slot.rec);
    if j + 1 == |program| {
      AnswerComplete(bytes, slot.rec);
    } else {
      assert Target(program[j]) !in {-1, -2, -3};
    }
  }

  /** A store of the recycling order frees the state first and never sets another. */
  lemma RecycleStore(slot: Slot, j: nat)
    requires SlotOk(slot) && slot.use == Scrubbing && slot.rec.taken != 0
    requires j < |RecycleProgram()| && DoneUpTo(RecycleProgram(), j, slot.rec)
    ensures var rec' := Apply(RecycleProgram()[j], slot.rec);
      && (j + 1 == |RecycleProgram()| ==> rec' == Scrubbed())
      && (j + 1 < |RecycleProgram()| ==>
            && rec'.taken != 0 && DoneUpTo(RecycleProgram(), j + 1, rec')
            && rec'.state in {slot.rec.state, Free}
            && (rec'.state == ReadyForEngine ==> Carries(slot.(rec := rec'))))
  {
    var program := RecycleProgram();
    RecycleDistinct();
    StoreKeepsDone(program, j, slot.rec);
    if j + 1 == |program| {
      RecycleComplete(slot.rec);
    } else if j >= 3 {
      assert program[2] == SetState(Free);
      assert Done(program[2], slot.rec);
    }
  }

  /** Reading the request. */
  predicate Reads(handler: Handler) {
    handler.ReadKind? || handler.ReadSize? || handler.ReadBytes?
  }

  lemma DecideKeeps(slot: Slot, reply: Option<seq<Byte>>)
    requires SlotOk(slot) && (slot.handler.Decide? || slot.handler.PostCheck? || slot.handler.Reject?)
    requires reply.Some? ==> |reply.value| <= MAX_DATA
    ensures HandlerEffect(slot, SlotNext(slot, reply))
  {
  }

  lemma ReadKeeps(slot: Slot, reply: Option<seq<Byte>>)
    requires SlotOk(slot) && Reads(slot.handler)
    ensures HandlerEffect(slot, SlotNext(slot, reply))
  {
    if slot.handler.ReadBytes? && |slot.handler.got| == slot.handler.size {
      assert slot.handler.got == slot.call.job.data;
    }
  }

  lemma HandlerKeeps(slot: Slot, reply: Option<seq<Byte>>)
    requires SlotOk(slot) && slot.handler != Off && (reply.Some? ==> |reply.value| <= MAX_DATA)
    ensures HandlerEffect(slot, SlotNext(slot, reply))
  {
    if slot.handler.Post? {
      PostKeeps(slot, reply);
    } else if slot.handler.Scrub? {
      RecycleStore(slot, slot.handler.j);
    } else if Reads(slot.handler) {
      ReadKeeps(slot, reply);
    } else {
      DecideKeeps(slot, reply);
    }
  }

  lemma HandlerKeepsClient(s: System, r: nat, slot': Slot, t: nat)
    requires Inv(s) && r < |s.slots| && t < |s.clients|
    requires s.slots[r].handler != Off && HandlerEffect(s.slots[r], slot')
    ensures ClientOk(s.clients[t], t, s.slots[r := slot'], s.length)
  {
    assert SlotOk(s.slots[r]);
    assert ClientOk(s.clients[t], t, s.slots, s.length);
  }

  lemma HandlerKeepsSlots(s: System, r: nat, slot': Slot, q: nat)
    requires Inv(s) && r < |s.slots| && q < |s.slots|
    requires s.slots[r].handler != Off && HandlerEffect(s.slots[r], slot')
    ensures var s' := s.(slots := s.slots[r := slot']); SlotOk(s'.slots[q]) && OwnerOk(s', q)
  {
    assert SlotOk(s.slots[r]) && OwnerOk(s, r);
    assert SlotOk(s.slots[q]) && OwnerOk(s, q);
  }

  lemma HandlerKeepsInv(s: System, r: nat, slot': Slot)
    requires Inv(s) && r < |s.slots|
    requires s.slots[r].handler != Off && HandlerEffect(s.slots[r], slot')
    ensures Inv(s.(slots := s.slots[r := slot']))
  {
    var s' := s.(slots := s.slots[r := slot']);
    forall t | 0 <= t < |s.clients|
      ensures PcShape(s.clients[t], |s'.slots|) && ClientOk(s.clients[t], t, s'.slots, s.length)
    {
      HandlerKeepsClient(s, r, slot', t);
    }
    forall q | 0 <= q < |s.slots|
      ensures SlotOk(s'.slots[q]) && OwnerOk(s', q)
    {
      HandlerKeepsSlots(s, r, slot', q);
    }
    assert SlotOk(s.slots[r]);
  }

  lemma HandlerInv(s: System, r: nat, reply: Option<seq<Byte>>)
    requires Inv(s) && r < |s.slots| && (reply.Some? ==> |reply.value| <= MAX_DATA)
    ensures Inv(HandlerNext(s, r, reply))
  {
    if s.slots[r].handler == Off {
      assert HandlerNext(s, r, reply).slots == s.slots;
    } else {
      HandlerKeeps(s.slots[r], reply);
      HandlerKeepsInv(s, r, SlotNext(s.slots[r], reply));
    }
  }

  // ------------------------------------------------------------------ worker steps

  lemma WorkerInv(s: System, r: nat)
    requires Inv(s) && r < |s.slots|
    ensures Inv(WorkerNext(s, r))
  {
    match s.worker
    case Resting => RestingInv(s, r);
    case Claiming(_) => ClaimingInv(s, r);
    case CheckingCancel(_) => CheckingInv(s, r);
    case Recycling(_, _) => RecyclingInv(s, r);
  }

  lemma RestingInv(s: System, r: nat)
    requires Inv(s) && r < |s.slots| && s.worker == Resting
    ensures Inv(WorkerNext(s, r))
  {
    var s' := WorkerNext(s, r);
    assert SlotOk(s.slots[r]) && OwnerOk(s, r);
    OwnersAfterWorker(s, s');
  }

  lemma ClaimingInv(s: System, r: nat)
    requires Inv(s) && r < |s.slots| && s.worker.Claiming?
    ensures Inv(WorkerNext(s, r))
  {
    var s', q := WorkerNext(s, r), s.worker.r;
    assert SlotOk(s.slots[q]) && OwnerOk(s, q);
    assert SlotOk(s'.slots[q]);
    WorkerFrame(s, s', q);
  }

  lemma CheckingInv(s: System, r: nat)
    requires Inv(s) && r < |s.slots| && s.worker.CheckingCancel?
    ensures Inv(WorkerNext(s, r))
  {
    var s', q := WorkerNext(s, r), s.worker.r;
    assert SlotOk(s.slots[q]) && OwnerOk(s, q);
    if s.slots[q].rec.cancelled {
      assert s.slots[q].use == Disowned;
      WorkerFrame(s, s', q);
    } else {
      OwnersAfterWorker(s, s');
    }
  }

  lemma RecyclingInv(s: System, r: nat)
    requires Inv(s) && r < |s.slots| && s.worker.Recycling?
    ensures Inv(WorkerNext(s, r))
  {
    var s', q := WorkerNext(s, r), s.worker.r;
    assert SlotOk(s.slots[q]);
    RecycleStore(s.slots[q], s.worker.j);
    WorkerFrame(s, s', q);
  }

  /** The worker moves without touching a slot: nothing it was recycling changes. */
  lemma OwnersAfterWorker(s: System, s': System)
    requires Inv(s) && s' == s.(worker := s'.worker) && Shape(s') && WorkerOk(s'.worker, s.slots)
    requires !s.worker.Recycling?
    ensures Inv(s')
  {
    forall r | 0 <= r < |s'.slots|
      ensures OwnerOk(s', r)
    {
      assert OwnerOk(s, r);
    }
  }

  /** The worker changes slot q, which no thread is reading or writing. */
  lemma WorkerFrame(s: System, s': System, q: nat)
    requires Inv(s) && q < |s.slots|
    requires s'.length == s.length && s'.clients == s.clients && |s'.slots| == |s.slots|
    requires s'.slots == s.slots[q := s'.slots[q]]
    requires SlotOk(s'.slots[q]) && s'.slots[q].call == s.slots[q].call
    requires s'.slots[q].use == s.slots[q].use
             || !(s.slots[q].use.Filling? || s.slots[q].use.Awaited? || s.slots[q].use.Draining?)
    requires s'.slots[q].use.Filling? || s'.slots[q].use.Draining? ==> s'.slots[q] == s.slots[q]
    requires s.slots[q].rec.state == ReadyForClient ==> s'.slots[q] == s.slots[q] || !s'.slots[q].use.Awaited?
    requires OwnerOk(s', q) && WorkerOk(s'.worker, s'.slots) && Shape(s')
    requires s.worker.Recycling? ==> s.worker.r == q
    ensures Inv(s')
  {
    forall t | 0 <= t < |s.clients|
      ensures ClientOk(s'.clients[t], t, s'.slots, s'.length)
    {
      assert ClientOk(s.clients[t], t, s.slots, s.length);
    }
    forall r | 0 <= r < |s.slots|
      ensures SlotOk(s'.slots[r]) && OwnerOk(s', r)
    {
      assert SlotOk(s.slots[r]) && OwnerOk(s, r);
    }
  }

  // ------------------------------------------------------------------ client steps

  /** Thread t moves, changing at most slot r, which nobody else may be holding. */
  predicate ClientMove(s: System, s': System, t: nat, r: nat) {
    && Inv(s) && t < |s.clients| && r < |s.slots|
    && s'.length == s.length && s'.worker == s.worker
    && |s'.clients| == |s.clients| && s'.clients == s.clients[t := s'.clients[t]]
    && |s'.slots| == |s.slots| && s'.slots == s.slots[r := s'.slots[r]]
    && (s'.slots[r] == s.slots[r] || s.slots[r].use in {Vacant, Filling(t), Awaited(t), Draining(t)})
    && Held(s.clients[t].pc) in {None, Some(r)}
    && Held(s'.clients[t].pc) in {None, Some(r)}
    && PcShape(s'.clients[t], |s'.slots|) && ClientOk(s'.clients[t], t, s'.slots, s'.length)
    && SlotOk(s'.slots[r])
    && ((s'.slots[r] == s.slots[r] && Held(s'.clients[t].pc) == Held(s.clients[t].pc))
        || s'.slots[r].use in {Vacant, Abandoned, Disowned}
        || (s'.slots[r].use in {Filling(t), Awaited(t), Draining(t)} && Held(s'.clients[t].pc) == Some(r)))
    && WorkerOk(s'.worker, s'.slots)
  }

  lemma OtherClientStays(s: System, s': System, t: nat, r: nat, u: nat)
    requires ClientMove(s, s', t, r) && u < |s.clients|
    ensures PcShape(s'.clients[u], |s'.slots|) && ClientOk(s'.clients[u], u, s'.slots, s'.length)
  {
    assert ClientOk(s.clients[u], u, s.slots, s.length);
  }

  lemma OtherSlotStays(s: System, s': System, t: nat, r: nat, q: nat)
    requires ClientMove(s, s', t, r) && q < |s.slots|
    ensures SlotOk(s'.slots[q]) && OwnerOk(s', q)
  {
    assert SlotOk(s.slots[q]) && OwnerOk(s, q);
  }

  lemma ClientMoves(s: System, s': System, t: nat, r: nat)
    requires Inv(s) && t < |s.clients| && r < |s.slots|
    requires s'.length == s.length && s'.worker == s.worker
    requires |s'.clients| == |s.clients| && s'.clients == s.clients[t := s'.clients[t]]
    requires |s'.slots| == |s.slots| && s'.slots == s.slots[r := s'.slots[r]]
    requires s'.slots[r] == s.slots[r] || s.slots[r].use in {Vacant, Filling(t), Awaited(t), Draining(t)}
    requires Held(s.clients[t].pc) in {None, Some(r)}
    requires Held(s'.clients[t].pc) in {None, Some(r)}
    requires PcShape(s'.clients[t], |s'.slots|) && ClientOk(s'.clients[t], t, s'.slots, s'.length)
    requires SlotOk(s'.slots[r])
    requires (s'.slots[r] == s.slots[r] && Held(s'.clients[t].pc) == Held(s.clients[t].pc))
             || s'.slots[r].use in {Vacant, Abandoned, Disowned}
             || (s'.slots[r].use in {Filling(t), Awaited(t), Draining(t)} && Held(s'.clients[t].pc) == Some(r))
    requires WorkerOk(s'.worker, s'.slots)
    ensures Inv(s')
  {
    forall u | 0 <= u < |s.clients|
      ensures PcShape(s'.clients[u], |s'.slots|) && ClientOk(s'.clients[u], u, s'.slots, s'.length)
    {
      OtherClientStays(s, s', t, r, u);
    }
    forall q | 0 <= q < |s.slots|
      ensures SlotOk(s'.slots[q]) && OwnerOk(s', q)
    {
      OtherSlotStays(s, s', t, r, q);
    }
  }

  lemma IdleInv(s: System, t: nat, job: Job, buffer: nat, expired: bool)
    requires Inv(s) && t < |s.clients| && |job.data| <= MAX_DATA
    requires (s.clients[t].pc.Idle? || s.clients[t].pc.CheckReady?)
    ensures Inv(ClientNext(s, t, job, buffer, expired))
  {
    var s' := ClientNext(s, t, job, buffer, expired);
    assert ClientOk(s.clients[t], t, s.slots, s.length);
    assert SlotOk(s.slots[0]);
    assert s'.slots == s.slots[0 := s.slots[0]];
    assert s'.clients[t].pc.Scan? ==> s'.clients[t].probes == Rounds(s.length, 0) + PassOffsets(s.length)[..0];
    ClientMoves(s, s', t, 0);
  }

  lemma ProbesMore(s: System, t: nat)
    requires Shape(s) && t < |s.clients| && s.clients[t].pc.Scan? && ProbesOk(s.clients[t], s.length)
    ensures var c := s.clients[t];
      c.probes + [c.pc.offset] == Rounds(s.length, c.pc.pass) + PassOffsets(s.length)[..IndexOf(c.pc.offset) + 1]
  {
    var c, pass := s.clients[t], PassOffsets(s.length);
    var r := IndexOf(c.pc.offset);
    assert pass[..r] + [c.pc.offset] == pass[..r + 1];
  }

  /** A probe that wins its compare-and-swap. */
  lemma WonInv(s: System, t: nat, job: Job, buffer: nat, expired: bool)
    requires Inv(s) && t < |s.clients| && s.clients[t].pc.Scan?
    requires s.slots[IndexOf(s.clients[t].pc.offset)].rec.taken == 0
    ensures Inv(ClientNext(s, t, job, buffer, expired))
  {
    var s' := ClientNext(s, t, job, buffer, expired);
    assert ClientOk(s.clients[t], t, s.slots, s.length);
    var r := IndexOf(s.clients[t].pc.offset);
    assert SlotOk(s.slots[r]);
    ClientMoves(s, s', t, r);
  }

  /** A probe that loses it. */
  lemma LostInv(s: System, t: nat, job: Job, buffer: nat, expired: bool)
    requires Inv(s) && t < |s.clients| && s.clients[t].pc.Scan?
    requires s.slots[IndexOf(s.clients[t].pc.offset)].rec.taken != 0
    ensures Inv(ClientNext(s, t, job, buffer, expired))
  {
    var s' := ClientNext(s, t, job, buffer, expired);
    var c, c' := s.clients[t], s'.clients[t];
    assert ClientOk(c, t, s.slots, s.length);
    var r, pass := IndexOf(c.pc.offset), PassOffsets(s.length);
    ProbesMore(s, t);
    if c.pc.offset + 2 * RECORD_SIZE > s.length {
      assert pass[..r + 1] == pass;
      assert c'.probes == Rounds(s.length, c.pc.pass + 1) + pass[..0];
    }
    assert s'.slots == s.slots[r := s.slots[r]] && SlotOk(s.slots[r]);
    ClientMoves(s, s', t, r);
  }

  lemma ScanInv(s: System, t: nat, job: Job, buffer: nat, expired: bool)
    requires Inv(s) && t < |s.clients| && s.clients[t].pc.Scan?
    ensures Inv(ClientNext(s, t, job, buffer, expired))
  {
    if s.slots[IndexOf(s.clients[t].pc.offset)].rec.taken == 0 {
      WonInv(s, t, job, buffer, expired);
    } else {
      LostInv(s, t, job, buffer, expired);
    }
  }

  /** What a store of SubmitRequest but the publishing one leaves alone. */
  lemma FillKeeps(c: Client, slot: Slot)
    requires c.pc.Fill? && SlotOk(slot) && slot.use.Filling? && c.pc.j + 1 < |FillProgram(c.pid, c.pc.call.job)|
    requires DoneUpTo(FillProgram(c.pid, c.pc.call.job), c.pc.j, slot.rec)
    ensures var program := FillProgram(c.pid, c.pc.call.job);
      && SlotOk(slot.(rec := Apply(program[c.pc.j], slot.rec)))
      && DoneUpTo(program, c.pc.j + 1, Apply(program[c.pc.j], slot.rec))
  {
    var program := FillProgram(c.pid, c.pc.call.job);
    FillDistinct(c.pid, c.pc.call.job);
    StoreKeepsDone(program, c.pc.j, slot.rec);
    assert Target(program[c.pc.j]) !in {-1, -2, -3};
  }

  lemma FillMoreInv(s: System, t: nat, job: Job, buffer: nat, expired: bool)
    requires Inv(s) && t < |s.clients| && s.clients[t].pc.Fill?
    requires s.clients[t].pc.j + 1 < |FillProgram(s.clients[t].pid, s.clients[t].pc.call.job)|
    ensures Inv(ClientNext(s, t, job, buffer, expired))
  {
    var s' := ClientNext(s, t, job, buffer, expired);
    var c := s.clients[t];
    assert ClientOk(c, t, s.slots, s.length);
    FillKeeps(c, s.slots[c.pc.r]);
    ClientMoves(s, s', t, c.pc.r);
  }

  /** The publishing store. */
  lemma PublishInv(s: System, t: nat, job: Job, buffer: nat, expired: bool)
    requires Inv(s) && t < |s.clients| && s.clients[t].pc.Fill?
    requires s.clients[t].pc.j + 1 == |FillProgram(s.clients[t].pid, s.clients[t].pc.call.job)|
    ensures Inv(ClientNext(s, t, job, buffer, expired))
  {
    var s' := ClientNext(s, t, job, buffer, expired);
    var c := s.clients[t];
    assert ClientOk(c, t, s.slots, s.length);
    assert SlotOk(s.slots[c.pc.r]);
    FillComplete(c.pid, c.pc.call.job, s.slots[c.pc.r].rec);
    assert s'.slots[c.pc.r].rec == s.slots[c.pc.r].rec.(state := ReadyForEngine);
    ClientMoves(s, s', t, c.pc.r);
  }

  lemma FillInv(s: System, t: nat, job: Job, buffer: nat, expired: bool)
    requires Inv(s) && t < |s.clients| && s.clients[t].pc.Fill?
    ensures Inv(ClientNext(s, t, job, buffer, expired))
  {
    if s.clients[t].pc.j + 1 < |FillProgram(s.clients[t].pid, s.clients[t].pc.call.job)| {
      FillMoreInv(s, t, job, buffer, expired);
    } else {
      PublishInv(s, t, job, buffer, expired);
    }
  }

  lemma FreeKeeps(slot: Slot, j: nat)
    requires SlotOk(slot) && slot.use.Draining? && j + 1 < |FreeProgram()| && DoneUpTo(FreeProgram(), j, slot.rec)
    ensures var rec' := Apply(FreeProgram()[j], slot.rec);
      SlotOk(slot.(rec := rec')) && DoneUpTo(FreeProgram(), j + 1, rec')
  {
    FreeDistinct();
    StoreKeepsDone(FreeProgram(), j, slot.rec);
  }

  lemma ReleaseMoreInv(s: System, t: nat, job: Job, buffer: nat, expired: bool)
    requires Inv(s) && t < |s.clients| && s.clients[t].pc.Release? && s.clients[t].pc.j + 1 < |FreeProgram()|
    ensures Inv(ClientNext(s, t, job, buffer, expired))
  {
    var s' := ClientNext(s, t, job, buffer, expired);
    var c := s.clients[t];
    assert ClientOk(c, t, s.slots, s.length);
    FreeKeeps(s.slots[c.pc.r], c.pc.j);
    ClientMoves(s, s', t, c.pc.r);
  }

  /** The store that frees the record. */
  lemma ReleasedInv(s: System, t: nat, job: Job, buffer: nat, expired: bool)
    requires Inv(s) && t < |s.clients| && s.clients[t].pc.Release? && s.clients[t].pc.j + 1 == |FreeProgram()|
    ensures Inv(ClientNext(s, t, job, buffer, expired))
  {
    var s' := ClientNext(s, t, job, buffer, expired);
    var c := s.clients[t];
    assert ClientOk(c, t, s.slots, s.length);
    assert SlotOk(s.slots[c.pc.r]);
    FreeComplete(s.slots[c.pc.r].rec);
    assert s'.slots[c.pc.r].rec == Scrubbed();
    ClientMoves(s, s', t, c.pc.r);
  }

  lemma ReleaseInv(s: System, t: nat, job: Job, buffer: nat, expired: bool)
    requires Inv(s) && t < |s.clients| && s.clients[t].pc.Release?
    ensures Inv(ClientNext(s, t, job, buffer, expired))
  {
    if s.clients[t].pc.j + 1 < |FreeProgram()| {
      ReleaseMoreInv(s, t, job, buffer, expired);
    } else {
      ReleasedInv(s, t, job, buffer, expired);
    }
  }

  /** Polling. */
  lemma PollInv(s: System, t: nat, job: Job, buffer: nat, expired: bool)
    requires Inv(s) && t < |s.clients|
    requires s.clients[t].pc.Submitted? || s.clients[t].pc.Poll?
    ensures Inv(ClientNext(s, t, job, buffer, expired))
  {
    var s' := ClientNext(s, t, job, buffer, expired);
    var c := s.clients[t];
    assert ClientOk(c, t, s.slots, s.length);
    var r := c.pc.r;
    assert SlotOk(s.slots[r]);
    assert s.slots == s.slots[r := s.slots[r]];
    ClientMoves(s, s', t, r);
  }

  lemma LateInv(s: System, t: nat)
    requires Inv(s) && t < |s.clients| && s.clients[t].pc.Recheck?
    requires s.slots[s.clients[t].pc.r].rec.state != ReadyForClient
    ensures Inv(Jump(s, t, LateCancel(s.clients[t].pc.call, s.clients[t].pc.r)))
  {
    var r := s.clients[t].pc.r;
    assert ClientOk(s.clients[t], t, s.slots, s.length);
    assert SlotOk(s.slots[r]);
    assert s.slots == s.slots[r := s.slots[r]];
    ClientMoves(s, Jump(s, t, LateCancel(s.clients[t].pc.call, r)), t, r);
  }

  lemma DrainInv(s: System, t: nat)
    requires Inv(s) && t < |s.clients| && s.clients[t].pc.Recheck?
    requires s.slots[s.clients[t].pc.r].rec.state == ReadyForClient
    ensures var pc := s.clients[t].pc;
      Inv(Jump(Mark(s, pc.r, Draining(t)), t, ReadLength(pc.call, pc.r, pc.buffer)))
  {
    var pc := s.clients[t].pc;
    assert ClientOk(s.clients[t], t, s.slots, s.length);
    assert SlotOk(s.slots[pc.r]);
    ClientMoves(s, Jump(Mark(s, pc.r, Draining(t)), t, ReadLength(pc.call, pc.r, pc.buffer)), t, pc.r);
  }

  /** Deciding what the last look at record_state means. */
  lemma RecheckInv(s: System, t: nat, job: Job, buffer: nat, expired: bool)
    requires Inv(s) && t < |s.clients| && s.clients[t].pc.Recheck?
    ensures Inv(ClientNext(s, t, job, buffer, expired))
  {
    if s.slots[s.clients[t].pc.r].rec.state != ReadyForClient {
      LateInv(s, t);
    } else {
      DrainInv(s, t);
    }
  }

  /** Abandoning the slot. */
  lemma AbandonInv(s: System, t: nat)
    requires Inv(s) && t < |s.clients| && s.clients[t].pc.Slept? && s.clients[t].kind == Conv
    ensures var pc := s.clients[t].pc;
      Inv(GiveBack(Mark(s, pc.r, Abandoned), t, Outcome(pc.call, true, None)))
  {
    var c := s.clients[t];
    var s' := GiveBack(Mark(s, c.pc.r, Abandoned), t, Outcome(c.pc.call, true, None));
    assert ClientOk(c, t, s.slots, s.length);
    assert SlotOk(s.slots[c.pc.r]);
    ClientMoves(s, s', t, c.pc.r);
  }

  /** Looking at record_state again, in the wait loop or behind it. */
  lemma LookInv(s: System, t: nat, pc': Pc)
    requires Inv(s) && t < |s.clients| && s.clients[t].pc.Slept?
    requires var pc := s.clients[t].pc;
      pc' == Poll(pc.call, pc.r, pc.buffer)
      || (s.clients[t].kind == Common && pc' == Recheck(pc.call, pc.r, pc.buffer, true))
    ensures Inv(Jump(s, t, pc'))
  {
    var r := s.clients[t].pc.r;
    assert ClientOk(s.clients[t], t, s.slots, s.length);
    assert SlotOk(s.slots[r]);
    assert s.slots == s.slots[r := s.slots[r]];
    ClientMoves(s, Jump(s, t, pc'), t, r);
  }

  /** Timing out: Conv abandons the slot, Common looks once more. */
  lemma TimeoutInv(s: System, t: nat, job: Job, buffer: nat, expired: bool)
    requires Inv(s) && t < |s.clients| && s.clients[t].pc.Slept?
    ensures Inv(ClientNext(s, t, job, buffer, expired))
  {
    var c := s.clients[t];
    if (expired || !s.ready) && c.kind == Conv {
      AbandonInv(s, t);
    } else {
      var pc := c.pc;
      var late := expired || !s.ready;
      LookInv(s, t, if late then Recheck(pc.call, pc.r, pc.buffer, true) else Poll(pc.call, pc.r, pc.buffer));
    }
  }

  /** Cancelling hands the slot to the engine, whatever the engine is doing with it. */
  lemma CancelInv(s: System, t: nat, job: Job, buffer: nat, expired: bool)
    requires Inv(s) && t < |s.clients| && (s.clients[t].pc.PutCancel? || s.clients[t].pc.LateCancel?)
    ensures Inv(ClientNext(s, t, job, buffer, expired))
  {
    var s' := ClientNext(s, t, job, buffer, expired);
    var c := s.clients[t];
    assert ClientOk(c, t, s.slots, s.length);
    var r := c.pc.r;
    var slot := s.slots[r];
    assert SlotOk(slot);
    var slot' := slot.(rec := Apply(SetCancelled(true), slot.rec), use := Disowned);
    CancelKeeps(slot);
    assert s'.slots == s.slots[r := slot'];
    ClientMoves(s, s', t, r);
  }

  lemma CancelKeeps(slot: Slot)
    requires SlotOk(slot) && slot.use.Awaited?
    ensures SlotOk(slot.(rec := Apply(SetCancelled(true), slot.rec), use := Disowned))
  {
    var slot' := slot.(rec := Apply(SetCancelled(true), slot.rec), use := Disowned);
    if slot.handler.Post? {
      var program := AnswerProgram(slot.handler.reply);
      forall i | 0 <= i < slot.handler.j
        ensures Done(program[i], slot'.rec)
      {
        assert Done(program[i], slot.rec);
      }
    }
  }

  lemma LengthInv(s: System, t: nat, job: Job, buffer: nat, expired: bool)
    requires Inv(s) && t < |s.clients| && s.clients[t].pc.ReadLength?
    ensures Inv(ClientNext(s, t, job, buffer, expired))
  {
    var s' := ClientNext(s, t, job, buffer, expired);
    var c := s.clients[t];
    assert ClientOk(c, t, s.slots, s.length);
    var r := c.pc.r;
    assert SlotOk(s.slots[r]);
    assert s'.slots == s.slots[r := s.slots[r]];
    ClientMoves(s, s', t, r);
  }

  lemma CopyMoreInv(s: System, t: nat, got: seq<Byte>)
    requires Inv(s) && t < |s.clients| && s.clients[t].pc.CopyOut?
    requires var pc := s.clients[t].pc;
      |pc.got| < pc.count && |pc.got| < MAX_DATA && got == pc.got + [s.slots[pc.r].rec.data[|pc.got|]]
    ensures var pc := s.clients[t].pc; Inv(Jump(s, t, CopyOut(pc.call, pc.r, pc.buffer, pc.count, got)))
  {
    var pc := s.clients[t].pc;
    assert ClientOk(s.clients[t], t, s.slots, s.length);
    assert SlotOk(s.slots[pc.r]);
    assert s.slots == s.slots[pc.r := s.slots[pc.r]];
    ClientMoves(s, Jump(s, t, CopyOut(pc.call, pc.r, pc.buffer, pc.count, got)), t, pc.r);
  }

  lemma CopiedInv(s: System, t: nat)
    requires Inv(s) && t < |s.clients| && s.clients[t].pc.CopyOut?
    requires var pc := s.clients[t].pc; |pc.got| >= pc.count || |pc.got| >= MAX_DATA
    ensures var pc := s.clients[t].pc; Inv(Jump(s, t, ReadLengthAgain(pc.call, pc.r, pc.buffer, pc.got)))
  {
    var pc := s.clients[t].pc;
    assert ClientOk(s.clients[t], t, s.slots, s.length);
    assert SlotOk(s.slots[pc.r]);
    assert s.slots == s.slots[pc.r := s.slots[pc.r]];
    ClientMoves(s, Jump(s, t, ReadLengthAgain(pc.call, pc.r, pc.buffer, pc.got)), t, pc.r);
  }

  /** Copying the answer out. */
  lemma CopyInv(s: System, t: nat, job: Job, buffer: nat, expired: bool)
    requires Inv(s) && t < |s.clients| && s.clients[t].pc.CopyOut?
    ensures Inv(ClientNext(s, t, job, buffer, expired))
  {
    var pc := s.clients[t].pc;
    if |pc.got| < pc.count && |pc.got| < MAX_DATA {
      CopyMoreInv(s, t, pc.got + [s.slots[pc.r].rec.data[|pc.got|]]);
    } else {
      CopiedInv(s, t);
    }
  }

  /** Writing *bytesret completes the receipt. */
  lemma ReceiptInv(s: System, t: nat, job: Job, buffer: nat, expired: bool)
    requires Inv(s) && t < |s.clients| && s.clients[t].pc.ReadLengthAgain?
    ensures Inv(ClientNext(s, t, job, buffer, expired))
  {
    var s' := ClientNext(s, t, job, buffer, expired);
    var c := s.clients[t];
    assert ClientOk(c, t, s.slots, s.length);
    var r := c.pc.r;
    assert SlotOk(s.slots[r]);
    ReceiptMade(s.slots[r], c);
    assert s'.slots == s.slots[r := s.slots[r]];
    ClientMoves(s, s', t, r);
  }

  lemma ReceiptMade(slot: Slot, c: Client)
    requires c.pc.ReadLengthAgain? && PcShape(c, c.pc.r + 1) && HolderOk(c, slot)
    ensures ReceiptOk(Receipt(c.pc.call, slot.answer, c.pc.buffer, c.pc.got, Min(c.pc.buffer, slot.rec.length)))
  {
    var n, reply := Min(c.pc.buffer, slot.rec.length), slot.answer.value.reply;
    assert slot.rec.data[..slot.rec.length][..n] == slot.rec.data[..n];
  }

  lemma ClientInv(s: System, t: nat, job: Job, buffer: nat, expired: bool)
    requires Inv(s) && t < |s.clients| && |job.data| <= MAX_DATA
    ensures Inv(ClientNext(s, t, job, buffer, expired))
  {
    var pc := s.clients[t].pc;
    if pc.Idle? || pc.CheckReady? {
      IdleInv(s, t, job, buffer, expired);
    } else if pc.Scan? {
      ScanInv(s, t, job, buffer, expired);
    } else if pc.Fill? {
      FillInv(s, t, job, buffer, expired);
    } else if pc.Release? {
      ReleaseInv(s, t, job, buffer, expired);
    } else if pc.PutCancel? || pc.LateCancel? {
      CancelInv(s, t, job, buffer, expired);
    } else if pc.Slept? {
      TimeoutInv(s, t, job, buffer, expired);
    } else if pc.Submitted? || pc.Poll? {
      PollInv(s, t, job, buffer, expired);
    } else if pc.Recheck? {
      RecheckInv(s, t, job, buffer, expired);
    } else if pc.ReadLength? {
      LengthInv(s, t, job, buffer, expired);
    } else if pc.ReadLengthAgain? {
      ReceiptInv(s, t, job, buffer, expired);
    } else {
      CopyInv(s, t, job, buffer, expired);
    }
  }

  /** Every legal step keeps the invariant, as long as requests and answers fit a record. */
  lemma StepInv(s: System, a: Action, bounds: Bounds)
    requires Inv(s) && Legal(s, a, bounds) && bounds.Fit()
    ensures Inv(Next(s, a))
  {
    match a
    case ClientStep(t, job, buffer, expired) => ClientInv(s, t, job, buffer, expired);
    case WorkerStep(r) => WorkerInv(s, r);
    case HandlerStep(r, reply) => HandlerInv(s, r, reply);
    case Toggle(on) =>
      forall r | 0 <= r < |s.slots|
        ensures OwnerOk(Next(s, a), r)
      {
        assert OwnerOk(s, r);
      }
  }
}
