/** The shared-memory request transport: clients claim fixed record slots of one mapped section by
    compare-and-swap, publish a request in a slot, poll for the answer, and scrub and release it.

    The model is a state machine. Every shared read, write and compare-and-swap of the client
    routines (nxrmconv/src/corehlp.cpp, and the sibling client in nxrmdrv/src/common/nxrmcorehlp.cpp)
    and of the engine routines in nxrmdrv/src/common/nxrmcorehlp.cpp is one step, and steps of any
    number of client threads, of the engine's worker thread and of its request handlers interleave
    freely. Block copies move one byte per step. */
module Transport {
  import opened Wrappers

  /** NXRM_SECTION_MAX_DATA_SIZE */
  const MAX_DATA: nat := 3948
  /** sizeof(NXRMSECTIONHDR); also sizeof(NXRMRECORD), which its cache-line alignment rounds up */
  const HEADER_SIZE: nat := 4096
  const RECORD_SIZE: nat := 4096
  const SYSTEM_PID: nat := 4
  const TYPE_INVALID: nat := 0xcccc
  /** AllocRecord gives up after this many passes over the section. */
  const PASSES: nat := 3

  type Byte = b: int | 0 <= b < 256

  /** record_state. Unset is the zero the driver leaves in a section it has just mapped. */
  datatype RecordState = Unset | ReadyForEngine | ReadyForClient | InProcessing | Free | BadRecord

  datatype Record = Record(
    taken: nat, state: RecordState, cancelled: bool, kind: nat, owner: nat, flags: nat,
    length: nat, data: seq<Byte>)

  function ZeroData(): (d: seq<Byte>)
    ensures |d| == MAX_DATA && forall i :: 0 <= i < |d| ==> d[i] == 0
  {
    seq(MAX_DATA, _ => 0)
  }

  /** A record FreeRecord has released. */
  function Scrubbed(): Record {
    Record(0, Free, false, TYPE_INVALID, SYSTEM_PID, 0, 0, ZeroData())
  }

  /** A record of a freshly mapped section. */
  function Zeroed(): Record {
    Record(0, Unset, false, 0, 0, 0, 0, ZeroData())
  }

  // ------------------------------------------------------------------ write programs

  /** One store to a shared record. */
  datatype Op =
    | SetTaken(taken: nat)
    | SetState(state: RecordState)
    | SetCancelled(cancelled: bool)
    | SetKind(kind: nat)
    | SetOwner(owner: nat)
    | SetFlags(flags: nat)
    | SetLength(length: nat)
    | SetByte(at: nat, byte: Byte)

  function Apply(op: Op, rec: Record): (r: Record)
    ensures |r.data| == |rec.data|
  {
    match op
    case SetTaken(n) => rec.(taken := n)
    case SetState(st) => rec.(state := st)
    case SetCancelled(c) => rec.(cancelled := c)
    case SetKind(k) => rec.(kind := k)
    case SetOwner(o) => rec.(owner := o)
    case SetFlags(f) => rec.(flags := f)
    case SetLength(n) => rec.(length := n)
    case SetByte(i, b) => if i < |rec.data| then rec.(data := rec.data[i := b]) else rec
  }

  function CopyOps(bytes: seq<Byte>): (ops: seq<Op>)
    ensures |ops| == |bytes| && forall i :: 0 <= i < |ops| ==> ops[i] == SetByte(i, bytes[i])
  {
    seq(|bytes|, i requires 0 <= i < |bytes| => SetByte(i, bytes[i]))
  }

  /** The bytes of a request that SubmitRequest copies. */
  function Clamped(data: seq<Byte>): (d: seq<Byte>)
    ensures |d| == Min(|data|, MAX_DATA)
  {
    if |data| <= MAX_DATA then data else data[..MAX_DATA]
  }

  /** SubmitRequest from the winning compare-and-swap to the publishing store. Only the copy is cut to a record's
      data; the length is stored as it is. */
  function FillProgram(pid: nat, job: Job): seq<Op> {
    [SetOwner(pid), SetFlags(0), SetKind(job.kind), SetLength(|job.data|)] + CopyOps(Clamped(job.data))
    + [SetState(ReadyForEngine)]
  }

  /** The client's FreeRecord. */
  function FreeProgram(): seq<Op> {
    CopyOps(ZeroData())
    + [SetCancelled(false), SetFlags(0), SetState(Free), SetOwner(SYSTEM_PID), SetKind(TYPE_INVALID),
       SetLength(0), SetTaken(0)]
  }

  /** The engine's release, in recycle_cancel_request and post_response: same stores, other order. */
  function RecycleProgram(): seq<Op> {
    [SetCancelled(false), SetFlags(0), SetState(Free), SetOwner(SYSTEM_PID), SetKind(TYPE_INVALID)]
    + CopyOps(ZeroData()) + [SetLength(0), SetTaken(0)]
  }

  /** post_response when the record is not cancelled and the answer fits. */
  function AnswerProgram(reply: seq<Byte>): seq<Op> {
    [SetFlags(0)] + CopyOps(reply) + [SetLength(|reply|), SetState(ReadyForClient)]
  }

  // ------------------------------------------------------------------ state

  /** What a caller submits: a request it will wait for, or a notification. */
  datatype Job = Job(notify: bool, kind: nat, data: seq<Byte>)

  /** One submission: the job, and a ticket no other submission shares. */
  datatype Call = Call(job: Job, ticket: nat)

  /** What the engine read from a record and what it decided to answer, with the ticket it served. */
  datatype Answer = Answer(ticket: nat, kind: nat, request: seq<Byte>, reply: seq<Byte>)

  /** What WaitForResponse handed back: buffer size, bytes copied, *bytesret, and where they came from. */
  datatype Receipt = Receipt(call: Call, answer: Option<Answer>, buffer: nat, bytes: seq<Byte>, count: nat)

  /** One return of WaitForResponse: TRUE or FALSE, and what it handed back, if anything. */
  datatype Outcome = Outcome(call: Call, ok: bool, receipt: Option<Receipt>)

  /** Conv is CCoreObject (nxrmconv/src/corehlp.cpp), whose timeout returns at once; Common is
      nxrmdrv/src/common/nxrmcorehlp.cpp, whose timeout leaves the loop and re-reads the state. */
  datatype Kind = Conv | Common

  /** late says that a timeout ended the wait loop; no step reads it. */
  datatype Pc =
    | Idle
    | CheckReady(job: Job)
    | Scan(job: Job, pass: nat, offset: nat)
    | Fill(call: Call, r: nat, j: nat)
    | PutCancel(call: Call, r: nat)
    | Submitted(call: Call, r: nat)
    | Poll(call: Call, r: nat, buffer: nat)
    | Slept(call: Call, r: nat, buffer: nat)
    | Recheck(call: Call, r: nat, buffer: nat, late: bool)
    | LateCancel(call: Call, r: nat)
    | ReadLength(call: Call, r: nat, buffer: nat)
    | CopyOut(call: Call, r: nat, buffer: nat, count: nat, got: seq<Byte>)
    | ReadLengthAgain(call: Call, r: nat, buffer: nat, got: seq<Byte>)
    | Release(call: Call, r: nat, j: nat, receipt: Receipt)

  /** A client thread. probes lists the offsets its current AllocRecord has tried; refused says the
      last AllocRecord returned NULL. */
  datatype Client = Client(
    kind: Kind, pid: nat, pc: Pc, probes: seq<nat>, refused: bool, outcomes: seq<Outcome>)

  /** The engine thread that serves one claimed record, up to the end of post_response. */
  datatype Handler =
    | Off
    | ReadKind
    | ReadSize(kind: nat)
    | ReadBytes(kind: nat, size: nat, got: seq<Byte>)
    | Decide(kind: nat, request: seq<Byte>)
    | PostCheck(reply: seq<Byte>)
    | Post(reply: seq<Byte>, j: nat)
    | Reject
    | Scrub(j: nat)

  /** The engine's worker thread: it alone claims pending records and recycles cancelled ones. */
  datatype Worker = Resting | Claiming(r: nat) | CheckingCancel(r: nat) | Recycling(r: nat, j: nat)

  /** Auxiliary: what a slot is being used for. No step reads it. */
  datatype Use =
    | Vacant
    | Filling(t: nat)
    | Awaited(t: nat)
    | Draining(t: nat)
    | Disowned
    | Abandoned
    | Scrubbing

  /** A record with its auxiliary variables: use, the submission it carries, and the answer given to it. */
  datatype Slot = Slot(rec: Record, use: Use, call: Call, handler: Handler, answer: Option<Answer>)

  datatype System = System(
    ready: bool, length: nat, slots: seq<Slot>, clients: seq<Client>, worker: Worker, next: nat)

  // ------------------------------------------------------------------ steps

  /** The choices the environment makes in a step: what a caller asks for, how large its buffer is,
      whether the 30 second timeout has expired, and what the engine replies (None: its callback fails). */
  datatype Action =
    | ClientStep(t: nat, job: Job, buffer: nat, expired: bool)
    | WorkerStep(r: nat)
    | HandlerStep(r: nat, reply: Option<seq<Byte>>)
    | Toggle(on: bool)

  /** How many bytes callers submit, and how many the engine answers, at most. */
  datatype Bounds = Bounds(job: nat, answer: nat) {
    /** SubmitRequest asserts the first, post_response checks the second. */
    predicate Fit() {
      job <= MAX_DATA && answer <= MAX_DATA
    }
  }

  predicate Legal(s: System, a: Action, bounds: Bounds) {
    match a
    case ClientStep(t, job, _, _) => t < |s.clients| && |job.data| <= bounds.job
    case WorkerStep(r) => r < |s.slots|
    case HandlerStep(r, reply) => r < |s.slots| && (reply.Some? ==> |reply.value| <= bounds.answer)
    case Toggle(_) => true
  }

  function Next(s: System, a: Action): System
    requires Shape(s)
  {
    match a
    case ClientStep(t, job, buffer, expired) =>
      if t < |s.clients| then ClientNext(s, t, job, buffer, expired) else s
    case WorkerStep(r) => if r < |s.slots| then WorkerNext(s, r) else s
    case HandlerStep(r, reply) => if r < |s.slots| then HandlerNext(s, r, reply) else s
    case Toggle(on) => s.(ready := on)
  }

  /** How many whole records fit behind the header. */
  function Capacity(length: nat): nat {
    if length < HEADER_SIZE then 0 else (length - HEADER_SIZE) / RECORD_SIZE
  }

  /** The byte offset of record r, and the record at a byte offset. */
  function OffsetOf(r: nat): nat {
    HEADER_SIZE + r * RECORD_SIZE
  }

  function IndexOf(offset: nat): nat {
    if offset < HEADER_SIZE then 0 else (offset - HEADER_SIZE) / RECORD_SIZE
  }

  /** Only indices: every program counter names an existing slot. */
  predicate Shape(s: System) {
    && s.length >= HEADER_SIZE + RECORD_SIZE
    && |s.slots| == Capacity(s.length)
    && (forall t :: 0 <= t < |s.clients| ==> PcShape(s.clients[t], |s.slots|))
    && (match s.worker
        case Resting => true
        case Claiming(r) => r < |s.slots|
        case CheckingCancel(r) => r < |s.slots|
        case Recycling(r, j) => r < |s.slots| && j < |RecycleProgram()|)
    && (forall r :: 0 <= r < |s.slots| ==> SlotShape(s.slots[r]))
  }

  predicate PcShape(c: Client, slots: nat) {
    match c.pc
    case Idle => true
    case CheckReady(_) => true
    case Scan(_, pass, offset) => IndexOf(offset) < slots
    case Fill(call, r, j) => r < slots && j < |FillProgram(c.pid, call.job)|
    case Release(_, r, j, _) => r < slots && j < |FreeProgram()|
    case _ => c.pc.r < slots
  }

  predicate SlotShape(slot: Slot) {
    && |slot.rec.data| == MAX_DATA
    && match slot.handler
       case Post(reply, j) => |reply| <= MAX_DATA && j < |AnswerProgram(reply)|
       case Scrub(j) => j < |RecycleProgram()|
       case _ => true
  }

  /** Store one value in slot r. */
  function Write(s: System, r: nat, op: Op): System
    requires r < |s.slots|
  {
    s.(slots := s.slots[r := s.slots[r].(rec := Apply(op, s.slots[r].rec))])
  }

  function Mark(s: System, r: nat, use: Use): System
    requires r < |s.slots|
  {
    s.(slots := s.slots[r := s.slots[r].(use := use)])
  }

  function Jump(s: System, t: nat, pc: Pc): System
    requires t < |s.clients|
  {
    s.(clients := s.clients[t := s.clients[t].(pc := pc)])
  }

  /** WaitForResponse returns. */
  function GiveBack(s: System, t: nat, ret: Outcome): System
    requires t < |s.clients|
  {
    s.(clients := s.clients[t := s.clients[t].(pc := Idle, outcomes := s.clients[t].outcomes + [ret])])
  }

  /** One step of a client thread. */
  function ClientNext(s: System, t: nat, job: Job, buffer: nat, expired: bool): System
    requires Shape(s) && t < |s.clients|
  {
    var c := s.clients[t];
    match c.pc
    case Idle => Jump(s, t, CheckReady(job))
    case CheckReady(job) =>
      // AllocRecord reads hdr.ready once.
      s.(clients := s.clients[t :=
        if s.ready then c.(pc := Scan(job, 0, HEADER_SIZE), probes := [], refused := false)
        else c.(pc := Idle, probes := [], refused := true)])
    case Scan(job, pass, offset) => ScanNext(s, t, job, pass, offset)
    case Fill(call, r, j) =>
      var program := FillProgram(c.pid, call.job);
      var s' := Write(s, r, program[j]);
      if j + 1 < |program| then Jump(s', t, Fill(call, r, j + 1))
      else Jump(Mark(s', r, Awaited(t)), t, if call.job.notify then PutCancel(call, r) else Submitted(call, r))
    case PutCancel(call, r) => Jump(Mark(Write(s, r, SetCancelled(true)), r, Disowned), t, Idle)
    case Submitted(call, r) => Jump(s, t, Poll(call, r, buffer))
    case Poll(call, r, buffer) =>
      Jump(s, t, if s.slots[r].rec.state == ReadyForClient then Recheck(call, r, buffer, false)
                 else Slept(call, r, buffer))
    case Slept(call, r, buffer) =>
      if !(expired || !s.ready) then Jump(s, t, Poll(call, r, buffer))
      else if c.kind == Conv then GiveBack(Mark(s, r, Abandoned), t, Outcome(call, true, None))
      else Jump(s, t, Recheck(call, r, buffer, true))
    case Recheck(call, r, buffer, _) =>
      if s.slots[r].rec.state != ReadyForClient then Jump(s, t, LateCancel(call, r))
      else Jump(Mark(s, r, Draining(t)), t, ReadLength(call, r, buffer))
    case LateCancel(call, r) =>
      GiveBack(Mark(Write(s, r, SetCancelled(true)), r, Disowned), t, Outcome(call, false, None))
    case ReadLength(call, r, buffer) =>
      Jump(s, t, CopyOut(call, r, buffer, Min(buffer, s.slots[r].rec.length), []))
    case CopyOut(call, r, buffer, count, got) =>
      if |got| < count && |got| < MAX_DATA
      then Jump(s, t, CopyOut(call, r, buffer, count, got + [s.slots[r].rec.data[|got|]]))
      else Jump(s, t, ReadLengthAgain(call, r, buffer, got))
    case ReadLengthAgain(call, r, buffer, got) =>
      var receipt := Receipt(call, s.slots[r].answer, buffer, got, Min(buffer, s.slots[r].rec.length));
      Jump(s, t, Release(call, r, 0, receipt))
    case Release(call, r, j, receipt) =>
      var s' := Write(s, r, FreeProgram()[j]);
      if j + 1 < |FreeProgram()| then Jump(s', t, Release(call, r, j + 1, receipt))
      else GiveBack(Mark(s', r, Vacant), t, Outcome(call, true, Some(receipt)))
  }

  /** One probe of AllocRecord: InterlockedCompareExchange on the record at offset, then the two loop tests. */
  function ScanNext(s: System, t: nat, job: Job, pass: nat, offset: nat): System
    requires Shape(s) && t < |s.clients| && IndexOf(offset) < |s.slots|
  {
    var c := s.clients[t];
    var r := IndexOf(offset);
    var tried := c.probes + [offset];
    if s.slots[r].rec.taken == 0 then
      var call := Call(job, s.next);
      s.(slots := s.slots[r := Slot(s.slots[r].rec.(taken := c.pid), Filling(t), call, s.slots[r].handler, None)],
         clients := s.clients[t := c.(pc := Fill(call, r, 0), probes := tried)],
         next := s.next + 1)
    else
      var offset' := offset + RECORD_SIZE;
      var pc' :=
        if offset' + RECORD_SIZE <= s.length then Scan(job, pass, offset')
        else if pass + 1 < PASSES then Scan(job, pass + 1, HEADER_SIZE)
        else Idle;
      s.(clients := s.clients[t := c.(pc := pc', probes := tried, refused := pc' == Idle)])
  }

  /** One step of the engine's worker; r is the record its scan looks at when it is between records. */
  function WorkerNext(s: System, r: nat): System
    requires Shape(s) && r < |s.slots|
  {
    match s.worker
    case Resting =>
      if s.slots[r].rec.state == ReadyForEngine then s.(worker := Claiming(r))
      else if s.slots[r].rec.state in {ReadyForClient, BadRecord} then s.(worker := CheckingCancel(r))
      else s
    case Claiming(q) =>
      var slot := s.slots[q];
      s.(worker := Resting,
         slots := s.slots[q := slot.(rec := Apply(SetState(InProcessing), slot.rec), handler := ReadKind)])
    case CheckingCancel(q) =>
      if s.slots[q].rec.cancelled then Mark(s, q, Scrubbing).(worker := Recycling(q, 0))
      else s.(worker := Resting)
    case Recycling(q, j) =>
      var s' := Write(s, q, RecycleProgram()[j]);
      if j + 1 < |RecycleProgram()| then s'.(worker := Recycling(q, j + 1))
      else Mark(s', q, Vacant).(worker := Resting)
  }

  function HandlerNext(s: System, r: nat, reply: Option<seq<Byte>>): System
    requires Shape(s) && r < |s.slots|
  {
    s.(slots := s.slots[r := SlotNext(s.slots[r], reply)])
  }

  /** One step of the handler of a slot: read the request, call back, post_response. */
  function SlotNext(slot: Slot, reply: Option<seq<Byte>>): Slot
    requires SlotShape(slot)
  {
    match slot.handler
    case Off => slot
    case ReadKind => slot.(handler := ReadSize(slot.rec.kind))
    case ReadSize(kind) => slot.(handler := ReadBytes(kind, slot.rec.length, []))
    case ReadBytes(kind, size, got) =>
      if |got| < size && |got| < MAX_DATA
      then slot.(handler := ReadBytes(kind, size, got + [slot.rec.data[|got|]]))
      else slot.(handler := Decide(kind, got))
    case Decide(kind, request) =>
      (match reply
       case None => slot.(handler := Reject)
       case Some(bytes) =>
         slot.(handler := PostCheck(bytes), answer := Some(Answer(slot.call.ticket, kind, request, bytes))))
    case PostCheck(bytes) =>
      if slot.rec.cancelled || |bytes| > MAX_DATA then slot.(handler := Scrub(0), use := Scrubbing)
      else slot.(handler := Post(bytes, 0))
    case Post(bytes, j) =>
      slot.(rec := Apply(AnswerProgram(bytes)[j], slot.rec),
            handler := if j + 1 < |AnswerProgram(bytes)| then Post(bytes, j + 1) else Off)
    case Reject => slot.(rec := Apply(SetState(BadRecord), slot.rec), handler := Off)
    case Scrub(j) =>
      var rec' := Apply(RecycleProgram()[j], slot.rec);
      if j + 1 < |RecycleProgram()| then slot.(rec := rec', handler := Scrub(j + 1))
      else slot.(rec := rec', handler := Off, use := Vacant)
  }

  // ------------------------------------------------------------------ runs

  /** A section as the driver maps it: at least one record, every record zeroed or scrubbed, nobody active. */
  predicate Initial(s: System) {
    && s.length >= HEADER_SIZE + RECORD_SIZE
    && |s.slots| == Capacity(s.length)
    && s.worker == Resting
    && (forall r :: 0 <= r < |s.slots| ==>
          && s.slots[r].rec in {Zeroed(), Scrubbed()}
          && s.slots[r].use == Vacant && s.slots[r].handler == Off)
    && (forall t :: 0 <= t < |s.clients| ==>
          && s.clients[t].pc == Idle && s.clients[t].pid > 0
          && s.clients[t].probes == [] && s.clients[t].outcomes == [] && !s.clients[t].refused)
  }
}
