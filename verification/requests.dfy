// The client connection as an interleaving of atomic steps: any number of concurrent
// `request` calls, the reader, the writer and any number of closers share the pending
// map, the outbound queue, the `closed` flag and the close reason. One step is one lock
// region or one atomic access of the source.

module Requests {
  import opened Core

  const OUTBOUND_QUEUE_CAPACITY: nat := 64

  datatype Reason = Protocol(message: string) | Closed | Io(kind: nat, text: string)

  datatype Reply = Payload(json: string) | ServerError(code: string, text: string)

  /** Where a failing request learnt that the connection is gone. */
  datatype Exit = AtStart | OutboundFull | OutboundGone | Withdrawn | Cancelled

  /** These exits have seen `closed` or a dropped sender. */
  predicate AfterClose(exit: Exit) { exit.AtStart? || exit.Withdrawn? || exit.Cancelled? }

  /** Program point of one `request` call. */
  datatype Caller =
    | Checking
    | Encoding
    | Encoded(id: nat)
    | Registered(id: nat)
    | QueueFull(id: nat)
    | QueueGone(id: nat)
    | Enqueued(id: nat)
    | Withdrawing(id: nat)
    | Awaiting(id: nat)
    | Abandoned(id: nat)
    | ReadingReason(exit: Exit)
    | Answered(id: nat, reply: Reply)
    | Failed(exit: Exit, reason: Reason)
    | Rejected

  /** The oneshot channel of a request: sender alive, value sent, or sender dropped. */
  datatype Channel = Open | Sent(reply: Reply) | Dropped

  /** Program point of one closer; `TakeOutbound` is the explicit `close` only. */
  datatype Closer =
    | TakeOutbound
    | SetReason(why: Reason)
    | SetClosed
    | Drain
    | DropSenders(held: set<nat>)
    | Finished

  datatype Writer = Running | Closing(closer: nat) | Gone

  /**
   * What requests and closers share. `owner` (caller of an id), `holder` (closer that drained
   * an id), `drained` and `responses` only record history.
   */
  datatype Table = Table(
    callers: map<nat, Caller>,
    nextId: nat,
    pending: set<nat>,
    channels: map<nat, Channel>,
    closed: bool,
    reason: Option<Reason>,
    closers: map<nat, Closer>,
    owner: map<nat, nat>,
    holder: map<nat, nat>,
    drained: bool,
    responses: seq<(nat, Reply)>)

  /** `outbound` counts the queued lines and is `None` once `close` took the sender. */
  datatype State = State(
    table: Table,
    outbound: Option<nat>,
    writer: Writer,
    readerRunning: bool,
    eventsClosed: bool)

  datatype Step =
    | Call(c: nat)
    | CheckClosed(c: nat)
    | Encode(c: nat)
    | EncodeFails(c: nat, consumesId: bool)
    | Register(c: nat)
    | Enqueue(c: nat)
    | GiveUpFull(c: nat)
    | GiveUpGone(c: nat)
    | Recheck(c: nat)
    | Withdraw(c: nat)
    | Receive(c: nat)
    | Abandon(c: nat)
    | ReadReason(c: nat)
    | Respond(id: nat, reply: Reply)
    | ReaderEnds(k: nat, why: Reason)
    | WriteLine
    | WriterFails(k: nat, why: Reason)
    | WriterExits
    | CallClose(k: nat)
    | TakeSender(k: nat)
    | RecordReason(k: nat)
    | MarkClosed(k: nat)
    | DrainPending(k: nat)
    | DropSender(k: nat, id: nat)
    | CloseEvents(k: nat)

  /** A connected client, before any request; ids start at 1. */
  const INITIAL := State(Table(map[], 1, {}, map[], false, None, map[], map[], map[], false, []),
                         Some(0), Running, true, false)

  function CloseError(t: Table): Reason {
    match t.reason case Some(r) => r case None => Closed
  }

  function Goto(t: Table, c: nat, pc: Caller): Table { t.(callers := t.callers[c := pc]) }

  function CloserGoto(t: Table, k: nat, pc: Closer): Table { t.(closers := t.closers[k := pc]) }

  function AllocateId(t: Table, c: nat): Table {
    Goto(t, c, Encoded(t.nextId)).(nextId := t.nextId + 1, owner := t.owner[t.nextId := c])
  }

  function Insert(t: Table, c: nat, id: nat): Table {
    Goto(t, c, Registered(id)).(pending := t.pending + {id}, channels := t.channels[id := Open])
  }

  /** Removing an entry of the pending map drops its sender. */
  function Remove(t: Table, c: nat, id: nat, pc: Caller): (r: Table)
    ensures r.callers == t.callers[c := pc] && r.reason == t.reason && r.closers == t.closers
  {
    if id in t.pending
    then Goto(t, c, pc).(pending := t.pending - {id}, channels := t.channels[id := Dropped])
    else Goto(t, c, pc)
  }

  /** The reader takes the entry and sends the answer under one lock. */
  function Dispatch(t: Table, id: nat, reply: Reply): (r: Table)
    ensures r.callers == t.callers && r.reason == t.reason && r.closers == t.closers
  {
    var t1 := t.(responses := t.responses + [(id, reply)]);
    if id in t.pending
    then t1.(pending := t.pending - {id}, channels := t.channels[id := Sent(reply)])
    else t1
  }

  /** The first recorded reason wins. */
  function StoreReason(t: Table, k: nat, why: Reason): (r: Table)
    ensures r.closers == t.closers[k := SetClosed]
  {
    CloserGoto(t, k, SetClosed).(reason := if t.reason.None? then Some(why) else t.reason)
  }

  function StoreClosed(t: Table, k: nat): (r: Table)
    ensures r.closers == t.closers[k := Drain]
  {
    CloserGoto(t, k, Drain).(closed := true)
  }

  function TakeAll(t: Table, k: nat): (r: Table)
    ensures r.closers == t.closers[k := DropSenders(t.pending)]
  {
    CloserGoto(t, k, DropSenders(t.pending)).(
      pending := {}, drained := true, holder := t.holder + map id | id in t.pending :: k)
  }

  function DropOne(t: Table, k: nat, held: set<nat>, id: nat): (r: Table)
    ensures r.closers == t.closers[k := DropSenders(held - {id})]
  {
    CloserGoto(t, k, DropSenders(held - {id})).(channels := t.channels[id := Dropped])
  }

  predicate IsCallerStep(step: Step) {
    step.CheckClosed? || step.Encode? || step.EncodeFails? || step.Register? || step.GiveUpFull? || step.GiveUpGone?
    || step.Recheck? || step.Withdraw? || step.Receive? || step.Abandon? || step.ReadReason?
  }

  predicate IsCloserStep(step: Step) {
    step.TakeSender? || step.RecordReason? || step.MarkClosed? || step.DrainPending? || step.DropSender?
    || step.CloseEvents?
  }

  predicate Over(pc: Caller) { pc.Answered? || pc.Failed? || pc.Rejected? || pc.Abandoned? }

  /** `r` moves the caller `c` and touches neither the closers nor the reason. */
  ghost predicate MovesOnly(t: Table, c: nat, r: Table) {
    && r.reason == t.reason && r.closers == t.closers
    && forall d :: d in t.callers && d != c ==> d in r.callers && r.callers[d] == t.callers[d]
  }

  predicate IsEntryStep(step: Step) { step.CheckClosed? || step.Encode? || step.EncodeFails? || step.Register? }

  /** Up to the registration. */
  function EntryStep(t: Table, pc: Caller, step: Step): (r: Option<Table>)
    requires IsEntryStep(step)
    ensures r.Some? ==> MovesOnly(t, step.c, r.value) && !Over(pc)
  {
    match step
    case CheckClosed(c) =>
      if pc.Checking? then Some(Goto(t, c, if t.closed then ReadingReason(AtStart) else Encoding)) else None
    case Encode(c) =>
      if pc.Encoding? then Some(AllocateId(t, c)) else None
    case EncodeFails(c, consumesId) =>
      if pc.Encoding?
      then Some(Goto(t, c, Rejected).(nextId := if consumesId then t.nextId + 1 else t.nextId)) else None
    case Register(c) =>
      if pc.Encoded? then Some(Insert(t, c, pc.id)) else None
  }

  /** From the answer of the outbound queue on. */
  function LiveStep(t: Table, pc: Caller, step: Step): (r: Option<Table>)
    requires IsCallerStep(step) && !IsEntryStep(step)
    ensures r.Some? ==> MovesOnly(t, step.c, r.value) && !Over(pc)
  {
    match step
    case GiveUpFull(c) =>
      if pc.QueueFull? then Some(Remove(t, c, pc.id, Failed(OutboundFull, Closed))) else None
    case GiveUpGone(c) =>
      if pc.QueueGone? then Some(Remove(t, c, pc.id, ReadingReason(OutboundGone))) else None
    case Recheck(c) =>
      if pc.Enqueued? then Some(Goto(t, c, if t.closed then Withdrawing(pc.id) else Awaiting(pc.id))) else None
    case Withdraw(c) =>
      if pc.Withdrawing?
      then Some(Remove(t, c, pc.id, if pc.id in t.pending then ReadingReason(Withdrawn) else Awaiting(pc.id)))
      else None
    case Receive(c) =>
      if !pc.Awaiting? || pc.id !in t.channels || t.channels[pc.id].Open? then None
      else if t.channels[pc.id].Sent? then Some(Goto(t, c, Answered(pc.id, t.channels[pc.id].reply)))
      else Some(Goto(t, c, ReadingReason(Cancelled)))
    case Abandon(c) =>
      if pc.Awaiting? then Some(Goto(t, c, Abandoned(pc.id))) else None
    case ReadReason(c) =>
      if pc.ReadingReason? then Some(Goto(t, c, Failed(pc.exit, CloseError(t)))) else None
  }

  /** The table after a caller step that touches nothing but the table; `None` when not possible. */
  function CallerStep(t: Table, pc: Caller, step: Step): (r: Option<Table>)
    requires IsCallerStep(step)
    ensures r.Some? ==> MovesOnly(t, step.c, r.value) && !Over(pc)
  {
    if IsEntryStep(step) then EntryStep(t, pc, step) else LiveStep(t, pc, step)
  }

  /** The table after a closer step; `None` when not possible. */
  function CloserStep(t: Table, pc: Closer, step: Step): (r: Option<Table>)
    requires IsCloserStep(step)
    ensures r.Some? ==> r.value.callers == t.callers && (t.reason.Some? ==> r.value.reason == t.reason)
  {
    match step
    case TakeSender(k) =>
      if pc.TakeOutbound? then Some(CloserGoto(t, k, SetReason(Closed))) else None
    case RecordReason(k) =>
      if pc.SetReason? then Some(StoreReason(t, k, pc.why)) else None
    case MarkClosed(k) =>
      if pc.SetClosed? then Some(StoreClosed(t, k)) else None
    case DrainPending(k) =>
      if pc.Drain? then Some(TakeAll(t, k)) else None
    case DropSender(k, id) =>
      if pc.DropSenders? && id in pc.held then Some(DropOne(t, k, pc.held, id)) else None
    case CloseEvents(k) =>
      if pc.DropSenders? && pc.held == {} then Some(CloserGoto(t, k, Finished)) else None
    case _ => None
  }

  function ApplyCaller(s: State, step: Step): Option<State>
    requires IsCallerStep(step)
  {
    if step.c !in s.table.callers then None
    else match CallerStep(s.table, s.table.callers[step.c], step)
      case Some(t) => Some(s.(table := t))
      case None => None
  }

  function ApplyCloser(s: State, step: Step): Option<State>
    requires IsCloserStep(step)
  {
    if step.k !in s.table.closers then None
    else match CloserStep(s.table, s.table.closers[step.k], step)
      case Some(t) =>
        Some(s.(table := t,
                outbound := if step.TakeSender? then None else s.outbound,
                eventsClosed := s.eventsClosed || step.CloseEvents?))
      case None => None
  }

  /** `try_send` finds the queue gone, full, or with room. */
  function TrySend(s: State, id: nat): Caller {
    if s.outbound.None? || s.writer.Gone? then QueueGone(id)
    else if s.outbound.value >= OUTBOUND_QUEUE_CAPACITY then QueueFull(id)
    else Enqueued(id)
  }

  function EnqueueLine(s: State, c: nat, id: nat): State {
    s.(table := Goto(s.table, c, TrySend(s, id)),
       outbound := if TrySend(s, id).Enqueued? then Some(s.outbound.value + 1) else s.outbound)
  }

  /** New requests and closers, the outbound queue, the reader and the writer. */
  function ApplyOther(s: State, step: Step): Option<State>
    requires !IsCallerStep(step) && !IsCloserStep(step)
  {
    var t := s.table;
    match step
    case Call(c) =>
      if c in t.callers then None else Some(s.(table := Goto(t, c, Checking)))
    case Enqueue(c) =>
      if c in t.callers && t.callers[c].Registered? then Some(EnqueueLine(s, c, t.callers[c].id)) else None
    case Respond(id, reply) =>
      if s.readerRunning then Some(s.(table := Dispatch(t, id, reply))) else None
    case ReaderEnds(k, why) =>
      if !s.readerRunning || k in t.closers then None
      else Some(s.(table := CloserGoto(t, k, SetReason(why)), readerRunning := false))
    case WriteLine =>
      if s.writer.Running? && s.outbound.Some? && s.outbound.value > 0
      then Some(s.(outbound := Some(s.outbound.value - 1))) else None
    case WriterFails(k, why) =>
      if !s.writer.Running? || k in t.closers then None
      else Some(s.(table := CloserGoto(t, k, SetReason(why)), writer := Closing(k)))
    case WriterExits =>
      if (s.writer.Running? && s.outbound.None?) ||
         (s.writer.Closing? && s.writer.closer in t.closers && t.closers[s.writer.closer].Finished?)
      then Some(s.(writer := Gone)) else None
    case CallClose(k) =>
      if k in t.closers then None else Some(s.(table := CloserGoto(t, k, TakeOutbound)))
    case _ => None
  }

  /** One atomic step; `None` when it is not possible in `s`. */
  function Apply(s: State, step: Step): Option<State> {
    if IsCallerStep(step) then ApplyCaller(s, step)
    else if IsCloserStep(step) then ApplyCloser(s, step)
    else ApplyOther(s, step)
  }

  /** The state after a run, `None` when some step of it was not possible. */
  function Run(s: State, steps: seq<Step>): Option<State>
    decreases |steps|
  {
    if steps == [] then Some(s)
    else match Apply(s, steps[0])
      case Some(s') => Run(s', steps[1..])
      case None => None
  }

  // ----- invariant -----

  predicate PastReason(k: Closer) { !k.TakeOutbound? && !k.SetReason? }

  predicate PastClosed(k: Closer) { PastReason(k) && !k.SetClosed? }

  predicate PastDrain(k: Closer) { k.DropSenders? || k.Finished? }

  function Held(k: Closer): set<nat> { if k.DropSenders? then k.held else {} }

  /** Registered, but still ahead of the second look at `closed`. */
  predicate BeforeRecheck(pc: Caller) {
    pc.Registered? || pc.QueueFull? || pc.QueueGone? || pc.Enqueued? || pc.Withdrawing?
  }

  /** The id a caller may still have in the pending map. */
  function LiveId(pc: Caller): Option<nat> {
    if BeforeRecheck(pc) || pc.Awaiting? || pc.Abandoned? then Some(pc.id) else None
  }

  predicate CallerOk(t: Table, c: nat, pc: Caller) {
    && (pc.Encoded? ==> pc.id < t.nextId && pc.id !in t.channels && pc.id in t.owner && t.owner[pc.id] == c)
    && (LiveId(pc).Some? ==> pc.id in t.channels && pc.id in t.owner && t.owner[pc.id] == c)
    && (LiveId(pc).Some? && !BeforeRecheck(pc) && t.drained ==> pc.id !in t.pending)
    && (pc.Withdrawing? ==> t.closed)
    && (pc.ReadingReason? && AfterClose(pc.exit) ==> t.reason.Some?)
    && (pc.Answered? ==> pc.id in t.channels && t.channels[pc.id] == Sent(pc.reply))
    && (pc.Answered? ==> pc.id in t.owner && t.owner[pc.id] == c)
    && (pc.Failed? && AfterClose(pc.exit) ==> t.reason == Some(pc.reason))
    && (pc.Failed? && !AfterClose(pc.exit) ==> pc.reason == Closed || t.reason == Some(pc.reason))
    && (pc.Failed? && pc.exit.OutboundFull? ==> pc.reason == Closed)
    && (pc.ReadingReason? ==> !pc.exit.OutboundFull?)
  }

  predicate CloserOk(t: Table, k: nat, pc: Closer) {
    && (PastReason(pc) ==> t.reason.Some?)
    && (PastClosed(pc) ==> t.closed)
    && (PastDrain(pc) ==> t.drained)
    && forall id :: id in Held(pc) ==>
         id in t.channels && t.channels[id].Open? && id !in t.pending && id in t.holder && t.holder[id] == k
  }

  predicate PendingOk(t: Table, id: nat) {
    && id in t.channels && t.channels[id].Open? && id in t.owner && t.owner[id] in t.callers
    && LiveId(t.callers[t.owner[id]]) == Some(id)
  }

  predicate HeldByCloser(t: Table, id: nat) {
    id in t.holder && t.holder[id] in t.closers && id in Held(t.closers[t.holder[id]])
  }

  predicate DroppedUnderOwner(t: Table, id: nat)
    requires id in t.channels
  {
    t.channels[id].Dropped? && id in t.owner && t.owner[id] in t.callers && LiveId(t.callers[t.owner[id]]) == Some(id)
  }

  predicate ChannelOk(t: Table, id: nat)
    requires id in t.channels
  {
    && id < t.nextId
    && (t.channels[id].Open? ==> id in t.pending || HeldByCloser(t, id))
    && (t.channels[id].Sent? ==> (id, t.channels[id].reply) in t.responses)
    && (DroppedUnderOwner(t, id) ==> t.reason.Some?)
  }

  predicate GlobalOk(t: Table) {
    && (t.closed ==> t.reason.Some?) && (t.drained ==> t.closed)
    && forall id :: id in t.owner ==> id < t.nextId
  }

  predicate CallersOk(t: Table) { forall c :: c in t.callers ==> CallerOk(t, c, t.callers[c]) }

  predicate ClosersOk(t: Table) { forall k :: k in t.closers ==> CloserOk(t, k, t.closers[k]) }

  predicate PendingsOk(t: Table) { forall id :: id in t.pending ==> PendingOk(t, id) }

  predicate ChannelsOk(t: Table) { forall id :: id in t.channels ==> ChannelOk(t, id) }

  predicate Inv(t: Table) {
    CallersOk(t) && ClosersOk(t) && PendingsOk(t) && ChannelsOk(t) && GlobalOk(t)
  }

  /** Moving one caller on, when that gives up no pending entry. */
  lemma GotoKeepsInv(t: Table, c: nat, pc: Caller)
    requires Inv(t) && CallerOk(t, c, pc)
    requires c in t.callers && LiveId(t.callers[c]).Some? ==>
               LiveId(pc) == LiveId(t.callers[c]) || t.callers[c].id !in t.pending
    requires LiveId(pc).Some? ==> c in t.callers && LiveId(t.callers[c]) == LiveId(pc)
    ensures Inv(Goto(t, c, pc))
  {
  }

  lemma AllocateKeepsInv(t: Table, c: nat)
    requires Inv(t) && c in t.callers && t.callers[c].Encoding?
    ensures Inv(AllocateId(t, c))
  {
  }

  lemma InsertKeepsInv(t: Table, c: nat)
    requires Inv(t) && c in t.callers && t.callers[c].Encoded?
    ensures Inv(Insert(t, c, t.callers[c].id))
  {
  }

  lemma RemoveKeepsInv(t: Table, c: nat, id: nat, pc: Caller)
    requires Inv(t) && c in t.callers && LiveId(t.callers[c]) == Some(id) && id in t.pending
    requires CallerOk(t, c, pc) && !pc.Encoded? && LiveId(pc).None? && !pc.Answered?
    ensures Inv(Remove(t, c, id, pc))
  {
  }

  lemma DispatchKeepsInv(t: Table, id: nat, reply: Reply)
    requires Inv(t)
    ensures Inv(Dispatch(t, id, reply))
  {
    var t' := Dispatch(t, id, reply);
    if id in t.pending {
      forall c | c in t'.callers ensures CallerOk(t', c, t'.callers[c]) { assert CallerOk(t, c, t.callers[c]); }
      forall k | k in t'.closers ensures CloserOk(t', k, t'.closers[k]) { assert CloserOk(t, k, t.closers[k]); }
      assert PendingOk(t, id);
    }
  }

  lemma CloserGotoKeepsInv(t: Table, k: nat, pc: Closer)
    requires Inv(t) && CloserOk(t, k, pc) && Held(pc) == {}
    requires k in t.closers ==> Held(t.closers[k]) == {}
    ensures Inv(CloserGoto(t, k, pc))
  {
  }

  lemma StoreReasonKeepsInv(t: Table, k: nat, why: Reason)
    requires Inv(t) && k in t.closers && t.closers[k].SetReason?
    ensures Inv(StoreReason(t, k, why))
  {
  }

  lemma StoreClosedKeepsInv(t: Table, k: nat)
    requires Inv(t) && k in t.closers && t.closers[k].SetClosed?
    ensures Inv(StoreClosed(t, k))
  {
  }

  lemma TakeAllKeepsInv(t: Table, k: nat)
    requires Inv(t) && k in t.closers && t.closers[k].Drain?
    ensures Inv(TakeAll(t, k))
  {
    var t' := TakeAll(t, k);
    forall l | l in t'.closers ensures CloserOk(t', l, t'.closers[l]) { assert CloserOk(t, l, t.closers[l]); }
    forall id | id in t'.channels ensures ChannelOk(t', id) { assert ChannelOk(t, id); }
  }

  lemma DropOneKeepsInv(t: Table, k: nat, id: nat)
    requires Inv(t) && k in t.closers && t.closers[k].DropSenders? && id in t.closers[k].held
    ensures Inv(DropOne(t, k, t.closers[k].held, id))
  {
    var t' := DropOne(t, k, t.closers[k].held, id);
    assert CloserOk(t, k, t.closers[k]);
    forall l | l in t'.closers ensures CloserOk(t', l, t'.closers[l]) { assert CloserOk(t, l, t.closers[l]); }
    forall i | i in t'.channels ensures ChannelOk(t', i) { assert ChannelOk(t, i); }
  }

  lemma CallerStepKeepsInv(t: Table, c: nat, step: Step)
    requires Inv(t) && IsCallerStep(step) && step.c == c && c in t.callers
    requires CallerStep(t, t.callers[c], step).Some?
    ensures Inv(CallerStep(t, t.callers[c], step).value)
  {
    hide Inv, EntryStep, LiveStep;
    if IsEntryStep(step) {
      EntryStepKeepsInv(t, c, step);
    } else {
      LiveStepKeepsInv(t, c, step);
    }
  }

  lemma EntryStepKeepsInv(t: Table, c: nat, step: Step)
    requires Inv(t) && IsEntryStep(step) && step.c == c && c in t.callers
    requires EntryStep(t, t.callers[c], step).Some?
    ensures Inv(EntryStep(t, t.callers[c], step).value)
  {
    hide Inv, Goto, Insert, AllocateId;
    match step
    case CheckClosed(_) => CheckKeepsInv(t, c);
    case Encode(_) => AllocateKeepsInv(t, c);
    case EncodeFails(_, consumesId) => SkipIdKeepsInv(t, c, if consumesId then t.nextId + 1 else t.nextId);
    case Register(_) => InsertKeepsInv(t, c);
  }

  lemma LiveStepKeepsInv(t: Table, c: nat, step: Step)
    requires Inv(t) && IsCallerStep(step) && !IsEntryStep(step) && step.c == c && c in t.callers
    requires LiveStep(t, t.callers[c], step).Some?
    ensures Inv(LiveStep(t, t.callers[c], step).value)
  {
    hide Inv, Goto, Remove, CloseError;
    match step
    case GiveUpFull(_) => GiveUpKeepsInv(t, c);
    case GiveUpGone(_) => GiveUpKeepsInv(t, c);
    case Recheck(_) => RecheckKeepsInv(t, c);
    case Withdraw(_) => WithdrawKeepsInv(t, c);
    case Receive(_) => ReceiveKeepsInv(t, c);
    case Abandon(_) => AbandonKeepsInv(t, c);
    case ReadReason(_) => ReadReasonKeepsInv(t, c);
  }

  lemma CheckKeepsInv(t: Table, c: nat)
    requires Inv(t) && c in t.callers && t.callers[c].Checking?
    ensures Inv(Goto(t, c, if t.closed then ReadingReason(AtStart) else Encoding))
  {
    assert t.closed ==> t.reason.Some?;
    hide Inv;
    GotoKeepsInv(t, c, if t.closed then ReadingReason(AtStart) else Encoding);
  }

  lemma ReadReasonKeepsInv(t: Table, c: nat)
    requires Inv(t) && c in t.callers && t.callers[c].ReadingReason?
    ensures Inv(Goto(t, c, Failed(t.callers[c].exit, CloseError(t))))
  {
    assert CallerOk(t, c, t.callers[c]);
    hide Inv;
    GotoKeepsInv(t, c, Failed(t.callers[c].exit, CloseError(t)));
  }

  lemma GiveUpKeepsInv(t: Table, c: nat)
    requires Inv(t) && c in t.callers && (t.callers[c].QueueFull? || t.callers[c].QueueGone?)
    ensures Inv(Remove(t, c, t.callers[c].id, Failed(OutboundFull, Closed)))
    ensures Inv(Remove(t, c, t.callers[c].id, ReadingReason(OutboundGone)))
  {
    assert CallerOk(t, c, t.callers[c]);
    hide Inv, Remove;
    LeaveKeepsInv(t, c, t.callers[c].id, Failed(OutboundFull, Closed));
    LeaveKeepsInv(t, c, t.callers[c].id, ReadingReason(OutboundGone));
  }

  lemma RecheckKeepsInv(t: Table, c: nat)
    requires Inv(t) && c in t.callers && t.callers[c].Enqueued?
    ensures Inv(Goto(t, c, if t.closed then Withdrawing(t.callers[c].id) else Awaiting(t.callers[c].id)))
  {
    assert CallerOk(t, c, t.callers[c]) && (t.drained ==> t.closed);
    hide Inv;
    GotoKeepsInv(t, c, if t.closed then Withdrawing(t.callers[c].id) else Awaiting(t.callers[c].id));
  }

  lemma WithdrawKeepsInv(t: Table, c: nat)
    requires Inv(t) && c in t.callers && t.callers[c].Withdrawing?
    ensures var id := t.callers[c].id;
            Inv(Remove(t, c, id, if id in t.pending then ReadingReason(Withdrawn) else Awaiting(id)))
  {
    var id := t.callers[c].id;
    assert CallerOk(t, c, t.callers[c]) && (t.closed ==> t.reason.Some?);
    hide Inv;
    if id in t.pending {
      LeaveKeepsInv(t, c, id, ReadingReason(Withdrawn));
    } else {
      GotoKeepsInv(t, c, Awaiting(id));
    }
  }

  lemma AbandonKeepsInv(t: Table, c: nat)
    requires Inv(t) && c in t.callers && t.callers[c].Awaiting?
    ensures Inv(Goto(t, c, Abandoned(t.callers[c].id)))
  {
    assert CallerOk(t, c, t.callers[c]);
    hide Inv;
    GotoKeepsInv(t, c, Abandoned(t.callers[c].id));
  }

  lemma SkipIdKeepsInv(t: Table, c: nat, n: nat)
    requires Inv(t) && c in t.callers && t.callers[c].Encoding? && n >= t.nextId
    ensures Inv(Goto(t, c, Rejected).(nextId := n))
  {
    GotoKeepsInv(t, c, Rejected);
  }

  lemma LeaveKeepsInv(t: Table, c: nat, id: nat, pc: Caller)
    requires Inv(t) && c in t.callers && LiveId(t.callers[c]) == Some(id)
    requires CallerOk(t, c, pc) && !pc.Encoded? && LiveId(pc).None? && !pc.Answered?
    ensures Inv(Remove(t, c, id, pc))
  {
    if id in t.pending {
      RemoveKeepsInv(t, c, id, pc);
    } else {
      GotoKeepsInv(t, c, pc);
    }
  }

  /** A resolved channel has left the pending map, and only a recorded reason drops a sender. */
  lemma ReceiveKeepsInv(t: Table, c: nat)
    requires Inv(t) && c in t.callers && t.callers[c].Awaiting?
    ensures t.channels[t.callers[c].id].Sent? ==>
              Inv(Goto(t, c, Answered(t.callers[c].id, t.channels[t.callers[c].id].reply)))
    ensures t.channels[t.callers[c].id].Dropped? ==> Inv(Goto(t, c, ReadingReason(Cancelled)))
  {
    var id := t.callers[c].id;
    assert CallerOk(t, c, t.callers[c]) && ChannelOk(t, id);
    if !t.channels[id].Open? {
      assert id in t.pending ==> PendingOk(t, id);
    }
    if t.channels[id].Sent? { GotoKeepsInv(t, c, Answered(id, t.channels[id].reply)); }
    if t.channels[id].Dropped? { GotoKeepsInv(t, c, ReadingReason(Cancelled)); }
  }

  lemma CloserStepKeepsInv(t: Table, k: nat, step: Step)
    requires Inv(t) && IsCloserStep(step) && step.k == k && k in t.closers
    requires CloserStep(t, t.closers[k], step).Some?
    ensures Inv(CloserStep(t, t.closers[k], step).value)
  {
    assert CloserOk(t, k, t.closers[k]);
    hide CallersOk, ClosersOk, PendingsOk, ChannelsOk;
    match step
    case TakeSender(_) => CloserGotoKeepsInv(t, k, SetReason(Closed));
    case RecordReason(_) => StoreReasonKeepsInv(t, k, t.closers[k].why);
    case MarkClosed(_) => StoreClosedKeepsInv(t, k);
    case DrainPending(_) => TakeAllKeepsInv(t, k);
    case DropSender(_, id) => DropOneKeepsInv(t, k, id);
    case CloseEvents(_) => CloserGotoKeepsInv(t, k, Finished);
  }

  lemma StepKeepsInv(s: State, step: Step)
    requires Inv(s.table) && Apply(s, step).Some?
    ensures Inv(Apply(s, step).value.table)
  {
    var t := s.table;
    if IsCallerStep(step) {
      CallerStepKeepsInv(t, step.c, step);
    } else if IsCloserStep(step) {
      CloserStepKeepsInv(t, step.k, step);
    } else {
      OtherStepKeepsInv(s, step);
    }
  }

  lemma OtherStepKeepsInv(s: State, step: Step)
    requires Inv(s.table) && Apply(s, step).Some? && !IsCallerStep(step) && !IsCloserStep(step)
    ensures Inv(Apply(s, step).value.table)
  {
    var t := s.table;
    hide ClosersOk, PendingsOk, ChannelsOk, CallerStep, CloserStep;
    match step
    case Call(c) => GotoKeepsInv(t, c, Checking);
    case Enqueue(c) =>
      assert CallerOk(t, c, t.callers[c]);
      var id := t.callers[c].id;
      GotoKeepsInv(t, c, QueueGone(id));
      GotoKeepsInv(t, c, QueueFull(id));
      GotoKeepsInv(t, c, Enqueued(id));
    case Respond(id, reply) => DispatchKeepsInv(t, id, reply);
    case ReaderEnds(k, why) => CloserGotoKeepsInv(t, k, SetReason(why));
    case WriterFails(k, why) => CloserGotoKeepsInv(t, k, SetReason(why));
    case CallClose(k) => CloserGotoKeepsInv(t, k, TakeOutbound);
    case _ =>
  }

  // ----- whole runs -----

  ghost predicate Reachable(s: State) {
    exists steps: seq<Step> :: Run(INITIAL, steps) == Some(s)
  }

  lemma {:induction false} RunKeepsInv(s: State, steps: seq<Step>)
    requires Inv(s.table) && Run(s, steps).Some?
    ensures Inv(Run(s, steps).value.table)
    decreases |steps|
  {
    if steps != [] {
      StepKeepsInv(s, steps[0]);
      RunKeepsInv(Apply(s, steps[0]).value, steps[1..]);
    }
  }

  lemma ReachableInv(s: State)
    requires Reachable(s)
    ensures Inv(s.table)
  {
    var steps: seq<Step> :| Run(INITIAL, steps) == Some(s);
    RunKeepsInv(INITIAL, steps);
  }

  /**
   * No request is stranded: once any closer has drained the pending map, every entry in it
   * belongs to a request that is still ahead of its own second look at `closed`, and every
   * request already waiting has its answer, or its sender sits with a closer about to drop it.
   */
  lemma NoRequestStranded(s: State)
    requires Reachable(s)
    requires exists k :: k in s.table.closers && PastDrain(s.table.closers[k])
    ensures forall id :: id in s.table.pending ==>
              exists c :: c in s.table.callers && BeforeRecheck(s.table.callers[c]) && s.table.callers[c].id == id
    ensures forall c :: c in s.table.callers && s.table.callers[c].Awaiting? ==>
              var id := s.table.callers[c].id;
              id in s.table.channels && id !in s.table.pending
              && (s.table.channels[id].Open? ==>
                    exists k :: k in s.table.closers && id in Held(s.table.closers[k]))
  {
    ReachableInv(s);
    var t := s.table;
    var k :| k in t.closers && PastDrain(t.closers[k]);
    assert CloserOk(t, k, t.closers[k]);
    forall id | id in t.pending
      ensures exists c :: c in t.callers && BeforeRecheck(t.callers[c]) && t.callers[c].id == id
    {
      assert PendingOk(t, id);
      assert CallerOk(t, t.owner[id], t.callers[t.owner[id]]);
    }
    forall c | c in t.callers && t.callers[c].Awaiting?
      ensures var id := t.callers[c].id;
              id in t.channels && id !in t.pending
              && (t.channels[id].Open? ==> exists k :: k in t.closers && id in Held(t.closers[k]))
    {
      assert CallerOk(t, c, t.callers[c]) && ChannelOk(t, t.callers[c].id);
    }
  }

  /**
   * A request refused at the start, withdrawn at the second look or cancelled while it waited
   * names the first recorded reason; one that lost the outbound sender names it or `Closed`;
   * a full queue is always reported as `Closed`, whatever is recorded.
   */
  lemma FailureNamesFirstReason(s: State, c: nat)
    requires Reachable(s) && c in s.table.callers && s.table.callers[c].Failed?
    ensures AfterClose(s.table.callers[c].exit) ==> s.table.reason == Some(s.table.callers[c].reason)
    ensures s.table.callers[c].reason == Closed || s.table.reason == Some(s.table.callers[c].reason)
    ensures s.table.callers[c].exit.OutboundFull? ==> s.table.callers[c].reason == Closed
  {
    ReachableInv(s);
    assert CallerOk(s.table, c, s.table.callers[c]);
  }

  lemma StepKeepsReason(s: State, step: Step, c: nat)
    requires Apply(s, step).Some?
    ensures s.table.reason.Some? ==> Apply(s, step).value.table.reason == s.table.reason
    ensures c in s.table.callers && s.table.callers[c].Failed? ==>
              c in Apply(s, step).value.table.callers && Apply(s, step).value.table.callers[c] == s.table.callers[c]
  {
    hide CallerStep, CloserStep, ApplyOther;
    if !IsCallerStep(step) && !IsCloserStep(step) {
      OtherKeepsReason(s, step, c);
    }
  }

  lemma OtherKeepsReason(s: State, step: Step, c: nat)
    requires !IsCallerStep(step) && !IsCloserStep(step) && ApplyOther(s, step).Some?
    ensures ApplyOther(s, step).value.table.reason == s.table.reason
    ensures c in s.table.callers && s.table.callers[c].Failed? ==>
              c in ApplyOther(s, step).value.table.callers
              && ApplyOther(s, step).value.table.callers[c] == s.table.callers[c]
  {
    hide Dispatch, EnqueueLine, Goto, CloserGoto;
    match step
    case Call(d) => GotoKeepsReason(s.table, d, Checking);
    case Enqueue(d) => EnqueueKeepsReason(s, d);
    case ReaderEnds(k, why) => CloserGotoKeepsReason(s.table, k, SetReason(why));
    case WriterFails(k, why) => CloserGotoKeepsReason(s.table, k, SetReason(why));
    case CallClose(k) => CloserGotoKeepsReason(s.table, k, TakeOutbound);
    case Respond(_, _) =>
    case WriteLine =>
    case WriterExits =>
  }

  lemma GotoKeepsReason(t: Table, d: nat, pc: Caller)
    ensures Goto(t, d, pc).reason == t.reason && Goto(t, d, pc).callers == t.callers[d := pc]
  {
  }

  lemma EnqueueKeepsReason(s: State, d: nat)
    requires d in s.table.callers && s.table.callers[d].Registered?
    ensures var t := EnqueueLine(s, d, s.table.callers[d].id).table;
            && t.reason == s.table.reason && d in t.callers
            && forall c :: c in s.table.callers && c != d ==> c in t.callers && t.callers[c] == s.table.callers[c]
  {
  }

  lemma CloserGotoKeepsReason(t: Table, k: nat, pc: Closer)
    ensures CloserGoto(t, k, pc).reason == t.reason && CloserGoto(t, k, pc).callers == t.callers
  {
  }

  /** The first recorded reason is never replaced, and a failed request stays as it failed. */
  lemma {:induction false} ReasonIsFinal(s: State, steps: seq<Step>, c: nat)
    requires Run(s, steps).Some?
    ensures s.table.reason.Some? ==> Run(s, steps).value.table.reason == s.table.reason
    ensures c in s.table.callers && s.table.callers[c].Failed? ==>
              c in Run(s, steps).value.table.callers && Run(s, steps).value.table.callers[c] == s.table.callers[c]
    decreases |steps|
  {
    if steps != [] {
      StepKeepsReason(s, steps[0], c);
      hide Apply;
      ReasonIsFinal(Apply(s, steps[0]).value, steps[1..], c);
    }
  }

  /** What a request that found the outbound sender gone reports, and that it stays so. */
  lemma OutboundGoneOutcome(s: State, c: nat, rest: seq<Step>)
    requires c in s.table.callers && s.table.callers[c] == ReadingReason(OutboundGone)
    requires Run(s, [ReadReason(c)] + rest).Some?
    ensures var t := Run(s, [ReadReason(c)] + rest).value.table;
            && c in t.callers && t.callers[c] == Failed(OutboundGone, CloseError(s.table))
            && (s.table.reason.Some? ==> t.reason == s.table.reason)
  {
    var steps := [ReadReason(c)] + rest;
    assert steps[1..] == rest;
    ReasonIsFinal(Apply(s, steps[0]).value, rest, c);
  }

  /** Whoever may still record a reason will record `Closed`. */
  predicate OnlyClosedAhead(s: State) {
    && !s.readerRunning && !s.writer.Running?
    && forall k :: k in s.table.closers && s.table.closers[k].SetReason? ==> s.table.closers[k].why == Closed
  }

  /** No reason but `Closed` is recorded, now or later. */
  predicate Quiet(s: State) {
    OnlyClosedAhead(s) && (s.table.reason.None? || s.table.reason == Some(Closed))
  }

  lemma CallerStepKeepsQuiet(s: State, step: Step)
    requires Quiet(s) && IsCallerStep(step) && Apply(s, step).Some?
    ensures Quiet(Apply(s, step).value)
  {
    hide CallerStep, ApplyCloser, ApplyOther;
  }

  lemma CloserStepKeepsQuiet(s: State, step: Step)
    requires Quiet(s) && IsCloserStep(step) && Apply(s, step).Some?
    ensures Quiet(Apply(s, step).value)
  {
    hide ApplyCaller, ApplyOther;
  }

  lemma OtherStepKeepsQuiet(s: State, step: Step)
    requires Quiet(s) && !IsCallerStep(step) && !IsCloserStep(step) && Apply(s, step).Some?
    ensures Quiet(Apply(s, step).value)
  {
    hide ApplyCaller, ApplyCloser, Dispatch;
  }

  lemma {:induction false} RunKeepsQuiet(s: State, steps: seq<Step>)
    requires Quiet(s) && Run(s, steps).Some?
    ensures Quiet(Run(s, steps).value)
    decreases |steps|
  {
    if steps != [] {
      if IsCallerStep(steps[0]) {
        CallerStepKeepsQuiet(s, steps[0]);
      } else if IsCloserStep(steps[0]) {
        CloserStepKeepsQuiet(s, steps[0]);
      } else {
        OtherStepKeepsQuiet(s, steps[0]);
      }
      hide Apply, Quiet;
      RunKeepsQuiet(Apply(s, steps[0]).value, steps[1..]);
    }
  }

  /** From `s` the request reads the reason, `rest` follows: its error is the recorded reason, if any. */
  predicate Agrees(s: State, c: nat, rest: seq<Step>) {
    match Run(s, [ReadReason(c)] + rest)
    case None => true
    case Some(s') =>
      s'.table.reason.Some? ==>
        c in s'.table.callers && s'.table.callers[c] == Failed(OutboundGone, s'.table.reason.value)
  }

  lemma RunOne(s: State, step: Step)
    ensures Run(s, [step]) == Apply(s, step)
  {
    hide Apply;
    assert [step][1..] == [];
  }

  lemma {:induction false} UnusedKey(keys: set<nat>) returns (bound: nat)
    ensures forall k :: k in keys ==> k < bound
  {
    if keys == {} {
      bound := 0;
    } else {
      var k :| k in keys;
      var rest := UnusedKey(keys - {k});
      bound := Max(rest, k + 1);
      assert forall x :: x in keys ==> x == k || x in keys - {k};
    }
  }

  /** Unless only `Closed` is ahead, some closer can come to record another reason. */
  lemma OtherReasonAhead(s: State) returns (before: seq<Step>, k: nat, s': State, why: Reason)
    requires s.table.reason.None? && !OnlyClosedAhead(s)
    ensures Run(s, before) == Some(s') && s'.table.reason.None? && why != Closed
    ensures k in s'.table.closers && s'.table.closers[k] == SetReason(why)
  {
    k := UnusedKey(s.table.closers.Keys);
    why := Protocol("");
    if s.readerRunning {
      before := [ReaderEnds(k, why)];
      RunOne(s, before[0]);
    } else if s.writer.Running? {
      before := [WriterFails(k, why)];
      RunOne(s, before[0]);
    } else {
      k :| k in s.table.closers && s.table.closers[k].SetReason? && s.table.closers[k].why != Closed;
      before, why := [], s.table.closers[k].why;
    }
    s' := Run(s, before).value;
  }

  /**
   * When a request that found the outbound sender gone reads the reason, its error agrees with
   * whatever is recorded in every continuation exactly when a reason is already recorded, or
   * nobody is left who could record any other than `Closed`.
   */
  lemma OutboundGoneExact(s: State, c: nat)
    requires c in s.table.callers && s.table.callers[c] == ReadingReason(OutboundGone)
    ensures (forall rest: seq<Step> :: Agrees(s, c, rest)) <==> s.table.reason.Some? || OnlyClosedAhead(s)
  {
    if s.table.reason.Some? || OnlyClosedAhead(s) {
      forall rest: seq<Step> ensures Agrees(s, c, rest) { OutboundGoneAgrees(s, c, rest); }
    } else {
      var rest := OutboundGoneDisagrees(s, c);
    }
  }

  lemma OutboundGoneAgrees(s: State, c: nat, rest: seq<Step>)
    requires c in s.table.callers && s.table.callers[c] == ReadingReason(OutboundGone)
    requires s.table.reason.Some? || OnlyClosedAhead(s)
    ensures Agrees(s, c, rest)
  {
    hide Apply;
    if Run(s, [ReadReason(c)] + rest).Some? {
      OutboundGoneOutcome(s, c, rest);
      if s.table.reason.None? {
        RunKeepsQuiet(s, [ReadReason(c)] + rest);
      }
    }
  }

  lemma OutboundGoneDisagrees(s: State, c: nat) returns (rest: seq<Step>)
    requires c in s.table.callers && s.table.callers[c] == ReadingReason(OutboundGone)
    requires s.table.reason.None? && !OnlyClosedAhead(s)
    ensures !Agrees(s, c, rest)
  {
    var s1 := AfterRead(s, c);
    var before, k, s2, why := OtherReasonAhead(s1);
    var s3 := RecordsReason(s2, k, why);
    hide Apply, OnlyClosedAhead;
    RunAppend(s1, before, RecordReason(k));
    rest := before + [RecordReason(k)];
    assert ([ReadReason(c)] + rest)[1..] == rest;
    OutboundGoneOutcome(s, c, rest);
  }

  lemma AfterRead(s: State, c: nat) returns (s': State)
    requires c in s.table.callers && s.table.callers[c] == ReadingReason(OutboundGone)
    ensures Apply(s, ReadReason(c)) == Some(s') && s'.table.reason == s.table.reason
    ensures OnlyClosedAhead(s') <==> OnlyClosedAhead(s)
  {
    s' := Apply(s, ReadReason(c)).value;
  }

  lemma RecordsReason(s: State, k: nat, why: Reason) returns (s': State)
    requires k in s.table.closers && s.table.closers[k] == SetReason(why) && s.table.reason.None?
    ensures Apply(s, RecordReason(k)) == Some(s') && s'.table.reason == Some(why)
  {
    s' := Apply(s, RecordReason(k)).value;
  }

  lemma {:induction false} RunAppend(s: State, steps: seq<Step>, step: Step)
    requires Run(s, steps).Some? && Apply(Run(s, steps).value, step).Some?
    ensures Run(s, steps + [step]) == Apply(Run(s, steps).value, step)
    decreases |steps|
  {
    hide Apply;
    if steps == [] {
      assert ([] + [step])[1..] == [];
    } else {
      assert (steps + [step])[1..] == steps[1..] + [step];
      RunAppend(Apply(s, steps[0]).value, steps[1..], step);
    }
  }

  lemma ReachableStep(s: State, step: Step, s': State)
    requires Reachable(s) && Apply(s, step) == Some(s')
    ensures Reachable(s')
  {
    hide Apply;
    var steps: seq<Step> :| Run(INITIAL, steps) == Some(s);
    RunAppend(INITIAL, steps, step);
    assert Run(INITIAL, steps + [step]) == Some(s');
  }

  /** One request registered, and `close` about to record its reason with the sender taken. */
  function RaceState(c: nat, k: nat, pc: Caller): State {
    State(Table(map[c := pc], 2, {1}, map[1 := Open], false, None, map[k := SetReason(Closed)],
                map[1 := c], map[], false, []), None, Running, true, false)
  }

  lemma RaceReachable(c: nat, k: nat)
    ensures Reachable(RaceState(c, k, Registered(1)))
  {
    var s4 := INITIAL.(table := RaceState(c, k, Registered(1)).table.(closers := map[]));
    var s5 := s4.(table := s4.table.(closers := map[k := TakeOutbound]));
    CallReachable(c);
    hide ApplyCaller;
    ReachableStep(s4, CallClose(k), s5);
    assert CloserGoto(s5.table, k, SetReason(Closed)) == RaceState(c, k, Registered(1)).table;
    ReachableStep(s5, TakeSender(k), RaceState(c, k, Registered(1)));
  }

  lemma CallReachable(c: nat)
    ensures Reachable(INITIAL.(table := RaceState(c, 0, Registered(1)).table.(closers := map[])))
  {
    hide ApplyCloser;
    var t0 := INITIAL.table;
    var t1 := t0.(callers := map[c := Checking]);
    var t2 := t0.(callers := map[c := Encoding]);
    var t3 := t0.(callers := map[c := Encoded(1)], nextId := 2, owner := map[1 := c]);
    var t4 := RaceState(c, 0, Registered(1)).table.(closers := map[]);
    assert t1 == Goto(t0, c, Checking) && t2 == Goto(t1, c, Encoding) && t3 == AllocateId(t2, c);
    assert t4 == Insert(t3, c, 1);
    FirstCall(c);
    hide Reachable, Apply, ApplyOther, ApplyCaller;
    ReachableCaller(INITIAL.(table := t1), CheckClosed(c), t2);
    ReachableCaller(INITIAL.(table := t2), Encode(c), t3);
    ReachableCaller(INITIAL.(table := t3), Register(c), t4);
  }

  lemma FirstCall(c: nat)
    ensures Reachable(INITIAL.(table := INITIAL.table.(callers := map[c := Checking])))
  {
    hide ApplyCaller, ApplyCloser;
    assert Run(INITIAL, []) == Some(INITIAL);
    assert Goto(INITIAL.table, c, Checking) == INITIAL.table.(callers := map[c := Checking]);
    ReachableStep(INITIAL, Call(c), INITIAL.(table := INITIAL.table.(callers := map[c := Checking])));
  }

  lemma ReachableCaller(s: State, step: Step, t: Table)
    requires Reachable(s) && IsCallerStep(step) && step.c in s.table.callers
    requires CallerStep(s.table, s.table.callers[step.c], step) == Some(t)
    ensures Reachable(s.(table := t))
  {
    ReachableStep(s, step, s.(table := t));
  }

  lemma RaceGivesUp(c: nat, k: nat)
    ensures Reachable(RaceState(c, k, Failed(OutboundGone, Closed)).(
                        table := RaceState(c, k, Failed(OutboundGone, Closed)).table.(
                          pending := {}, channels := map[1 := Dropped])))
  {
    hide ApplyCloser;
    RaceReachable(c, k);
    var s6 := RaceState(c, k, Registered(1));
    var s7 := RaceState(c, k, QueueGone(1));
    assert s7.table == Goto(s6.table, c, QueueGone(1));
    ReachableStep(s6, Enqueue(c), s7);
    hide Reachable, ApplyOther;
    var t8 := s7.table.(callers := map[c := ReadingReason(OutboundGone)], pending := {}, channels := map[1 := Dropped]);
    assert t8 == Remove(s7.table, c, 1, ReadingReason(OutboundGone));
    ReachableCaller(s7, GiveUpGone(c), t8);
    var t9 := t8.(callers := map[c := Failed(OutboundGone, Closed)]);
    assert t9 == Goto(t8, c, Failed(OutboundGone, Closed));
    ReachableCaller(s7.(table := t8), ReadReason(c), t9);
  }

  /**
   * The other case does happen: `close` has taken the sender but not yet recorded its reason,
   * the request fails with `Closed`, and the reader's protocol error is recorded first.
   */
  lemma OutboundGoneMayMissReason(c: nat, k: nat, l: nat, text: string)
    requires k != l
    ensures exists s :: Reachable(s) && c in s.table.callers
              && s.table.callers[c] == Failed(OutboundGone, Closed) && s.table.reason == Some(Protocol(text))
  {
    RaceGivesUp(c, k);
    hide ApplyCaller;
    var s9 := RaceState(c, k, Failed(OutboundGone, Closed));
    s9 := s9.(table := s9.table.(pending := {}, channels := map[1 := Dropped]));
    var s10 := s9.(table := CloserGoto(s9.table, l, SetReason(Protocol(text))), readerRunning := false);
    ReachableStep(s9, ReaderEnds(l, Protocol(text)), s10);
    var s11 := s10.(table := StoreReason(s10.table, l, Protocol(text)));
    ReachableStep(s10, RecordReason(l), s11);
  }

  /** An answered request holds a response the reader dispatched for its own id. */
  lemma AnswerIsOwnResponse(s: State, c: nat, d: nat)
    requires Reachable(s) && c in s.table.callers && s.table.callers[c].Answered?
    ensures (s.table.callers[c].id, s.table.callers[c].reply) in s.table.responses
    ensures d in s.table.callers && s.table.callers[d].Answered? && d != c ==>
              s.table.callers[d].id != s.table.callers[c].id
  {
    ReachableInv(s);
    var t := s.table;
    assert CallerOk(t, c, t.callers[c]) && ChannelOk(t, t.callers[c].id);
    if d in t.callers { assert CallerOk(t, d, t.callers[d]); }
  }

  // ----- completion -----

  /** Steps a request still has before it, whatever it finds. */
  function Remaining(pc: Caller): nat {
    match pc
    case Checking => 8
    case Encoding => 7
    case Encoded(_) => 6
    case Registered(_) => 5
    case Enqueued(_) => 4
    case Withdrawing(_) => 3
    case Awaiting(_) => 2
    case QueueFull(_) => 2
    case QueueGone(_) => 2
    case ReadingReason(_) => 1
    case _ => 0
  }

  predicate AllClosersFinished(t: Table) {
    t.closers != map[] && forall k :: k in t.closers ==> t.closers[k].Finished?
  }

  function NextStep(pc: Caller, c: nat): Step {
    match pc
    case Checking => CheckClosed(c)
    case Encoding => Encode(c)
    case Encoded(_) => Register(c)
    case Registered(_) => Enqueue(c)
    case Enqueued(_) => Recheck(c)
    case Withdrawing(_) => Withdraw(c)
    case QueueFull(_) => GiveUpFull(c)
    case QueueGone(_) => GiveUpGone(c)
    case Awaiting(_) => Receive(c)
    case _ => ReadReason(c)
  }

  lemma CallerNeverBlocked(t: Table, c: nat)
    requires t.closed && c in t.callers && !Over(t.callers[c]) && !t.callers[c].Registered?
    requires t.callers[c].Awaiting? ==> t.callers[c].id in t.channels && !t.channels[t.callers[c].id].Open?
    ensures CallerStep(t, t.callers[c], NextStep(t.callers[c], c)).Some?
  {
    hide Remove, Goto, Insert, AllocateId;
  }

  /** Once drained, a waiting request whose id no closer holds has its channel resolved. */
  lemma AwaitingResolved(t: Table, c: nat)
    requires Inv(t) && t.drained && c in t.callers && t.callers[c].Awaiting?
    requires forall k :: k in t.closers ==> t.callers[c].id !in Held(t.closers[k])
    ensures t.callers[c].id in t.channels && !t.channels[t.callers[c].id].Open?
  {
    assert CallerOk(t, c, t.callers[c]) && ChannelOk(t, t.callers[c].id);
  }

  /**
   * In every reachable drained state a request that is not over, and whose id no closer is
   * about to drop, can take a step of its own, whatever else is going on.
   */
  lemma OwnStepEnabled(s: State, c: nat)
    requires Reachable(s) && s.table.drained && c in s.table.callers && !Over(s.table.callers[c])
    requires s.table.callers[c].Awaiting? ==>
               forall k :: k in s.table.closers ==> s.table.callers[c].id !in Held(s.table.closers[k])
    ensures Apply(s, NextStep(s.table.callers[c], c)).Some? && IsOwn(NextStep(s.table.callers[c], c), c)
  {
    ReachableInv(s);
    var t := s.table;
    assert t.closed;
    if t.callers[c].Registered? {
      EnqueueMoves(s, c);
      hide ApplyOther, Inv;
    } else {
      if t.callers[c].Awaiting? { AwaitingResolved(t, c); }
      hide Inv;
      CallerNeverBlocked(t, c);
      hide CallerStep, ApplyOther, ApplyCloser;
    }
  }

  /** A step the request `c` itself takes. */
  predicate IsOwn(step: Step, c: nat) { (step.Enqueue? || IsCallerStep(step)) && step.c == c }

  function OwnSteps(steps: seq<Step>, c: nat): nat {
    if steps == [] then 0 else (if IsOwn(steps[0], c) then 1 else 0) + OwnSteps(steps[1..], c)
  }

  lemma EntryStepProgress(t: Table, pc: Caller, step: Step)
    requires IsEntryStep(step) && step.c in t.callers && t.callers[step.c] == pc && EntryStep(t, pc, step).Some?
    ensures var t' := EntryStep(t, pc, step).value;
            step.c in t'.callers && Remaining(t'.callers[step.c]) < Remaining(pc)
  {
  }

  lemma LiveStepProgress(t: Table, pc: Caller, step: Step)
    requires IsCallerStep(step) && !IsEntryStep(step) && LiveStep(t, pc, step).Some?
    requires step.c in t.callers && t.callers[step.c] == pc
    ensures var t' := LiveStep(t, pc, step).value;
            step.c in t'.callers && Remaining(t'.callers[step.c]) < Remaining(pc)
  {
    hide Remove, Goto, CloseError;
    match step
    case GiveUpFull(_) =>
    case GiveUpGone(_) =>
    case Recheck(c) => GotoKeepsReason(t, c, if t.closed then Withdrawing(pc.id) else Awaiting(pc.id));
    case Withdraw(_) =>
    case Receive(c) =>
      GotoKeepsReason(t, c, ReadingReason(Cancelled));
      if t.channels[pc.id].Sent? { GotoKeepsReason(t, c, Answered(pc.id, t.channels[pc.id].reply)); }
    case Abandon(c) => GotoKeepsReason(t, c, Abandoned(pc.id));
    case ReadReason(c) => GotoKeepsReason(t, c, Failed(pc.exit, CloseError(t)));
  }

  lemma CallerStepProgress(t: Table, pc: Caller, step: Step)
    requires IsCallerStep(step) && step.c in t.callers && t.callers[step.c] == pc && CallerStep(t, pc, step).Some?
    ensures var t' := CallerStep(t, pc, step).value;
            step.c in t'.callers && Remaining(t'.callers[step.c]) < Remaining(pc)
  {
    hide EntryStep, LiveStep, Remaining;
    if IsEntryStep(step) { EntryStepProgress(t, pc, step); } else { LiveStepProgress(t, pc, step); }
  }

  lemma OtherStepProgress(s: State, step: Step, c: nat)
    requires !IsCallerStep(step) && !IsCloserStep(step) && ApplyOther(s, step).Some? && c in s.table.callers
    ensures var t := ApplyOther(s, step).value.table;
            && c in t.callers
            && (if IsOwn(step, c) then Remaining(t.callers[c]) < Remaining(s.table.callers[c])
                else t.callers[c] == s.table.callers[c])
  {
    hide Dispatch, EnqueueLine, Goto, CloserGoto;
    match step
    case Call(d) => GotoKeepsReason(s.table, d, Checking);
    case Enqueue(d) =>
      EnqueueKeepsReason(s, d);
      EnqueueMoves(s, d);
    case ReaderEnds(k, why) => CloserGotoKeepsReason(s.table, k, SetReason(why));
    case WriterFails(k, why) => CloserGotoKeepsReason(s.table, k, SetReason(why));
    case CallClose(k) => CloserGotoKeepsReason(s.table, k, TakeOutbound);
    case Respond(_, _) =>
    case WriteLine =>
    case WriterExits =>
  }

  /** A step of its own brings a request closer to its end; the steps of others leave it where it is. */
  lemma StepProgress(s: State, step: Step, c: nat)
    requires Apply(s, step).Some? && c in s.table.callers
    ensures var t := Apply(s, step).value.table;
            && c in t.callers
            && Remaining(t.callers[c]) + (if IsOwn(step, c) then 1 else 0) <= Remaining(s.table.callers[c])
  {
    hide CallerStep, CloserStep, ApplyOther, Remaining;
    if IsCallerStep(step) {
      CallerStepProgress(s.table, s.table.callers[step.c], step);
    } else if !IsCloserStep(step) {
      OtherStepProgress(s, step, c);
    }
  }

  /**
   * Over every run, whatever is interleaved, a request takes at most eight steps of its own.
   */
  lemma {:induction false} OwnStepsBounded(s: State, steps: seq<Step>, c: nat)
    requires c in s.table.callers && Run(s, steps).Some?
    ensures var t := Run(s, steps).value.table;
            && c in t.callers
            && OwnSteps(steps, c) + Remaining(t.callers[c]) <= Remaining(s.table.callers[c]) <= 8
    decreases |steps|
  {
    assert Remaining(s.table.callers[c]) <= 8;
    if steps != [] {
      StepProgress(s, steps[0], c);
      hide Apply, IsOwn, Remaining;
      OwnStepsBounded(Apply(s, steps[0]).value, steps[1..], c);
    }
  }

  /** With the closers done, a request always has a next step of its own, and it makes progress. */
  lemma NeverBlocked(s: State, c: nat)
    requires Inv(s.table) && AllClosersFinished(s.table)
    requires c in s.table.callers && !Over(s.table.callers[c])
    ensures var pc := s.table.callers[c];
            var r := Apply(s, NextStep(pc, c));
            && r.Some? && AllClosersFinished(r.value.table)
            && c in r.value.table.callers && Remaining(r.value.table.callers[c]) < Remaining(pc)
  {
    var t := s.table;
    var k :| k in t.closers;
    assert CloserOk(t, k, t.closers[k]);
    if !t.callers[c].Registered? {
      if t.callers[c].Awaiting? { AwaitingResolved(t, c); }
      hide CallerStep, Inv, ApplyOther, ApplyCloser, Remaining, CallerOk, CloserOk;
      CallerNeverBlocked(t, c);
      CallerStepProgress(t, t.callers[c], NextStep(t.callers[c], c));
    } else {
      EnqueueNeverBlocked(s, c);
    }
  }

  lemma EnqueueNeverBlocked(s: State, c: nat)
    requires c in s.table.callers && s.table.callers[c].Registered? && AllClosersFinished(s.table)
    ensures var r := Apply(s, Enqueue(c));
            && r.Some? && AllClosersFinished(r.value.table)
            && c in r.value.table.callers && Remaining(r.value.table.callers[c]) < Remaining(s.table.callers[c])
  {
    var r := Apply(s, Enqueue(c));
    assert r == ApplyOther(s, Enqueue(c)) by { hide ApplyOther, ApplyCaller, ApplyCloser; }
    EnqueueMoves(s, c);
    hide Apply, ApplyOther;
  }

  lemma EnqueueMoves(s: State, c: nat)
    requires c in s.table.callers && s.table.callers[c].Registered?
    ensures var r := ApplyOther(s, Enqueue(c));
            && r.Some? && r.value.table.closers == s.table.closers && c in r.value.table.callers
            && var pc := r.value.table.callers[c]; pc.Enqueued? || pc.QueueGone? || pc.QueueFull?
  {
    var id := s.table.callers[c].id;
    assert ApplyOther(s, Enqueue(c)) == Some(EnqueueLine(s, c, id)) by { hide EnqueueLine; }
    hide ApplyOther;
  }

  /** Once the closers are done, a request left to itself ends within eight steps. */
  lemma {:induction false} EveryRequestEnds(s: State, c: nat) returns (steps: seq<Step>)
    requires Inv(s.table) && AllClosersFinished(s.table) && c in s.table.callers
    ensures Run(s, steps).Some? && c in Run(s, steps).value.table.callers
    ensures Over(Run(s, steps).value.table.callers[c]) && |steps| <= Remaining(s.table.callers[c]) <= 8
    ensures forall i :: 0 <= i < |steps| ==> IsOwn(steps[i], c)
    decreases Remaining(s.table.callers[c])
  {
    if Over(s.table.callers[c]) {
      return [];
    }
    NeverBlocked(s, c);
    var step := NextStep(s.table.callers[c], c);
    StepKeepsInv(s, step);
    hide Apply, AllClosersFinished, Inv;
    var rest := EveryRequestEnds(Apply(s, step).value, c);
    steps := [step] + rest;
    assert steps[1..] == rest;
  }

  // ----- answers -----

  lemma RunTwo(s: State, a: Step, b: Step, s1: State, s2: State)
    requires Apply(s, a) == Some(s1) && Apply(s1, b) == Some(s2)
    ensures Run(s, [a, b]) == Some(s2)
  {
    hide Apply;
    RunOne(s, a);
    RunAppend(s, [a], b);
    assert [a] + [b] == [a, b];
  }

  /** The reader hands a pending request exactly what the server said. */
  lemma RespondReaches(s: State, id: nat, reply: Reply)
    requires s.readerRunning && id in s.table.pending
    ensures var r := Apply(s, Respond(id, reply));
            && r.Some? && id in r.value.table.channels && r.value.table.channels[id] == Sent(reply)
            && r.value.table.callers == s.table.callers
  {
    hide ApplyCaller, ApplyCloser;
  }

  lemma ReceiveReaches(s: State, c: nat, reply: Reply)
    requires c in s.table.callers && s.table.callers[c].Awaiting? && s.table.callers[c].id in s.table.channels
    requires s.table.channels[s.table.callers[c].id] == Sent(reply)
    ensures var r := Apply(s, Receive(c));
            && r.Some? && c in r.value.table.callers
            && r.value.table.callers[c] == Answered(s.table.callers[c].id, reply)
  {
    hide ApplyOther, ApplyCloser;
  }

  /** A response to a waiting request answers it, with the very reply the server sent. */
  lemma ResponseAnswers(s: State, c: nat, reply: Reply)
    requires Reachable(s) && s.readerRunning && c in s.table.callers && s.table.callers[c].Awaiting?
    requires s.table.callers[c].id in s.table.pending
    ensures var id := s.table.callers[c].id;
            var r := Run(s, [Respond(id, reply), Receive(c)]);
            && r.Some? && c in r.value.table.callers && r.value.table.callers[c] == Answered(id, reply)
  {
    hide *;
    var s' := AnswerFollows(s, c, reply);
  }

  /** Every reply in a channel, and every answer, was said by the server. */
  ghost predicate Said(t: Table, steps: seq<Step>) {
    && (forall id :: id in t.channels && t.channels[id].Sent? ==> Respond(id, t.channels[id].reply) in steps)
    && forall c :: c in t.callers && t.callers[c].Answered? ==>
         Respond(t.callers[c].id, t.callers[c].reply) in steps
  }

  lemma EntryStepSaid(t: Table, pc: Caller, step: Step, steps: seq<Step>)
    requires Said(t, steps) && IsEntryStep(step) && EntryStep(t, pc, step).Some?
    ensures Said(EntryStep(t, pc, step).value, steps)
  {
  }

  lemma LiveStepSaid(t: Table, pc: Caller, step: Step, steps: seq<Step>)
    requires Said(t, steps) && IsCallerStep(step) && !IsEntryStep(step) && LiveStep(t, pc, step).Some?
    ensures Said(LiveStep(t, pc, step).value, steps)
  {
  }

  lemma CloserStepSaid(t: Table, pc: Closer, step: Step, steps: seq<Step>)
    requires Said(t, steps) && IsCloserStep(step) && CloserStep(t, pc, step).Some?
    ensures Said(CloserStep(t, pc, step).value, steps)
  {
  }

  lemma OtherStepSaid(s: State, step: Step, steps: seq<Step>)
    requires Said(s.table, steps) && !IsCallerStep(step) && !IsCloserStep(step) && ApplyOther(s, step).Some?
    ensures Said(ApplyOther(s, step).value.table, steps + [step])
  {
    assert forall x :: x in steps ==> x in steps + [step];
    assert step in steps + [step];
  }

  lemma StepSaid(s: State, step: Step, steps: seq<Step>)
    requires Said(s.table, steps) && Apply(s, step).Some?
    ensures Said(Apply(s, step).value.table, steps + [step])
  {
    assert forall x :: x in steps ==> x in steps + [step];
    hide EntryStep, LiveStep, CloserStep, ApplyOther;
    if IsCallerStep(step) {
      var pc := s.table.callers[step.c];
      if IsEntryStep(step) { EntryStepSaid(s.table, pc, step, steps); } else { LiveStepSaid(s.table, pc, step, steps); }
    } else if IsCloserStep(step) {
      CloserStepSaid(s.table, s.table.closers[step.k], step, steps);
    } else {
      OtherStepSaid(s, step, steps);
    }
  }

  lemma {:induction false} RunSaid(s: State, said: seq<Step>, steps: seq<Step>)
    requires Said(s.table, said) && Run(s, steps).Some?
    ensures Said(Run(s, steps).value.table, said + steps)
    decreases |steps|
  {
    if steps == [] {
      assert said + steps == said;
    } else {
      StepSaid(s, steps[0], said);
      hide Apply, Said;
      RunSaid(Apply(s, steps[0]).value, said + [steps[0]], steps[1..]);
      assert (said + [steps[0]]) + steps[1..] == said + steps;
    }
  }

  /** No request is answered with anything the server did not send for its id. */
  lemma AnswerWasSent(steps: seq<Step>, c: nat)
    requires Run(INITIAL, steps).Some? && c in Run(INITIAL, steps).value.table.callers
    requires Run(INITIAL, steps).value.table.callers[c].Answered?
    ensures var pc := Run(INITIAL, steps).value.table.callers[c]; Respond(pc.id, pc.reply) in steps
  {
    hide Apply, Run;
    RunSaid(INITIAL, [], steps);
    assert [] + steps == steps;
  }

  /** A response nobody waits for changes no request, no channel and no pending entry. */
  lemma StrayResponseIgnored(s: State, id: nat, reply: Reply)
    requires s.readerRunning && id !in s.table.pending
    ensures var r := Apply(s, Respond(id, reply));
            && r.Some? && r.value.table.(responses := s.table.responses) == s.table
            && r.value.(table := s.table) == s
  {
    hide ApplyCaller, ApplyCloser;
  }

  /** Open, with a running reader and writer and room in the outbound queue. */
  predicate Healthy(s: State) {
    && s.readerRunning && s.writer.Running? && !s.table.closed
    && s.outbound.Some? && s.outbound.value < 64
  }

  /** The state and the next id after `c` has called, checked, encoded and registered. */
  lemma HealthyRegisters(s: State, c: nat) returns (s': State)
    requires Healthy(s) && c !in s.table.callers
    ensures Run(s, [Call(c), CheckClosed(c), Encode(c), Register(c)]) == Some(s') && Healthy(s')
            && s'.outbound == s.outbound
    ensures c in s'.table.callers && s'.table.callers[c] == Registered(s.table.nextId)
    ensures s.table.nextId in s'.table.pending
  {
    var id := s.table.nextId;
    var s1 := HealthyCalls(s, c);
    var s2 := HealthyEncodes(s1, c);
    s' := HealthyInserts(s2, c);
    hide Apply;
    RunTwo(s, Call(c), CheckClosed(c), Apply(s, Call(c)).value, s1);
    RunAppend(s, [Call(c), CheckClosed(c)], Encode(c));
    assert [Call(c), CheckClosed(c)] + [Encode(c)] == [Call(c), CheckClosed(c), Encode(c)];
    RunAppend(s, [Call(c), CheckClosed(c), Encode(c)], Register(c));
    assert [Call(c), CheckClosed(c), Encode(c)] + [Register(c)] == [Call(c), CheckClosed(c), Encode(c), Register(c)];
  }

  lemma HealthyCalls(s: State, c: nat) returns (s': State)
    requires Healthy(s) && c !in s.table.callers
    ensures Apply(s, Call(c)).Some? && Apply(Apply(s, Call(c)).value, CheckClosed(c)) == Some(s')
    ensures Healthy(s') && s'.outbound == s.outbound && c in s'.table.callers && s'.table.callers[c] == Encoding
    ensures s'.table.nextId == s.table.nextId
  {
    s' := Apply(Apply(s, Call(c)).value, CheckClosed(c)).value;
  }

  lemma HealthyEncodes(s: State, c: nat) returns (s': State)
    requires Healthy(s) && c in s.table.callers && s.table.callers[c] == Encoding
    ensures Apply(s, Encode(c)) == Some(s')
    ensures Healthy(s') && s'.outbound == s.outbound && c in s'.table.callers
            && s'.table.callers[c] == Encoded(s.table.nextId)
  {
    s' := Apply(s, Encode(c)).value;
  }

  lemma HealthyInserts(s: State, c: nat) returns (s': State)
    requires Healthy(s) && c in s.table.callers && s.table.callers[c].Encoded?
    ensures Apply(s, Register(c)) == Some(s')
    ensures Healthy(s') && s'.outbound == s.outbound && c in s'.table.callers
            && s'.table.callers[c] == Registered(s.table.callers[c].id)
    ensures s.table.callers[c].id in s'.table.pending
  {
    s' := Apply(s, Register(c)).value;
  }

  lemma HealthyWaits(s: State, c: nat) returns (s1: State, s': State)
    requires Healthy(s) && c in s.table.callers && s.table.callers[c].Registered?
    ensures Apply(s, Enqueue(c)) == Some(s1) && Apply(s1, Recheck(c)) == Some(s')
    ensures s'.readerRunning && c in s'.table.callers && s'.table.callers[c] == Awaiting(s.table.callers[c].id)
    ensures s'.table.pending == s.table.pending
    ensures s'.outbound == Some(s.outbound.value + 1)
  {
    s1 := Apply(s, Enqueue(c)).value;
    s' := Apply(s1, Recheck(c)).value;
  }

  /**
   * On a healthy connection a request that nothing interferes with gets the server's answer:
   * it is registered, its line is queued, and the response for its id is what it returns.
   */
  lemma HealthyRequestAnswered(s: State, c: nat, reply: Reply)
    requires Reachable(s) && Healthy(s) && c !in s.table.callers
    ensures var id := s.table.nextId;
            var r := Run(s, [Call(c), CheckClosed(c), Encode(c), Register(c), Enqueue(c), Recheck(c)]
                            + [Respond(id, reply), Receive(c)]);
            && r.Some? && c in r.value.table.callers && r.value.table.callers[c] == Answered(id, reply)
            && r.value.outbound == Some(s.outbound.value + 1)
  {
    hide *;
    var id := s.table.nextId;
    var s1 := HealthyRegisters(s, c);
    var s2, s3 := HealthyWaits(s1, c);
    var s5 := AnswerFollows(s3, c, reply);
    var first := [Call(c), CheckClosed(c), Encode(c), Register(c)];
    RunTwo(s1, Enqueue(c), Recheck(c), s2, s3);
    RunConcat(s, first, [Enqueue(c), Recheck(c)]);
    RunConcat(s, first + [Enqueue(c), Recheck(c)], [Respond(id, reply), Receive(c)]);
    assert first + [Enqueue(c), Recheck(c)] ==
           [Call(c), CheckClosed(c), Encode(c), Register(c), Enqueue(c), Recheck(c)];
  }

  lemma AnswerFollows(s: State, c: nat, reply: Reply) returns (s': State)
    requires s.readerRunning && c in s.table.callers && s.table.callers[c].Awaiting?
    requires s.table.callers[c].id in s.table.pending
    ensures Run(s, [Respond(s.table.callers[c].id, reply), Receive(c)]) == Some(s')
    ensures c in s'.table.callers && s'.table.callers[c] == Answered(s.table.callers[c].id, reply)
    ensures s'.outbound == s.outbound
  {
    hide *;
    var id := s.table.callers[c].id;
    RespondReaches(s, id, reply);
    var s1 := Apply(s, Respond(id, reply)).value;
    assert s1.table.callers[c].Awaiting?;
    ReceiveReaches(s1, c, reply);
    s' := Apply(s1, Receive(c)).value;
    AnswerKeepsQueue(s, id, reply, c);
    RunTwo(s, Respond(id, reply), Receive(c), s1, s');
  }

  lemma {:induction false} RunConcat(s: State, a: seq<Step>, b: seq<Step>)
    requires Run(s, a).Some?
    ensures Run(s, a + b) == Run(Run(s, a).value, b)
    decreases |a|
  {
    hide Apply;
    if a == [] {
      assert a + b == b;
    } else {
      assert (a + b)[0] == a[0] && (a + b)[1..] == a[1..] + b;
      RunConcat(Apply(s, a[0]).value, a[1..], b);
    }
  }

  lemma AnswerKeepsQueue(s: State, id: nat, reply: Reply, c: nat)
    requires Apply(s, Respond(id, reply)).Some? && Apply(Apply(s, Respond(id, reply)).value, Receive(c)).Some?
    ensures Apply(Apply(s, Respond(id, reply)).value, Receive(c)).value.outbound == s.outbound
  {
    hide CallerStep, Dispatch, ApplyCloser;
  }

  // ----- the outbound queue and the event streams -----

  /** At most 64 lines are queued, and a closer that has finished has closed the event streams. */
  predicate QueueAndEvents(s: State) {
    && (s.outbound.Some? ==> s.outbound.value <= 64)
    && forall k :: k in s.table.closers && s.table.closers[k].Finished? ==> s.eventsClosed
  }

  lemma CallerStepQueue(s: State, step: Step)
    requires QueueAndEvents(s) && IsCallerStep(step) && Apply(s, step).Some?
    ensures QueueAndEvents(Apply(s, step).value)
  {
    hide CallerStep, ApplyCloser, ApplyOther;
  }

  lemma CloserStepQueue(s: State, step: Step)
    requires QueueAndEvents(s) && IsCloserStep(step) && Apply(s, step).Some?
    ensures QueueAndEvents(Apply(s, step).value)
  {
    var t := CloserStep(s.table, s.table.closers[step.k], step).value;
    OnlyCloseEventsFinishes(s.table, step);
    hide ApplyCaller, ApplyOther, CloserStep;
    assert Apply(s, step) == ApplyCloser(s, step);
  }

  lemma OnlyCloseEventsFinishes(t: Table, step: Step)
    requires IsCloserStep(step) && step.k in t.closers && CloserStep(t, t.closers[step.k], step).Some?
    ensures var t' := CloserStep(t, t.closers[step.k], step).value;
            forall k :: k in t'.closers && t'.closers[k].Finished? ==>
              step.CloseEvents? || (k in t.closers && t.closers[k].Finished?)
  {
  }

  lemma OtherStepQueue(s: State, step: Step)
    requires QueueAndEvents(s) && !IsCallerStep(step) && !IsCloserStep(step) && Apply(s, step).Some?
    ensures QueueAndEvents(Apply(s, step).value)
  {
    hide ApplyCaller, ApplyCloser;
  }

  lemma {:induction false} RunQueue(s: State, steps: seq<Step>)
    requires QueueAndEvents(s) && Run(s, steps).Some?
    ensures QueueAndEvents(Run(s, steps).value)
    decreases |steps|
  {
    if steps != [] {
      if IsCallerStep(steps[0]) {
        CallerStepQueue(s, steps[0]);
      } else if IsCloserStep(steps[0]) {
        CloserStepQueue(s, steps[0]);
      } else {
        OtherStepQueue(s, steps[0]);
      }
      hide Apply, QueueAndEvents;
      RunQueue(Apply(s, steps[0]).value, steps[1..]);
    }
  }

  /**
   * Once any closer has finished, the connection is closed for good: the flag is set, a reason
   * is recorded and the event streams have ended. The outbound queue never exceeds its bound.
   */
  lemma FinishedCloserClosedAll(s: State)
    requires Reachable(s)
    ensures (exists k :: k in s.table.closers && s.table.closers[k].Finished?) ==>
              s.table.closed && s.table.reason.Some? && s.eventsClosed
    ensures s.outbound.Some? ==> s.outbound.value <= 64
  {
    ReachableInv(s);
    var steps: seq<Step> :| Run(INITIAL, steps) == Some(s);
    RunQueue(INITIAL, steps);
    if k :| k in s.table.closers && s.table.closers[k].Finished? {
      assert CloserOk(s.table, k, s.table.closers[k]);
    }
  }

  /** Enqueuing fails exactly when the queue is full or its other end is gone. */
  lemma EnqueueExact(s: State, c: nat)
    requires c in s.table.callers && s.table.callers[c].Registered?
    requires s.outbound.Some? ==> s.outbound.value <= 64
    ensures var r := Apply(s, Enqueue(c));
            && r.Some? && c in r.value.table.callers
            && (r.value.table.callers[c].QueueGone? <==> s.outbound.None? || s.writer.Gone?)
            && (r.value.table.callers[c].QueueFull? <==> s.outbound == Some(64) && !s.writer.Gone?)
            && (r.value.table.callers[c].Enqueued? ==> r.value.outbound == Some(s.outbound.value + 1))
            && (!r.value.table.callers[c].Enqueued? ==> r.value.outbound == s.outbound)
  {
    EnqueueMoves(s, c);
    hide ApplyCaller, ApplyCloser;
  }

  // ----- closers -----

  /** How far a closer is from its end: the stages before it, and the senders left to drop. */
  function Stage(pc: Closer): nat {
    match pc
    case TakeOutbound => 5
    case SetReason(_) => 4
    case SetClosed => 3
    case Drain => 2
    case DropSenders(_) => 1
    case Finished => 0
  }

  predicate Nearer(t: Table, k: nat, pc: Closer) {
    && k in t.closers
    && (Stage(t.closers[k]) < Stage(pc) || (Stage(t.closers[k]) == Stage(pc) && |Held(t.closers[k])| < |Held(pc)|))
  }

  lemma CloserNext(t: Table, k: nat) returns (step: Step)
    requires k in t.closers && !t.closers[k].Finished?
    ensures IsCloserStep(step) && step.k == k && CloserStep(t, t.closers[k], step).Some?
    ensures Nearer(CloserStep(t, t.closers[k], step).value, k, t.closers[k])
  {
    hide StoreReason, StoreClosed, TakeAll, DropOne;
    match t.closers[k]
    case TakeOutbound => step := TakeSender(k);
    case SetReason(_) => step := RecordReason(k);
    case SetClosed => step := MarkClosed(k);
    case Drain => step := DrainPending(k);
    case DropSenders(held) =>
      if held == {} {
        step := CloseEvents(k);
      } else {
        var id :| id in held;
        step := DropSender(k, id);
      }
  }

  /** A closer that has not finished always has a step of its own, and that step brings it closer. */
  lemma CloserEnabled(s: State, k: nat) returns (step: Step)
    requires k in s.table.closers && !s.table.closers[k].Finished?
    ensures IsCloserStep(step) && step.k == k && Apply(s, step).Some?
    ensures Nearer(Apply(s, step).value.table, k, s.table.closers[k])
  {
    step := CloserNext(s.table, k);
    hide Apply, CloserStep, Nearer;
    CloserMoves(s, k, step);
  }

  lemma CloserMoves(s: State, k: nat, step: Step)
    requires k in s.table.closers && IsCloserStep(step) && step.k == k
    ensures Apply(s, step).Some? <==> CloserStep(s.table, s.table.closers[k], step).Some?
    ensures Apply(s, step).Some? ==> Apply(s, step).value.table == CloserStep(s.table, s.table.closers[k], step).value
  {
    hide CloserStep, ApplyCaller, ApplyOther;
  }

  /**
   * Every close completes: left to itself, a closer ends with its reason recorded or an earlier
   * one kept, the flag set, nothing pending that it found, and the event streams closed.
   */
  lemma {:induction false} EveryCloserEnds(s: State, k: nat) returns (steps: seq<Step>)
    requires k in s.table.closers
    ensures Run(s, steps).Some? && k in Run(s, steps).value.table.closers
    ensures Run(s, steps).value.table.closers[k].Finished?
    ensures forall i :: 0 <= i < |steps| ==> IsCloserStep(steps[i]) && steps[i].k == k
    decreases Stage(s.table.closers[k]), |Held(s.table.closers[k])|
  {
    if s.table.closers[k].Finished? {
      return [];
    }
    var step := CloserEnabled(s, k);
    hide Apply;
    var rest := EveryCloserEnds(Apply(s, step).value, k);
    steps := [step] + rest;
    assert steps[1..] == rest;
  }

  // ----- where a close reason comes from -----

  /** The reader or the writer ended with it, or someone called `close`. */
  ghost predicate Given(why: Reason, steps: seq<Step>) {
    || (exists k: nat :: ReaderEnds(k, why) in steps)
    || (exists k: nat :: WriterFails(k, why) in steps)
    || (why == Closed && exists k: nat :: CallClose(k) in steps)
  }

  /** The recorded reason, and every one about to be recorded, was given. */
  ghost predicate Blamed(t: Table, steps: seq<Step>) {
    && (t.reason.Some? ==> Given(t.reason.value, steps))
    && forall k :: k in t.closers ==>
         && (t.closers[k].SetReason? ==> Given(t.closers[k].why, steps))
         && (t.closers[k].TakeOutbound? ==> Given(Closed, steps))
  }

  lemma GivenGrows(why: Reason, steps: seq<Step>, step: Step)
    ensures Given(why, steps) ==> Given(why, steps + [step])
  {
    assert forall x :: x in steps ==> x in steps + [step];
  }

  lemma BlamedGrows(t: Table, steps: seq<Step>, step: Step)
    requires Blamed(t, steps)
    ensures Blamed(t, steps + [step])
  {
    hide Given;
    if t.reason.Some? { GivenGrows(t.reason.value, steps, step); }
    GivenGrows(Closed, steps, step);
    forall k | k in t.closers && t.closers[k].SetReason? ensures Given(t.closers[k].why, steps + [step]) {
      GivenGrows(t.closers[k].why, steps, step);
    }
  }

  lemma CloserStepBlamed(t: Table, k: nat, step: Step, steps: seq<Step>)
    requires Blamed(t, steps) && IsCloserStep(step) && step.k == k && k in t.closers
    requires CloserStep(t, t.closers[k], step).Some?
    ensures Blamed(CloserStep(t, t.closers[k], step).value, steps)
  {
    hide Given;
  }

  lemma OtherStepBlamed(s: State, step: Step, steps: seq<Step>)
    requires Blamed(s.table, steps) && !IsCallerStep(step) && !IsCloserStep(step) && ApplyOther(s, step).Some?
    requires step in steps
    ensures Blamed(ApplyOther(s, step).value.table, steps)
  {
    assert step.ReaderEnds? || step.WriterFails? ==> Given(step.why, steps);
    assert step.CallClose? ==> Given(Closed, steps);
    hide Given;
    if step.ReaderEnds? || step.WriterFails? || step.CallClose? {
      hide EnqueueLine, Dispatch;
    } else {
      hide Blamed;
      CallerKeepsBlame(s.table, ApplyOther(s, step).value.table, steps);
    }
  }

  lemma StepBlamed(s: State, step: Step, steps: seq<Step>)
    requires Blamed(s.table, steps) && Apply(s, step).Some?
    ensures Blamed(Apply(s, step).value.table, steps + [step])
  {
    BlamedGrows(s.table, steps, step);
    hide Blamed, Given, CallerStep, CloserStep, ApplyOther;
    if IsCallerStep(step) {
      CallerKeepsBlame(s.table, CallerStep(s.table, s.table.callers[step.c], step).value, steps + [step]);
    } else if IsCloserStep(step) {
      CloserStepBlamed(s.table, step.k, step, steps + [step]);
    } else {
      OtherStepBlamed(s, step, steps + [step]);
    }
  }

  lemma CallerKeepsBlame(t: Table, r: Table, steps: seq<Step>)
    requires Blamed(t, steps) && r.reason == t.reason && r.closers == t.closers
    ensures Blamed(r, steps)
  {
    hide Given;
  }

  lemma {:induction false} RunBlamed(s: State, done: seq<Step>, steps: seq<Step>)
    requires Blamed(s.table, done) && Run(s, steps).Some?
    ensures Blamed(Run(s, steps).value.table, done + steps)
    decreases |steps|
  {
    if steps == [] {
      assert done + steps == done;
    } else {
      StepBlamed(s, steps[0], done);
      hide Apply, Blamed;
      RunBlamed(Apply(s, steps[0]).value, done + [steps[0]], steps[1..]);
      assert (done + [steps[0]]) + steps[1..] == done + steps;
    }
  }

  /** Over every run: the recorded reason is one that the reader, the writer or a close brought. */
  lemma ReasonWasGiven(steps: seq<Step>)
    requires Run(INITIAL, steps).Some? && Run(INITIAL, steps).value.table.reason.Some?
    ensures var why := Run(INITIAL, steps).value.table.reason.value;
            || (exists k: nat :: ReaderEnds(k, why) in steps)
            || (exists k: nat :: WriterFails(k, why) in steps)
            || (why == Closed && exists k: nat :: CallClose(k) in steps)
  {
    hide Apply, Run;
    RunBlamed(INITIAL, [], steps);
    assert [] + steps == steps;
  }

  /** Whichever ends the connection first leaves its reason. */
  lemma ReaderReasonRecorded(s: State, k: nat, why: Reason)
    requires k !in s.table.closers && s.table.reason.None? && s.readerRunning
    ensures var r := Run(s, [ReaderEnds(k, why), RecordReason(k)]);
            r.Some? && r.value.table.reason == Some(why) && !r.value.readerRunning
  {
    hide ApplyCaller, Run;
    var s1 := Apply(s, ReaderEnds(k, why)).value;
    RunTwo(s, ReaderEnds(k, why), RecordReason(k), s1, Apply(s1, RecordReason(k)).value);
  }

  lemma WriterReasonRecorded(s: State, k: nat, why: Reason)
    requires k !in s.table.closers && s.table.reason.None? && s.writer.Running?
    ensures var r := Run(s, [WriterFails(k, why), RecordReason(k)]);
            r.Some? && r.value.table.reason == Some(why) && r.value.writer == Closing(k)
  {
    hide ApplyCaller, Run;
    var s1 := Apply(s, WriterFails(k, why)).value;
    RunTwo(s, WriterFails(k, why), RecordReason(k), s1, Apply(s1, RecordReason(k)).value);
  }

  lemma CallCloseStarts(s: State, k: nat)
    requires k !in s.table.closers
    ensures Apply(s, CallClose(k)) == Some(s.(table := CloserGoto(s.table, k, TakeOutbound)))
  {
    hide ApplyCaller, ApplyCloser;
  }

  lemma TakeSenderTakes(s: State, k: nat)
    requires k in s.table.closers && s.table.closers[k].TakeOutbound?
    ensures Apply(s, TakeSender(k)) == Some(s.(table := CloserGoto(s.table, k, SetReason(Closed)), outbound := None))
  {
    hide ApplyCaller, ApplyOther, StoreReason, StoreClosed, TakeAll, DropOne;
  }

  lemma RecordReasonRecords(s: State, k: nat)
    requires k in s.table.closers && s.table.closers[k].SetReason? && s.table.reason.None?
    ensures var r := Apply(s, RecordReason(k)); r.Some? && r.value.table.reason == Some(s.table.closers[k].why)
  {
    hide ApplyCaller, ApplyOther, StoreClosed, TakeAll, DropOne;
  }

  /** `close` takes the outbound sender first and records its reason after that. */
  lemma CloseTakesSenderFirst(s: State, k: nat)
    requires k !in s.table.closers && s.table.reason.None?
    ensures var r := Run(s, [CallClose(k), TakeSender(k)]);
            && r.Some? && r.value.outbound.None? && r.value.table.reason.None?
            && Apply(r.value, RecordReason(k)).Some?
            && Apply(r.value, RecordReason(k)).value.table.reason == Some(Closed)
  {
    hide Apply, Run;
    CallCloseStarts(s, k);
    var s1 := Apply(s, CallClose(k)).value;
    TakeSenderTakes(s1, k);
    var s2 := Apply(s1, TakeSender(k)).value;
    RecordReasonRecords(s2, k);
    RunTwo(s, CallClose(k), TakeSender(k), s1, s2);
  }

  /** A request made on a closed connection fails at once with the first reason, and leaves nothing behind. */
  lemma ClosedRefusesAtOnce(s: State, c: nat)
    requires Reachable(s) && s.table.closed && c in s.table.callers && s.table.callers[c].Checking?
    ensures s.table.reason.Some?
    ensures Run(s, [CheckClosed(c), ReadReason(c)]) ==
            Some(s.(table := Goto(s.table, c, Failed(AtStart, s.table.reason.value))))
  {
    ReachableInv(s);
    assert s.table.reason.Some? by { assert GlobalOk(s.table); }
    hide Inv, Reachable, Run, ApplyOther, ApplyCloser;
    var s1 := s.(table := Goto(s.table, c, ReadingReason(AtStart)));
    var s2 := s.(table := Goto(s.table, c, Failed(AtStart, s.table.reason.value)));
    assert Apply(s, CheckClosed(c)) == Some(s1);
    ReadReasonReads(s1, c);
    assert Goto(s1.table, c, Failed(AtStart, s.table.reason.value)) == s2.table;
    RunTwo(s, CheckClosed(c), ReadReason(c), s1, s2);
  }

  lemma ReadReasonReads(s: State, c: nat)
    requires c in s.table.callers && s.table.callers[c].ReadingReason?
    ensures Apply(s, ReadReason(c)) ==
            Some(s.(table := Goto(s.table, c, Failed(s.table.callers[c].exit, CloseError(s.table)))))
  {
    hide ApplyOther, ApplyCloser, EntryStep, CloseError;
  }

  /** The writer leaves only when no sender is left or its own close is done. */
  lemma WriterLeavesLast(s: State)
    requires s.writer.Running? && s.outbound.Some?
    ensures Apply(s, WriterExits).None?
  {
    hide ApplyCaller, ApplyCloser;
  }

  /** The writer takes queued lines one at a time, while it runs. */
  lemma WriterTakesOne(s: State)
    ensures Apply(s, WriteLine).Some? <==> s.writer.Running? && s.outbound.Some? && s.outbound.value > 0
    ensures Apply(s, WriteLine).Some? ==> Apply(s, WriteLine).value == s.(outbound := Some(s.outbound.value - 1))
  {
    hide ApplyCaller, ApplyCloser;
  }

  /** Once the reader has ended, no response is dispatched any more, in any continuation. */
  lemma {:induction false} EndedReaderStaysSilent(s: State, steps: seq<Step>, id: nat, reply: Reply)
    requires !s.readerRunning && Run(s, steps).Some?
    ensures !Run(s, steps).value.readerRunning && Respond(id, reply) !in steps
    decreases |steps|
  {
    if steps != [] {
      ReaderStaysEnded(s, steps[0]);
      assert steps[0] != Respond(id, reply) by { hide ApplyCaller, ApplyCloser; }
      hide Apply;
      EndedReaderStaysSilent(Apply(s, steps[0]).value, steps[1..], id, reply);
      assert steps == [steps[0]] + steps[1..];
    }
  }

  lemma ReaderStaysEnded(s: State, step: Step)
    requires !s.readerRunning && Apply(s, step).Some?
    ensures !Apply(s, step).value.readerRunning
  {
    hide CallerStep, CloserStep;
  }
}
