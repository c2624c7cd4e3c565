// The event fan-out: one bounded queue and one skipped counter per subscription.

module FanOut {
  import opened Core

  const EVENT_CHANNEL_CAPACITY: nat := 4096

  type Event(==) = string

  /** What one poll of a stream observes. */
  datatype Poll = Lagged(count: nat) | Item(event: Event) | ClosedItem | End | Pending

  /**
   * One subscription: its queue, what overflowed since the last poll, both channel ends. `owed`
   * are events found not to fit and not counted yet; `receiving` is a poll that has taken the
   * counter at zero and not looked at the queue yet.
   */
  datatype Sub = Sub(queue: seq<Event>, skipped: nat, owed: nat, receiving: bool, senderAlive: bool,
                     receiverAlive: bool, closedReported: bool)

  /** First half of a delivery: the event is queued, or dropped for want of room. */
  function Offer(s: Sub, e: Event): Sub {
    if !s.senderAlive || !s.receiverAlive then s
    else if |s.queue| < EVENT_CHANNEL_CAPACITY then s.(queue := s.queue + [e])
    else s.(owed := s.owed + 1)
  }

  /** Second half: a dropped event is counted. */
  function Count(s: Sub): Sub {
    if s.owed > 0 then s.(skipped := s.skipped + 1, owed := s.owed - 1) else s
  }

  /** `try_send` towards one subscription. */
  function Deliver(s: Sub, e: Event): Sub { Count(Offer(s, e)) }

  /** First half of a poll: the counter is taken, and reported unless it is zero. */
  function TakeSkipped(s: Sub): (Sub, Option<Poll>) {
    if s.receiving then (s, None)
    else if s.skipped > 0 then (s.(skipped := 0), Some(Lagged(s.skipped)))
    else (s.(receiving := true), None)
  }

  /** Second half: the queue is looked at. */
  function Receive(s: Sub): (Sub, Option<Poll>) {
    var r := s.(receiving := false);
    if !s.receiving then (s, None)
    else if s.queue != [] then (r.(queue := s.queue[1..]), Some(Item(s.queue[0])))
    else if s.senderAlive then (r, Some(Pending))
    else if s.closedReported then (r, Some(End))
    else (r.(closedReported := true), Some(ClosedItem))
  }

  /** A poll with nothing between its halves. */
  function PollOnce(s: Sub): (Sub, Poll)
    requires !s.receiving
  {
    var (s1, lag) := TakeSkipped(s);
    if lag.Some? then (s1, lag.value) else (Receive(s1).0, Receive(s1).1.value)
  }

  // ----- whole runs of one subscription -----

  /** The atomic actions of the reader task, the stream's owner and a closer, in any order. */
  datatype Op = SendEvent(event: Event) | CountDropped | PollCounter | PollQueue | CloseAll

  /** A subscription made while the fan-out was open (or closed), before any operation. */
  function Fresh(open: bool): Sub { Sub([], 0, 0, false, open, true, false) }

  function Apply(s: Sub, op: Op): Sub {
    match op
    case SendEvent(e) => Offer(s, e)
    case CountDropped => Count(s)
    case PollCounter => TakeSkipped(s).0
    case PollQueue => Receive(s).0
    case CloseAll => s.(senderAlive := false)
  }

  /** What a stream's owner observes of an action. */
  function Observed(s: Sub, op: Op): seq<Poll> {
    var r := if op.PollCounter? then TakeSkipped(s).1 else if op.PollQueue? then Receive(s).1 else None;
    if r.Some? then [r.value] else []
  }

  function After(s: Sub, ops: seq<Op>): Sub {
    if ops == [] then s else Apply(After(s, ops[..|ops| - 1]), ops[|ops| - 1])
  }

  /** Everything the polls of the run observed. */
  function Trace(s: Sub, ops: seq<Op>): seq<Poll> {
    if ops == [] then []
    else
      var init, last := ops[..|ops| - 1], ops[|ops| - 1];
      Trace(s, init) + Observed(After(s, init), last)
  }

  /** The events sent before the fan-out closed. */
  function SentEvents(ops: seq<Op>): seq<Event> {
    if ops == [] || ops[0].CloseAll? then []
    else (if ops[0].SendEvent? then [ops[0].event] else []) + SentEvents(ops[1..])
  }

  function ItemsOf(trace: seq<Poll>): seq<Event> {
    if trace == [] then []
    else ItemsOf(trace[..|trace| - 1]) + (if trace[|trace| - 1].Item? then [trace[|trace| - 1].event] else [])
  }

  function LagOf(trace: seq<Poll>): nat {
    if trace == [] then 0
    else LagOf(trace[..|trace| - 1]) + if trace[|trace| - 1].Lagged? then trace[|trace| - 1].count else 0
  }

  /** `a` is `b` with some elements left out, in the same order. */
  ghost predicate Subsequence<T>(a: seq<T>, b: seq<T>) {
    if b == [] then a == []
    else
      var last := b[|b| - 1];
      Subsequence(a, b[..|b| - 1])
      || (a != [] && a[|a| - 1] == last && Subsequence(a[..|a| - 1], b[..|b| - 1]))
  }

  lemma SubsequenceSnoc<T>(a: seq<T>, b: seq<T>, x: T)
    requires Subsequence(a, b)
    ensures Subsequence(a, b + [x]) && Subsequence(a + [x], b + [x])
  {
    assert (b + [x])[..|b|] == b && (a + [x])[..|a|] == a;
  }

  lemma {:induction false} SentSnoc(ops: seq<Op>, op: Op)
    ensures SentEvents(ops + [op]) ==
            SentEvents(ops) + if op.SendEvent? && CloseAll !in ops then [op.event] else []
  {
    if ops == [] {
      assert ([op])[1..] == [];
    } else {
      assert (ops + [op])[1..] == ops[1..] + [op];
      assert (ops + [op])[0] == ops[0];
      SentSnoc(ops[1..], op);
      assert ops == [ops[0]] + ops[1..];
    }
  }

  lemma {:induction false} SenderAliveUntilClose(ops: seq<Op>)
    ensures After(Fresh(true), ops).senderAlive <==> CloseAll !in ops
    ensures After(Fresh(true), ops).receiverAlive
  {
    if ops != [] {
      var init := ops[..|ops| - 1];
      assert ops == init + [ops[|ops| - 1]];
      SenderAliveUntilClose(init);
    }
  }

  lemma TraceSnoc(trace: seq<Poll>, p: Poll)
    ensures ItemsOf(trace + [p]) == ItemsOf(trace) + if p.Item? then [p.event] else []
    ensures LagOf(trace + [p]) == LagOf(trace) + if p.Lagged? then p.count else 0
  {
    assert (trace + [p])[..|trace|] == trace;
  }

  ghost predicate Accounted(s: Sub, trace: seq<Poll>, sent: seq<Event>) {
    && |sent| == |ItemsOf(trace)| + |s.queue| + s.skipped + s.owed + LagOf(trace)
    && Subsequence(ItemsOf(trace) + s.queue, sent)
    && |s.queue| <= EVENT_CHANNEL_CAPACITY
  }

  lemma OfferAccounted(s: Sub, trace: seq<Poll>, sent: seq<Event>, e: Event)
    requires Accounted(s, trace, sent) && s.senderAlive && s.receiverAlive
    ensures Accounted(Offer(s, e), trace, sent + [e])
  {
    SubsequenceSnoc(ItemsOf(trace) + s.queue, sent, e);
    assert (ItemsOf(trace) + s.queue) + [e] == ItemsOf(trace) + (s.queue + [e]);
  }

  lemma PollAccounted(s: Sub, trace: seq<Poll>, sent: seq<Event>, op: Op)
    requires Accounted(s, trace, sent) && (op.PollCounter? || op.PollQueue?)
    ensures Accounted(Apply(s, op), trace + Observed(s, op), sent)
  {
    if Observed(s, op) == [] {
      assert trace + [] == trace;
    } else {
      var p := Observed(s, op)[0];
      TraceSnoc(trace, p);
      assert p.Item? ==> ItemsOf(trace) + s.queue == (ItemsOf(trace) + [s.queue[0]]) + s.queue[1..];
      assert ItemsOf(trace) + [] == ItemsOf(trace);
    }
  }

  /**
   * Nothing is lost unaccounted: over every run, with sends and closes falling anywhere between
   * the halves of a poll and polls between the halves of a send, the events sent are those
   * delivered, those still queued, and those dropped: uncounted, counted or reported as lag.
   * Delivered and queued together are what was sent, in order, with the overflow left out.
   */
  lemma {:induction false} Conservation(ops: seq<Op>)
    ensures Accounted(After(Fresh(true), ops), Trace(Fresh(true), ops), SentEvents(ops))
  {
    if ops != [] {
      var init, last := ops[..|ops| - 1], ops[|ops| - 1];
      assert ops == init + [last];
      Conservation(init);
      SentSnoc(init, last);
      SenderAliveUntilClose(init);
      var s, trace := After(Fresh(true), init), Trace(Fresh(true), init);
      assert SentEvents(init) + [] == SentEvents(init) && trace + [] == trace;
      hide Subsequence, ItemsOf, LagOf;
      match last
      case SendEvent(e) => if CloseAll !in init { OfferAccounted(s, trace, SentEvents(init), e); }
      case CountDropped =>
      case PollCounter => PollAccounted(s, trace, SentEvents(init), last);
      case PollQueue => PollAccounted(s, trace, SentEvents(init), last);
      case CloseAll =>
    }
  }

  // ----- what a stream may say, and when -----

  /** The close is reported at most once, and nothing ends before it is. */
  predicate ClosesInOrder(trace: seq<Poll>) {
    && (forall i, j :: 0 <= i < j < |trace| ==> !(trace[i].ClosedItem? && trace[j].ClosedItem?))
    && forall j :: 0 <= j < |trace| && trace[j].End? ==> ClosedItem in trace[..j]
  }

  /** Until the fan-out closes, a stream never reports a close or an end. */
  lemma {:induction false} OpenStreamNeverEnds(ops: seq<Op>)
    requires CloseAll !in ops
    ensures ClosedItem !in Trace(Fresh(true), ops) && End !in Trace(Fresh(true), ops)
  {
    if ops != [] {
      var init := ops[..|ops| - 1];
      assert ops == init + [ops[|ops| - 1]];
      OpenStreamNeverEnds(init);
      SenderAliveUntilClose(init);
    }
  }

  lemma ReportedStep(s: Sub, trace: seq<Poll>, op: Op)
    requires ClosesInOrder(trace) && (s.closedReported <==> ClosedItem in trace)
    ensures ClosesInOrder(trace + Observed(s, op))
    ensures Apply(s, op).closedReported <==> ClosedItem in trace + Observed(s, op)
  {
    var seen := Observed(s, op);
    if seen == [] {
      assert trace + seen == trace;
    } else {
      var all := trace + [seen[0]];
      assert seen == [seen[0]];
      assert all[..|trace|] == trace;
      assert forall j :: 0 <= j < |trace| ==> all[..j] == trace[..j];
    }
  }

  /** On every run, of an open or a closed fan-out, the close is reported once and before any end. */
  lemma {:induction false} ClosedOnceThenEnd(open: bool, ops: seq<Op>)
    ensures ClosesInOrder(Trace(Fresh(open), ops))
    ensures After(Fresh(open), ops).closedReported <==> ClosedItem in Trace(Fresh(open), ops)
  {
    if ops != [] {
      var init := ops[..|ops| - 1];
      ClosedOnceThenEnd(open, init);
      ReportedStep(After(Fresh(open), init), Trace(Fresh(open), init), ops[|ops| - 1]);
    }
  }

  /** What one more poll leaves and observes. */
  lemma AfterPoll(s: Sub, ops: seq<Op>)
    ensures var s' := After(s, ops);
            var t := TakeSkipped(s').0;
            && After(s, ops + [PollCounter, PollQueue]) == Receive(t).0
            && Trace(s, ops + [PollCounter, PollQueue]) ==
               Trace(s, ops) + (Observed(s', PollCounter) + Observed(t, PollQueue))
  {
    hide TakeSkipped, Receive, Observed;
    var once := ops + [PollCounter];
    assert ops + [PollCounter, PollQueue] == once + [PollQueue];
    AfterOne(s, ops, PollCounter);
    AfterOne(s, once, PollQueue);
    hide After, Trace;
    assert (Trace(s, ops) + Observed(After(s, ops), PollCounter)) + Observed(After(s, once), PollQueue) ==
           Trace(s, ops) + (Observed(After(s, ops), PollCounter) + Observed(After(s, once), PollQueue));
  }

  lemma AfterOne(s: Sub, ops: seq<Op>, op: Op)
    ensures After(s, ops + [op]) == Apply(After(s, ops), op)
    ensures Trace(s, ops + [op]) == Trace(s, ops) + Observed(After(s, ops), op)
  {
    hide Apply, Observed;
    assert (ops + [op])[..|ops|] == ops;
  }

  /** Polling an open stream with nothing to say observes `Pending` and changes nothing. */
  lemma IdlePollPends(ops: seq<Op>)
    requires CloseAll !in ops
    ensures var s := After(Fresh(true), ops);
            !s.receiving && s.queue == [] && s.skipped == 0 ==>
              Trace(Fresh(true), ops + [PollCounter, PollQueue]) == Trace(Fresh(true), ops) + [Pending]
              && After(Fresh(true), ops + [PollCounter, PollQueue]) == s
  {
    SenderAliveUntilClose(ops);
    AfterPoll(Fresh(true), ops);
    hide After, Trace;
  }

  /** A queued event is delivered before anything else is said, unless events were dropped. */
  lemma QueuedEventIsNext(ops: seq<Op>)
    ensures var s := After(Fresh(true), ops);
            !s.receiving && s.queue != [] && s.skipped == 0 ==>
              Trace(Fresh(true), ops + [PollCounter, PollQueue]) == Trace(Fresh(true), ops) + [Item(s.queue[0])]
              && After(Fresh(true), ops + [PollCounter, PollQueue]) == s.(queue := s.queue[1..])
  {
    AfterPoll(Fresh(true), ops);
    hide After, Trace;
  }

  /** An event sent to an open stream is dropped exactly when 4096 events are queued; else it is last in line. */
  lemma DroppedOnlyWhenFull(ops: seq<Op>, e: Event)
    requires CloseAll !in ops
    ensures var s, s' := After(Fresh(true), ops), After(Fresh(true), ops + [SendEvent(e)]);
            && |s.queue| <= 4096
            && (|s.queue| < 4096 ==> s'.queue == s.queue + [e] && s'.owed == s.owed)
            && (|s.queue| == 4096 ==> s'.queue == s.queue && s'.owed == s.owed + 1)
  {
    Conservation(ops);
    SenderAliveUntilClose(ops);
    assert (ops + [SendEvent(e)])[..|ops|] == ops;
  }

  // ----- after the close -----

  function Items(queue: seq<Event>): (r: seq<Poll>)
    ensures |r| == |queue|
  {
    seq(|queue|, i requires 0 <= i < |queue| => Item(queue[i]))
  }

  /** What a closed stream still says, before it ends for good. */
  function Farewell(s: Sub): seq<Poll> {
    (if s.skipped > 0 then [Lagged(s.skipped)] else []) + Items(s.queue) +
    if s.closedReported then [] else [ClosedItem]
  }

  /** Cut off from its sender, between two polls. */
  predicate Closed(s: Sub) { !s.senderAlive && s.owed == 0 && !s.receiving }

  lemma FarewellStep(s: Sub)
    requires Closed(s)
    ensures Closed(PollOnce(s).0)
    ensures Farewell(s) == [] ==> PollOnce(s) == (s, End)
    ensures Farewell(s) != [] ==>
              PollOnce(s).1 == Farewell(s)[0] && Farewell(PollOnce(s).0) == Farewell(s)[1..]
  {
    var f := Farewell(s);
    var s' := PollOnce(s).0;
    if s.skipped > 0 {
      assert f[1..] == Items(s.queue) + (if s.closedReported then [] else [ClosedItem]);
    } else if s.queue != [] {
      assert Items(s.queue) == [Item(s.queue[0])] + Items(s.queue[1..]);
      assert Farewell(s') == f[1..];
    }
  }

  /** The observations of `n` polls in a row. */
  function PollMany(s: Sub, n: nat): seq<Poll>
    requires !s.receiving
    decreases n
  {
    if n == 0 then [] else [PollOnce(s).1] + PollMany(PollOnce(s).0, n - 1)
  }

  /**
   * A closed stream reports its lag, drains its queue, says `Closed` once and then only ends,
   * however often it is polled.
   */
  lemma {:induction false} ClosedStreamDrains(s: Sub, n: nat)
    requires Closed(s)
    ensures PollMany(s, n) ==
            Take(Farewell(s), n) + Ends(if n > |Farewell(s)| then n - |Farewell(s)| else 0)
    decreases n
  {
    if n == 0 {
      assert Take(Farewell(s), 0) == [] && Ends(0) == [];
    } else {
      FarewellStep(s);
      hide PollOnce, Farewell, Closed, Take, Ends;
      ClosedStreamDrains(PollOnce(s).0, n - 1);
      if Farewell(s) != [] {
        TakeCons(Farewell(s), n);
      } else {
        EndsCons(n - 1);
        TakeNothing(n);
        TakeNothing(n - 1);
      }
    }
  }

  function Ends(n: nat): seq<Poll> { seq(n, i => End) }

  lemma EndsCons(n: nat)
    ensures Ends(n + 1) == [End] + Ends(n)
  {
  }

  lemma TakeNothing(n: nat)
    ensures Take<Poll>([], n) == []
  {
  }

  lemma TakeCons<T>(a: seq<T>, n: nat)
    requires a != [] && n > 0
    ensures Take(a, n) == [a[0]] + Take(a[1..], n - 1)
  {
  }

  // ----- the shared objects -----

  /** The channel between the fan-out and one stream, with its skipped counter. */
  class Subscription {
    var queue: seq<Event>
    var skipped: nat
    var senderAlive: bool
    var receiverAlive: bool
    var closedReported: bool
    /** Where a send or a poll stands between its two accesses. */
    ghost var owed: nat
    ghost var receiving: bool

    ghost function View(): Sub
      reads this
    {
      Sub(queue, skipped, owed, receiving, senderAlive, receiverAlive, closedReported)
    }

    constructor (open: bool)
      ensures View() == Fresh(open)
    {
      queue, skipped, senderAlive, receiverAlive, closedReported := [], 0, open, true, false;
      owed, receiving := 0, false;
    }

    /** The access to the queue: whether it was full. */
    method OfferEvent(event: Event) returns (full: bool)
      requires senderAlive
      modifies this
      ensures View() == Offer(old(View()), event) && (full <==> owed == old(owed) + 1)
    {
      full := receiverAlive && |queue| >= EVENT_CHANNEL_CAPACITY;
      if full {
        owed := owed + 1;
      } else if receiverAlive {
        queue := queue + [event];
      }
    }

    /** The access to the counter. */
    method CountSkipped()
      requires owed > 0
      modifies this
      ensures View() == Count(old(View()))
    {
      skipped := skipped + 1;
      owed := owed - 1;
    }

    method TrySend(event: Event)
      requires senderAlive && owed == 0
      modifies this
      ensures View() == Deliver(old(View()), event) && owed == 0
    {
      var full := OfferEvent(event);
      if full {
        CountSkipped();
      }
    }

    /** Takes the counter; reports it unless it is zero. */
    method SwapSkipped() returns (r: Option<Poll>)
      requires receiverAlive && !receiving
      modifies this
      ensures (View(), r) == TakeSkipped(old(View()))
    {
      var lag := skipped;
      skipped := 0;
      if lag > 0 {
        return Some(Lagged(lag));
      }
      receiving := true;
      return None;
    }

    /** Looks at the queue. */
    method PollQueue() returns (r: Poll)
      requires receiverAlive && receiving
      modifies this
      ensures (View(), Some(r)) == Receive(old(View()))
    {
      receiving := false;
      if queue != [] {
        r := Item(queue[0]);
        queue := queue[1..];
      } else if senderAlive {
        r := Pending;
      } else if closedReported {
        r := End;
      } else {
        closedReported := true;
        r := ClosedItem;
      }
    }

    /** Both accesses in a row. */
    method PollEvent() returns (r: Poll)
      requires receiverAlive && !receiving
      modifies this
      ensures (View(), r) == PollOnce(old(View()))
    {
      var lag := SwapSkipped();
      if lag.Some? {
        return lag.value;
      }
      r := PollQueue();
    }
  }

  /** The subscriptions whose stream is still there. */
  ghost function Live(subs: seq<Subscription>): seq<Subscription>
    reads subs
  {
    if subs == [] then []
    else (if subs[0].receiverAlive then [subs[0]] else []) + Live(subs[1..])
  }

  class EventFanout {
    var subscribers: seq<Subscription>
    var closed: bool

    ghost predicate Valid()
      reads this, subscribers
    {
      && (forall i, j :: 0 <= i < j < |subscribers| ==> subscribers[i] != subscribers[j])
      && (forall s :: s in subscribers ==> s.senderAlive && s.owed == 0)
      && (closed ==> subscribers == [])
    }

    constructor ()
      ensures Valid() && subscribers == [] && !closed
    {
      subscribers, closed := [], false;
    }

    method Subscribe() returns (s: Subscription)
      requires Valid()
      modifies this
      ensures Valid() && fresh(s) && closed == old(closed)
      ensures s.View() == Fresh(!closed)
      ensures subscribers == if closed then old(subscribers) else old(subscribers) + [s]
    {
      s := new Subscription(!closed);
      if !closed {
        subscribers := subscribers + [s];
      }
    }

    /**
     * Every subscription gets the event exactly once (or counts it), whichever of them is the
     * last live one that takes it by move; the subscriptions left without a stream are retired.
     */
    method Send(event: Event)
      requires Valid()
      modifies this`subscribers, subscribers
      ensures Valid() && closed == old(closed)
      ensures forall s :: s in old(subscribers) ==> s.View() == Deliver(old(s.View()), event)
      ensures subscribers == Live(old(subscribers))
    {
      if closed {
        return;
      }
      DeliverAll(subscribers, event);
      LiveKeeps(subscribers);
      subscribers := RetainLive(subscribers);
    }

    /** The last subscription with a stream takes the event by move, those before it a copy. */
    static method DeliverAll(subs: seq<Subscription>, event: Event)
      requires forall i, j :: 0 <= i < j < |subs| ==> subs[i] != subs[j]
      requires forall s :: s in subs ==> s.senderAlive && s.owed == 0
      modifies subs
      ensures forall s :: s in subs ==> s.View() == Deliver(old(s.View()), event)
    {
      var last := |subs|;
      while last > 0 && !subs[last - 1].receiverAlive
        invariant 0 <= last <= |subs|
        invariant forall i :: last <= i < |subs| ==> !subs[i].receiverAlive
      {
        last := last - 1;
      }
      if last > 0 {
        for i := 0 to last - 1
          invariant forall j :: 0 <= j < |subs| ==>
                      subs[j].View() == if j < i then Deliver(old(subs[j].View()), event) else old(subs[j].View())
          invariant forall j :: 0 <= j < |subs| ==> subs[j].senderAlive && subs[j].owed == 0
        {
          subs[i].TrySend(event);
        }
        subs[last - 1].TrySend(event);
      }
    }

    method Close()
      requires Valid()
      modifies this, subscribers
      ensures Valid() && closed && subscribers == []
      ensures forall s :: s in old(subscribers) ==> s.View() == old(s.View()).(senderAlive := false)
    {
      closed := true;
      var subs := subscribers;
      for i := 0 to |subs|
        invariant closed && subs == old(subscribers)
        invariant forall j :: 0 <= j < |subs| ==>
                    subs[j].View() == if j < i then old(subs[j].View()).(senderAlive := false) else old(subs[j].View())
      {
        subs[i].senderAlive := false;
      }
      subscribers := [];
    }
  }

  lemma {:induction false} LiveKeeps(subs: seq<Subscription>)
    ensures forall s :: s in Live(subs) ==> s in subs && s.receiverAlive
    ensures (forall i, j :: 0 <= i < j < |subs| ==> subs[i] != subs[j]) ==>
              forall i, j :: 0 <= i < j < |Live(subs)| ==> Live(subs)[i] != Live(subs)[j]
  {
    if subs != [] { LiveKeeps(subs[1..]); }
  }

  /** Who stays: exactly those that still have a receiver. */
  lemma {:induction false} LiveExact(subs: seq<Subscription>, s: Subscription)
    ensures s in Live(subs) <==> s in subs && s.receiverAlive
  {
    if subs != [] {
      LiveExact(subs[1..], s);
      assert subs == [subs[0]] + subs[1..];
    }
  }

  method RetainLive(subs: seq<Subscription>) returns (live: seq<Subscription>)
    ensures live == Live(subs)
  {
    live := [];
    for k := 0 to |subs|
      invariant live + Live(subs[k..]) == Live(subs)
    {
      if subs[k].receiverAlive {
        live := live + [subs[k]];
      }
    }
  }
}
