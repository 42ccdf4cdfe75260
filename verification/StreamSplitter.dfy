/**
 Splitting a stream of payloads into its head and the flow of the rest. The rest is held by a
 processor for one subscriber, who may attach at any time, is served item by item and may cancel.
 */
module StreamSplitter {
  import opened Wrappers

  datatype Signal<+T> = Next(item: T) | Complete | Error(cause: string)

  // ---------- the processor ----------

  // Items queued, the terminal signal received, whether the subscriber has attached, what it has
  // been given, whether it has been given the end, whether it has cancelled, and what it therefore
  // never gets.
  datatype Tail<T> = Tail(queue: seq<T>, end: Option<Signal<T>>, attached: bool, log: seq<Signal<T>>, ended: bool,
                          cancelled: bool, dropped: seq<Signal<T>>)

  function EmptyTail<T>(): Tail<T> {
    Tail([], None, false, [], false, false, [])
  }

  function Push<T>(t: Tail<T>, item: T): Tail<T> {
    if t.end.Some? then t
    else if t.cancelled then t.(dropped := t.dropped + [Next(item)])
    else t.(queue := t.queue + [item])
  }

  function Finish<T>(t: Tail<T>, end: Signal<T>): Tail<T> {
    if t.end.Some? then t
    else if t.cancelled then t.(dropped := t.dropped + [end])
    else t.(end := Some(end))
  }

  function AttachTo<T>(t: Tail<T>): Tail<T> {
    t.(attached := true)
  }

  // What is held for the subscriber.
  function Pending<T>(t: Tail<T>): seq<Signal<T>> {
    Nexts(t.queue) + if t.end.Some? && !t.ended && !t.cancelled then [t.end.value] else []
  }

  // Only a subscriber can cancel, and its queue is given up.
  function Discard<T>(t: Tail<T>): Tail<T> {
    if !t.attached || t.cancelled then t
    else t.(cancelled := true, dropped := t.dropped + Pending(t), queue := [])
  }

  // One delivery; the terminal signal waits until the queue is empty.
  function Deliver<T>(t: Tail<T>): Tail<T> {
    if !t.attached || t.ended || t.cancelled then t
    else if t.queue != [] then t.(log := t.log + [Next(t.queue[0])], queue := t.queue[1..])
    else if t.end.Some? then t.(log := t.log + [t.end.value], ended := true)
    else t
  }

  class UnicastProcessor<T> {
    var queue: seq<T>
    var end: Option<Signal<T>>
    var attached: bool
    var log: seq<Signal<T>>
    var ended: bool
    var cancelled: bool
    ghost var dropped: seq<Signal<T>>

    constructor ()
      ensures View() == EmptyTail()
    {
      queue, end, attached, log, ended, cancelled := [], None, false, [], false, false;
      dropped := [];
    }

    ghost function View(): Tail<T>
      reads this
    {
      Tail(queue, end, attached, log, ended, cancelled, dropped)
    }

    method OnNext(item: T)
      modifies this
      ensures View() == Push(old(View()), item)
    {
      if end.None? {
        if cancelled {
          dropped := dropped + [Next(item)];
        } else {
          queue := queue + [item];
        }
      }
    }

    method OnEnd(signal: Signal<T>)
      modifies this
      ensures View() == Finish(old(View()), signal)
    {
      if end.None? {
        if cancelled {
          dropped := dropped + [signal];
        } else {
          end := Some(signal);
        }
      }
    }

    // A second subscriber is refused.
    method Subscribe() returns (accepted: bool)
      modifies this
      ensures accepted <==> !old(attached)
      ensures View() == AttachTo(old(View()))
    {
      accepted := !attached;
      attached := true;
    }

    method Cancel()
      modifies this
      ensures View() == Discard(old(View()))
    {
      if attached && !cancelled {
        dropped := dropped + Pending(View());
        cancelled, queue := true, [];
      }
    }

    method Drain()
      modifies this
      ensures View() == Deliver(old(View()))
    {
      if attached && !ended && !cancelled {
        if queue != [] {
          log, queue := log + [Next(queue[0])], queue[1..];
        } else if end.Some? {
          log, ended := log + [end.value], true;
        }
      }
    }
  }

  // ---------- the splitter ----------

  datatype State<T> = State(first: bool, heads: seq<T>, tail: Tail<T>)

  // What can happen: a source signal, the tail consumer attaching, one delivery to it, and its
  // cancelling.
  datatype Event<T> = FromSource(signal: Signal<T>) | Attach | Drain | Cancel

  function Start<T>(): State<T> {
    State(true, [], EmptyTail())
  }

  function Step<T>(s: State<T>, e: Event<T>): State<T> {
    match e
    case FromSource(Next(item)) =>
      if s.first then s.(first := false, heads := s.heads + [item]) else s.(tail := Push(s.tail, item))
    case FromSource(end) => s.(tail := Finish(s.tail, end))
    case Attach => s.(tail := AttachTo(s.tail))
    case Drain => s.(tail := Deliver(s.tail))
    case Cancel => s.(tail := Discard(s.tail))
  }

  class Split<T> {
    const head: T
    const tail: UnicastProcessor<T>

    constructor (head: T, tail: UnicastProcessor<T>)
      ensures this.head == head && this.tail == tail
    {
      this.head, this.tail := head, tail;
    }
  }

  function HeadsOf<T>(splits: seq<Split<T>>): (r: seq<T>)
    ensures |r| == |splits| && forall i | 0 <= i < |r| :: r[i] == splits[i].head
  {
    seq(|splits|, i requires 0 <= i < |splits| => splits[i].head)
  }

  class Splitter<T> {
    var first: bool
    const rest: UnicastProcessor<T>
    const noopSplit: Split<T>
    var emitted: seq<Split<T>>

    // The noop split is shared, and never one that was emitted.
    ghost predicate Valid()
      reads this
    {
      noopSplit !in emitted && forall split | split in emitted :: split.tail == rest
    }

    ghost function View(): State<T>
      reads this, rest
    {
      State(first, HeadsOf(emitted), rest.View())
    }

    constructor (noopSplit: Split<T>)
      ensures Valid() && View() == Start() && fresh(rest) && this.noopSplit == noopSplit
    {
      this.noopSplit := noopSplit;
      first, emitted := true, [];
      rest := new UnicastProcessor<T>();
    }

    // map, then filter by identity: of all items only the first leaves the splitter.
    method OnNext(payload: T)
      requires Valid()
      modifies this`first, this`emitted, rest
      ensures Valid()
      ensures View() == Step(old(View()), FromSource(Next(payload)))
    {
      var split;
      if first {
        first := false;
        split := new Split(payload, rest);
      } else {
        rest.OnNext(payload);
        split := noopSplit;
      }
      if split != noopSplit {
        emitted := emitted + [split];
      }
    }

    method OnEnd(signal: Signal<T>)
      requires Valid() && !signal.Next?
      modifies rest
      ensures Valid() && View() == Step(old(View()), FromSource(signal))
    {
      rest.OnEnd(signal);
    }
  }

  // ---------- whole runs ----------

  function RunEvents<T>(events: seq<Event<T>>): State<T> {
    if events == [] then Start() else Step(RunEvents(events[..|events| - 1]), events[|events| - 1])
  }

  function SourceOf<T>(events: seq<Event<T>>): seq<Signal<T>> {
    if events == [] then []
    else
      var e := events[|events| - 1];
      SourceOf(events[..|events| - 1]) + if e.FromSource? then [e.signal] else []
  }

  // Section 1, rule 7 of Reactive Streams for the JVM 1.0.2: nothing comes after a terminal signal.
  predicate Conforming<T>(source: seq<Signal<T>>) {
    forall i | 0 <= i < |source| - 1 :: source[i].Next?
  }

  predicate HasHead<T>(source: seq<Signal<T>>) {
    source != [] && source[0].Next?
  }

  // What belongs to the tail: everything behind the head.
  function AfterHead<T>(source: seq<Signal<T>>): seq<Signal<T>> {
    if HasHead(source) then source[1..] else source
  }

  function Nexts<T>(items: seq<T>): (r: seq<Signal<T>>)
    ensures |r| == |items| && forall i | 0 <= i < |r| :: r[i] == Next(items[i])
  {
    seq(|items|, i requires 0 <= i < |items| => Next(items[i]))
  }

  // Everything that came to the tail: delivered, held or dropped.
  function AllOf<T>(t: Tail<T>): seq<Signal<T>> {
    t.log + Pending(t) + t.dropped
  }

  predicate Consistent<T>(t: Tail<T>) {
    && (t.ended ==> t.end.Some? && t.queue == [])
    && (if t.cancelled then t.queue == [] else t.dropped == [])
  }

  ghost predicate Invariant<T>(s: State<T>, source: seq<Signal<T>>) {
    && (s.first <==> !HasHead(source))
    && s.heads == (if HasHead(source) then [source[0].item] else [])
    && AllOf(s.tail) == AfterHead(source)
    && (s.tail.end.Some? ==> source != [] && !source[|source| - 1].Next?)
    && Consistent(s.tail)
  }

  lemma DeliverConserves<T>(t: Tail<T>)
    requires Consistent(t)
    ensures AllOf(Deliver(t)) == AllOf(t) && Consistent(Deliver(t))
  {
    DeliverMoves(t);
  }

  lemma DeliverMoves<T>(t: Tail<T>)
    requires t.ended ==> t.queue == []
    ensures Deliver(t).log + Pending(Deliver(t)) == t.log + Pending(t)
  {
    if t.attached && !t.ended && !t.cancelled {
      var end := if t.end.Some? then [t.end.value] else [];
      if t.queue != [] {
        NextsApart(t.queue);
        MoveOver(t.log, [Next(t.queue[0])], Nexts(t.queue[1..]), end);
      } else {
        MoveOver(t.log, [], [], end);
      }
    }
  }

  lemma NextsApart<T>(queue: seq<T>)
    requires queue != []
    ensures Nexts(queue) == [Next(queue[0])] + Nexts(queue[1..])
  {
  }

  lemma MoveOver<T>(log: seq<T>, item: seq<T>, held: seq<T>, end: seq<T>)
    ensures log + (item + held + end) == log + item + (held + end)
    ensures item == held == [] ==> log + (held + end) == log + end + (held + [])
  {
  }

  lemma DiscardConserves<T>(t: Tail<T>)
    requires Consistent(t)
    ensures AllOf(Discard(t)) == AllOf(t) && Consistent(Discard(t))
  {
    if t.attached && !t.cancelled {
      assert t.log + [] + ([] + Pending(t)) == t.log + Pending(t) + [];
    }
  }

  lemma PushConserves<T>(t: Tail<T>, item: T)
    requires Consistent(t) && t.end.None?
    ensures AllOf(Push(t, item)) == AllOf(t) + [Next(item)] && Consistent(Push(t, item))
  {
    if t.cancelled {
      Associate(t.log + Pending(t), t.dropped, [Next(item)]);
    } else {
      assert Nexts(t.queue + [item]) == Nexts(t.queue) + [Next(item)];
      OneMoreHeld(t.log, Nexts(t.queue), Next(item));
    }
  }

  lemma FinishConserves<T>(t: Tail<T>, end: Signal<T>)
    requires Consistent(t) && t.end.None? && !t.ended
    ensures AllOf(Finish(t, end)) == AllOf(t) + [end] && Consistent(Finish(t, end))
  {
    if t.cancelled {
      Associate(t.log + Pending(t), t.dropped, [end]);
    } else {
      OneMoreHeld(t.log, Nexts(t.queue), end);
    }
  }

  lemma OneMoreHeld<T>(log: seq<T>, held: seq<T>, item: T)
    ensures log + (held + [item]) + [] == log + (held + []) + [] + [item]
    ensures log + (held + [item] + []) + [] == log + (held + []) + [] + [item]
  {
  }

  lemma SourceKeepsInvariant<T>(s: State<T>, source: seq<Signal<T>>, signal: Signal<T>)
    requires Invariant(s, source) && Conforming(source + [signal])
    ensures Invariant(Step(s, FromSource(signal)), source + [signal])
  {
    SourceGrows(source, signal);
    if !signal.Next? {
      FinishConserves(s.tail, signal);
    } else if !s.first {
      PushConserves(s.tail, signal.item);
    }
  }

  lemma SourceGrows<T>(source: seq<Signal<T>>, signal: Signal<T>)
    requires Conforming(source + [signal])
    ensures source != [] ==> source[|source| - 1].Next? && HasHead(source)
    ensures HasHead(source + [signal]) <==> HasHead(source) || (source == [] && signal.Next?)
    ensures HasHead(source + [signal]) ==>
              (source + [signal])[0].item == if source == [] then signal.item else source[0].item
    ensures AfterHead(source + [signal]) == AfterHead(source) + if source == [] && signal.Next? then [] else [signal]
  {
    var all := source + [signal];
    if source != [] {
      assert all[|source| - 1] == source[|source| - 1] && all[0] == source[0];
      assert all[1..] == source[1..] + [signal];
    }
  }

  // Nothing is lost, doubled or reordered: at every moment of every run, the one head emitted and
  // then what the tail has delivered, what it still holds and what a cancel dropped are the source
  // so far, in this order. So the tail's terminal signal comes once and last, and a split is
  // emitted if and only if an item came.
  lemma {:induction false} SplitterConserves<T>(events: seq<Event<T>>)
    requires Conforming(SourceOf(events))
    ensures Invariant(RunEvents(events), SourceOf(events))
  {
    if events != [] {
      var init, e := events[..|events| - 1], events[|events| - 1];
      ConformingPrefix(SourceOf(init), if e.FromSource? then [e.signal] else []);
      SplitterConserves(init);
      if e.FromSource? {
        SourceKeepsInvariant(RunEvents(init), SourceOf(init), e.signal);
      } else {
        NothingBehind(SourceOf(init));
        ConsumerKeepsInvariant(RunEvents(init), SourceOf(init), e);
      }
    }
  }

  lemma ConformingPrefix<T>(source: seq<Signal<T>>, more: seq<Signal<T>>)
    requires Conforming(source + more)
    ensures Conforming(source)
  {
    assert forall i | 0 <= i < |source| :: source[i] == (source + more)[i];
  }

  // What the consumer of the tail does changes nothing about the source.
  lemma ConsumerKeepsInvariant<T>(s: State<T>, source: seq<Signal<T>>, e: Event<T>)
    requires Invariant(s, source) && !e.FromSource?
    ensures Invariant(Step(s, e), source)
  {
    match e
    case Attach =>
    case Drain => DeliverConserves(s.tail);
    case Cancel => DiscardConserves(s.tail);
  }

  // After a cancel nothing is held and nothing more is delivered, whatever happens.
  lemma NothingAfterCancel<T>(events: seq<Event<T>>, e: Event<T>)
    requires Conforming(SourceOf(events)) && RunEvents(events).tail.cancelled
    ensures var t := Step(RunEvents(events), e).tail;
            t.cancelled && t.log == RunEvents(events).tail.log && Pending(t) == []
  {
    SplitterConserves(events);
  }

  function DrainTimes<T>(t: Tail<T>, n: nat): Tail<T>
    decreases n
  {
    if n == 0 then t else DrainTimes(Deliver(t), n - 1)
  }

  // An attached consumer gets all of it after as many deliveries as there are signals pending.
  lemma {:induction false} DrainsCompletely<T>(t: Tail<T>, n: nat)
    requires t.attached && !t.cancelled && (t.ended ==> t.queue == []) && n >= |Pending(t)|
    ensures DrainTimes(t, n).log == t.log + Pending(t) && Pending(DrainTimes(t, n)) == []
    decreases n
  {
    DeliverMoves(t);
    if n > 0 {
      DrainsCompletely(Deliver(t), n - 1);
    } else {
      assert t.log + [] == t.log;
    }
  }

  // ---------- what the consumer gets ----------

  // How many deliveries were tried.
  function Drains<T>(events: seq<Event<T>>): nat {
    if events == [] then 0
    else Drains(events[..|events| - 1]) + if events[|events| - 1].Drain? then 1 else 0
  }

  // Attaching attaches, only what comes behind it cancels, and nothing is delivered before it or
  // more often than was tried.
  lemma {:induction false} ConsumerInCharge<T>(events: seq<Event<T>>)
    ensures var t := RunEvents(events).tail;
            && (t.attached <==> Attach in events)
            && (t.cancelled <==> exists i, j | 0 <= i < j < |events| :: events[i].Attach? && events[j].Cancel?)
            && |t.log| <= Drains(events) && (Attach !in events ==> t.log == [])
  {
    if events != [] {
      var init, last := events[..|events| - 1], events[|events| - 1];
      ConsumerInCharge(init);
      InitAndLast(events);
      assert Attach in init <==> exists i | 0 <= i < |init| :: events[i].Attach?;
      if last.Cancel? && Attach in init {
        var i :| 0 <= i < |init| && events[i].Attach?;
        assert events[i].Attach? && events[|init|].Cancel?;
      }
      if RunEvents(init).tail.cancelled {
        var i, j :| 0 <= i < j < |init| && init[i].Attach? && init[j].Cancel?;
        assert events[i].Attach? && events[j].Cancel?;
      }
      if i, j :| 0 <= i < j < |events| && events[i].Attach? && events[j].Cancel? && j < |init| {
        assert init[i].Attach? && init[j].Cancel?;
      }
    }
  }

  function Deliveries<T>(n: nat): seq<Event<T>> {
    seq(n, i => Drain)
  }

  lemma {:induction false} RunDeliveries<T>(events: seq<Event<T>>, n: nat)
    ensures RunEvents(events + Deliveries(n)).tail == DrainTimes(RunEvents(events).tail, n)
    ensures RunEvents(events + Deliveries(n)).heads == RunEvents(events).heads
    ensures SourceOf(events + Deliveries(n)) == SourceOf(events)
    decreases n
  {
    if n == 0 {
      NothingBehind(events);
    } else {
      var one := events + [Drain];
      assert one[..|events|] == events;
      NothingBehind(SourceOf(events));
      RunDeliveries(one, n - 1);
      assert events + Deliveries(n) == one + Deliveries(n - 1);
    }
  }

  // Whatever happened before in whatever order: a consumer that attached and never cancelled has
  // everything behind the head, in order and with the end, once enough deliveries were tried.
  lemma ConsumerGetsEverything<T>(events: seq<Event<T>>, n: nat)
    requires Conforming(SourceOf(events)) && Attach in events && Cancel !in events
    requires n >= |Pending(RunEvents(events).tail)|
    ensures var t := RunEvents(events + Deliveries(n)).tail;
            t.log == AfterHead(SourceOf(events)) && Pending(t) == []
  {
    ConsumerInCharge(events);
    SplitterConserves(events);
    var t := RunEvents(events).tail;
    assert forall j | 0 <= j < |events| :: events[j] in events;
    DrainsCompletely(t, n);
    RunDeliveries(events, n);
    NothingBehind(t.log + Pending(t));
  }

  // Putting the head back in front of the tail gives the source back.
  lemma HeadAndTailAreSource<T>(events: seq<Event<T>>)
    requires Conforming(SourceOf(events)) && HasHead(SourceOf(events))
    ensures var s := RunEvents(events);
            && |s.heads| == 1
            && [Next(s.heads[0])] + s.tail.log + Pending(s.tail) + s.tail.dropped == SourceOf(events)
            && (s.tail.dropped == [] || s.tail.cancelled)
  {
    SplitterConserves(events);
    var t, source := RunEvents(events).tail, SourceOf(events);
    PutInFront(source, t.log, Pending(t), t.dropped);
  }

  lemma PutInFront<T>(s: seq<T>, x: seq<T>, y: seq<T>, z: seq<T>)
    requires s != [] && x + y + z == s[1..]
    ensures [s[0]] + x + y + z == s
  {
    assert [s[0]] + x + y + z == [s[0]] + (x + y + z);
  }
}
