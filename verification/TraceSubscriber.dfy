/**
 The span-tracing subscriber. Its cleanup may be reached by several threads at once, so there is
 a machine whose steps are the single actions of any number of actors, in any order and with any
 of them throwing. Each call of the class is proved to be the machine's run of one actor alone.
 */
module TraceSubscriber {

  // ---------- what the calls share ----------

  // The flag, how often the two spans have been finished, and whether finishing the first threw.
  datatype Shared = Shared(flag: bool, span: nat, root: nat, spanThrew: bool)

  // onError, onComplete and cancel share one program: a body that may throw, then in any case the
  // compare-and-set and, for its winner, the two finishes. Finishing the span may throw.
  datatype Pc = Idle | InBody | AtCompareAndSet | AtSpanFinish | AtRootFinish | Ended

  // An actor's next action; `throws` is the choice of the environment where it has one.
  function Act(s: Shared, pc: Pc, hasRoot: bool, throws: bool): (Shared, Pc) {
    match pc
    case Idle => (s, InBody)
    case InBody => (s, AtCompareAndSet)  // thrown or not, `finally` comes next
    case AtCompareAndSet => if s.flag then (s, Ended) else (s.(flag := true), AtSpanFinish)
    case AtSpanFinish =>
      if throws then (s.(span := s.span + 1, spanThrew := true), Ended) else (s.(span := s.span + 1), AtRootFinish)
    case AtRootFinish => (s.(root := if hasRoot then s.root + 1 else s.root), Ended)
    case Ended => (s, Ended)
  }

  // One actor from its compare-and-set to its end, alone; three actions are enough.
  function CleanupRun(s: Shared, hasRoot: bool, finishThrows: bool): Shared {
    var (s1, pc1) := Act(s, AtCompareAndSet, hasRoot, false);
    var (s2, pc2) := Act(s1, pc1, hasRoot, finishThrows);
    Act(s2, pc2, hasRoot, false).0
  }

  // How a call goes: whether its body throws, and whether finishing the span would.
  datatype Call = Call(bodyThrows: bool, finishThrows: bool)

  // One actor from its start to its end, alone; five actions are enough.
  function CallRun(s: Shared, hasRoot: bool, call: Call): Shared {
    var (s1, pc1) := Act(s, Idle, hasRoot, false);
    var (s2, pc2) := Act(s1, pc1, hasRoot, call.bodyThrows);
    var (s3, pc3) := Act(s2, pc2, hasRoot, false);
    var (s4, pc4) := Act(s3, pc3, hasRoot, call.finishThrows);
    Act(s4, pc4, hasRoot, false).0
  }

  // ---------- the class ----------

  // What a downstream or upstream party sees.
  datatype Event<T> = OnSubscribe | OnNext(item: T) | OnComplete | UpstreamCancel | RefusedCancel

  // How the guarded body of a call goes: activating and logging come before the call it makes.
  datatype Body = Runs | ThrowsBeforeCall | ThrowsInCall

  // Whether a call returned or let an exception out.
  datatype Exit = Returned | Threw

  class TraceSubscriber<T> {
    var flag: bool          // the AtomicBoolean the subscriber is
    var subscribed: bool    // upstream != null
    const hasRoot: bool
    var spanFinishes: nat
    var rootFinishes: nat
    ghost var spanThrew: bool
    var events: seq<Event<T>>

    constructor (hasRoot: bool)
      ensures this.hasRoot == hasRoot
      ensures View() == Shared(false, 0, 0, false) && !subscribed && events == []
    {
      this.hasRoot := hasRoot;
      flag, subscribed, spanFinishes, rootFinishes, events := false, false, 0, 0, [];
      spanThrew := false;
    }

    ghost function View(): Shared
      reads this
    {
      Shared(flag, spanFinishes, rootFinishes, spanThrew)
    }

    method CompareAndSet(expected: bool, update: bool) returns (won: bool)
      modifies this`flag
      ensures won <==> old(flag) == expected
      ensures flag == if won then update else old(flag)
    {
      won := flag == expected;
      if won {
        flag := update;
      }
    }

    // As written: a first subscription reaches the downstream twice, unless the first delivery
    // throws or, `body`, what comes before the second; another subscription is cancelled. No throw
    // leads to the cleanup.
    method Subscribe(firstThrows: bool, body: Body) returns (exit: Exit)
      modifies this`subscribed, this`events
      ensures subscribed
      ensures events == old(events) + if old(subscribed) then [RefusedCancel]
                                      else if firstThrows || body == ThrowsBeforeCall then [OnSubscribe]
                                      else [OnSubscribe, OnSubscribe]
      ensures exit == Threw <==> firstThrows || (!old(subscribed) && body != Runs)
    {
      if subscribed {
        events := events + [RefusedCancel];
        return if firstThrows then Threw else Returned;
      }
      subscribed := true;
      events := events + [OnSubscribe];
      if firstThrows || body == ThrowsBeforeCall {
        return Threw;
      }
      events := events + [OnSubscribe];
      exit := if body == ThrowsInCall then Threw else Returned;
    }

    method Next(t: T)
      modifies this`events
      ensures events == old(events) + [OnNext(t)]
    {
      events := events + [OnNext(t)];
    }

    // As written: the error is logged and not passed on.
    method Error(body: Body, finishThrows: bool) returns (exit: Exit)
      modifies this`flag, this`spanFinishes, this`rootFinishes, this`spanThrew
      ensures CleanedAfter(old(View()), body != Runs, finishThrows, exit)
    {
      exit := Cleanup(finishThrows);
      if body != Runs {
        exit := Threw;
      }
    }

    // Whatever the body does, the cleanup comes.
    method Complete(body: Body, finishThrows: bool) returns (exit: Exit)
      modifies this`flag, this`spanFinishes, this`rootFinishes, this`spanThrew, this`events
      ensures CleanedAfter(old(View()), body != Runs, finishThrows, exit)
      ensures events == old(events) + if body == ThrowsBeforeCall then [] else [OnComplete]
    {
      if body != ThrowsBeforeCall {
        events := events + [OnComplete];
      }
      exit := Cleanup(finishThrows);
      if body != Runs {
        exit := Threw;
      }
    }

    // Without an upstream the non-null assertion throws.
    method Cancel(body: Body, finishThrows: bool) returns (exit: Exit)
      modifies this`flag, this`spanFinishes, this`rootFinishes, this`spanThrew, this`events
      ensures CleanedAfter(old(View()), body != Runs || !subscribed, finishThrows, exit)
      ensures events == old(events) + if body == ThrowsBeforeCall || !subscribed then [] else [UpstreamCancel]
    {
      if body != ThrowsBeforeCall && subscribed {
        events := events + [UpstreamCancel];
      }
      exit := Cleanup(finishThrows);
      if body != Runs || !subscribed {
        exit := Threw;
      }
    }

    // A whole call, undisturbed, is the machine's run of one actor.
    ghost predicate CleanedAfter(before: Shared, bodyThrew: bool, finishThrows: bool, exit: Exit)
      reads this
    {
      && View() == CallRun(before, hasRoot, Call(bodyThrew, finishThrows))
      && Cleaned(before, finishThrows)
      && (exit == Threw <==> bodyThrew || (!before.flag && finishThrows))
    }

    // One cleanup from its start to its end, alone.
    ghost predicate Cleaned(before: Shared, finishThrows: bool)
      reads this
    {
      View() == if before.flag then before
                else Shared(true, before.span + 1, if !finishThrows && hasRoot then before.root + 1 else before.root,
                            before.spanThrew || finishThrows)
    }

    method Cleanup(finishThrows: bool) returns (exit: Exit)
      modifies this`flag, this`spanFinishes, this`rootFinishes, this`spanThrew
      ensures View() == CleanupRun(old(View()), hasRoot, finishThrows)
      ensures Cleaned(old(View()), finishThrows)
      ensures exit == Threw <==> !old(flag) && finishThrows
    {
      exit := Returned;
      var won := CompareAndSet(false, true);
      if won {
        spanFinishes := spanFinishes + 1;
        if finishThrows {
          spanThrew := true;
          return Threw;
        }
        if hasRoot {
          rootFinishes := rootFinishes + 1;
        }
      }
    }
  }

  // ---------- any number of actors ----------

  datatype State = State(shared: Shared, actors: seq<Pc>)

  function Init(actors: nat): State {
    State(Shared(false, 0, 0, false), seq(actors, i => Idle))
  }

  // Actor i takes its next action.
  function Step(s: State, hasRoot: bool, i: nat, throws: bool): State
    requires i < |s.actors|
  {
    var (shared, pc) := Act(s.shared, s.actors[i], hasRoot, throws);
    State(shared, s.actors[i := pc])
  }

  // A schedule names, action by action, who moves and whether it throws.
  datatype Action = Action(actor: nat, throws: bool)

  predicate Schedule(schedule: seq<Action>, actors: nat) {
    forall i | 0 <= i < |schedule| :: schedule[i].actor < actors
  }

  function RunSchedule(hasRoot: bool, actors: nat, schedule: seq<Action>): (s: State)
    requires Schedule(schedule, actors)
    ensures |s.actors| == actors
  {
    if schedule == [] then Init(actors)
    else
      var before := RunSchedule(hasRoot, actors, schedule[..|schedule| - 1]);
      var a := schedule[|schedule| - 1];
      Step(before, hasRoot, a.actor, a.throws)
  }

  predicate Winning(pc: Pc) {
    pc == AtSpanFinish || pc == AtRootFinish
  }

  // Either nobody has won, or one actor holds the win, or its work is done.
  ghost predicate Invariant(s: State, hasRoot: bool) {
    var (shared, actors) := (s.shared, s.actors);
    && shared.span <= 1 && shared.root <= 1
    && (!shared.flag ==>
          && shared.span == 0 && shared.root == 0 && !shared.spanThrew
          && forall i | 0 <= i < |actors| :: !Winning(actors[i]) && actors[i] != Ended)
    && (forall i, j | 0 <= i < j < |actors| :: !(Winning(actors[i]) && Winning(actors[j])))
    && (forall i | 0 <= i < |actors| && actors[i] == AtSpanFinish ::
          shared.span == 0 && shared.root == 0 && !shared.spanThrew)
    && (forall i | 0 <= i < |actors| && actors[i] == AtRootFinish ::
          shared.span == 1 && shared.root == 0 && !shared.spanThrew)
    && (shared.flag && (forall i | 0 <= i < |actors| :: !Winning(actors[i])) ==>
          shared.span == 1 && shared.root == if hasRoot && !shared.spanThrew then 1 else 0)
  }

  lemma StepKeepsInvariant(s: State, hasRoot: bool, i: nat, throws: bool)
    requires i < |s.actors| && Invariant(s, hasRoot)
    ensures Invariant(Step(s, hasRoot, i, throws), hasRoot)
  {
    var t := Step(s, hasRoot, i, throws);
    assert forall j | 0 <= j < |s.actors| && j != i :: t.actors[j] == s.actors[j];
    if Winning(s.actors[i]) {
      assert forall j | 0 <= j < |s.actors| && j != i :: !Winning(s.actors[j]);
    }
    if s.actors[i] == AtCompareAndSet && !s.shared.flag {
      assert Winning(t.actors[i]);
    }
    if s.actors[i] == AtSpanFinish && !throws {
      assert Winning(t.actors[i]);
    }
    if !Winning(s.actors[i]) && t.shared.flag == s.shared.flag
       && (forall j | 0 <= j < |t.actors| :: !Winning(t.actors[j])) {
      assert forall j | 0 <= j < |s.actors| :: !Winning(s.actors[j]);
    }
  }

  lemma {:induction false} InvariantHolds(hasRoot: bool, actors: nat, schedule: seq<Action>)
    requires Schedule(schedule, actors)
    ensures Invariant(RunSchedule(hasRoot, actors, schedule), hasRoot)
  {
    if schedule != [] {
      var init, a := schedule[..|schedule| - 1], schedule[|schedule| - 1];
      InvariantHolds(hasRoot, actors, init);
      StepKeepsInvariant(RunSchedule(hasRoot, actors, init), hasRoot, a.actor, a.throws);
    }
  }

  // An actor that has not started, or has ended.
  predicate AtRest(pc: Pc) {
    pc == Idle || pc == Ended
  }

  // Under every interleaving neither span is finished twice. Once every actor that started has
  // ended, and one has, the span has been finished exactly once, and the root, where there is
  // one, exactly once unless finishing the span threw.
  lemma FinishedExactlyOnce(hasRoot: bool, actors: nat, schedule: seq<Action>)
    requires Schedule(schedule, actors)
    ensures var s := RunSchedule(hasRoot, actors, schedule);
            var shared := s.shared;
            && shared.span <= 1 && shared.root <= 1
            && ((forall i | 0 <= i < actors :: AtRest(s.actors[i]))
                && (exists i | 0 <= i < actors :: s.actors[i] == Ended) ==>
                  shared.span == 1 && shared.root == if hasRoot && !shared.spanThrew then 1 else 0)
            && ((forall i | 0 <= i < actors :: s.actors[i] == Idle) ==> shared.span == 0 && shared.root == 0)
  {
    InvariantHolds(hasRoot, actors, schedule);
    var s := RunSchedule(hasRoot, actors, schedule);
    if forall i | 0 <= i < actors :: AtRest(s.actors[i]) {
      assert forall i | 0 <= i < actors :: !Winning(s.actors[i]);
    }
    if schedule != [] {
      LastMoverIsNotIdle(hasRoot, actors, schedule);
    }
  }

  lemma LastMoverIsNotIdle(hasRoot: bool, actors: nat, schedule: seq<Action>)
    requires Schedule(schedule, actors) && schedule != []
    ensures RunSchedule(hasRoot, actors, schedule).actors[schedule[|schedule| - 1].actor] != Idle
  {
  }

  // ---------- calls that do not overlap ----------

  // The state of the class after any calls, each as CallRun has it.
  function AfterCalls(hasRoot: bool, calls: seq<Call>): Shared {
    if calls == [] then Shared(false, 0, 0, false)
    else CallRun(AfterCalls(hasRoot, calls[..|calls| - 1]), hasRoot, calls[|calls| - 1])
  }

  // One actor a call, one call after the other.
  function Turn(actor: nat, call: Call): seq<Action> {
    [Action(actor, false), Action(actor, call.bodyThrows), Action(actor, false),
     Action(actor, call.finishThrows), Action(actor, false)]
  }

  function InTurn(calls: seq<Call>): (schedule: seq<Action>)
    ensures Schedule(schedule, |calls|)
  {
    if calls == [] then []
    else InTurn(calls[..|calls| - 1]) + Turn(|calls| - 1, calls[|calls| - 1])
  }

  function StepAll(s: State, hasRoot: bool, actions: seq<Action>): State
    requires Schedule(actions, |s.actors|)
    decreases |actions|
  {
    if actions == [] then s
    else StepAll(Step(s, hasRoot, actions[0].actor, actions[0].throws), hasRoot, actions[1..])
  }

  lemma StepFirst(s: State, hasRoot: bool, a: Action, more: seq<Action>)
    requires a.actor < |s.actors| && Schedule(more, |s.actors|)
    ensures Schedule([a] + more, |s.actors|)
    ensures StepAll(s, hasRoot, [a] + more) == StepAll(Step(s, hasRoot, a.actor, a.throws), hasRoot, more)
  {
    assert ([a] + more)[1..] == more;
  }

  lemma CleanupIsARun(s: State, hasRoot: bool, i: nat, finishThrows: bool)
    requires i < |s.actors| && s.actors[i] == AtCompareAndSet
    ensures StepAll(s, hasRoot, [Action(i, false), Action(i, finishThrows), Action(i, false)]) ==
            State(CleanupRun(s.shared, hasRoot, finishThrows), s.actors[i := Ended])
  {
    var a, b := Action(i, false), Action(i, finishThrows);
    var s1 := Step(s, hasRoot, i, false);
    var s2 := Step(s1, hasRoot, i, finishThrows);
    StepFirst(s, hasRoot, a, [b, a]);
    StepFirst(s1, hasRoot, b, [a]);
    StepFirst(s2, hasRoot, a, []);
    assert [a] + [] == [a] && [b] + [a] == [b, a] && [a] + [b, a] == [a, b, a];
    assert Step(s2, hasRoot, i, false).actors == s.actors[i := Ended];
  }

  // An idle actor's five actions take the machine where a call of the class takes the class.
  lemma SequentialCallIsARun(s: State, hasRoot: bool, i: nat, call: Call)
    requires i < |s.actors| && s.actors[i] == Idle
    ensures StepAll(s, hasRoot, Turn(i, call)) == State(CallRun(s.shared, hasRoot, call), s.actors[i := Ended])
  {
    var a, b, c := Action(i, false), Action(i, call.bodyThrows), Action(i, call.finishThrows);
    var s1 := State(s.shared, s.actors[i := InBody]);
    var s2 := State(s.shared, s.actors[i := AtCompareAndSet]);
    StepFirst(s, hasRoot, a, [b, a, c, a]);
    StepFirst(s1, hasRoot, b, [a, c, a]);
    CleanupIsARun(s2, hasRoot, i, call.finishThrows);
    assert s1.actors[i := AtCompareAndSet] == s2.actors && s2.actors[i := Ended] == s.actors[i := Ended];
    assert [b] + [a, c, a] == [b, a, c, a] && [a] + [b, a, c, a] == Turn(i, call);
  }

  lemma RunOneMore(hasRoot: bool, actors: nat, schedule: seq<Action>, a: Action)
    requires Schedule(schedule, actors) && a.actor < actors
    ensures Schedule(schedule + [a], actors)
    ensures RunSchedule(hasRoot, actors, schedule + [a]) ==
            Step(RunSchedule(hasRoot, actors, schedule), hasRoot, a.actor, a.throws)
  {
    assert (schedule + [a])[..|schedule|] == schedule;
  }

  lemma {:induction false} RunOn(hasRoot: bool, actors: nat, schedule: seq<Action>, more: seq<Action>)
    requires Schedule(schedule, actors) && Schedule(more, actors)
    ensures Schedule(schedule + more, actors)
    ensures RunSchedule(hasRoot, actors, schedule + more) ==
            StepAll(RunSchedule(hasRoot, actors, schedule), hasRoot, more)
    decreases |more|
  {
    if more == [] {
      assert schedule + more == schedule;
    } else {
      RunOneMore(hasRoot, actors, schedule, more[0]);
      RunOn(hasRoot, actors, schedule + [more[0]], more[1..]);
      assert schedule + [more[0]] + more[1..] == schedule + more;
    }
  }

  lemma RunTurn(hasRoot: bool, actors: nat, schedule: seq<Action>, i: nat, call: Call)
    requires Schedule(schedule, actors) && i < actors
    requires RunSchedule(hasRoot, actors, schedule).actors[i] == Idle
    ensures Schedule(schedule + Turn(i, call), actors)
    ensures var s := RunSchedule(hasRoot, actors, schedule);
            RunSchedule(hasRoot, actors, schedule + Turn(i, call)) ==
            State(CallRun(s.shared, hasRoot, call), s.actors[i := Ended])
  {
    RunOn(hasRoot, actors, schedule, Turn(i, call));
    SequentialCallIsARun(RunSchedule(hasRoot, actors, schedule), hasRoot, i, call);
  }

  // Calls of the class, one after the other, are a run of the machine, so what holds under every
  // interleaving holds of them.
  lemma {:induction false} CallsAreARun(hasRoot: bool, actors: nat, calls: seq<Call>)
    requires |calls| <= actors
    ensures RunSchedule(hasRoot, actors, InTurn(calls)) ==
            State(AfterCalls(hasRoot, calls), seq(actors, i => if i < |calls| then Ended else Idle))
  {
    if calls == [] {
      assert Init(actors).actors == seq(actors, i => if i < 0 then Ended else Idle);
    } else {
      var init, last := calls[..|calls| - 1], calls[|calls| - 1];
      CallsAreARun(hasRoot, actors, init);
      RunTurn(hasRoot, actors, InTurn(init), |init|, last);
    }
  }

  // One call is enough, its own choice decides about the root, and any number of further ones
  // changes nothing.
  lemma {:induction false} CallsFinishOnce(hasRoot: bool, calls: seq<Call>)
    requires calls != []
    ensures var s := AfterCalls(hasRoot, calls);
            && s.flag && s.span == 1 && s.spanThrew == calls[0].finishThrows
            && s.root == if hasRoot && !calls[0].finishThrows then 1 else 0
  {
    if |calls| > 1 {
      CallsFinishOnce(hasRoot, calls[..|calls| - 1]);
    } else {
      assert calls[..0] == [];
    }
  }
}
