/**
 The poll loop of a queue consumer: one chain of polls and timers, its empty-poll backoff,
 and what start and stop do to it.
 */
module PgmqConsumer {
  import opened Prelude

  const CAP_MS: nat := 10_000

  // ----- backoff -----

  function Pow2(n: nat): (r: nat)
    ensures r >= 1
  {
    if n == 0 then 1 else 2 * Pow2(n - 1)
  }

  function Min(a: nat, b: nat): nat { if a < b then a else b }

  function Cap(base: nat): nat { if base < CAP_MS then CAP_MS else base }

  function NextDelay(base: nat, empties: nat): nat {
    if empties == 0 then base else Min(base * Pow2(Min(empties, 10)), Cap(base))
  }

  lemma {:induction false} Pow2Grows(n: nat, m: nat)
    requires n <= m
    ensures Pow2(n) <= Pow2(m)
  {
    if n < m {
      Pow2Grows(n, m - 1);
    }
  }

  lemma Scales(base: nat, a: nat, b: nat)
    requires a <= b
    ensures base * a <= base * b
  {}

  /** Never under the base or over the cap, and never shorter after more empty polls. */
  lemma DelaysGrow(base: nat, n: nat, m: nat)
    requires n <= m
    ensures base <= NextDelay(base, n) <= NextDelay(base, m) <= Cap(base)
    ensures NextDelay(base, 0) == base
  {
    Pow2Grows(Min(n, 10), Min(m, 10));
    Scales(base, 1, Pow2(Min(n, 10)));
    Scales(base, Pow2(Min(n, 10)), Pow2(Min(m, 10)));
  }

  /** Each empty poll doubles the delay, ten times at most, until the cap. */
  lemma DelayDoubles(base: nat, n: nat)
    ensures NextDelay(base, n + 1) == if n < 10 then Min(2 * NextDelay(base, n), Cap(base)) else NextDelay(base, n)
  {
    DelaysGrow(base, n, n + 1);
    if n < 10 {
      assert Pow2(n + 1) == 2 * Pow2(n);
      Reassociates(base, Pow2(n));
    }
  }

  lemma Reassociates(base: nat, p: nat)
    ensures base * (2 * p) == 2 * (base * p)
  {}

  /** Ten doublings at most, so a base under 10 ms never reaches the cap. */
  lemma CapIsReachedExactlyWhen(base: nat)
    ensures NextDelay(base, 10) == Cap(base) <==> base >= 10
    ensures forall n: nat | n >= 10 :: NextDelay(base, n) == NextDelay(base, 10)
  {}

  // ----- the loop -----

  /**
   `timers` are the armed ones, with their delays. `pollTimer` is the consumer's own handle,
   which nothing clears when its timer fires. `polls` counts the polls in flight, and
   `handling` says that one has read its batch and waits for the handlers.
   */
  datatype Loop = Loop(timers: map<nat, nat>, next: nat, polls: nat, handling: bool,
                       pollTimer: Option<nat>, isProcessing: bool, isShuttingDown: bool, empties: nat)

  /** `ReadReturns` with no messages also when the read failed. */
  datatype Event = Start(configured: bool) | Fire(timer: nat) | ReadReturns(messages: nat) | HandlersSettle | Stop

  function Idle(): Loop {
    Loop(map[], 0, 0, false, None, false, false, 0)
  }

  predicate Enabled(s: Loop, e: Event) {
    match e
    case Fire(timer) => timer in s.timers
    case ReadReturns(_) => s.polls > 0 && !s.handling
    case HandlersSettle => s.polls > 0 && s.handling
    case _ => true
  }

  function AfterSchedule(s: Loop, base: nat): Loop {
    if s.isShuttingDown then s
    else s.(timers := s.timers[s.next := NextDelay(base, s.empties)], pollTimer := Some(s.next), next := s.next + 1)
  }

  function AfterCycle(s: Loop, base: nat): Loop {
    if s.isProcessing || s.isShuttingDown then AfterSchedule(s, base)
    else s.(isProcessing := true, polls := s.polls + 1)
  }

  /** The `finally` of a poll, and the timer armed after it. */
  function AfterPoll(s: Loop, base: nat): Loop
    requires s.polls > 0
  {
    AfterSchedule(s.(polls := s.polls - 1, handling := false, isProcessing := false), base)
  }

  predicate Accepts(s: Loop, e: Event) {
    e.Start? && e.configured && s.pollTimer.None?
  }

  function Without(timers: map<nat, nat>, id: nat): map<nat, nat> {
    map k | k in timers && k != id :: timers[k]
  }

  function Step(s: Loop, base: nat, e: Event): Loop
    requires Enabled(s, e)
  {
    match e
    case Start(_) => if Accepts(s, e) then AfterCycle(s.(isShuttingDown := false), base) else s
    case Fire(timer) => AfterCycle(s.(timers := Without(s.timers, timer)), base)
    case ReadReturns(messages) =>
      if messages == 0 then AfterPoll(s.(empties := s.empties + 1), base) else s.(handling := true, empties := 0)
    case HandlersSettle => AfterPoll(s, base)
    case Stop =>
      if s.pollTimer.None? then s.(isShuttingDown := true)
      else s.(isShuttingDown := true, timers := Without(s.timers, s.pollTimer.value), pollTimer := None)
  }

  predicate Legal(s: Loop, base: nat, es: seq<Event>)
    decreases |es|
  {
    es == [] || (Enabled(s, es[0]) && Legal(Step(s, base, es[0]), base, es[1..]))
  }

  function Run(s: Loop, base: nat, es: seq<Event>): Loop
    requires Legal(s, base, es)
    decreases |es|
  {
    if es == [] then s else Run(Step(s, base, es[0]), base, es[1..])
  }

  // ----- at most one poll in flight, every delay in bounds -----

  predicate Inv(s: Loop, base: nat) {
    && s.polls == (if s.isProcessing then 1 else 0)
    && (s.handling ==> s.isProcessing && s.empties == 0)
    && (forall id | id in s.timers :: id < s.next && base <= s.timers[id] <= Cap(base))
  }

  lemma ScheduleKeepsInv(s: Loop, base: nat)
    requires Inv(s, base)
    ensures Inv(AfterSchedule(s, base), base)
  {
    DelaysGrow(base, s.empties, s.empties);
  }

  lemma StepKeepsInv(s: Loop, base: nat, e: Event)
    requires Inv(s, base) && Enabled(s, e)
    ensures Inv(Step(s, base, e), base)
  {
    match e
    case Start(_) => ScheduleKeepsInv(s.(isShuttingDown := false), base);
    case Fire(timer) => ScheduleKeepsInv(s.(timers := Without(s.timers, timer)), base);
    case ReadReturns(messages) =>
      ScheduleKeepsInv(s.(polls := 0, handling := false, isProcessing := false, empties := s.empties + 1), base);
    case HandlersSettle => ScheduleKeepsInv(s.(polls := 0, handling := false, isProcessing := false), base);
    case Stop =>
  }

  /** However often it is started and stopped, at most one poll reads the queue at a time. */
  lemma {:induction false} OnePollAtATime(s: Loop, base: nat, es: seq<Event>)
    requires Inv(s, base) && Legal(s, base, es)
    ensures Inv(Run(s, base, es), base) && Run(s, base, es).polls <= 1
    decreases |es|
  {
    if es != [] {
      StepKeepsInv(s, base, es[0]);
      OnePollAtATime(Step(s, base, es[0]), base, es[1..]);
    }
  }

  /** A poll that found messages is followed by the base delay; no step arms a shorter delay than was due before it. */
  lemma BackoffOnlyGrows(s: Loop, base: nat, e: Event, id: nat)
    requires Inv(s, base) && Enabled(s, e)
    requires id in Step(s, base, e).timers && id !in s.timers
    ensures var delay := Step(s, base, e).timers[id];
            (e.HandlersSettle? ==> delay == base) && delay >= NextDelay(base, s.empties)
  {
    DelaysGrow(base, s.empties, s.empties + 1);
  }

  // ----- one chain -----

  /** Armed timers and polls in flight: each of them goes on to arm one more timer. */
  function Chains(s: Loop): nat {
    |s.timers| + s.polls
  }

  /** At most one chain, and the handle knows its timer. */
  predicate OneChain(s: Loop) {
    Chains(s) <= 1 && forall id | id in s.timers :: s.pollTimer == Some(id)
  }

  /** The start that forks the loop: accepted, because no timer was ever armed, while a poll is in flight. */
  predicate Forks(s: Loop, e: Event) {
    Accepts(s, e) && s.isProcessing
  }

  lemma Emptied(timers: map<nat, nat>, id: nat)
    requires |timers| <= 1 && (id in timers || timers == map[])
    ensures Without(timers, id) == map[]
  {
    if id in timers {
      assert timers.Keys - {id} == {} by { assert |timers.Keys - {id}| == 0; }
    }
  }

  /** A step keeps to one chain exactly when it is not a forking start. */
  lemma OneChainExactlyWhen(s: Loop, base: nat, e: Event)
    requires Inv(s, base) && OneChain(s) && Enabled(s, e)
    ensures OneChain(Step(s, base, e)) <==> !Forks(s, e)
    ensures Chains(Step(s, base, e)) <= 1 <==> !Forks(s, e)
  {}

  lemma NoHandleNoTimer(s: Loop)
    requires OneChain(s) && s.pollTimer.None?
    ensures s.timers == map[]
  {}

  lemma HandleIsTheTimer(s: Loop)
    requires OneChain(s) && s.pollTimer.Some?
    ensures s.pollTimer.value in s.timers || s.timers == map[]
  {}

  predicate AlwaysOneChain(s: Loop, base: nat, es: seq<Event>)
    requires Legal(s, base, es)
    decreases |es|
  {
    Chains(s) <= 1 && (es == [] || AlwaysOneChain(Step(s, base, es[0]), base, es[1..]))
  }

  predicate NeverForks(s: Loop, base: nat, es: seq<Event>)
    requires Legal(s, base, es)
    decreases |es|
  {
    es == [] || (!Forks(s, es[0]) && NeverForks(Step(s, base, es[0]), base, es[1..]))
  }

  /** Over whole runs: one chain throughout exactly when no start was accepted during a poll. */
  lemma {:induction false} OneChainThroughout(s: Loop, base: nat, es: seq<Event>)
    requires Inv(s, base) && OneChain(s) && Legal(s, base, es)
    ensures AlwaysOneChain(s, base, es) <==> NeverForks(s, base, es)
    decreases |es|
  {
    if es != [] {
      StepKeepsInv(s, base, es[0]);
      OneChainExactlyWhen(s, base, es[0]);
      if !Forks(s, es[0]) {
        OneChainThroughout(Step(s, base, es[0]), base, es[1..]);
      } else {
        assert Chains(Step(s, base, es[0])) > 1;
        assert !AlwaysOneChain(Step(s, base, es[0]), base, es[1..]);
      }
    }
  }

  predicate NoStart(es: seq<Event>) {
    forall e | e in es :: !e.Start?
  }

  lemma {:induction false} WithoutStartNothingForks(s: Loop, base: nat, es: seq<Event>)
    requires Legal(s, base, es) && NoStart(es)
    ensures NeverForks(s, base, es)
    decreases |es|
  {
    if es != [] {
      assert es[0] in es;
      assert forall e | e in es[1..] :: e in es;
      WithoutStartNothingForks(Step(s, base, es[0]), base, es[1..]);
    }
  }

  /** With one start there is one chain, whatever happens after it. */
  lemma StartedOnce(base: nat, configured: bool, es: seq<Event>)
    requires Legal(Step(Idle(), base, Start(configured)), base, es) && NoStart(es)
    ensures AlwaysOneChain(Step(Idle(), base, Start(configured)), base, es)
  {
    var s := Step(Idle(), base, Start(configured));
    OneChainExactlyWhen(Idle(), base, Start(configured));
    StepKeepsInv(Idle(), base, Start(configured));
    WithoutStartNothingForks(s, base, es);
    OneChainThroughout(s, base, es);
  }

  /** A second start before the first poll has finished is accepted, and there are two chains. */
  lemma StartedTwice(base: nat)
    ensures var es := [Start(true), Start(true)]; Legal(Idle(), base, es) && Chains(Run(Idle(), base, es)) == 2
  {}

  // ----- the loop goes on -----

  function Firings(es: seq<Event>): nat {
    if es == [] then 0 else Firings(es[..|es| - 1]) + if es[|es| - 1].Fire? then 1 else 0
  }

  /** The polls that ended: without messages, or once the handlers had settled. */
  function Finished(es: seq<Event>): nat {
    if es == [] then 0
    else Finished(es[..|es| - 1])
         + if es[|es| - 1] == ReadReturns(0) || es[|es| - 1].HandlersSettle? then 1 else 0
  }

  /** How many polls in a row have come back without messages. */
  function EmptiesInARow(es: seq<Event>): nat {
    if es == [] then 0
    else
      var last := es[|es| - 1];
      if !last.ReadReturns? then EmptiesInARow(es[..|es| - 1])
      else if last.messages == 0 then EmptiesInARow(es[..|es| - 1]) + 1
      else 0
  }

  lemma {:induction false} RunOn(s: Loop, base: nat, es: seq<Event>, e: Event)
    requires Legal(s, base, es + [e])
    ensures Legal(s, base, es) && Enabled(Run(s, base, es), e)
    ensures Run(s, base, es + [e]) == Step(Run(s, base, es), base, e)
    decreases |es|
  {
    hide Enabled, Step;
    if es == [] {
      assert es + [e] == [e] && [e][1..] == [];
      assert Run(Step(s, base, e), base, []) == Step(s, base, e);
    } else {
      assert (es + [e])[0] == es[0] && (es + [e])[1..] == es[1..] + [e];
      RunOn(Step(s, base, es[0]), base, es[1..], e);
    }
  }

  /** Neither stopped, nor accepted a second time. */
  predicate LeftRunning(es: seq<Event>) {
    forall e | e in es :: !e.Stop? && (e.Start? ==> !e.configured)
  }

  /** Either a poll is in flight or one timer is armed, with the delay that `empties` polls without messages give. */
  predicate Turning(s: Loop, base: nat, empties: nat) {
    && !s.isShuttingDown && s.empties == empties
    && (s.polls == 1) == s.isProcessing
    && (if s.polls == 1 then s.timers == map[]
        else s.polls == 0 && s.pollTimer.Some? && s.timers == map[s.pollTimer.value := NextDelay(base, empties)])
  }

  lemma OneArmed(s: Loop, base: nat)
    requires s.timers == map[] && !s.isShuttingDown
    ensures AfterSchedule(s, base).timers == map[s.next := NextDelay(base, s.empties)]
  {}

  lemma TurnsOn(s: Loop, base: nat, e: Event, es: seq<Event>)
    requires Turning(s, base, EmptiesInARow(es)) && Enabled(s, e) && !e.Stop? && (e.Start? ==> !e.configured)
    ensures Turning(Step(s, base, e), base, EmptiesInARow(es + [e]))
    ensures Step(s, base, e).polls == s.polls + Firings([e]) - Finished([e])
  {
    hide NextDelay;
    assert (es + [e])[..|es|] == es;
    assert [e][..0] == [];
    match e
    case Start(_) =>
    case Fire(timer) => assert Without(s.timers, timer) == map[];
    case ReadReturns(messages) =>
      if messages == 0 {
        OneArmed(s.(polls := 0, handling := false, isProcessing := false, empties := s.empties + 1), base);
      }
    case HandlersSettle => OneArmed(s.(polls := 0, handling := false, isProcessing := false), base);
  }

  lemma CountsAdd(es: seq<Event>, e: Event)
    ensures Firings(es + [e]) == Firings(es) + Firings([e]) && Finished(es + [e]) == Finished(es) + Finished([e])
  {
    assert (es + [e])[..|es|] == es && [e][..0] == [];
  }

  /**
   Started once and left running, the loop never ends: at any moment a poll is in flight or
   one timer is armed, each firing has begun a poll, and each poll that finished has armed a
   timer, with the delay of the polls in a row that found nothing. What goes before the first
   event of `es` is the start.
   */
  lemma {:induction false} LoopGoesOn(base: nat, es: seq<Event>)
    requires Legal(Idle(), base, [Start(true)] + es) && LeftRunning(es)
    ensures var s := Run(Idle(), base, [Start(true)] + es);
            && s.polls + Finished(es) == 1 + Firings(es)
            && |s.timers| + Firings(es) == Finished(es)
            && (s.polls == 0 ==> |s.timers| == 1)
            && forall id | id in s.timers :: s.timers[id] == NextDelay(base, EmptiesInARow(es))
    ensures Turning(Run(Idle(), base, [Start(true)] + es), base, EmptiesInARow(es))
  {
    hide NextDelay, Step, Enabled;
    var start := [Start(true)];
    if es == [] {
      StartTurns(base);
      assert start + es == start;
    } else {
      var before, last := es[..|es| - 1], es[|es| - 1];
      assert start + es == (start + before) + [last] && es == before + [last];
      RunOn(Idle(), base, start + before, last);
      assert last in es && forall e | e in before :: e in es;
      LoopGoesOn(base, before);
      TurnsOn(Run(Idle(), base, start + before), base, last, before);
      CountsAdd(before, last);
    }
  }

  lemma StartTurns(base: nat)
    ensures Legal(Idle(), base, [Start(true)]) && Turning(Run(Idle(), base, [Start(true)]), base, 0)
    ensures Run(Idle(), base, [Start(true)]).polls == 1
  {
    assert [Start(true)][1..] == [];
    assert Run(Step(Idle(), base, Start(true)), base, []) == Step(Idle(), base, Start(true));
  }

  /** Stopped between two polls and started again, the loop polls at once and goes on, its empty polls still counted. */
  lemma StartedAgain(s: Loop, base: nat, empties: nat)
    requires Turning(s, base, empties) && s.polls == 0
    ensures var es := [Stop, Start(true)];
            && Legal(s, base, es) && Run(s, base, es).polls == 1
            && Turning(Run(s, base, es), base, empties)
  {
    var stopped := Step(s, base, Stop);
    assert stopped.timers == map[] && stopped.pollTimer.None?;
    assert [Stop, Start(true)][1..] == [Start(true)] && [Start(true)][1..] == [];
    assert Run(Step(stopped, base, Start(true)), base, []) == Step(stopped, base, Start(true));
    assert Run(stopped, base, [Start(true)]) == Step(stopped, base, Start(true));
  }

  // ----- stop -----

  /** Once stopped, no poll starts and no timer is armed until the next start. */
  lemma {:induction false} StoppedStaysStopped(s: Loop, base: nat, es: seq<Event>)
    requires s.isShuttingDown && Legal(s, base, es) && NoStart(es)
    ensures var s' := Run(s, base, es);
            s'.isShuttingDown && s'.timers.Keys <= s.timers.Keys && s'.polls <= s.polls && s'.next == s.next
    decreases |es|
  {
    if es != [] {
      assert es[0] in es;
      assert forall e | e in es[1..] :: e in es;
      StoppedStaysStopped(Step(s, base, es[0]), base, es[1..]);
    }
  }

  /** Stopping the one chain leaves no timer behind. */
  lemma StopSilences(s: Loop, base: nat, es: seq<Event>)
    requires Inv(s, base) && OneChain(s) && Legal(Step(s, base, Stop), base, es) && NoStart(es)
    ensures Run(Step(s, base, Stop), base, es).timers == map[]
  {
    if s.pollTimer.Some? {
      HandleIsTheTimer(s);
      Emptied(s.timers, s.pollTimer.value);
    } else {
      NoHandleNoTimer(s);
    }
    StoppedStaysStopped(Step(s, base, Stop), base, es);
  }

  // ----- the closure's state -----

  /** `timers`, `next`, `polls` and `handling` stand for the event loop; the rest are the closure's variables. */
  class Consumer {
    const pollIntervalMs: nat
    var timers: map<nat, nat>
    var next: nat
    var polls: nat
    var handling: bool
    var pollTimer: Option<nat>
    var isProcessing: bool
    var isShuttingDown: bool
    var consecutiveEmptyPolls: nat

    ghost function View(): Loop
      reads this
    {
      Loop(timers, next, polls, handling, pollTimer, isProcessing, isShuttingDown, consecutiveEmptyPolls)
    }

    constructor (pollIntervalMs: nat)
      ensures this.pollIntervalMs == pollIntervalMs && View() == Idle() && Inv(View(), pollIntervalMs)
    {
      this.pollIntervalMs := pollIntervalMs;
      timers, next, polls, handling := map[], 0, 0, false;
      pollTimer, isProcessing, isShuttingDown, consecutiveEmptyPolls := None, false, false, 0;
    }

    method ScheduleNextPoll()
      modifies this
      ensures View() == AfterSchedule(old(View()), pollIntervalMs)
    {
      if isShuttingDown {
        return;
      }
      timers := timers[next := NextDelay(pollIntervalMs, consecutiveEmptyPolls)];
      pollTimer, next := Some(next), next + 1;
    }

    method RunPollCycle()
      modifies this
      ensures View() == AfterCycle(old(View()), pollIntervalMs)
    {
      if isProcessing || isShuttingDown {
        ScheduleNextPoll();
        return;
      }
      isProcessing := true;
      polls := polls + 1;
    }

    method Start(configured: bool) returns (started: bool)
      requires Inv(View(), pollIntervalMs)
      modifies this
      ensures View() == Step(old(View()), pollIntervalMs, Event.Start(configured)) && Inv(View(), pollIntervalMs)
      ensures started <==> configured && old(pollTimer).None?
    {
      StepKeepsInv(View(), pollIntervalMs, Event.Start(configured));
      if pollTimer.Some? || !configured {
        return false;
      }
      isShuttingDown := false;
      RunPollCycle();
      started := true;
    }

    method TimerFires(timer: nat)
      requires Inv(View(), pollIntervalMs) && timer in timers
      modifies this
      ensures View() == Step(old(View()), pollIntervalMs, Fire(timer)) && Inv(View(), pollIntervalMs)
    {
      StepKeepsInv(View(), pollIntervalMs, Fire(timer));
      timers := map k | k in timers && k != timer :: timers[k];
      RunPollCycle();
    }

    method ReadReturns(messages: nat)
      requires Inv(View(), pollIntervalMs) && polls > 0 && !handling
      modifies this
      ensures View() == Step(old(View()), pollIntervalMs, Event.ReadReturns(messages)) && Inv(View(), pollIntervalMs)
    {
      StepKeepsInv(View(), pollIntervalMs, Event.ReadReturns(messages));
      if messages == 0 {
        consecutiveEmptyPolls := consecutiveEmptyPolls + 1;
        FinishPoll();
        return;
      }
      consecutiveEmptyPolls := 0;
      handling := true;
    }

    method HandlersSettle()
      requires Inv(View(), pollIntervalMs) && polls > 0 && handling
      modifies this
      ensures View() == Step(old(View()), pollIntervalMs, Event.HandlersSettle) && Inv(View(), pollIntervalMs)
    {
      StepKeepsInv(View(), pollIntervalMs, Event.HandlersSettle);
      FinishPoll();
    }

    method FinishPoll()
      requires polls > 0
      modifies this
      ensures View() == AfterPoll(old(View()), pollIntervalMs)
    {
      handling, isProcessing := false, false;
      polls := polls - 1;
      ScheduleNextPoll();
    }

    method Stop()
      requires Inv(View(), pollIntervalMs)
      modifies this
      ensures View() == Step(old(View()), pollIntervalMs, Event.Stop) && Inv(View(), pollIntervalMs)
    {
      StepKeepsInv(View(), pollIntervalMs, Event.Stop);
      isShuttingDown := true;
      if pollTimer.Some? {
        timers := map k | k in timers && k != pollTimer.value :: timers[k];
        pollTimer := None;
      }
    }
  }
}
