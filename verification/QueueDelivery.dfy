/**
 At-least-once delivery: messages leased from the queue, enqueued as jobs, then acknowledged,
 with redelivery, failed or lost acknowledgements, and crashes at any point.
 */
module QueueDelivery {
  import opened Prelude

  /** `stableId` is the job id made from the row the message was written for, when there is one. */
  datatype Message = Message(stableId: Option<string>, leased: bool)

  datatype Stage = Read | Enqueued

  /** One handler at work on a message it was leased; `stableId` came with the payload. */
  datatype Handler = Handler(msg: nat, stableId: Option<string>, stage: Stage)

  datatype JobId = Stable(id: string) | Generated(n: nat)

  datatype Job = Job(id: JobId, msg: nat)

  /** `kept` are the job ids the job queue still holds; `added` lists every job it ever accepted. */
  datatype System = System(queue: map<nat, Message>, sent: map<nat, Option<string>>,
                           handlers: map<nat, Handler>, next: nat,
                           kept: set<JobId>, added: seq<Job>, forgotten: seq<JobId>)

  datatype EnqueueOutcome = Accepted | AcceptedButUnheard | Refused

  datatype AckOutcome = Acked | AckedButUnheard | AckFailed

  datatype Event =
    | Send(msg: nat, stableId: Option<string>)
    | Lease(msg: nat)
    | LeaseEnds(msg: nat)
    | Enqueue(handler: nat, enqueued: EnqueueOutcome)
    | Ack(handler: nat, acked: AckOutcome)
    | Crash(handler: nat)
    | Forget(id: JobId)

  function Empty(): System {
    System(map[], map[], map[], 0, {}, [], [])
  }

  predicate Enabled(s: System, e: Event) {
    match e
    case Send(msg, _) => msg !in s.sent
    case Lease(msg) => msg in s.queue && !s.queue[msg].leased
    case LeaseEnds(msg) => msg in s.queue
    case Enqueue(h, _) => h in s.handlers && s.handlers[h].stage == Read
    case Ack(h, _) => h in s.handlers && s.handlers[h].stage == Enqueued
    case Crash(h) => h in s.handlers
    case Forget(id) => id in s.kept
  }

  function Drop<T>(m: map<nat, T>, k: nat): map<nat, T> {
    map j | j in m && j != k :: m[j]
  }

  /** An id the job queue still holds collapses onto the job it has. */
  function AddJob(s: System, id: JobId, msg: nat): System {
    if id in s.kept then s else s.(kept := s.kept + {id}, added := s.added + [Job(id, msg)])
  }

  function IdFor(s: System, stableId: Option<string>): JobId {
    if stableId.Some? then Stable(stableId.value) else Generated(|s.added|)
  }

  function Step(s: System, e: Event): System
    requires Enabled(s, e)
  {
    match e
    case Send(msg, id) => s.(queue := s.queue[msg := Message(id, false)], sent := s.sent[msg := id])
    case Lease(msg) =>
      var m := s.queue[msg];
      s.(queue := s.queue[msg := m.(leased := true)],
         handlers := s.handlers[s.next := Handler(msg, m.stableId, Read)], next := s.next + 1)
    case LeaseEnds(msg) => s.(queue := s.queue[msg := s.queue[msg].(leased := false)])
    case Enqueue(h, outcome) =>
      var work := s.handlers[h];
      var s' := if outcome.Refused? then s else AddJob(s, IdFor(s, work.stableId), work.msg);
      s'.(handlers := if outcome.Accepted? then s.handlers[h := work.(stage := Enqueued)] else Drop(s.handlers, h))
    case Ack(h, outcome) =>
      s.(queue := if outcome.AckFailed? then s.queue else Drop(s.queue, s.handlers[h].msg), handlers := Drop(s.handlers, h))
    case Crash(h) => s.(handlers := Drop(s.handlers, h))
    case Forget(id) => s.(kept := s.kept - {id}, forgotten := s.forgotten + [id])
  }

  predicate Legal(s: System, es: seq<Event>)
    decreases |es|
  {
    es == [] || (Enabled(s, es[0]) && Legal(Step(s, es[0]), es[1..]))
  }

  function Run(s: System, es: seq<Event>): System
    requires Legal(s, es)
    decreases |es|
  {
    if es == [] then s else Run(Step(s, es[0]), es[1..])
  }

  // ----- nothing is removed before its job exists -----

  /** Some job accepted carries this message's id, or was made for it. */
  predicate HasJob(s: System, msg: nat, stableId: Option<string>) {
    exists j | j in s.added :: if stableId.Some? then j.id == Stable(stableId.value) else j.msg == msg
  }

  predicate QueueInv(s: System) {
    forall m | m in s.queue :: m in s.sent && s.queue[m].stableId == s.sent[m]
  }

  predicate HandlerInv(s: System) {
    forall h | h in s.handlers ::
      && h < s.next && s.handlers[h].msg in s.sent && s.handlers[h].stableId == s.sent[s.handlers[h].msg]
      && (s.handlers[h].stage == Enqueued ==> HasJob(s, s.handlers[h].msg, s.handlers[h].stableId))
  }

  /** Nothing sent is lost: it waits in the queue, or its job was accepted. */
  predicate NoneLost(s: System) {
    forall m | m in s.sent :: m in s.queue || HasJob(s, m, s.sent[m])
  }

  /** Ids the job queue holds are ids it accepted, and generated ones are numbered by acceptance. */
  predicate KeptInv(s: System) {
    && (forall id | id in s.kept :: exists j | j in s.added :: j.id == id)
    && (forall j | j in s.added && j.id.Generated? :: j.id.n < |s.added|)
  }

  predicate Inv(s: System) {
    QueueInv(s) && HandlerInv(s) && NoneLost(s) && KeptInv(s)
  }

  /** After a job is accepted, or collapses onto one held, the message has its job. */
  lemma AcceptedHasJob(s: System, msg: nat, stableId: Option<string>)
    requires KeptInv(s)
    ensures HasJob(AddJob(s, IdFor(s, stableId), msg), msg, stableId)
  {}

  lemma AddKeepsInv(s: System, stableId: Option<string>, msg: nat)
    requires Inv(s)
    ensures Inv(AddJob(s, IdFor(s, stableId), msg))
  {}

  lemma EnqueueKeepsInv(s: System, h: nat, outcome: EnqueueOutcome)
    requires Inv(s) && Enabled(s, Enqueue(h, outcome))
    ensures Inv(Step(s, Enqueue(h, outcome)))
  {
    hide QueueInv, NoneLost, KeptInv;
    var work := s.handlers[h];
    if !outcome.Refused? {
      AddKeepsInv(s, work.stableId, work.msg);
      AcceptedHasJob(s, work.msg, work.stableId);
    }
    HandlersMayChange(if outcome.Refused? then s else AddJob(s, IdFor(s, work.stableId), work.msg),
                      if outcome.Accepted? then s.handlers[h := work.(stage := Enqueued)] else Drop(s.handlers, h));
  }

  lemma HandlersMayChange(s: System, handlers: map<nat, Handler>)
    requires Inv(s) && HandlerInv(s.(handlers := handlers))
    ensures Inv(s.(handlers := handlers))
  {}

  lemma AckKeepsInv(s: System, h: nat, outcome: AckOutcome)
    requires Inv(s) && Enabled(s, Ack(h, outcome))
    ensures Inv(Step(s, Ack(h, outcome)))
  {}

  lemma ForgetKeepsInv(s: System, id: JobId)
    requires Inv(s) && Enabled(s, Forget(id))
    ensures Inv(Step(s, Forget(id)))
  {}

  lemma QueueStepsKeepInv(s: System, e: Event)
    requires Inv(s) && Enabled(s, e) && (e.Send? || e.Lease? || e.LeaseEnds? || e.Crash?)
    ensures Inv(Step(s, e))
  {}

  lemma StepKeepsInv(s: System, e: Event)
    requires Inv(s) && Enabled(s, e)
    ensures Inv(Step(s, e))
  {
    match e
    case Enqueue(h, outcome) => EnqueueKeepsInv(s, h, outcome);
    case Ack(h, outcome) => AckKeepsInv(s, h, outcome);
    case Forget(id) => ForgetKeepsInv(s, id);
    case _ => QueueStepsKeepInv(s, e);
  }

  lemma {:induction false} RunKeepsInv(s: System, es: seq<Event>)
    requires Inv(s) && Legal(s, es)
    ensures Inv(Run(s, es))
    decreases |es|
  {
    if es != [] {
      StepKeepsInv(s, es[0]);
      RunKeepsInv(Step(s, es[0]), es[1..]);
    }
  }

  /** Over every run, a message sent and no longer queued has had its job accepted. */
  lemma NoMessageRemovedBeforeItsJob(es: seq<Event>, m: nat)
    requires Legal(Empty(), es) && m in Run(Empty(), es).sent && m !in Run(Empty(), es).queue
    ensures HasJob(Run(Empty(), es), m, Run(Empty(), es).sent[m])
  {
    RunKeepsInv(Empty(), es);
  }

  // ----- an acknowledged message is gone -----

  lemma {:induction false} GoneForGood(s: System, es: seq<Event>, m: nat)
    requires Legal(s, es) && m in s.sent && m !in s.queue
    ensures m in Run(s, es).sent && m !in Run(s, es).queue
    decreases |es|
  {
    if es != [] {
      GoneForGood(Step(s, es[0]), es[1..], m);
    }
  }

  /**
   An acknowledgement the queue took, heard or not, removes its message for good and no
   other; one it did not take removes none.
   */
  lemma AcknowledgedIsGone(s: System, h: nat, outcome: AckOutcome, es: seq<Event>)
    requires Inv(s) && Enabled(s, Ack(h, outcome)) && Legal(Step(s, Ack(h, outcome)), es)
    ensures var m, s' := s.handlers[h].msg, Step(s, Ack(h, outcome));
            if outcome == AckFailed then s'.queue == s.queue
            else s'.queue == (map k | k in s.queue && k != m :: s.queue[k]) && m !in Run(s', es).queue
  {
    if !outcome.AckFailed? {
      GoneForGood(Step(s, Ack(h, outcome)), es, s.handlers[h].msg);
    }
  }

  /** Nothing going wrong, a waiting message is leased, made a job, and removed. */
  lemma Delivered(s: System, m: nat)
    requires Inv(s) && m in s.queue && !s.queue[m].leased
    ensures var es := [Lease(m), Enqueue(s.next, Accepted), Ack(s.next, Acked)];
            && Legal(s, es) && m !in Run(s, es).queue && HasJob(Run(s, es), m, s.sent[m])
  {
    var es := [Lease(m), Enqueue(s.next, Accepted), Ack(s.next, Acked)];
    var s1 := Step(s, es[0]);
    var s2 := Step(s1, es[1]);
    TwoSteps(s1, es[1], es[2]);
    Prefixed(s, es[0], [es[1], es[2]]);
    assert es == [es[0]] + [es[1], es[2]];
    RunKeepsInv(s, es);
  }

  /** A leased message is not leased again before its lease ends. */
  lemma {:induction false} LeasedOnce(s: System, m: nat, es: seq<Event>)
    requires m in s.sent && (m in s.queue ==> s.queue[m].leased) && Legal(s, es) && LeaseEnds(m) !in es
    ensures Lease(m) !in es
    decreases |es|
  {
    if es != [] {
      assert es[0] in es;
      assert forall e | e in es :: e == es[0] || e in es[1..];
      LeasedOnce(Step(s, es[0]), m, es[1..]);
    }
  }

  lemma LeaseIsExclusive(s: System, m: nat, es: seq<Event>)
    requires Inv(s) && Enabled(s, Lease(m)) && Legal(Step(s, Lease(m)), es) && LeaseEnds(m) !in es
    ensures Lease(m) !in es
  {
    LeasedOnce(Step(s, Lease(m)), m, es);
  }

  lemma {:induction false} GoneHandler(s: System, h: nat, es: seq<Event>)
    requires h !in s.handlers && h < s.next && Legal(s, es)
    ensures forall e | e in es :: (e.Enqueue? || e.Ack?) ==> e.handler != h
    decreases |es|
  {
    if es != [] {
      GoneHandler(Step(s, es[0]), h, es[1..]);
      assert forall e | e in es :: e == es[0] || e in es[1..];
    }
  }

  /** A handler that crashed, or whose acknowledgement was tried, does nothing more. */
  lemma CrashedDoesNoMore(s: System, h: nat, e: Event, es: seq<Event>)
    requires Inv(s) && Enabled(s, e) && (e == Crash(h) || (e.Ack? && e.handler == h)) && Legal(Step(s, e), es)
    ensures forall f | f in es :: (f.Enqueue? || f.Ack?) ==> f.handler != h
  {
    GoneHandler(Step(s, e), h, es);
  }

  /** An id the job queue has forgotten is accepted again. */
  lemma ForgottenIsNew(s: System, id: string, h: nat)
    requires Inv(s) && Enabled(s, Forget(Stable(id))) && Enabled(s, Enqueue(h, Accepted))
    requires s.handlers[h].stableId == Some(id)
    ensures var es := [Forget(Stable(id)), Enqueue(h, Accepted)];
            Legal(s, es) && |Run(s, es).added| == |s.added| + 1
  {
    StepKeepsInv(s, Forget(Stable(id)));
    NewJobExactlyWhen(Step(s, Forget(Stable(id))), h, Accepted);
    TwoSteps(s, Forget(Stable(id)), Enqueue(h, Accepted));
  }

  // ----- how many jobs an id gets -----

  function JobsWith(added: seq<Job>, id: JobId): nat {
    if added == [] then 0
    else JobsWith(added[..|added| - 1], id) + if added[|added| - 1].id == id then 1 else 0
  }

  function TimesIn(ids: seq<JobId>, id: JobId): nat {
    if ids == [] then 0
    else TimesIn(ids[..|ids| - 1], id) + if ids[|ids| - 1] == id then 1 else 0
  }

  /** Every job an id got is still held or has been forgotten since. */
  predicate Balanced(s: System, id: JobId) {
    JobsWith(s.added, id) == TimesIn(s.forgotten, id) + if id in s.kept then 1 else 0
  }

  lemma StepKeepsBalance(s: System, e: Event, id: JobId)
    requires Balanced(s, id) && Enabled(s, e)
    ensures Balanced(Step(s, e), id)
  {
    hide Drop;
    if e.Forget? {
      assert (s.forgotten + [e.id])[..|s.forgotten|] == s.forgotten;
    } else if e.Enqueue? && e.enqueued != Refused {
      AddKeepsBalance(s, IdFor(s, s.handlers[e.handler].stableId), s.handlers[e.handler].msg, id);
    }
  }

  lemma AddKeepsBalance(s: System, added: JobId, msg: nat, id: JobId)
    requires Balanced(s, id)
    ensures Balanced(AddJob(s, added, msg), id)
  {
    assert (s.added + [Job(added, msg)])[..|s.added|] == s.added;
  }

  lemma {:induction false} RunKeepsBalance(s: System, es: seq<Event>, id: JobId)
    requires Balanced(s, id) && Legal(s, es)
    ensures Balanced(Run(s, es), id)
    decreases |es|
  {
    if es != [] {
      StepKeepsBalance(s, es[0], id);
      RunKeepsBalance(Step(s, es[0]), es[1..], id);
    }
  }

  /** An id has one job more than the times it was forgotten, at most; never forgotten, it has at most one. */
  lemma OneJobPerStableId(es: seq<Event>, id: JobId)
    requires Legal(Empty(), es)
    ensures var s := Run(Empty(), es);
            JobsWith(s.added, id) <= TimesIn(s.forgotten, id) + 1
            && (id !in s.forgotten ==> JobsWith(s.added, id) <= 1)
  {
    RunKeepsBalance(Empty(), es, id);
    if id !in Run(Empty(), es).forgotten {
      NeverIn(Run(Empty(), es).forgotten, id);
    }
  }

  lemma {:induction false} NeverIn(ids: seq<JobId>, id: JobId)
    requires id !in ids
    ensures TimesIn(ids, id) == 0
  {
    if ids != [] {
      NeverIn(ids[..|ids| - 1], id);
    }
  }

  /** An accepted enqueue makes a new job exactly when the message's id is not one the job queue holds. */
  lemma NewJobExactlyWhen(s: System, h: nat, outcome: EnqueueOutcome)
    requires Inv(s) && Enabled(s, Enqueue(h, outcome)) && !outcome.Refused?
    ensures var stableId := s.handlers[h].stableId;
            |Step(s, Enqueue(h, outcome)).added| ==
            |s.added| + if stableId.Some? && Stable(stableId.value) in s.kept then 0 else 1
  {}

  /** Without a stable id, a failed acknowledgement turns one message into two jobs. */
  lemma UnstableIdsDuplicate(s: System, h: nat)
    requires Inv(s) && h in s.handlers && s.handlers[h].stage == Enqueued && s.handlers[h].stableId.None?
    requires s.handlers[h].msg in s.queue
    ensures var m := s.handlers[h].msg;
            var es := [Ack(h, AckFailed), LeaseEnds(m), Lease(m), Enqueue(s.next, Accepted)];
            Legal(s, es) && |Run(s, es).added| == |s.added| + 1
  {
    var m := s.handlers[h].msg;
    var s1 := Step(s, Ack(h, AckFailed));
    var s2 := Step(s1, LeaseEnds(m));
    var s3 := Step(s2, Lease(m));
    StepKeepsInv(s, Ack(h, AckFailed));
    StepKeepsInv(s1, LeaseEnds(m));
    StepKeepsInv(s2, Lease(m));
    NewJobExactlyWhen(s3, s.next, Accepted);
    FourSteps(s, Ack(h, AckFailed), LeaseEnds(m), Lease(m), Enqueue(s.next, Accepted));
  }

  lemma FourSteps(s: System, a: Event, b: Event, c: Event, e: Event)
    requires Enabled(s, a) && Enabled(Step(s, a), b) && Enabled(Step(Step(s, a), b), c)
    requires Enabled(Step(Step(Step(s, a), b), c), e)
    ensures Legal(s, [a, b, c, e]) && Run(s, [a, b, c, e]) == Step(Step(Step(Step(s, a), b), c), e)
  {
    hide *;
    TwoSteps(Step(Step(s, a), b), c, e);
    Prefixed(Step(s, a), b, [c, e]);
    Prefixed(s, a, [b, c, e]);
    assert [a] + [b, c, e] == [a, b, c, e] && [b] + [c, e] == [b, c, e];
  }

  lemma TwoSteps(s: System, c: Event, e: Event)
    requires Enabled(s, c) && Enabled(Step(s, c), e)
    ensures Legal(s, [c, e]) && Run(s, [c, e]) == Step(Step(s, c), e)
  {
    assert [c, e][1..] == [e] && [e][1..] == [];
    assert Run(Step(s, c), [e]) == Step(Step(s, c), e);
  }

  lemma Prefixed(s: System, e: Event, es: seq<Event>)
    requires Enabled(s, e) && Legal(Step(s, e), es)
    ensures Legal(s, [e] + es) && Run(s, [e] + es) == Run(Step(s, e), es)
  {}
}
