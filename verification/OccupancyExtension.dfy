/**
 The hooks that keep open sockets in the occupancy set, and record
 Last left when a person's final socket on the document closes. One document, no store
 faults and no crashed replica.
 */
module OccupancyExtension {
  import opened Prelude
  import opened DocumentOccupancy

  /** At most one refresh per socket per window. */
  const OCCUPANCY_TOUCH_MS := 10_000

  /** The longest an open socket may stay silent and still never be pruned. */
  const MAX_SILENCE_MS := OCCUPANT_STALE_MS - OCCUPANCY_TOUCH_MS + 1

  datatype Candidate = Candidate(
    socketId: string,
    userAgent: string,
    isBot: bool,
    isService: bool,
    userId: Option<string>,
    isAnonymous: bool)

  datatype Context = Context(userId: string, member: string, lastSeenAt: int, lastTouchAt: int)

  datatype Stamp = Stamp(userId: string, closedAt: int)

  datatype Event =
    | Connected(candidate: Candidate, now: int)
    | Message(socketId: string, now: int)
    | Disconnected(socketId: string, now: int)
    | FanOut(now: int)

  /** `contexts` is the open sockets carrying the occupancy marker. */
  datatype World = World(contexts: map<string, Context>, log: seq<Entry>, stamps: seq<Stamp>)

  const EMPTY := World(map[], [], [])

  /** Who counts: a real, signed-in person in a browser, read-only or not. */
  function DecideOccupancy(c: Candidate, now: int): Option<Context> {
    if c.userAgent == "" || c.isBot then None
    else if c.socketId == "server" then None
    else if c.isService then None
    else if c.userId.None? || c.userId.value == "" then None
    else if c.isAnonymous then None
    else Some(Context(c.userId.value, OccupancyMember(c.userId.value, c.socketId), now, now))
  }

  /** The same as one condition on the candidate. */
  predicate IsOccupant(c: Candidate) {
    && c.userAgent != "" && !c.isBot
    && c.socketId != "server" && !c.isService
    && c.userId.Some? && c.userId.value != "" && !c.isAnonymous
  }

  ghost function Called(w: World, call: Call, now: int): World {
    w.(log := w.log + [Entry(call, now)])
  }

  ghost function Step(w: World, e: Event): World {
    match e
    case Connected(c, now) => (
      match DecideOccupancy(c, now)
      case None => w
      case Some(ctx) =>
        Called(w, Touch(ctx.member, ctx.lastSeenAt), now).(contexts := w.contexts[c.socketId := ctx]))
    case Message(socket, now) =>
      if socket !in w.contexts then w else
        var ctx := w.contexts[socket].(lastSeenAt := now);
        if now - ctx.lastTouchAt < OCCUPANCY_TOUCH_MS then w.(contexts := w.contexts[socket := ctx]) else
        Called(w, Touch(ctx.member, now), now).(contexts := w.contexts[socket := ctx.(lastTouchAt := now)])
    case Disconnected(socket, now) =>
      if socket !in w.contexts then w else
        var ctx := w.contexts[socket];
        var release := Release(ctx.userId, ctx.member);
        var answer := Run(KeyAfter(w.log), release, now).1;
        Called(w, release, now).(
        contexts := w.contexts - {socket},
        stamps := if answer.gone then w.stamps + [Stamp(ctx.userId, ctx.lastSeenAt)] else w.stamps)
    case FanOut(now) => Called(w, Read, now)
  }

  /** What this socket's close would mean if presence were known exactly. */
  predicate IsLastSocket(w: World, socket: string)
    requires socket in w.contexts
  {
    forall other | other in w.contexts :: other != socket ==> w.contexts[other].userId != w.contexts[socket].userId
  }

  ghost predicate NotBefore(w: World, now: int) {
    && (forall i | 0 <= i < |w.log| :: w.log[i].now <= now)
    && forall s | s in w.contexts :: w.contexts[s].lastSeenAt <= now
  }

  ghost predicate Attentive(bound: int, w: World, now: int) {
    forall s | s in w.contexts :: now - w.contexts[s].lastSeenAt <= bound
  }

  /** Monotone time, fresh socket ids, user ids without a colon, and no open socket silent beyond the bound. */
  ghost predicate FairWithin(bound: int, w: World, e: Event) {
    && NotBefore(w, e.now)
    && Attentive(bound, w, e.now)
    && (e.Connected? ==>
          && e.candidate.socketId !in w.contexts
          && (e.candidate.userId.Some? ==> ':' !in e.candidate.userId.value))
  }

  ghost predicate Fair(w: World, e: Event) {
    FairWithin(MAX_SILENCE_MS, w, e)
  }

  ghost predicate ContextInv(w: World, s: string, ctx: Context) {
    && ctx.userId != "" && ':' !in ctx.userId
    && ctx.member == OccupancyMember(ctx.userId, s)
    && 0 <= ctx.lastSeenAt - ctx.lastTouchAt < OCCUPANCY_TOUCH_MS
    && LastTouch(w.log, ctx.member) == Some(ctx.lastTouchAt)
  }

  ghost predicate Inv(w: World) {
    && Timely(w.log)
    && (forall s | s in w.contexts :: ContextInv(w, s, w.contexts[s]))
    && (forall m :: LastTouch(w.log, m).Some? ==> exists s :: s in w.contexts && w.contexts[s].member == m)
  }

  lemma MembersAreDistinct(u: string, s: string, v: string, t: string)
    requires u != "" && ':' !in u && v != "" && ':' !in v
    requires OccupancyMember(u, s) == OccupancyMember(v, t)
    ensures u == v && s == t
  {
    MemberNamesReadBack(u, s);
    MemberNamesReadBack(v, t);
    assert OccupancyMember(u, s)[|u| + 1..] == s && OccupancyMember(v, t)[|v| + 1..] == t;
  }

  lemma TimelyAppend(w: World, call: Call, now: int)
    requires Timely(w.log) && forall i | 0 <= i < |w.log| :: w.log[i].now <= now
    requires call.Touch? ==> call.at <= now
    ensures Timely(w.log + [Entry(call, now)])
  {}

  lemma FreshMember(w: World, s: string, userId: string)
    requires Inv(w) && s !in w.contexts && userId != "" && ':' !in userId
    ensures forall t | t in w.contexts :: w.contexts[t].member != OccupancyMember(userId, s)
  {
    forall t | t in w.contexts ensures w.contexts[t].member != OccupancyMember(userId, s) {
      if w.contexts[t].member == OccupancyMember(userId, s) {
        MembersAreDistinct(w.contexts[t].userId, t, userId, s);
      }
    }
  }

  lemma OthersKeepMember(w: World, s: string)
    requires Inv(w) && s in w.contexts
    ensures forall t | t in w.contexts && t != s :: w.contexts[t].member != w.contexts[s].member
  {
    forall t | t in w.contexts && t != s ensures w.contexts[t].member != w.contexts[s].member {
      if w.contexts[t].member == w.contexts[s].member {
        MembersAreDistinct(w.contexts[t].userId, t, w.contexts[s].userId, s);
      }
    }
  }

  lemma ConnectKeepsInv(w: World, c: Candidate, now: int)
    requires Inv(w) && Fair(w, Connected(c, now))
    ensures Inv(Step(w, Connected(c, now)))
  {
    var decided := DecideOccupancy(c, now);
    if decided.Some? {
      var ctx := decided.value;
      var call := Touch(ctx.member, now);
      var w' := Step(w, Connected(c, now));
      TimelyAppend(w, call, now);
      FreshMember(w, c.socketId, ctx.userId);
      forall m ensures LastTouch(w'.log, m) == if m == ctx.member then Some(now) else LastTouch(w.log, m) {
        LastTouchStep(w.log, Entry(call, now), m);
      }
      forall m | LastTouch(w'.log, m).Some? ensures exists s :: s in w'.contexts && w'.contexts[s].member == m {
        if m == ctx.member {
          assert w'.contexts[c.socketId].member == m;
        } else {
          var s :| s in w.contexts && w.contexts[s].member == m;
          assert w'.contexts[s].member == m;
        }
      }
    }
  }

  lemma MessageKeepsInv(w: World, socket: string, now: int)
    requires Inv(w) && Fair(w, Message(socket, now))
    ensures Inv(Step(w, Message(socket, now)))
  {
    if socket in w.contexts {
      var ctx := w.contexts[socket];
      var w' := Step(w, Message(socket, now));
      var call := Touch(ctx.member, now);
      OthersKeepMember(w, socket);
      TimelyAppend(w, call, now);
      var touched := !(now - ctx.lastTouchAt < OCCUPANCY_TOUCH_MS);
      forall m ensures LastTouch(w'.log, m) == if touched && m == ctx.member then Some(now) else LastTouch(w.log, m) {
        LastTouchStep(w.log, Entry(call, now), m);
      }
      forall m | LastTouch(w'.log, m).Some? ensures exists s :: s in w'.contexts && w'.contexts[s].member == m {
        var s :| s in w.contexts && w.contexts[s].member == m;
        assert w'.contexts[s].member == m;
      }
    }
  }

  lemma DisconnectKeepsInv(w: World, socket: string, now: int)
    requires Inv(w) && Fair(w, Disconnected(socket, now))
    ensures Inv(Step(w, Disconnected(socket, now)))
  {
    if socket in w.contexts {
      var ctx := w.contexts[socket];
      var w' := Step(w, Disconnected(socket, now));
      var call := Release(ctx.userId, ctx.member);
      OthersKeepMember(w, socket);
      TimelyAppend(w, call, now);
      forall m ensures LastTouch(w'.log, m) == if m == ctx.member then None else LastTouch(w.log, m) {
        LastTouchStep(w.log, Entry(call, now), m);
      }
      forall m | LastTouch(w'.log, m).Some? ensures exists s :: s in w'.contexts && w'.contexts[s].member == m {
        var s :| s in w.contexts && w.contexts[s].member == m;
        assert s != socket && w'.contexts[s].member == m;
      }
    }
  }

  lemma StepKeepsInv(w: World, e: Event)
    requires Inv(w) && Fair(w, e)
    ensures Inv(Step(w, e))
  {
    match e
    case Connected(c, now) => ConnectKeepsInv(w, c, now);
    case Message(socket, now) => MessageKeepsInv(w, socket, now);
    case Disconnected(socket, now) => DisconnectKeepsInv(w, socket, now);
    case FanOut(now) =>
      TimelyAppend(w, Read, now);
      forall m ensures LastTouch(Step(w, e).log, m) == LastTouch(w.log, m) {
        LastTouchStep(w.log, Entry(Read, now), m);
      }
  }

  /** An open socket that keeps the bound is never missing from the set, whoever prunes it. */
  lemma OpenSocketsArePresent(w: World, s: string, now: int)
    requires Inv(w) && s in w.contexts && NotBefore(w, now) && Attentive(MAX_SILENCE_MS, w, now)
    ensures w.contexts[s].member in Prune(ScoresAt(KeyAfter(w.log), now), now)
  {
    SetAgreesWithLog(w.log, w.contexts[s].member, now);
  }

  /** The verdict a close acts on is right: gone exactly when no other socket of that user is open. */
  lemma CloseJudgesPresenceExactly(w: World, socket: string, now: int)
    requires Inv(w) && Fair(w, Disconnected(socket, now)) && socket in w.contexts
    ensures var ctx := w.contexts[socket];
            Run(KeyAfter(w.log), Release(ctx.userId, ctx.member), now).1 == LastGone(IsLastSocket(w, socket))
  {
    var ctx := w.contexts[socket];
    var call := Release(ctx.userId, ctx.member);
    var after := w.log + [Entry(call, now)];
    TimelyAppend(w, call, now);
    AnswersMatchTheLog(w.log, call, now);
    OthersKeepMember(w, socket);
    forall m ensures LastTouch(after, m) == if m == ctx.member then None else LastTouch(w.log, m) {
      LastTouchStep(w.log, Entry(call, now), m);
    }
    forall t | t in w.contexts ensures OccupantUserId(w.contexts[t].member) == Some(w.contexts[t].userId) {
      MemberNamesReadBack(w.contexts[t].userId, t);
    }
    if IsLastSocket(w, socket) {
      forall m | IsPresent(after, m, now) ensures OccupantUserId(m) != Some(ctx.userId) {
        var t :| t in w.contexts && w.contexts[t].member == m;
        assert t != socket;
      }
    } else {
      var t :| t in w.contexts && t != socket && w.contexts[t].userId == ctx.userId;
      assert IsPresent(after, w.contexts[t].member, now);
    }
  }

  // ----- who counts -----

  /**
   A connection opens an occupant's socket exactly when a browser, not a bot, not the server
   and not a service, brings a signed-in user who is not anonymous.
   */
  lemma ConnectedExactlyWhen(w: World, c: Candidate, now: int)
    ensures var w' := Step(w, Connected(c, now));
            if && c.userAgent != "" && !c.isBot && c.socketId != "server" && !c.isService
               && c.userId.Some? && c.userId.value != "" && !c.isAnonymous
            then
              && w'.contexts.Keys == w.contexts.Keys + {c.socketId}
              && w'.contexts[c.socketId].userId == c.userId.value && w'.contexts[c.socketId].lastSeenAt == now
              && w'.log == w.log + [Entry(Touch(OccupancyMember(c.userId.value, c.socketId), now), now)]
            else w' == w
  {}

  predicate NamedBy(e: Event, userId: string) {
    && e.Connected?
    && e.candidate.userId == Some(userId) && userId != "" && !e.candidate.isAnonymous
    && e.candidate.userAgent != "" && !e.candidate.isBot
    && e.candidate.socketId != "server" && !e.candidate.isService
  }

  predicate SomeoneNames(es: set<Event>, userId: string) {
    exists e | e in es :: NamedBy(e, userId)
  }

  /** Whoever is open or stamped connected as such by one of these events. */
  ghost predicate AllNamed(w: World, es: set<Event>) {
    && (forall s | s in w.contexts :: SomeoneNames(es, w.contexts[s].userId))
    && (forall k | 0 <= k < |w.stamps| :: SomeoneNames(es, w.stamps[k].userId))
  }

  lemma StillNamed(es: set<Event>, e: Event, userId: string)
    ensures SomeoneNames(es, userId) ==> SomeoneNames(es + {e}, userId)
    ensures NamedBy(e, userId) ==> SomeoneNames(es + {e}, userId)
  {
    assert e in es + {e};
    if SomeoneNames(es, userId) {
      var f :| f in es && NamedBy(f, userId);
      assert f in es + {e};
    }
  }

  lemma StepKeepsNames(w: World, e: Event, es: set<Event>)
    requires AllNamed(w, es)
    ensures AllNamed(Step(w, e), es + {e})
  {
    hide DocumentOccupancy.Run, KeyAfter, SomeoneNames;
    var w' := Step(w, e);
    forall s | s in w'.contexts ensures SomeoneNames(es + {e}, w'.contexts[s].userId) {
      StillNamed(es, e, w'.contexts[s].userId);
    }
    forall k | 0 <= k < |w'.stamps| ensures SomeoneNames(es + {e}, w'.stamps[k].userId) {
      StillNamed(es, e, w'.stamps[k].userId);
    }
  }

  // ----- runs, against presence known exactly -----

  datatype Heard = Heard(userId: string, at: int)

  /** The same story without a shared set: who is open, and when each was last heard. */
  datatype Presence = Presence(open: map<string, Heard>, stamps: seq<Stamp>)

  predicate LeavesNobody(open: map<string, Heard>, socket: string)
    requires socket in open
  {
    forall s | s in open :: s != socket ==> open[s].userId != open[socket].userId
  }

  function IdealStep(p: Presence, e: Event): Presence {
    match e
    case Connected(c, now) =>
      if IsOccupant(c) then p.(open := p.open[c.socketId := Heard(c.userId.value, now)]) else p
    case Message(socket, now) =>
      if socket !in p.open then p else p.(open := p.open[socket := p.open[socket].(at := now)])
    case Disconnected(socket, now) =>
      if socket !in p.open then p else
        var heard := p.open[socket];
        Presence(
          p.open - {socket},
          if LeavesNobody(p.open, socket) then p.stamps + [Stamp(heard.userId, heard.at)] else p.stamps)
    case FanOut(_) => p
  }

  function IdealRun(p: Presence, run: seq<Event>): Presence
    decreases |run|
  {
    if run == [] then p else IdealRun(IdealStep(p, run[0]), run[1..])
  }

  ghost predicate FairRun(bound: int, w: World, run: seq<Event>)
    decreases |run|
  {
    run == [] || (FairWithin(bound, w, run[0]) && FairRun(bound, Step(w, run[0]), run[1..]))
  }

  ghost function Exec(w: World, run: seq<Event>): World
    decreases |run|
  {
    if run == [] then w else Exec(Step(w, run[0]), run[1..])
  }

  lemma {:induction false} RunKeepsNames(w: World, run: seq<Event>, es: set<Event>)
    requires AllNamed(w, es)
    ensures AllNamed(Exec(w, run), es + set e | e in run)
    decreases |run|
  {
    hide Step, AllNamed;
    if run == [] {
      assert es + (set e | e in run) == es;
    } else {
      StepKeepsNames(w, run[0], es);
      RunKeepsNames(Step(w, run[0]), run[1..], es + {run[0]});
      assert run == [run[0]] + run[1..];
      assert (es + {run[0]}) + (set e | e in run[1..]) == es + (set e | e in run);
    }
  }

  /** Only a signed-in person who connected with a browser is ever stamped, whatever the run. */
  lemma OnlyOccupantsAreStamped(run: seq<Event>, k: nat)
    requires k < |Exec(EMPTY, run).stamps|
    ensures exists e | e in run ::
              && e.Connected? && e.candidate.userId == Some(Exec(EMPTY, run).stamps[k].userId)
              && e.candidate.userId != Some("") && !e.candidate.isAnonymous
              && e.candidate.userAgent != "" && !e.candidate.isBot
              && e.candidate.socketId != "server" && !e.candidate.isService
  {
    RunKeepsNames(EMPTY, run, {});
    var es := set e | e in run;
    assert {} + es == es;
    var userId := Exec(EMPTY, run).stamps[k].userId;
    assert SomeoneNames(es, userId);
    var e :| e in es && NamedBy(e, userId);
    assert e in run;
  }

  ghost function Exactly(w: World): Presence {
    Presence(OpenOf(w.contexts), w.stamps)
  }

  function OpenOf(contexts: map<string, Context>): map<string, Heard> {
    map s | s in contexts :: Heard(contexts[s].userId, contexts[s].lastSeenAt)
  }

  lemma LeavesNobodyAgrees(w: World, socket: string)
    requires socket in w.contexts
    ensures LeavesNobody(OpenOf(w.contexts), socket) <==> IsLastSocket(w, socket)
    ensures OpenOf(w.contexts - {socket}) == OpenOf(w.contexts) - {socket}
  {
    var open := OpenOf(w.contexts);
    forall s | s in w.contexts ensures s in open && open[s].userId == w.contexts[s].userId {}
  }

  lemma DisconnectIsIdeal(w: World, socket: string, now: int)
    requires Inv(w) && Fair(w, Disconnected(socket, now)) && socket in w.contexts
    ensures Exactly(Step(w, Disconnected(socket, now))) == IdealStep(Exactly(w), Disconnected(socket, now))
  {
    CloseJudgesPresenceExactly(w, socket, now);
    LeavesNobodyAgrees(w, socket);
  }

  lemma ConnectIsIdeal(w: World, c: Candidate, now: int)
    ensures Exactly(Step(w, Connected(c, now))) == IdealStep(Exactly(w), Connected(c, now))
  {
    assert Exactly(Step(w, Connected(c, now))).open == IdealStep(Exactly(w), Connected(c, now)).open;
  }

  lemma MessageIsIdeal(w: World, socket: string, now: int)
    ensures Exactly(Step(w, Message(socket, now))) == IdealStep(Exactly(w), Message(socket, now))
  {
    assert Exactly(Step(w, Message(socket, now))).open == IdealStep(Exactly(w), Message(socket, now)).open;
  }

  lemma StepIsIdeal(w: World, e: Event)
    requires Inv(w) && Fair(w, e)
    ensures Exactly(Step(w, e)) == IdealStep(Exactly(w), e)
  {
    hide Inv, Fair;
    match e
    case Connected(c, now) => ConnectIsIdeal(w, c, now);
    case Message(socket, now) => MessageIsIdeal(w, socket, now);
    case Disconnected(socket, now) =>
      if socket in w.contexts {
        DisconnectIsIdeal(w, socket, now);
      }
    case FanOut(_) =>
  }

  /**
   Last left is stamped as if presence were known exactly: once per departure, by whichever
   of a person's sockets closes last, with the instant that socket was last heard from.
   */
  lemma {:induction false} StampsAreIdeal(bound: int, w: World, run: seq<Event>)
    requires Inv(w) && bound <= MAX_SILENCE_MS && FairRun(bound, w, run)
    ensures Exec(w, run).stamps == IdealRun(Exactly(w), run).stamps
    decreases |run|
  {
    if run != [] {
      StepKeepsInv(w, run[0]);
      StepIsIdeal(w, run[0]);
      StampsAreIdeal(bound, Step(w, run[0]), run[1..]);
    }
  }

  /** A tab last refreshed at 0 and last heard at 9 999, and a second one opened at 45 000. */
  ghost function TwoTabs(userId: string): World {
    var a, b := OccupancyMember(userId, "a"), OccupancyMember(userId, "b");
    World(
      map["a" := Context(userId, a, 9_999, 0), "b" := Context(userId, b, 45_000, 45_000)],
      [Entry(Touch(a, 0), 0), Entry(Touch(b, 45_000), 45_000)],
      [])
  }

  lemma TwoTabsTouches(userId: string, m: string)
    ensures LastTouch(TwoTabs(userId).log, m) ==
            if m == OccupancyMember(userId, "b") then Some(45_000)
            else if m == OccupancyMember(userId, "a") then Some(0) else None
  {
    var first, second := Entry(Touch(OccupancyMember(userId, "a"), 0), 0),
                         Entry(Touch(OccupancyMember(userId, "b"), 45_000), 45_000);
    assert TwoTabs(userId).log == [first] + [second];
    assert [first] == [] + [first];
    LastTouchStep([first], second, m);
    LastTouchStep([], first, m);
  }

  lemma TwoTabsVerdict(userId: string)
    requires userId != "" && ':' !in userId
    ensures var b := OccupancyMember(userId, "b");
            Run(KeyAfter(TwoTabs(userId).log), Release(userId, b), 45_001).1 == LastGone(true)
  {
    var log := TwoTabs(userId).log;
    var call := Release(userId, OccupancyMember(userId, "b"));
    AnswersMatchTheLog(log, call, 45_001);
    forall m ensures !IsPresent(log + [Entry(call, 45_001)], m, 45_001) {
      LastTouchStep(log, Entry(call, 45_001), m);
      TwoTabsTouches(userId, m);
    }
  }

  function Tab(userId: string, socketId: string): Candidate {
    Candidate(socketId, "Mozilla/5.0", false, false, Some(userId), false)
  }

  ghost function OneTab(userId: string, heardAt: int): World {
    var a := OccupancyMember(userId, "a");
    World(map["a" := Context(userId, a, heardAt, 0)], [Entry(Touch(a, 0), 0)], [])
  }

  /** How the two tabs come to be open, and the second one's close. */
  ghost function TwoTabsRun(userId: string): seq<Event> {
    [Connected(Tab(userId, "a"), 0)] + ([Message("a", 9_999)] +
    ([Connected(Tab(userId, "b"), 45_000)] + ([Disconnected("b", 45_001)] + [])))
  }

  lemma OneStep(bound: int, w: World, e: Event, more: seq<Event>)
    ensures FairRun(bound, w, [e] + more) <==> FairWithin(bound, w, e) && FairRun(bound, Step(w, e), more)
    ensures Exec(w, [e] + more) == Exec(Step(w, e), more)
    ensures IdealRun(Exactly(w), [e] + more) == IdealRun(IdealStep(Exactly(w), e), more)
  {
    hide FairWithin, Step, IdealStep, Exactly;
    assert ([e] + more)[1..] == more;
  }

  lemma FirstTabOpens(bound: int, userId: string)
    requires userId != "" && ':' !in userId && 9_999 <= bound
    ensures var e, f := Connected(Tab(userId, "a"), 0), Message("a", 9_999);
            && FairWithin(bound, EMPTY, e) && Step(EMPTY, e) == OneTab(userId, 0)
            && FairWithin(bound, OneTab(userId, 0), f) && Step(OneTab(userId, 0), f) == OneTab(userId, 9_999)
            && IdealStep(Exactly(EMPTY), e) == Exactly(OneTab(userId, 0))
            && IdealStep(Exactly(OneTab(userId, 0)), f) == Exactly(OneTab(userId, 9_999))
  {
    assert [] + [Entry(Touch(OccupancyMember(userId, "a"), 0), 0)] == OneTab(userId, 0).log;
  }

  lemma SecondTabOpens(bound: int, userId: string)
    requires userId != "" && ':' !in userId && 35_001 <= bound
    ensures var w, e := OneTab(userId, 9_999), Connected(Tab(userId, "b"), 45_000);
            && FairWithin(bound, w, e) && Step(w, e) == TwoTabs(userId)
            && IdealStep(Exactly(w), e) == Exactly(TwoTabs(userId))
  {}

  /** The tab heard 35 002 ms ago is gone from the set, so the close stamps a person who is still there. */
  lemma SecondTabCloses(bound: int, userId: string)
    requires userId != "" && ':' !in userId && 35_002 <= bound
    ensures var w, e := TwoTabs(userId), Disconnected("b", 45_001);
            && FairWithin(bound, w, e) && Step(w, e).stamps == [Stamp(userId, 45_000)]
            && IdealStep(Exactly(w), e).stamps == []
  {
    TwoTabsVerdict(userId);
    var w := TwoTabs(userId);
    assert OpenOf(w.contexts)["a"].userId == OpenOf(w.contexts)["b"].userId;
  }

  lemma TwoTabsAreStampedWrongly(bound: int, userId: string)
    requires userId != "" && ':' !in userId && MAX_SILENCE_MS < bound
    ensures FairRun(bound, EMPTY, TwoTabsRun(userId))
    ensures Exec(EMPTY, TwoTabsRun(userId)).stamps == [Stamp(userId, 45_000)]
    ensures IdealRun(Exactly(EMPTY), TwoTabsRun(userId)).stamps == []
  {
    hide FairWithin, Step, IdealStep, Exactly, TwoTabs, OneTab;
    var e, f := Connected(Tab(userId, "a"), 0), Message("a", 9_999);
    var g, h := Connected(Tab(userId, "b"), 45_000), Disconnected("b", 45_001);
    FirstTabOpens(bound, userId);
    SecondTabOpens(bound, userId);
    SecondTabCloses(bound, userId);
    OneStep(bound, EMPTY, e, [f] + ([g] + ([h] + [])));
    OneStep(bound, OneTab(userId, 0), f, [g] + ([h] + []));
    OneStep(bound, OneTab(userId, 9_999), g, [h] + []);
    OneStep(bound, TwoTabs(userId), h, []);
  }

  /** Every run in which no open socket is silent beyond the bound has exactly the stamps it should. */
  ghost predicate StampsAreRightWithin(bound: int) {
    forall run: seq<Event> | FairRun(bound, EMPTY, run) :: Exec(EMPTY, run).stamps == IdealRun(Exactly(EMPTY), run).stamps
  }

  /** That holds up to 35 001 ms of silence and for no longer bound. */
  lemma SilenceBoundIsTight(bound: int)
    ensures StampsAreRightWithin(bound) <==> bound <= MAX_SILENCE_MS
  {
    hide FairRun, Exec, IdealRun, TwoTabsRun;
    if bound <= MAX_SILENCE_MS {
      forall run: seq<Event> | FairRun(bound, EMPTY, run)
        ensures Exec(EMPTY, run).stamps == IdealRun(Exactly(EMPTY), run).stamps
      {
        StampsAreIdeal(bound, EMPTY, run);
      }
    } else {
      TwoTabsAreStampedWrongly(bound, "u");
    }
  }

  // ----- the hooks -----

  class DocumentOccupancyExtension {
    const store: OccupancySet
    var contexts: map<string, Context>
    var stamps: seq<Stamp>

    ghost function View(): World
      reads this, store
    {
      World(contexts, store.log, stamps)
    }

    ghost predicate Valid()
      reads this, store
    {
      store.Valid()
    }

    constructor ()
      ensures Valid() && fresh(store) && View() == EMPTY && Inv(View())
    {
      store := new OccupancySet();
      contexts, stamps := map[], [];
    }

    method Connected(c: Candidate, now: int)
      requires Valid() && NotBefore(View(), now)
      modifies this`contexts, store
      ensures Valid() && View() == Step(old(View()), Event.Connected(c, now))
      ensures contexts.Keys == old(contexts.Keys) +
              if && c.userAgent != "" && !c.isBot && c.socketId != "server" && !c.isService
                 && c.userId.Some? && c.userId.value != "" && !c.isAnonymous
              then {c.socketId} else {}
    {
      var occupancy := DecideOccupancy(c, now);
      if occupancy.None? {
        return;
      }
      contexts := contexts[c.socketId := occupancy.value];
      store.TouchOccupant(occupancy.value.member, occupancy.value.lastSeenAt, now);
    }

    /** A message refreshes what was heard, and now and then the shared set. */
    method BeforeHandleMessage(socketId: string, now: int)
      requires Valid() && NotBefore(View(), now)
      modifies this`contexts, store
      ensures Valid() && View() == Step(old(View()), Message(socketId, now))
    {
      hide DocumentOccupancy.Run, KeyAfter, DecideOccupancy;
      if socketId !in contexts {
        return;
      }
      var occupancy := contexts[socketId];
      contexts := contexts[socketId := occupancy.(lastSeenAt := now)];
      if now - occupancy.lastTouchAt < OCCUPANCY_TOUCH_MS {
        return;
      }
      contexts := contexts[socketId := occupancy.(lastSeenAt := now, lastTouchAt := now)];
      store.TouchOccupant(occupancy.member, now, now);
    }

    method OnDisconnect(socketId: string, now: int)
      requires Valid() && NotBefore(View(), now)
      modifies this, store
      ensures Valid() && View() == Step(old(View()), Disconnected(socketId, now))
    {
      if socketId !in contexts {
        return;
      }
      var occupancy := contexts[socketId];
      contexts := contexts - {socketId};
      AnswersMatchTheLog(store.log, Release(occupancy.userId, occupancy.member), now);
      var lastOccupantGone := store.ReleaseOccupant(occupancy.userId, occupancy.member, now);
      if lastOccupantGone {
        stamps := stamps + [Stamp(occupancy.userId, occupancy.lastSeenAt)];
      }
    }
  }
}
