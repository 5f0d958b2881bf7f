/**
 Live presence on one document: a shared scored set of sockets, pruned lazily by whoever
 reads it and expiring as a whole, against the plain log of what happened to each socket.
 Times are milliseconds. Every call reaches the store; its commands run as one transaction.
 */
module DocumentOccupancy {
  import opened Prelude

  const OCCUPANT_STALE_MS := 45_000
  const OCCUPANCY_TTL_MS := 3_600_000

  // ----- member names -----

  /** One member for each open tab, all of them under the name of its user. */
  function OccupancyMember(userId: string, socketId: string): string {
    userId + ":" + socketId
  }

  /** JavaScript's `indexOf(':')`. */
  function IndexOfColon(s: string): (at: int)
    ensures -1 <= at < |s|
    ensures at >= 0 ==> s[at] == ':'
    ensures forall i | 0 <= i < (if at == -1 then |s| else at) :: s[i] != ':'
  {
    if s == "" then -1
    else if s[0] == ':' then 0
    else
      var rest := IndexOfColon(s[1..]);
      if rest == -1 then -1 else rest + 1
  }

  /** The user a member belongs to; a member without a user part names nobody. */
  function OccupantUserId(member: string): Option<string> {
    var at := IndexOfColon(member);
    if at > 0 then Some(member[..at]) else None
  }

  /** The name reads back exactly when the user id is non-empty and has no colon of its own. */
  lemma MemberNamesReadBack(userId: string, socketId: string)
    ensures OccupantUserId(OccupancyMember(userId, socketId)) == Some(userId) <==> userId != "" && ':' !in userId
  {
    var member := OccupancyMember(userId, socketId);
    assert member[|userId|] == ':';
    assert forall i | 0 <= i < |userId| :: member[i] == userId[i];
    assert member[..|userId|] == userId;
  }

  function UserIdsOf(members: set<string>): set<string> {
    set m | m in members && OccupantUserId(m).Some? :: OccupantUserId(m).value
  }

  function SetOf(members: seq<string>): set<string> {
    set m | m in members
  }

  method OccupantUserIds(members: seq<string>) returns (userIds: set<string>)
    ensures userIds == UserIdsOf(SetOf(members))
  {
    userIds := {};
    for i := 0 to |members|
      invariant userIds == UserIdsOf(SetOf(members[..i]))
    {
      assert members[..i + 1] == members[..i] + [members[i]];
      assert SetOf(members[..i + 1]) == SetOf(members[..i]) + {members[i]};
      var at := IndexOfColon(members[i]);
      if at > 0 {
        userIds := userIds + {members[i][..at]};
      }
    }
    assert members[..|members|] == members;
  }

  // ----- the shared set -----

  /** `None` is no key: never written, emptied, or expired. The key is live before `expiresAt`. */
  datatype Key = NoKey | Live(scores: map<string, int>, expiresAt: int)

  datatype Call =
    | Touch(member: string, at: int)
    | Release(userId: string, member: string)
    | Read

  datatype Answer = Done | LastGone(gone: bool) | Present(userIds: set<string>)

  /** What the store holds when a command reaches it at `now`. */
  function ScoresAt(key: Key, now: int): map<string, int> {
    if key.Live? && now < key.expiresAt then key.scores else map[]
  }

  /** Removing the last member removes the key and its expiry with it. */
  function WithScores(key: Key, scores: map<string, int>): Key {
    if scores == map[] || key.NoKey? then NoKey else Live(scores, key.expiresAt)
  }

  function Prune(scores: map<string, int>, now: int): map<string, int> {
    map m | m in scores && scores[m] >= now - OCCUPANT_STALE_MS :: scores[m]
  }

  /** One call at `now`: what it leaves in the store and what it answers. */
  function Run(key: Key, call: Call, now: int): (Key, Answer) {
    var scores := ScoresAt(key, now);
    match call
    case Touch(member, at) =>
      (Live(scores[member := at], now + OCCUPANCY_TTL_MS), Done)
    case Release(userId, member) =>
      var left := Prune(scores - {member}, now);
      (WithScores(key, left), LastGone(userId !in UserIdsOf(left.Keys)))
    case Read =>
      var left := Prune(scores, now);
      (WithScores(key, left), Present(UserIdsOf(left.Keys)))
  }

  // ----- the plain log -----

  datatype Entry = Entry(call: Call, now: int)

  /** When the member was last heard from, if it has not been released since. Nothing ever expires. */
  function LastTouch(log: seq<Entry>, member: string): Option<int> {
    if log == [] then None else
      var last := log[|log| - 1].call;
      if last.Touch? && last.member == member then Some(last.at)
      else if last.Release? && last.member == member then None
      else LastTouch(log[..|log| - 1], member)
  }

  ghost predicate IsPresent(log: seq<Entry>, member: string, now: int) {
    var touched := LastTouch(log, member);
    touched.Some? && touched.value >= now - OCCUPANT_STALE_MS
  }

  /** The answer the whole log implies, by definition and not by bookkeeping. */
  ghost predicate LogAnswers(log: seq<Entry>, call: Call, now: int, answer: Answer) {
    var after := log + [Entry(call, now)];
    match call
    case Touch(_, _) => answer == Done
    case Release(userId, _) =>
      && answer.LastGone?
      && (answer.gone <==> !exists m :: IsPresent(after, m, now) && OccupantUserId(m) == Some(userId))
    case Read =>
      && answer.Present?
      && forall u :: u in answer.userIds <==> exists m :: IsPresent(after, m, now) && OccupantUserId(m) == Some(u)
  }

  /** A touch reports an instant no later than the call, and the clock never runs backwards. */
  ghost predicate Timely(log: seq<Entry>) {
    && (forall i, j | 0 <= i < j < |log| :: log[i].now <= log[j].now)
    && (forall i | 0 <= i < |log| && log[i].call.Touch? :: log[i].call.at <= log[i].now)
  }

  ghost function KeyAfter(log: seq<Entry>): Key {
    if log == [] then NoKey
    else Run(KeyAfter(log[..|log| - 1]), log[|log| - 1].call, log[|log| - 1].now).0
  }

  /** At `t`, `m` survives a prune exactly if the log counts it present, and with that touch. */
  ghost predicate AgreesOn(log: seq<Entry>, key: Key, m: string, t: int) {
    var scores := Prune(ScoresAt(key, t), t);
    && (m in scores <==> IsPresent(log, m, t))
    && (m in scores ==> Some(scores[m]) == LastTouch(log, m))
  }

  lemma LastTouchStep(log: seq<Entry>, e: Entry, m: string)
    ensures LastTouch(log + [e], m) ==
            if e.call.Touch? && e.call.member == m then Some(e.call.at)
            else if e.call.Release? && e.call.member == m then None
            else LastTouch(log, m)
  {}

  lemma {:induction false} TouchesAreTimely(log: seq<Entry>, m: string, now: int)
    requires Timely(log) && forall i | 0 <= i < |log| :: log[i].now <= now
    ensures LastTouch(log, m).Some? ==> LastTouch(log, m).value <= now
  {
    if log != [] {
      TouchesAreTimely(log[..|log| - 1], m, now);
    }
  }

  /** One call keeps the agreement for every later instant, key expiry included. */
  lemma CallKeepsAgreement(log: seq<Entry>, key: Key, e: Entry, m: string, t: int)
    requires Timely(log + [e]) && e.now <= t
    requires AgreesOn(log, key, m, e.now) && AgreesOn(log, key, m, t)
    ensures AgreesOn(log + [e], Run(key, e.call, e.now).0, m, t)
  {
    LastTouchStep(log, e, m);
    assert (log + [e])[|log|] == e;
    if e.call.Touch? {
      assert log == (log + [e])[..|log|];
      assert forall i | 0 <= i < |log| :: log[i] == (log + [e])[i];
      TouchesAreTimely(log, m, e.now);
    }
  }

  /** Neither earlier prunes nor the key's expiry ever changes what a read would find. */
  lemma {:induction false} SetAgreesWithLog(log: seq<Entry>, m: string, t: int)
    requires Timely(log) && forall i | 0 <= i < |log| :: log[i].now <= t
    ensures AgreesOn(log, KeyAfter(log), m, t)
  {
    if log != [] {
      var before, e := log[..|log| - 1], log[|log| - 1];
      assert log == before + [e];
      assert forall i | 0 <= i < |before| :: before[i] == log[i];
      SetAgreesWithLog(before, m, t);
      SetAgreesWithLog(before, m, e.now);
      CallKeepsAgreement(before, KeyAfter(before), e, m, t);
    }
  }

  /** Every call is answered as the never-pruned log would answer it. */
  lemma AnswersMatchTheLog(log: seq<Entry>, call: Call, now: int)
    requires Timely(log + [Entry(call, now)])
    ensures LogAnswers(log, call, now, Run(KeyAfter(log), call, now).1)
  {
    var e := Entry(call, now);
    var after, key := log + [e], KeyAfter(log);
    assert after[..|log|] == log && after[|log|] == e;
    forall m ensures AgreesOn(after, Run(key, call, now).0, m, now) {
      SetAgreesWithLog(after, m, now);
    }
    if !call.Touch? {
      var left := if call.Release? then Prune(ScoresAt(key, now) - {call.member}, now) else Prune(ScoresAt(key, now), now);
      forall m ensures m in left <==> IsPresent(after, m, now) {
        assert AgreesOn(log, key, m, now) by {
          assert forall i | 0 <= i < |log| :: log[i] == after[i];
          SetAgreesWithLog(log, m, now);
        }
        LastTouchStep(log, e, m);
      }
    }
  }

  // ----- the store, updated in place -----

  class OccupancySet {
    var live: bool
    var scores: map<string, int>
    var expiresAt: int
    ghost var log: seq<Entry>

    ghost function View(): Key
      reads this
    {
      if live then Live(scores, expiresAt) else NoKey
    }

    ghost predicate Valid()
      reads this
    {
      View() == KeyAfter(log) && Timely(log)
    }

    constructor ()
      ensures Valid() && log == []
    {
      live, scores, expiresAt, log := false, map[], 0, [];
    }

    /** The key's lazy expiry, taken when a command arrives. No later command sees a difference. */
    method Expire(now: int)
      modifies this`live, this`scores
      ensures live == (old(live) && now < expiresAt)
      ensures scores == if live then old(scores) else map[]
      ensures forall t | now <= t :: ScoresAt(View(), t) == ScoresAt(old(View()), t)
    {
      live := live && now < expiresAt;
      if !live {
        scores := map[];
      }
    }

    /** `MULTI; ZADD; EXPIRE; EXEC`. */
    method TouchOccupant(member: string, at: int, now: int)
      requires Valid() && Timely(log + [Entry(Touch(member, at), now)])
      modifies this
      ensures Valid() && log == old(log) + [Entry(Touch(member, at), now)]
    {
      Expire(now);
      scores := scores[member := at];
      live := true;
      expiresAt := now + OCCUPANCY_TTL_MS;
      log := log + [Entry(Touch(member, at), now)];
      assert log[..|log| - 1] == old(log);
    }

    /** `ZREMRANGEBYSCORE; ZRANGE`: what is older than the cutoff goes, and the rest is listed. */
    method PruneAndListMembers(now: int) returns (members: seq<string>)
      requires live || scores == map[]
      modifies this`live, this`scores
      ensures scores == Prune(old(scores), now) && SetOf(members) == scores.Keys
      ensures live == (old(live) && scores != map[])
    {
      scores := map m | m in scores && !(scores[m] < now - OCCUPANT_STALE_MS) :: scores[m];
      live := live && scores != map[];
      members := [];
      var unlisted := scores.Keys;
      while unlisted != {}
        invariant SetOf(members) + unlisted == scores.Keys
        decreases |unlisted|
      {
        var m :| m in unlisted;
        unlisted := unlisted - {m};
        assert SetOf(members + [m]) == SetOf(members) + {m};
        members := members + [m];
      }
    }

    /** Takes one member out and answers whether any other of that user is left. */
    method ReleaseOccupant(userId: string, member: string, now: int) returns (lastOccupantGone: bool)
      requires Valid() && Timely(log + [Entry(Release(userId, member), now)])
      modifies this
      ensures Valid() && log == old(log) + [Entry(Release(userId, member), now)]
      ensures LogAnswers(old(log), Release(userId, member), now, LastGone(lastOccupantGone))
    {
      AnswersMatchTheLog(log, Release(userId, member), now);
      Expire(now);
      scores := scores - {member};
      var members := PruneAndListMembers(now);
      var userIds := OccupantUserIds(members);
      lastOccupantGone := userId !in userIds;
      log := log + [Entry(Release(userId, member), now)];
      assert log[..|log| - 1] == old(log);
    }

    /** Who is on the document. */
    method ReadOccupantUserIds(now: int) returns (userIds: set<string>)
      requires Valid() && Timely(log + [Entry(Read, now)])
      modifies this
      ensures Valid() && log == old(log) + [Entry(Read, now)]
      ensures LogAnswers(old(log), Read, now, Present(userIds))
    {
      AnswersMatchTheLog(log, Read, now);
      Expire(now);
      var members := PruneAndListMembers(now);
      userIds := OccupantUserIds(members);
      log := log + [Entry(Read, now)];
      assert log[..|log| - 1] == old(log);
    }
  }
}
