/**
 The token verification cache: a bounded map in insertion order, against the one that
 never drops anything. Times are in milliseconds.
 */
module TokenCache {
  import opened Prelude

  const MAX_TOKEN_CACHE: nat := 1000
  const TOKEN_CACHE_TTL_MS: nat := 60_000
  const NEG_TOKEN_CACHE_TTL_MS: nat := 30_000

  datatype Entry = Entry(token: string, user: Option<string>, expiresAt: nat)

  /** What the auth server said. An error without a status, or with 429 or 5xx, is transient. */
  datatype Reply =
    | Verified(user: string)
    | Failed(status: Option<int>, retryable: bool)
    | NoUser
    | Threw

  datatype Outcome = User(user: string) | Invalid | Unavailable

  predicate IsTransient(r: Reply)
    requires r.Failed?
  {
    r.retryable || r.status.None? || r.status.value == 429 || r.status.value >= 500
  }

  function OutcomeOf(r: Reply): Outcome {
    match r
    case Verified(user) => User(user)
    case Failed(_, _) => if IsTransient(r) then Unavailable else Invalid
    case NoUser => Invalid
    case Threw => Unavailable
  }

  /** Only an answer is worth keeping. */
  predicate IsCached(r: Reply) {
    r.Verified? || (r.Failed? && !IsTransient(r))
  }

  function EntryFor(token: string, r: Reply, now: nat): Entry
    requires IsCached(r)
  {
    if r.Verified? then Entry(token, Some(r.user), now + TOKEN_CACHE_TTL_MS)
    else Entry(token, None, now + NEG_TOKEN_CACHE_TTL_MS)
  }

  /**
   A user is kept for a minute, a refusal for half of one. An error that may pass is reported
   as unavailable and not kept, nor is an answer without user or error.
   */
  lemma RepliesMean(token: string, r: Reply, now: nat)
    ensures r.Verified? ==> OutcomeOf(r) == User(r.user) && IsCached(r)
                            && EntryFor(token, r, now) == Entry(token, Some(r.user), now + 60_000)
    ensures r.Failed? && (r.retryable || r.status.None? || r.status.value == 429 || r.status.value >= 500) ==>
              OutcomeOf(r) == Unavailable && !IsCached(r)
    ensures r.Failed? && !r.retryable && r.status.Some? && r.status.value != 429 && r.status.value < 500 ==>
              OutcomeOf(r) == Invalid && IsCached(r) && EntryFor(token, r, now) == Entry(token, None, now + 30_000)
    ensures r.NoUser? ==> OutcomeOf(r) == Invalid && !IsCached(r)
    ensures r.Threw? ==> OutcomeOf(r) == Unavailable && !IsCached(r)
  {}

  // ----- the map in insertion order -----

  /** The entries in order, without `token`'s. */
  function Remove(entries: seq<Entry>, token: string): (out: seq<Entry>)
    ensures |out| <= |entries|
  {
    if entries == [] then []
    else
      var last := |entries| - 1;
      Remove(entries[..last], token) + if entries[last].token == token then [] else [entries[last]]
  }

  predicate Distinct(entries: seq<Entry>) {
    forall i, j | 0 <= i < j < |entries| :: entries[i].token != entries[j].token
  }

  predicate Has(entries: seq<Entry>, token: string) {
    exists e | e in entries :: e.token == token
  }

  /** `delete`, then drop the oldest when full, then `set`. */
  function CacheSet(cache: seq<Entry>, e: Entry): seq<Entry> {
    var without := Remove(cache, e.token);
    (if |without| >= MAX_TOKEN_CACHE then without[1..] else without) + [e]
  }

  function KeepAll(entries: seq<Entry>, e: Entry): seq<Entry> {
    Remove(entries, e.token) + [e]
  }

  function CacheAfter(stores: seq<Entry>): seq<Entry> {
    if stores == [] then [] else CacheSet(CacheAfter(stores[..|stores| - 1]), stores[|stores| - 1])
  }

  /** Every token ever stored, each with its last entry, in the order of those. */
  function AllAfter(stores: seq<Entry>): seq<Entry> {
    if stores == [] then [] else KeepAll(AllAfter(stores[..|stores| - 1]), stores[|stores| - 1])
  }

  function LastOnes(entries: seq<Entry>): seq<Entry> {
    if |entries| <= MAX_TOKEN_CACHE then entries else entries[|entries| - MAX_TOKEN_CACHE..]
  }

  lemma {:induction false} RemoveHas(entries: seq<Entry>, token: string, e: Entry)
    ensures e in Remove(entries, token) <==> e in entries && e.token != token
  {
    if entries != [] {
      var last := |entries| - 1;
      assert entries == entries[..last] + [entries[last]];
      RemoveHas(entries[..last], token, e);
    }
  }

  lemma {:induction false} RemoveConcat(a: seq<Entry>, b: seq<Entry>, token: string)
    ensures Remove(a + b, token) == Remove(a, token) + Remove(b, token)
  {
    if b == [] {
      assert a + b == a;
    } else {
      var last := |b| - 1;
      assert (a + b)[..|a + b| - 1] == a + b[..last];
      RemoveConcat(a, b[..last], token);
    }
  }

  lemma {:induction false} RemoveAbsent(entries: seq<Entry>, token: string)
    requires !Has(entries, token)
    ensures Remove(entries, token) == entries
  {
    if entries != [] {
      var last := |entries| - 1;
      assert entries[last] in entries;
      assert !Has(entries[..last], token);
      RemoveAbsent(entries[..last], token);
    }
  }

  lemma {:induction false} RemovePresent(entries: seq<Entry>, token: string)
    requires Distinct(entries) && Has(entries, token)
    ensures |Remove(entries, token)| == |entries| - 1
  {
    var last := |entries| - 1;
    if entries[last].token == token {
      assert !Has(entries[..last], token);
      RemoveAbsent(entries[..last], token);
    } else {
      var e :| e in entries && e.token == token;
      assert e in entries[..last];
      RemovePresent(entries[..last], token);
    }
  }

  lemma {:induction false} RemoveKeepsDistinct(entries: seq<Entry>, token: string)
    requires Distinct(entries)
    ensures Distinct(Remove(entries, token))
  {
    if entries != [] {
      var last := |entries| - 1;
      RemoveKeepsDistinct(entries[..last], token);
      forall e | e in Remove(entries[..last], token) ensures e.token != entries[last].token {
        RemoveHas(entries[..last], token, e);
        assert e in entries[..last];
      }
    }
  }

  lemma {:induction false} AllAreDistinct(stores: seq<Entry>)
    ensures Distinct(AllAfter(stores))
  {
    if stores != [] {
      var last := |stores| - 1;
      AllAreDistinct(stores[..last]);
      RemoveKeepsDistinct(AllAfter(stores[..last]), stores[last].token);
      forall e | e in Remove(AllAfter(stores[..last]), stores[last].token) ensures e.token != stores[last].token {
        RemoveHas(AllAfter(stores[..last]), stores[last].token, e);
      }
    }
  }

  lemma Apart(a: seq<Entry>, b: seq<Entry>, i: nat, j: nat)
    requires Distinct(a + b) && i < |a| && j < |b|
    ensures a[i].token != b[j].token
  {
    assert (a + b)[i] == a[i] && (a + b)[|a| + j] == b[j];
  }

  lemma SplitDistinct(a: seq<Entry>, b: seq<Entry>, token: string)
    requires Distinct(a + b)
    ensures Distinct(b) && (Has(b, token) ==> !Has(a, token))
  {
    forall i, j | 0 <= i < j < |b| ensures b[i].token != b[j].token {
      assert (a + b)[|a| + i] == b[i] && (a + b)[|a| + j] == b[j];
    }
    forall x, y | x in a && y in b ensures x.token != y.token {
      var i :| 0 <= i < |a| && a[i] == x;
      var j :| 0 <= j < |b| && b[j] == y;
      Apart(a, b, i, j);
    }
  }

  lemma LastOnesOfSum(a: seq<Entry>, b: seq<Entry>)
    requires |b| == MAX_TOKEN_CACHE || (a == [] && |b| <= MAX_TOKEN_CACHE)
    ensures LastOnes(a + b) == b
  {}

  /** One store keeps the cache the last part of what a cache without a bound would hold. */
  lemma StoreKeepsLastOnes(all: seq<Entry>, e: Entry)
    requires Distinct(all)
    ensures CacheSet(LastOnes(all), e) == LastOnes(KeepAll(all, e))
  {
    var cache := LastOnes(all);
    var older := all[..|all| - |cache|];
    assert all == older + cache;
    SplitDistinct(older, cache, e.token);
    RemoveConcat(older, cache, e.token);
    if Has(cache, e.token) {
      StorePresent(older, cache, e);
    } else {
      StoreAbsent(older, cache, e);
    }
  }

  lemma StorePresent(older: seq<Entry>, cache: seq<Entry>, e: Entry)
    requires Distinct(cache) && Has(cache, e.token) && !Has(older, e.token)
    requires |cache| == MAX_TOKEN_CACHE || (older == [] && |cache| <= MAX_TOKEN_CACHE)
    requires Remove(older + cache, e.token) == Remove(older, e.token) + Remove(cache, e.token)
    ensures CacheSet(cache, e) == LastOnes(KeepAll(older + cache, e))
  {
    RemovePresent(cache, e.token);
    RemoveAbsent(older, e.token);
    var kept := Remove(cache, e.token);
    assert KeepAll(older + cache, e) == older + (kept + [e]);
    LastOnesOfSum(older, kept + [e]);
  }

  lemma SetAbsent(cache: seq<Entry>, e: Entry)
    requires !Has(cache, e.token)
    ensures CacheSet(cache, e) == (if |cache| >= MAX_TOKEN_CACHE then cache[1..] else cache) + [e]
  {
    RemoveAbsent(cache, e.token);
  }

  lemma StoreFull(kept: seq<Entry>, cache: seq<Entry>, e: Entry)
    requires |cache| == MAX_TOKEN_CACHE
    ensures LastOnes((kept + cache) + [e]) == cache[1..] + [e]
  {}

  lemma StoreAbsent(older: seq<Entry>, cache: seq<Entry>, e: Entry)
    requires !Has(cache, e.token)
    requires |cache| == MAX_TOKEN_CACHE || (older == [] && |cache| <= MAX_TOKEN_CACHE)
    requires Remove(older + cache, e.token) == Remove(older, e.token) + Remove(cache, e.token)
    ensures CacheSet(cache, e) == LastOnes(KeepAll(older + cache, e))
  {
    RemoveAbsent(cache, e.token);
    SetAbsent(cache, e);
    hide Remove, LastOnes, Has, CacheSet;
    if |cache| == MAX_TOKEN_CACHE {
      StoreFull(Remove(older, e.token), cache, e);
    } else {
      assert Remove(older, e.token) + cache == cache && [] + (cache + [e]) == cache + [e];
      LastOnesOfSum([], cache + [e]);
    }
  }

  /** Over every run of stores, the cache is the thousand tokens stored last, each with its last entry. */
  lemma {:induction false} CacheIsLastOnes(stores: seq<Entry>)
    ensures CacheAfter(stores) == LastOnes(AllAfter(stores)) && |CacheAfter(stores)| <= MAX_TOKEN_CACHE
  {
    if stores != [] {
      var last := |stores| - 1;
      CacheIsLastOnes(stores[..last]);
      AllAreDistinct(stores[..last]);
      StoreKeepsLastOnes(AllAfter(stores[..last]), stores[last]);
    }
  }

  /** What one store may drop: nothing when its token was there, and otherwise only the entry first in line of a full cache. */
  lemma OnlyTheFirstIsDropped(cache: seq<Entry>, e: Entry, x: Entry)
    requires Distinct(cache) && |cache| <= MAX_TOKEN_CACHE && x in cache && x.token != e.token
    ensures x !in CacheSet(cache, e) <==> !Has(cache, e.token) && |cache| == MAX_TOKEN_CACHE && x == cache[0]
  {
    var without := Remove(cache, e.token);
    RemoveHas(cache, e.token, x);
    if Has(cache, e.token) {
      RemovePresent(cache, e.token);
    } else {
      RemoveAbsent(cache, e.token);
      NotTheFirst(cache, x);
    }
  }

  lemma NotTheFirst(cache: seq<Entry>, x: Entry)
    requires Distinct(cache) && x in cache
    ensures x in cache[1..] <==> x != cache[0]
  {}

  // ----- hits -----

  /** The entry a lookup uses, if it has not expired. */
  function Lookup(cache: seq<Entry>, token: string, now: nat): Option<Entry> {
    if cache == [] then None
    else if cache[|cache| - 1].token == token then
      if cache[|cache| - 1].expiresAt > now then Some(cache[|cache| - 1]) else None
    else Lookup(cache[..|cache| - 1], token, now)
  }

  lemma {:induction false} LookupIsIn(cache: seq<Entry>, token: string, now: nat)
    ensures var hit := Lookup(cache, token, now);
            hit.Some? ==> hit.value in cache && hit.value.token == token && hit.value.expiresAt > now
  {
    if cache != [] {
      LookupIsIn(cache[..|cache| - 1], token, now);
    }
  }

  /** A verification that reached the cache: who asked, what the server said, and when it was stored. */
  datatype Verification = Verification(token: string, reply: Reply, at: nat)

  /** The entries these verifications stored. */
  function StoresOf(vs: seq<Verification>): seq<Entry> {
    if vs == [] then []
    else
      var v := vs[|vs| - 1];
      StoresOf(vs[..|vs| - 1]) + if IsCached(v.reply) then [EntryFor(v.token, v.reply, v.at)] else []
  }

  lemma SetAddsOne(cache: seq<Entry>, e: Entry, x: Entry)
    requires x in CacheSet(cache, e)
    ensures x == e || x in cache
  {
    RemoveHas(cache, e.token, x);
  }

  lemma {:induction false} EntriesAreStored(stores: seq<Entry>, e: Entry)
    requires e in CacheAfter(stores)
    ensures e in stores
  {
    hide CacheSet;
    var last := |stores| - 1;
    SetAddsOne(CacheAfter(stores[..last]), stores[last], e);
    if e != stores[last] {
      EntriesAreStored(stores[..last], e);
    }
  }

  lemma {:induction false} StoresAreVerified(vs: seq<Verification>, e: Entry) returns (v: Verification)
    requires e in StoresOf(vs)
    ensures v in vs && IsCached(v.reply) && e == EntryFor(v.token, v.reply, v.at)
  {
    var last := |vs| - 1;
    if IsCached(vs[last].reply) && e == EntryFor(vs[last].token, vs[last].reply, vs[last].at) {
      v := vs[last];
    } else {
      v := StoresAreVerified(vs[..last], e);
    }
  }

  function Verdict(e: Entry): Outcome {
    if e.user.Some? then User(e.user.value) else Invalid
  }

  /** A hit repeats a real verification of that token, within 60 s of a good answer or 30 s of a bad one. */
  lemma HitIsAVerification(vs: seq<Verification>, token: string, now: nat) returns (v: Verification)
    requires Lookup(CacheAfter(StoresOf(vs)), token, now).Some?
    ensures v in vs && v.token == token && Verdict(Lookup(CacheAfter(StoresOf(vs)), token, now).value) == OutcomeOf(v.reply)
    ensures !OutcomeOf(v.reply).Unavailable?
    ensures now < v.at + if v.reply.Verified? then TOKEN_CACHE_TTL_MS else NEG_TOKEN_CACHE_TTL_MS
  {
    var cache := CacheAfter(StoresOf(vs));
    LookupIsIn(cache, token, now);
    EntriesAreStored(StoresOf(vs), Lookup(cache, token, now).value);
    v := StoresAreVerified(vs, Lookup(cache, token, now).value);
  }

  // ----- exactly when there is a hit -----

  function Lifetime(r: Reply): nat {
    if r.Verified? then TOKEN_CACHE_TTL_MS else NEG_TOKEN_CACHE_TTL_MS
  }

  /** The last verification of the token that got an answer. */
  function LastAnswered(vs: seq<Verification>, token: string): Option<Verification> {
    if vs == [] then None
    else if vs[|vs| - 1].token == token && IsCached(vs[|vs| - 1].reply) then Some(vs[|vs| - 1])
    else LastAnswered(vs[..|vs| - 1], token)
  }

  /** Not pushed out: fewer than a thousand other tokens have had an answer since. */
  predicate StillHeld(vs: seq<Verification>, v: Verification)
    requires IsCached(v.reply)
  {
    EntryFor(v.token, v.reply, v.at) in LastOnes(AllAfter(StoresOf(vs)))
  }

  lemma {:induction false} LastAnsweredIsCached(vs: seq<Verification>, token: string)
    ensures var v := LastAnswered(vs, token); v.Some? ==> v.value in vs && v.value.token == token && IsCached(v.value.reply)
  {
    if vs != [] {
      LastAnsweredIsCached(vs[..|vs| - 1], token);
    }
  }

  /** The answer to repeat at `now`: the last one, while it lives and is held. */
  predicate Repeats(vs: seq<Verification>, token: string, now: nat) {
    var v := LastAnswered(vs, token);
    v.Some? && (LastAnsweredIsCached(vs, token); now < v.value.at + Lifetime(v.value.reply) && StillHeld(vs, v.value))
  }

  /** Without a bound, a token's entry is that of its last answer. */
  lemma {:induction false} AllHoldsLastAnswers(vs: seq<Verification>, token: string, e: Entry)
    requires e.token == token
    ensures e in AllAfter(StoresOf(vs)) <==>
            LastAnswered(vs, token).Some? && IsCached(LastAnswered(vs, token).value.reply)
            && e == EntryFor(token, LastAnswered(vs, token).value.reply, LastAnswered(vs, token).value.at)
  {
    hide AllAfter, Remove;
    NothingStored(e);
    if vs != [] {
      var v, before := vs[|vs| - 1], vs[..|vs| - 1];
      AllHoldsLastAnswers(before, token, e);
      if IsCached(v.reply) {
        var stored := EntryFor(v.token, v.reply, v.at);
        AllStored(StoresOf(before), stored, e);
      } else {
        assert StoresOf(before) + [] == StoresOf(before);
      }
    }
  }

  lemma NothingStored(e: Entry)
    ensures e !in AllAfter([])
  {}

  lemma AllStored(stores: seq<Entry>, e: Entry, x: Entry)
    ensures x in AllAfter(stores + [e]) <==> x == e || (x in AllAfter(stores) && x.token != e.token)
  {
    assert (stores + [e])[..|stores|] == stores;
    RemoveHas(AllAfter(stores), e.token, x);
  }

  lemma {:induction false} LookupExactlyWhen(cache: seq<Entry>, token: string, now: nat, e: Entry)
    requires Distinct(cache)
    ensures Lookup(cache, token, now) == Some(e) <==> e in cache && e.token == token && e.expiresAt > now
  {
    if cache != [] {
      var last := |cache| - 1;
      assert cache == cache[..last] + [cache[last]];
      LookupExactlyWhen(cache[..last], token, now, e);
    }
  }

  lemma CacheIsDistinct(stores: seq<Entry>)
    ensures Distinct(CacheAfter(stores))
  {
    AllAreDistinct(stores);
    CacheIsLastOnes(stores);
  }

  lemma LastOnesAreAmong(entries: seq<Entry>, e: Entry)
    requires e in LastOnes(entries)
    ensures e in entries
  {}

  /** A lookup finds an entry exactly when there is an answer to repeat, and finds that one. */
  lemma HitExactlyWhen(vs: seq<Verification>, token: string, now: nat)
    ensures var hit := Lookup(CacheAfter(StoresOf(vs)), token, now);
            && (hit.Some? <==> Repeats(vs, token, now))
            && (hit.Some? ==> Verdict(hit.value) == OutcomeOf(LastAnswered(vs, token).value.reply))
  {
    hide CacheAfter, AllAfter, StoresOf, LastOnes, Lookup;
    var stores := StoresOf(vs);
    var hit, v := Lookup(CacheAfter(stores), token, now), LastAnswered(vs, token);
    CacheIsDistinct(stores);
    CacheIsLastOnes(stores);
    LastAnsweredIsCached(vs, token);
    if hit.Some? {
      LookupExactlyWhen(CacheAfter(stores), token, now, hit.value);
      LastOnesAreAmong(AllAfter(stores), hit.value);
      AllHoldsLastAnswers(vs, token, hit.value);
    }
    if Repeats(vs, token, now) {
      LookupExactlyWhen(CacheAfter(stores), token, now, EntryFor(token, v.value.reply, v.value.at));
    }
  }

  // ----- the module's map -----

  class Cache {
    var entries: seq<Entry>
    /** The verifications that have come back, cached or not. */
    ghost var verified: seq<Verification>

    ghost predicate Valid()
      reads this
    {
      entries == CacheAfter(StoresOf(verified))
    }

    constructor ()
      ensures Valid() && verified == []
    {
      entries, verified := [], [];
    }

    method Delete(token: string)
      modifies this`entries
      ensures entries == Remove(old(entries), token)
    {
      var kept: seq<Entry> := [];
      for i := 0 to |entries|
        invariant entries == old(entries) && kept == Remove(entries[..i], token)
      {
        assert entries[..i + 1][..i] == entries[..i];
        if entries[i].token != token {
          kept := kept + [entries[i]];
        }
      }
      assert entries[..|entries|] == entries;
      entries := kept;
    }

    method Set(token: string, user: Option<string>, expiresAt: nat)
      modifies this`entries
      ensures entries == CacheSet(old(entries), Entry(token, user, expiresAt))
    {
      Delete(token);
      if |entries| >= MAX_TOKEN_CACHE {
        entries := entries[1..];
      }
      entries := entries + [Entry(token, user, expiresAt)];
    }

    /**
     The first half of a verification. A hit repeats the token's last answer, exactly while
     that lives and has not been pushed out.
     */
    method Ask(token: string, now: nat) returns (hit: Option<Outcome>)
      requires Valid()
      ensures Valid()
      ensures hit.Some? <==> Repeats(verified, token, now)
      ensures hit.Some? ==> hit.value == OutcomeOf(LastAnswered(verified, token).value.reply)
    {
      HitExactlyWhen(verified, token, now);
      var cached := Lookup(entries, token, now);
      hit := if cached.None? then None
             else Some(if cached.value.user.Some? then User(cached.value.user.value) else Invalid);
    }

    /** The second half: the server's reply, some time later, other verifications in between. */
    method Conclude(token: string, reply: Reply, now: nat) returns (outcome: Outcome)
      requires Valid()
      modifies this
      ensures Valid() && outcome == OutcomeOf(reply) && verified == old(verified) + [Verification(token, reply, now)]
    {
      hide CacheSet, CacheAfter, StoresOf, Remove;
      ghost var before := verified;
      verified := verified + [Verification(token, reply, now)];
      ConcludedCache(before, Verification(token, reply, now));
      match reply
      case Threw => outcome := Unavailable;
      case NoUser => outcome := Invalid;
      case Failed(status, retryable) =>
        if retryable || status.None? || status.value == 429 || status.value >= 500 {
          return Unavailable;
        }
        Set(token, None, now + NEG_TOKEN_CACHE_TTL_MS);
        outcome := Invalid;
      case Verified(user) =>
        Set(token, Some(user), now + TOKEN_CACHE_TTL_MS);
        outcome := User(user);
    }
  }

  /** What one more verification does to the cache. */
  lemma ConcludedCache(vs: seq<Verification>, v: Verification)
    ensures CacheAfter(StoresOf(vs + [v])) ==
            if IsCached(v.reply) then CacheSet(CacheAfter(StoresOf(vs)), EntryFor(v.token, v.reply, v.at))
            else CacheAfter(StoresOf(vs))
  {
    hide CacheSet;
    assert (vs + [v])[..|vs|] == vs;
    if IsCached(v.reply) {
      var stores := StoresOf(vs) + [EntryFor(v.token, v.reply, v.at)];
      assert stores[..|stores| - 1] == StoresOf(vs);
    } else {
      assert StoresOf(vs) + [] == StoresOf(vs);
    }
  }
}
