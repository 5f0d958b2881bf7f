/**
 The expiring lease that spreads the retention pass over a fleet, and the arithmetic of its
 lifetime. Times are in milliseconds; a key set at `t` is gone from `t` plus its lifetime on.
 */
module RetentionLease {
  import opened Prelude

  datatype Outcome = Ran | Skipped | RanUnleased

  /** One call of the leased pass. `redisFails` is the acquire throwing. */
  datatype Attempt = Attempt(at: nat, replica: nat, redisFails: bool)

  datatype Holder = Holder(since: nat, replica: nat)

  predicate Held(key: Option<Holder>, ttl: nat, now: nat) {
    key.Some? && now < key.value.since + ttl
  }

  function OutcomeOf(key: Option<Holder>, ttl: nat, a: Attempt): Outcome {
    if a.redisFails then RanUnleased else if Held(key, ttl, a.at) then Skipped else Ran
  }

  /** The shared key, last set by whom and when, after these attempts of the whole fleet. */
  function KeyAfter(attempts: seq<Attempt>, ttl: nat): Option<Holder> {
    if attempts == [] then None
    else
      var last := |attempts| - 1;
      var key := KeyAfter(attempts[..last], ttl);
      if OutcomeOf(key, ttl, attempts[last]).Ran? then Some(Holder(attempts[last].at, attempts[last].replica)) else key
  }

  /** When the leased passes started. */
  function Passes(attempts: seq<Attempt>, ttl: nat): seq<nat> {
    if attempts == [] then []
    else
      var last := |attempts| - 1;
      Passes(attempts[..last], ttl) +
      if OutcomeOf(KeyAfter(attempts[..last], ttl), ttl, attempts[last]).Ran? then [attempts[last].at] else []
  }

  predicate InOrder(attempts: seq<Attempt>) {
    forall i, j | 0 <= i <= j < |attempts| :: attempts[i].at <= attempts[j].at
  }

  class RedisKey {
    var key: Option<Holder>

    constructor ()
      ensures key == None
    {
      key := None;
    }

    /** `SET key … EX ttl NX`. */
    method SetIfAbsent(now: nat, replica: nat, ttl: nat) returns (ok: bool)
      modifies this
      ensures ok <==> !Held(old(key), ttl, now)
      ensures key == if ok then Some(Holder(now, replica)) else old(key)
    {
      ok := key.None? || now >= key.value.since + ttl;
      if ok {
        key := Some(Holder(now, replica));
      }
    }

    /** `past` are the attempts the fleet has made so far; this is the next. */
    method WithRedisLease(ghost past: seq<Attempt>, a: Attempt, ttl: nat) returns (outcome: Outcome)
      requires key == KeyAfter(past, ttl)
      modifies this
      ensures outcome == OutcomeOf(old(key), ttl, a)
      ensures key == KeyAfter(past + [a], ttl)
      ensures Passes(past + [a], ttl) == Passes(past, ttl) + if outcome.Ran? then [a.at] else []
    {
      assert (past + [a])[..|past|] == past;
      if a.redisFails {
        return RanUnleased;
      }
      var acquired := SetIfAbsent(a.at, a.replica, ttl);
      outcome := if acquired then Ran else Skipped;
    }
  }

  // ----- passes are a lifetime apart -----

  predicate Spaced(ps: seq<nat>, ttl: nat) {
    forall i | 0 < i < |ps| :: ps[i - 1] + ttl <= ps[i]
  }

  lemma {:induction false} PassesAreSpaced(attempts: seq<Attempt>, ttl: nat)
    ensures Spaced(Passes(attempts, ttl), ttl)
    ensures KeyAfter(attempts, ttl).Some? <==> Passes(attempts, ttl) != []
    ensures KeyAfter(attempts, ttl).Some? ==>
              KeyAfter(attempts, ttl).value.since == Passes(attempts, ttl)[|Passes(attempts, ttl)| - 1]
  {
    if attempts != [] {
      PassesAreSpaced(attempts[..|attempts| - 1], ttl);
    }
  }

  /** Passes that last no longer than the lease never run side by side. */
  lemma {:induction false} ShortPassesNeverOverlap(attempts: seq<Attempt>, ttl: nat, lasts: nat, i: nat, j: nat)
    requires i < j < |Passes(attempts, ttl)| && lasts <= ttl
    ensures Passes(attempts, ttl)[i] + lasts <= Passes(attempts, ttl)[j]
    decreases j
  {
    PassesAreSpaced(attempts, ttl);
    if j > i + 1 {
      ShortPassesNeverOverlap(attempts, ttl, lasts, i, j - 1);
    }
  }

  /**
   A pass runs unleased exactly when the lease cannot be asked for; otherwise it runs exactly
   when every leased pass before it started a lifetime ago or more.
   */
  lemma OutcomeExactlyWhen(attempts: seq<Attempt>, ttl: nat, a: Attempt)
    ensures var outcome := OutcomeOf(KeyAfter(attempts, ttl), ttl, a);
            && (outcome == RanUnleased <==> a.redisFails)
            && (outcome == Ran <==> !a.redisFails && forall p | p in Passes(attempts, ttl) :: p + ttl <= a.at)
  {
    PassesAreSpaced(attempts, ttl);
    var ps := Passes(attempts, ttl);
    if ps != [] {
      assert ps[|ps| - 1] in ps;
      forall p | p in ps ensures p <= ps[|ps| - 1] {
        var i :| 0 <= i < |ps| && ps[i] == p;
        LastIsLatest(ps, ttl, i);
      }
    }
  }

  lemma {:induction false} LastIsLatest(ps: seq<nat>, ttl: nat, i: nat)
    requires Spaced(ps, ttl) && i < |ps|
    ensures ps[i] <= ps[|ps| - 1]
    decreases |ps| - i
  {
    if i + 1 < |ps| {
      LastIsLatest(ps, ttl, i + 1);
    }
  }

  // ----- how many fit in a window -----

  /** How many of `ps` lie in the half-open window of length `w` from `a`. */
  function InWindow(ps: seq<nat>, a: nat, w: nat): nat {
    if ps == [] then 0
    else InWindow(ps[..|ps| - 1], a, w) + if a <= ps[|ps| - 1] < a + w then 1 else 0
  }

  function Ceil(w: nat, ttl: nat): nat
    requires ttl > 0
  {
    (w + ttl - 1) / ttl
  }

  lemma {:induction false} NextIsBeyond(ps: seq<nat>, ttl: nat, a: nat, w: nat, p: nat)
    requires Spaced(ps, ttl) && a <= p && (ps != [] ==> ps[|ps| - 1] + ttl <= p)
    ensures a + InWindow(ps, a, w) * ttl <= p
  {
    if ps != [] {
      var last := |ps| - 1;
      if a <= ps[last] < a + w {
        NextIsBeyond(ps[..last], ttl, a, w, ps[last]);
        OneMore(InWindow(ps[..last], a, w), ttl);
      } else {
        NextIsBeyond(ps[..last], ttl, a, w, p);
      }
    }
  }

  lemma OneMore(k: nat, ttl: nat)
    ensures (k + 1) * ttl == k * ttl + ttl
  {}

  lemma {:induction false} WindowHolds(ps: seq<nat>, ttl: nat, a: nat, w: nat)
    requires Spaced(ps, ttl) && InWindow(ps, a, w) > 0
    ensures (InWindow(ps, a, w) - 1) * ttl < w
  {
    var last := |ps| - 1;
    if a <= ps[last] < a + w {
      NextIsBeyond(ps[..last], ttl, a, w, ps[last]);
    } else {
      WindowHolds(ps[..last], ttl, a, w);
    }
  }

  lemma CeilIsLeast(k: nat, w: nat, ttl: nat)
    requires ttl > 0
    ensures k <= Ceil(w, ttl) <==> k == 0 || (k - 1) * ttl < w
  {
    var q, r := (w + ttl - 1) / ttl, (w + ttl - 1) % ttl;
    assert w + ttl - 1 == q * ttl + r;
    if k > 0 {
      OneMore(k - 1, ttl);
      if k <= q {
        Scaled(k, q, ttl);
      } else {
        Scaled(q + 1, k, ttl);
        OneMore(q, ttl);
      }
    }
  }

  lemma Scaled(a: nat, b: nat, ttl: nat)
    requires a <= b
    ensures a * ttl <= b * ttl
  {}

  /** No window holds more passes than lifetimes it takes to cover it. */
  lemma AtMostCeil(attempts: seq<Attempt>, ttl: nat, a: nat, w: nat)
    requires ttl > 0
    ensures InWindow(Passes(attempts, ttl), a, w) <= Ceil(w, ttl)
  {
    PassesAreSpaced(attempts, ttl);
    CeilIsLeast(InWindow(Passes(attempts, ttl), a, w), w, ttl);
    if InWindow(Passes(attempts, ttl), a, w) > 0 {
      WindowHolds(Passes(attempts, ttl), ttl, a, w);
    }
  }

  // ----- and a fleet that reaches the bound -----

  /** Replica after replica, each attempting the moment the last lease ends. */
  function Eager(n: nat, ttl: nat): (attempts: seq<Attempt>)
    ensures |attempts| == n
  {
    seq(n, i requires 0 <= i < n => Attempt(i * ttl, i, false))
  }

  lemma {:induction false} EagerAllRun(n: nat, ttl: nat, w: nat)
    requires n == 0 || (n - 1) * ttl < w
    ensures InOrder(Eager(n, ttl)) && InWindow(Passes(Eager(n, ttl), ttl), 0, w) == n
    ensures n > 0 ==> KeyAfter(Eager(n, ttl), ttl) == Some(Holder((n - 1) * ttl, n - 1))
  {
    forall i, j | 0 <= i <= j < n ensures i * ttl <= j * ttl {
      Scaled(i, j, ttl);
    }
    if n > 0 {
      assert Eager(n, ttl)[..n - 1] == Eager(n - 1, ttl);
      if n > 1 {
        OneMore(n - 2, ttl);
      }
      EagerAllRun(n - 1, ttl, w);
      var before := Passes(Eager(n - 1, ttl), ttl);
      assert (before + [(n - 1) * ttl])[..|before|] == before;
    }
  }

  // ----- the lifetime chosen for an interval -----

  /** `Math.max(1, Math.floor(interval / 2000))` seconds. */
  function TtlMs(interval: nat): (ttl: nat)
    ensures ttl > 0
  {
    1000 * (if interval / 2000 < 1 then 1 else interval / 2000)
  }

  /** No run of the fleet starts more than `n` leased passes within any one interval. */
  ghost predicate NeverMoreThan(n: nat, interval: nat) {
    forall attempts: seq<Attempt>, a: nat | InOrder(attempts) ::
      InWindow(Passes(attempts, TtlMs(interval)), a, interval) <= n
  }

  lemma BoundIsExact(n: nat, interval: nat)
    ensures NeverMoreThan(n, interval) <==> Ceil(interval, TtlMs(interval)) <= n
  {
    var ttl := TtlMs(interval);
    var most := Ceil(interval, ttl);
    CeilIsLeast(most, interval, ttl);
    EagerAllRun(most, ttl, interval);
    if most <= n {
      forall attempts: seq<Attempt>, a: nat | InOrder(attempts)
        ensures InWindow(Passes(attempts, ttl), a, interval) <= n
      {
        AtMostCeil(attempts, ttl, a, interval);
      }
    } else {
      assert InOrder(Eager(most, ttl)) && InWindow(Passes(Eager(most, ttl), ttl), 0, interval) > n;
    }
  }

  lemma TwoExactlyWhen(interval: nat)
    ensures Ceil(interval, TtlMs(interval)) <= 2 <==> interval < 2000 || interval % 2000 == 0
  {
    var q := interval / 2000;
    CeilIsLeast(3, interval, TtlMs(interval));
    assert interval == 2000 * q + interval % 2000;
  }

  /** The cap of two holds exactly for these intervals. */
  lemma TwoPassesPerInterval(interval: nat)
    ensures NeverMoreThan(2, interval) <==> interval < 2000 || interval % 2000 == 0
  {
    BoundIsExact(2, interval);
    TwoExactlyWhen(interval);
  }

  /** Four always suffice, and 3,999 ms needs four. */
  lemma FourAreEnough(interval: nat)
    ensures NeverMoreThan(4, interval) && !NeverMoreThan(3, 3999)
  {
    BoundIsExact(4, interval);
    BoundIsExact(3, 3999);
    CeilIsLeast(Ceil(interval, TtlMs(interval)), interval, TtlMs(interval));
    FiveTooMany(interval);
    CeilIsLeast(4, 3999, TtlMs(3999));
  }

  lemma FiveTooMany(interval: nat)
    ensures Ceil(interval, TtlMs(interval)) <= 4
  {
    var q := interval / 2000;
    CeilIsLeast(5, interval, TtlMs(interval));
    assert interval == 2000 * q + interval % 2000;
  }

  /** Every replica lets an interval pass between its attempts. */
  predicate Paced(attempts: seq<Attempt>, interval: nat) {
    && InOrder(attempts)
    && forall i, j | 0 <= i < j < |attempts| && attempts[i].replica == attempts[j].replica ::
         attempts[i].at + interval <= attempts[j].at
  }

  predicate BlockedByItself(attempts: seq<Attempt>, a: Attempt, ttl: nat) {
    OutcomeOf(KeyAfter(attempts, ttl), ttl, a).Skipped? && KeyAfter(attempts, ttl).value.replica == a.replica
  }

  /** Whoever holds the key is one of the attempts. */
  lemma {:induction false} HolderAttempted(attempts: seq<Attempt>, ttl: nat)
    requires KeyAfter(attempts, ttl).Some?
    ensures var h := KeyAfter(attempts, ttl).value;
            exists i :: 0 <= i < |attempts| && attempts[i].at == h.since && attempts[i].replica == h.replica
  {
    var last := |attempts| - 1;
    var key := KeyAfter(attempts[..last], ttl);
    if OutcomeOf(key, ttl, attempts[last]).Ran? {
      assert attempts[last].at == KeyAfter(attempts, ttl).value.since;
    } else {
      HolderAttempted(attempts[..last], ttl);
      var i :| 0 <= i < last && attempts[..last][i].at == key.value.since && attempts[..last][i].replica == key.value.replica;
      assert attempts[i] == attempts[..last][i];
    }
  }

  /** A tick that is skipped was beaten by another replica, for an interval of at least a second. */
  lemma SkippedByAnother(attempts: seq<Attempt>, a: Attempt, interval: nat)
    requires interval >= 1000
    requires forall i | 0 <= i < |attempts| && attempts[i].replica == a.replica :: attempts[i].at + interval <= a.at
    requires OutcomeOf(KeyAfter(attempts, TtlMs(interval)), TtlMs(interval), a).Skipped?
    ensures KeyAfter(attempts, TtlMs(interval)).value.replica != a.replica
  {
    var h := KeyAfter(attempts, TtlMs(interval)).value;
    HolderAttempted(attempts, TtlMs(interval));
    assert TtlMs(interval) <= interval;
  }

  /** In some run a replica's tick finds its own last lease still held, exactly when the interval is under a second. */
  lemma OwnLeaseBlocksExactlyWhen(interval: nat)
    ensures (exists attempts: seq<Attempt>, a: Attempt ::
               Paced(attempts + [a], interval) && BlockedByItself(attempts, a, TtlMs(interval)))
            <==> interval < 1000
  {
    if interval < 1000 {
      var first, a := Attempt(0, 0, false), Attempt(interval, 0, false);
      assert [first] + [a] == [first, a] && [first][..0] == [];
      assert KeyAfter([first], 1000) == Some(Holder(0, 0));
      assert Paced([first] + [a], interval) && BlockedByItself([first], a, TtlMs(interval));
    } else {
      forall attempts: seq<Attempt>, a: Attempt | Paced(attempts + [a], interval)
        ensures !BlockedByItself(attempts, a, TtlMs(interval))
      {
        if BlockedByItself(attempts, a, TtlMs(interval)) {
          var all := attempts + [a];
          assert forall i | 0 <= i < |attempts| :: all[i] == attempts[i] && all[|attempts|] == a;
          SkippedByAnother(attempts, a, interval);
          assert false;
        }
      }
    }
  }
}
