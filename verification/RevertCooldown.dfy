/**
 The process-local revert cooldown: a map swept only when it is large, against the map that
 is never swept. Times are in milliseconds.
 */
module RevertCooldown {
  const COOLDOWN_MS: nat := 2000
  const MAX_KEYS: nat := 10_000

  datatype Call = Call(doc: string, at: nat)

  predicate InOrder(calls: seq<Call>) {
    forall i, j | 0 <= i <= j < |calls| :: calls[i].at <= calls[j].at
  }

  predicate Cooling(last: map<string, nat>, c: Call) {
    c.doc in last && c.at - last[c.doc] < COOLDOWN_MS
  }

  // ----- the map that is never swept -----

  /** When each document was last allowed a revert. */
  function LastAllowed(calls: seq<Call>): map<string, nat> {
    if calls == [] then map[]
    else
      var before := LastAllowed(calls[..|calls| - 1]);
      var c := calls[|calls| - 1];
      if Cooling(before, c) then before else before[c.doc := c.at]
  }

  /** The verdict a map without bounds gives on the i-th call. */
  predicate AllowedAt(calls: seq<Call>, i: nat)
    requires i < |calls|
  {
    !Cooling(LastAllowed(calls[..i]), calls[i])
  }

  // ----- the map that is -----

  function Swept(last: map<string, nat>, now: nat): map<string, nat> {
    map doc | doc in last && now - last[doc] < COOLDOWN_MS :: last[doc]
  }

  /** Which documents were allowed a revert within the cooldown before `now`. */
  function Recent(last: map<string, nat>, now: nat): set<string> {
    set doc | doc in last && now - last[doc] < COOLDOWN_MS
  }

  /** The kept entries are right, and every entry dropped has expired. */
  predicate Agrees(kept: map<string, nat>, all: map<string, nat>, now: nat) {
    && (forall doc | doc in kept :: doc in all && kept[doc] == all[doc])
    && (forall doc | doc in all && doc !in kept :: now - all[doc] >= COOLDOWN_MS)
  }

  class Cooldown {
    var lastRevertAt: map<string, nat>
    /** Every call so far. */
    ghost var calls: seq<Call>

    ghost predicate Valid()
      reads this
    {
      && InOrder(calls)
      && Agrees(lastRevertAt, LastAllowed(calls), if calls == [] then 0 else calls[|calls| - 1].at)
    }

    constructor ()
      ensures Valid() && calls == [] && lastRevertAt == map[]
    {
      lastRevertAt, calls := map[], [];
    }

    method Sweep(now: nat)
      modifies this`lastRevertAt
      ensures lastRevertAt == Swept(old(lastRevertAt), now)
    {
      var keys := lastRevertAt.Keys;
      var entries := lastRevertAt;
      while keys != {}
        invariant keys <= entries.Keys
        invariant forall doc :: doc in lastRevertAt <==> doc in entries && (doc in keys || now - entries[doc] < COOLDOWN_MS)
        invariant forall doc | doc in lastRevertAt :: lastRevertAt[doc] == entries[doc]
        decreases |keys|
      {
        var key :| key in keys;
        if now - entries[key] >= COOLDOWN_MS {
          lastRevertAt := lastRevertAt - {key};
        }
        keys := keys - {key};
      }
    }

    /** Same verdict as the map that is never swept, and the size stays bounded. */
    method LocalCoolingDown(doc: string, now: nat) returns (cooling: bool)
      requires Valid() && (calls != [] ==> calls[|calls| - 1].at <= now)
      modifies this
      ensures Valid() && calls == old(calls) + [Call(doc, now)]
      ensures cooling <==> !AllowedAt(calls, |old(calls)|)
      ensures cooling ==> lastRevertAt == old(lastRevertAt)
      ensures !cooling ==> |lastRevertAt| <= MAX_KEYS || |lastRevertAt| <= |Recent(LastAllowed(calls), now)|
    {
      hide Recent;
      ghost var c, before := Call(doc, now), calls;
      calls := calls + [c];
      assert calls[..|before|] == before;
      if doc in lastRevertAt && now - lastRevertAt[doc] < COOLDOWN_MS {
        return true;
      }
      if |lastRevertAt| >= MAX_KEYS {
        Sweep(now);
        InsertIsBounded(lastRevertAt, LastAllowed(before), doc, now);
      } else {
        OneMoreKey(lastRevertAt, doc, now);
      }
      lastRevertAt := lastRevertAt[doc := now];
      cooling := false;
    }
  }

  lemma OneMoreKey(m: map<string, nat>, doc: string, now: nat)
    ensures |m[doc := now]| <= |m| + 1
  {}

  lemma InsertIsBounded(swept: map<string, nat>, all: map<string, nat>, doc: string, now: nat)
    requires forall d | d in swept :: d in all && swept[d] == all[d] && now - all[d] < COOLDOWN_MS
    ensures |swept[doc := now]| <= |Recent(all[doc := now], now)|
  {
    var keys := swept[doc := now].Keys;
    assert keys <= Recent(all[doc := now], now);
    SmallerSet(keys, Recent(all[doc := now], now));
  }

  lemma {:induction false} SmallerSet<T>(a: set<T>, b: set<T>)
    requires a <= b
    ensures |a| <= |b|
  {
    if a != {} {
      var x :| x in a;
      SmallerSet(a - {x}, b - {x});
    }
  }

  // ----- spacing -----

  lemma {:induction false} LastAllowedIsLatest(calls: seq<Call>, i: nat)
    requires InOrder(calls) && i < |calls| && AllowedAt(calls, i)
    ensures calls[i].doc in LastAllowed(calls) && LastAllowed(calls)[calls[i].doc] >= calls[i].at
    decreases |calls|
  {
    var last := |calls| - 1;
    if i < last {
      assert calls[..last][..i] == calls[..i];
      LastAllowedIsLatest(calls[..last], i);
      assert calls[i].at <= calls[last].at;
    }
  }

  /** Two reverts of one document that are both allowed are at least the cooldown apart. */
  lemma AllowedRevertsAreSpaced(calls: seq<Call>, i: nat, j: nat)
    requires InOrder(calls) && i < j < |calls| && calls[i].doc == calls[j].doc
    requires AllowedAt(calls, i) && AllowedAt(calls, j)
    ensures calls[j].at - calls[i].at >= COOLDOWN_MS
  {
    assert calls[..j][..i] == calls[..i];
    LastAllowedIsLatest(calls[..j], i);
  }

  lemma {:induction false} LastAllowedWasAllowed(calls: seq<Call>, doc: string) returns (i: nat)
    requires doc in LastAllowed(calls)
    ensures i < |calls| && calls[i].doc == doc && AllowedAt(calls, i) && calls[i].at == LastAllowed(calls)[doc]
  {
    var last := |calls| - 1;
    if calls[last].doc == doc && AllowedAt(calls, last) {
      i := last;
    } else {
      i := LastAllowedWasAllowed(calls[..last], doc);
      assert calls[..last][..i] == calls[..i];
    }
  }

  /** A revert is refused exactly when one of that document was allowed less than the cooldown before. */
  lemma RefusedExactlyWhen(calls: seq<Call>, j: nat)
    requires InOrder(calls) && j < |calls|
    ensures !AllowedAt(calls, j) <==>
            exists i: nat ::
              i < j && calls[i].doc == calls[j].doc && AllowedAt(calls, i) && calls[j].at - calls[i].at < COOLDOWN_MS
  {
    if !AllowedAt(calls, j) {
      var i := LastAllowedWasAllowed(calls[..j], calls[j].doc);
      assert calls[..j][..i] == calls[..i];
      assert AllowedAt(calls, i);
    } else {
      forall i: nat | i < j && calls[i].doc == calls[j].doc && AllowedAt(calls, i)
        ensures calls[j].at - calls[i].at >= COOLDOWN_MS
      {
        AllowedRevertsAreSpaced(calls, i, j);
      }
    }
  }
}
