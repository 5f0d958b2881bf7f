/**
 Yjs document updates, reduced to what a stored version row depends on: which items
 an update carries, what each still holds, and which items are deleted.
 */
module YjsUpdate {

  /** A client numbers its own items, so an id is never reused for other content. */
  datatype Id = Id(client: nat, clock: nat)

  /** `Entry` is one write to the shared `metadata` map; `Tombstone` is a collected item. */
  datatype Content = Prose(text: string) | Entry(key: string, value: string) | Tombstone

  datatype Update = Update(items: map<Id, Content>, deletes: set<Id>)

  const TRANSIENT_KEYS: set<string> := {"commitMessage", "isDraft"}

  /** `Y.mergeUpdates([older, newer])`: the older side's content wins, delete sets union. */
  function Merge(older: Update, newer: Update): Update {
    Update(newer.items + older.items, older.deletes + newer.deletes)
  }

  /** Decoding into a collecting document and encoding again: deleted content is dropped. */
  function Compact(u: Update): Update {
    Update(map id | id in u.items :: if id in u.deletes then Tombstone else u.items[id], u.deletes)
  }

  predicate IsTransient(c: Content) {
    c.Entry? && c.key in TRANSIENT_KEYS
  }

  /** Deletes the transient keys off the decoded document. */
  function Expunge(u: Update): Update {
    Update(u.items, u.deletes + set id | id in u.items && IsTransient(u.items[id]))
  }

  function StripSnapshotMetadata(u: Update): Update {
    Compact(Expunge(u))
  }

  /** What a reader of the update sees. */
  function Visible(u: Update): map<Id, Content> {
    map id | id in u.items && id !in u.deletes && u.items[id] != Tombstone :: u.items[id]
  }

  /** Deleted items that still hold prose: what a dump of the row would disclose. */
  function Ghosts(u: Update): set<Id> {
    set id | id in u.items && id in u.deletes && u.items[id].Prose?
  }

  /** Items that still hold content, deleted or not. */
  function Live(u: Update): set<Id> {
    set id | id in u.items && u.items[id] != Tombstone
  }

  /** `u` knows every item and every deletion that `v` knows. */
  predicate Covers(u: Update, v: Update) {
    v.items.Keys <= u.items.Keys && v.deletes <= u.deletes
  }

  /** An update real clients could have produced, `origin` saying what each item was created with. */
  predicate Authentic(u: Update, origin: Id -> Content) {
    forall id | id in u.items ::
      && (u.items[id] == Tombstone ==> id in u.deletes)
      && (u.items[id] != Tombstone ==> u.items[id] == origin(id))
  }

  // ----- merging is a join -----

  /** The merge knows what both sides know, and nothing beyond that. */
  lemma MergeIsJoin(older: Update, newer: Update, upper: Update)
    ensures Covers(Merge(older, newer), older) && Covers(Merge(older, newer), newer)
    ensures Covers(upper, older) && Covers(upper, newer) <==> Covers(upper, Merge(older, newer))
  {}

  lemma MergeKeepsAuthentic(older: Update, newer: Update, origin: Id -> Content)
    requires Authentic(older, origin) && Authentic(newer, origin)
    ensures Authentic(Merge(older, newer), origin)
  {}

  lemma CompactKeepsAuthentic(u: Update, origin: Id -> Content)
    requires Authentic(u, origin)
    ensures Authentic(Compact(u), origin)
  {}

  /** Readers cannot tell which side of a merge was the older one. */
  lemma MergeVisible(older: Update, newer: Update, origin: Id -> Content)
    requires Authentic(older, origin) && Authentic(newer, origin)
    ensures Visible(Merge(older, newer)).Keys
         == (Live(older) + Live(newer)) - older.deletes - newer.deletes
    ensures forall id | id in Visible(Merge(older, newer)) :: Visible(Merge(older, newer))[id] == origin(id)
    ensures Visible(Merge(older, newer)) == Visible(Merge(newer, older))
  {}

  // ----- compaction -----

  /** Compaction is invisible to readers, forgets nothing a merge needs, and clears every ghost. */
  lemma CompactIsSafe(u: Update)
    ensures Visible(Compact(u)) == Visible(u)
    ensures Covers(Compact(u), u) && Covers(u, Compact(u))
    ensures Ghosts(Compact(u)) == {}
    ensures Compact(Compact(u)) == Compact(u)
  {}

  /** Stripping forgets nothing a later merge needs, and leaves no ghost. */
  lemma StripCovers(u: Update)
    ensures Covers(StripSnapshotMetadata(u), u)
    ensures Ghosts(StripSnapshotMetadata(u)) == {}
  {}

  /** Stripping hides exactly the transient metadata, on top of what compaction does. */
  lemma StripIsSafe(u: Update, origin: Id -> Content)
    requires Authentic(u, origin)
    ensures Authentic(StripSnapshotMetadata(u), origin)
    ensures StripSnapshotMetadata(u).items.Keys == u.items.Keys
    ensures forall id :: id in Visible(StripSnapshotMetadata(u)) <==> id in Visible(u) && !IsTransient(origin(id))
    ensures StripSnapshotMetadata(StripSnapshotMetadata(u)) == StripSnapshotMetadata(u)
  {}

  /** What a reader sees of a stripped snapshot: all but the commit message and the draft flag. */
  lemma StripHidesExactly(u: Update, id: Id)
    ensures id in Visible(StripSnapshotMetadata(u)) <==>
            && id in Visible(u)
            && !(u.items[id].Entry? && (u.items[id].key == "commitMessage" || u.items[id].key == "isDraft"))
    ensures id in Visible(StripSnapshotMetadata(u)) ==> Visible(StripSnapshotMetadata(u))[id] == Visible(u)[id]
  {}

  /**
   The order the ledger must not use. A compacted side keeps live text that only the
   other side has deleted, so the merge brings back exactly these ghosts.
   */
  lemma StripBeforeMergeGhosts(older: Update, newer: Update)
    ensures Ghosts(Merge(Compact(older), Compact(newer)))
         == (set id | id in Visible(older) && id in newer.deletes && older.items[id].Prose?)
            + (set id | id !in older.items && id in Visible(newer) && id in older.deletes && newer.items[id].Prose?)
  {}

  /** A head still showing a word, and a room that has just deleted it. */
  lemma StripBeforeMergeLeaksDeletedText()
    ensures exists older: Update, newer: Update ::
              && Ghosts(Merge(StripSnapshotMetadata(older), StripSnapshotMetadata(newer))) != {}
              && Ghosts(StripSnapshotMetadata(Merge(older, newer))) == {}
  {
    var id := Id(1, 0);
    var older := Update(map[id := Prose("secret")], {});
    var newer := Update(map[id := Prose("secret")], {id});
    var strippedFirst := Merge(StripSnapshotMetadata(older), StripSnapshotMetadata(newer));
    assert id in Ghosts(strippedFirst);
    CompactIsSafe(Expunge(Merge(older, newer)));
  }

  // ----- a document's whole save history -----

  /** One append: merge raw with the head, then strip the result. */
  function Append(head: Update, state: Update): Update {
    StripSnapshotMetadata(Merge(head, state))
  }

  /** The row left by saving `states` in order onto an empty document. */
  function Stored(states: seq<Update>): Update
    requires |states| > 0
  {
    if |states| == 1 then StripSnapshotMetadata(states[0])
    else Append(Stored(states[..|states| - 1]), states[|states| - 1])
  }

  ghost predicate AllAuthentic(states: seq<Update>, origin: Id -> Content) {
    forall i | 0 <= i < |states| :: Authentic(states[i], origin)
  }

  ghost predicate HeldBySome(states: seq<Update>, id: Id) {
    exists i | 0 <= i < |states| :: id in Live(states[i])
  }

  ghost predicate DeletedBySome(states: seq<Update>, id: Id) {
    exists i | 0 <= i < |states| :: id in states[i].deletes
  }

  /** An appended row knows all that the head and the saved state knew, and holds no ghost. */
  lemma AppendCovers(head: Update, state: Update)
    ensures Covers(Append(head, state), head) && Covers(Append(head, state), state)
    ensures Ghosts(Append(head, state)) == {}
  {}

  lemma AppendIsSafe(head: Update, state: Update, origin: Id -> Content)
    requires Authentic(head, origin) && Authentic(state, origin)
    ensures Authentic(Append(head, state), origin)
    ensures forall id :: id in Visible(Append(head, state)) <==>
                         && id in Live(head) + Live(state)
                         && id !in head.deletes + state.deletes
                         && !IsTransient(origin(id))
  {}

  /** Whether the head was stripped before a save makes no difference to what the save leaves. */
  lemma AppendStripsTheHead(head: Update, state: Update)
    ensures Append(StripSnapshotMetadata(head), state) == Append(head, state)
  {
    var a, b := Append(StripSnapshotMetadata(head), state), Append(head, state);
    assert a.deletes == b.deletes;
    assert a.items.Keys == b.items.Keys;
    assert a.items == b.items;
  }

  /**
   Whatever the history of saves, the stored row holds no deleted prose and shows
   exactly the union: every lasting item some save carried and no save deleted.
   */
  lemma {:induction false} StoredShowsTheUnion(states: seq<Update>, origin: Id -> Content)
    requires |states| > 0 && AllAuthentic(states, origin)
    ensures Authentic(Stored(states), origin)
    ensures Ghosts(Stored(states)) == {}
    ensures forall i | 0 <= i < |states| :: Covers(Stored(states), states[i])
    ensures forall id :: id in Visible(Stored(states)) <==>
                         HeldBySome(states, id) && !DeletedBySome(states, id) && !IsTransient(origin(id))
    ensures forall id | id in Visible(Stored(states)) :: Visible(Stored(states))[id] == origin(id)
  {
    if |states| == 1 {
      StripIsSafe(states[0], origin);
      StripCovers(states[0]);
      assert forall id :: HeldBySome(states, id) <==> id in Live(states[0]);
      assert forall id :: DeletedBySome(states, id) <==> id in states[0].deletes;
    } else {
      var init, last := states[..|states| - 1], states[|states| - 1];
      StoredShowsTheUnion(init, origin);
      AppendIsSafe(Stored(init), last, origin);
      AppendCovers(Stored(init), last);
      forall i | 0 <= i < |states| ensures Covers(Stored(states), states[i]) {
        if i < |init| {
          assert states[i] == init[i];
        }
      }
      forall id ensures id in Visible(Stored(states)) <==>
                        HeldBySome(states, id) && !DeletedBySome(states, id) && !IsTransient(origin(id))
      {
        SomeSplits(states, id);
        HiddenOnlyByDeletion(init, id, origin);
      }
    }
  }

  lemma SomeSplits(states: seq<Update>, id: Id)
    requires |states| > 0
    ensures HeldBySome(states, id) <==>
            HeldBySome(states[..|states| - 1], id) || id in Live(states[|states| - 1])
    ensures DeletedBySome(states, id) <==>
            DeletedBySome(states[..|states| - 1], id) || id in states[|states| - 1].deletes
  {}

  /** What an item loses on its way into the row it loses to a deletion or to the metadata strip. */
  lemma {:induction false} HiddenOnlyByDeletion(states: seq<Update>, id: Id, origin: Id -> Content)
    requires |states| > 0 && AllAuthentic(states, origin)
    ensures id in Live(Stored(states)) ==> HeldBySome(states, id)
    ensures id in Stored(states).deletes ==>
              DeletedBySome(states, id) || (HeldBySome(states, id) && IsTransient(origin(id)))
    ensures DeletedBySome(states, id) ==> id in Stored(states).deletes
    ensures HeldBySome(states, id) && id !in Stored(states).deletes ==> id in Live(Stored(states))
  {
    SomeSplits(states, id);
    var last := states[|states| - 1];
    if |states| == 1 {
      StripAt(last, id, origin);
    } else {
      var init := states[..|states| - 1];
      assert AllAuthentic(init, origin);
      StoredShowsTheUnion(init, origin);
      HiddenOnlyByDeletion(init, id, origin);
      MergeKeepsAuthentic(Stored(init), last, origin);
      StripAt(Merge(Stored(init), last), id, origin);
    }
  }

  lemma StripAt(u: Update, id: Id, origin: Id -> Content)
    requires Authentic(u, origin)
    ensures var s := StripSnapshotMetadata(u);
            && (id in s.deletes <==> id in u.deletes || (id in Live(u) && IsTransient(origin(id))))
            && (id in Live(s) <==> id in Live(u) && id !in s.deletes)
  {}
}
