/**
 Which user a client id belongs to, decided by whoever claims it first:
 rooms in any number of processes, one table, writes that land or fail in any order.
 */
module ClientAuthors {
  import opened Prelude

  /** What one `onChange` hook sees. `authors` is absent when the update does not parse. */
  datatype Change = Change(room: nat, hasSocket: bool, user: Option<string>, isAnonymous: bool, isDraft: bool,
                           announced: seq<nat>, authors: Option<seq<nat>>)

  datatype Binding = Binding(user: string, isAnonymous: bool)

  datatype Key = Key(doc: string, client: nat)

  /** One write on its way; `landed` once the table has taken it, whatever its promise says later. */
  datatype Batch = Batch(claim: Binding, pending: set<nat>, landed: bool)

  /** A live document in one process. `kept` are the ids of the batches that settled well. */
  datatype Room = Room(doc: string, bound: set<nat>, batches: map<nat, Batch>, kept: set<nat>)

  datatype World = World(rooms: map<nat, Room>, table: map<Key, Binding>, edits: seq<Change>)

  datatype Event =
    | Open(room: nat, doc: string)
    | Edit(change: Change, batch: nat)
    | Land(room: nat, batch: nat)
    | Settle(room: nat, batch: nat, ok: bool)

  // ----- which ids a change claims -----

  predicate MayBind(c: Change) {
    c.hasSocket && c.user.Some? && c.user.value != "" && !c.isDraft && c.authors.Some?
  }

  /** The user's socket announced this id, and the update it sent was written under it. */
  predicate Claims(c: Change, client: nat) {
    MayBind(c) && client in c.announced && client in c.authors.value
  }

  function ClaimOf(c: Change): Binding
    requires MayBind(c)
  {
    Binding(c.user.value, c.isAnonymous)
  }

  function Pending(c: Change, bound: set<nat>): (p: set<nat>)
    ensures forall id | id in p :: Claims(c, id) && id !in bound
  {
    if MayBind(c) then set id | id in c.authors.value && id in c.announced && id !in bound else {}
  }

  predicate Enabled(w: World, e: Event) {
    match e
    case Open(room, _) => room !in w.rooms
    case Edit(c, batch) => c.room in w.rooms && batch !in w.rooms[c.room].batches
    case Land(room, batch) =>
      room in w.rooms && batch in w.rooms[room].batches && !w.rooms[room].batches[batch].landed
    case Settle(room, batch, ok) =>
      room in w.rooms && batch in w.rooms[room].batches && (ok ==> w.rooms[room].batches[batch].landed)
  }

  /** `createMany` with `skipDuplicates`: a row that exists stays as it is. */
  function Insert(table: map<Key, Binding>, doc: string, ids: set<nat>, b: Binding): map<Key, Binding> {
    var rows := map id | id in ids && Key(doc, id) !in table :: Key(doc, id);
    table + (map k | k in rows.Values :: b)
  }

  function Remove(batches: map<nat, Batch>, batch: nat): map<nat, Batch> {
    map j | j in batches && j != batch :: batches[j]
  }

  function Edited(r: Room, c: Change, batch: nat): Room {
    var p := Pending(c, r.bound);
    if p == {} then r
    else r.(bound := r.bound + p, batches := r.batches[batch := Batch(ClaimOf(c), p, false)])
  }

  function Settled(r: Room, batch: nat, ok: bool): Room
    requires batch in r.batches
  {
    var b := r.batches[batch];
    if ok then r.(batches := Remove(r.batches, batch), kept := r.kept + b.pending)
    else r.(batches := Remove(r.batches, batch), bound := r.bound - b.pending)
  }

  function Step(w: World, e: Event): World
    requires Enabled(w, e)
  {
    match e
    case Open(room, doc) => w.(rooms := w.rooms[room := Room(doc, {}, map[], {})])
    case Edit(c, batch) => w.(rooms := w.rooms[c.room := Edited(w.rooms[c.room], c, batch)], edits := w.edits + [c])
    case Land(room, batch) =>
      var r := w.rooms[room];
      var b := r.batches[batch];
      w.(rooms := w.rooms[room := r.(batches := r.batches[batch := b.(landed := true)])],
         table := Insert(w.table, r.doc, b.pending, b.claim))
    case Settle(room, batch, ok) => w.(rooms := w.rooms[room := Settled(w.rooms[room], batch, ok)])
  }

  predicate Legal(w: World, es: seq<Event>)
    decreases |es|
  {
    es == [] || (Enabled(w, es[0]) && Legal(Step(w, es[0]), es[1..]))
  }

  function Run(w: World, es: seq<Event>): World
    requires Legal(w, es)
    decreases |es|
  {
    if es == [] then w else Run(Step(w, es[0]), es[1..])
  }

  function Empty(): World {
    World(map[], map[], [])
  }

  // ----- a binding never changes -----

  lemma InsertKeepsRows(table: map<Key, Binding>, doc: string, ids: set<nat>, b: Binding)
    ensures forall k | k in table :: k in Insert(table, doc, ids, b) && Insert(table, doc, ids, b)[k] == table[k]
    ensures forall id | id in ids :: Key(doc, id) in Insert(table, doc, ids, b)
    ensures forall k | k in Insert(table, doc, ids, b) && k !in table ::
              k.doc == doc && k.client in ids && Insert(table, doc, ids, b)[k] == b
  {
    var rows := map id | id in ids && Key(doc, id) !in table :: Key(doc, id);
    forall id | id in ids ensures Key(doc, id) in Insert(table, doc, ids, b) {
      if Key(doc, id) !in table {
        assert id in rows && rows[id] == Key(doc, id);
        assert Key(doc, id) in rows.Values;
      }
    }
  }

  lemma {:induction false} BindingNeverChanges(w: World, es: seq<Event>, k: Key)
    requires Legal(w, es) && k in w.table
    ensures k in Run(w, es).table && Run(w, es).table[k] == w.table[k]
    decreases |es|
  {
    if es != [] {
      if es[0].Land? {
        var r := w.rooms[es[0].room];
        InsertKeepsRows(w.table, r.doc, r.batches[es[0].batch].pending, r.batches[es[0].batch].claim);
      }
      BindingNeverChanges(Step(w, es[0]), es[1..], k);
    }
  }

  // ----- one process: the bound set -----

  predicate Disjoint(batches: map<nat, Batch>) {
    forall i, j | i in batches && j in batches && i != j :: batches[i].pending !! batches[j].pending
  }

  /** Ids of the batches still on their way. */
  predicate InFlight(r: Room, id: nat) {
    exists i | i in r.batches :: id in r.batches[i].pending
  }

  /** Bound is what was kept and what is in flight, never both, and no id is in two batches. */
  ghost predicate RoomInv(r: Room) {
    && Disjoint(r.batches)
    && (forall id :: id in r.bound <==> id in r.kept || InFlight(r, id))
    && (forall i | i in r.batches :: r.batches[i].pending !! r.kept)
  }

  lemma EditedInv(r: Room, c: Change, batch: nat)
    requires RoomInv(r) && batch !in r.batches
    ensures RoomInv(Edited(r, c, batch))
  {
    var p, r' := Pending(c, r.bound), Edited(r, c, batch);
    if p != {} {
      forall i | i in r.batches ensures r.batches[i].pending !! p {
        forall id | id in r.batches[i].pending ensures id !in p {
          assert InFlight(r, id);
        }
      }
      forall id ensures InFlight(r', id) <==> InFlight(r, id) || id in p {
        FlightAfterAdd(r, r', batch, id);
      }
    }
  }

  lemma FlightAfterAdd(r: Room, r': Room, batch: nat, id: nat)
    requires batch !in r.batches && batch in r'.batches && r'.batches == r.batches[batch := r'.batches[batch]]
    ensures InFlight(r', id) <==> InFlight(r, id) || id in r'.batches[batch].pending
  {
    if InFlight(r, id) {
      var i :| i in r.batches && id in r.batches[i].pending;
      assert i in r'.batches && id in r'.batches[i].pending;
    }
  }

  lemma SettledFlights(r: Room, batch: nat, ok: bool, id: nat)
    requires RoomInv(r) && batch in r.batches
    ensures InFlight(Settled(r, batch, ok), id) <==> InFlight(r, id) && id !in r.batches[batch].pending
  {
    var r' := Settled(r, batch, ok);
    if InFlight(r, id) && id !in r.batches[batch].pending {
      var i :| i in r.batches && id in r.batches[i].pending;
      assert i in r'.batches && id in r'.batches[i].pending;
    }
    if InFlight(r', id) {
      var i :| i in r'.batches && id in r'.batches[i].pending;
      assert i in r.batches && r.batches[i].pending !! r.batches[batch].pending;
    }
  }

  lemma SettledInv(r: Room, batch: nat, ok: bool)
    requires RoomInv(r) && batch in r.batches
    ensures RoomInv(Settled(r, batch, ok))
  {
    var r' := Settled(r, batch, ok);
    forall id ensures id in r'.bound <==> id in r'.kept || InFlight(r', id) {
      SettledFlights(r, batch, ok, id);
      if id in r.batches[batch].pending {
        assert InFlight(r, id);
      }
    }
    assert forall i | i in r'.batches :: i in r.batches && r'.batches[i] == r.batches[i] && i != batch;
    assert Disjoint(r'.batches);
  }

  lemma LandedInv(r: Room, batch: nat)
    requires RoomInv(r) && batch in r.batches
    ensures RoomInv(r.(batches := r.batches[batch := r.batches[batch].(landed := true)]))
  {
    var r' := r.(batches := r.batches[batch := r.batches[batch].(landed := true)]);
    forall id ensures InFlight(r', id) <==> InFlight(r, id) {
      if InFlight(r, id) {
        var i :| i in r.batches && id in r.batches[i].pending;
        assert i in r'.batches && id in r'.batches[i].pending;
      }
    }
  }

  /** A failed batch re-opens its own ids and no others. */
  lemma FailureReopensOnlyItsOwn(r: Room, batch: nat)
    requires RoomInv(r) && batch in r.batches
    ensures var r' := Settled(r, batch, false);
            && (forall id | id in r.batches[batch].pending :: id in r.bound && id !in r'.bound)
            && (forall id | id !in r.batches[batch].pending :: id in r'.bound <==> id in r.bound)
            && (forall i | i in r'.batches :: r'.batches[i].pending <= r'.bound)
            && r'.kept == r.kept <= r'.bound
  {}

  // ----- every process: bindings are justified, kept ids are stored -----

  /** Some change in that document came from this user's socket, which had announced the id the update was written under. */
  predicate Justified(w: World, doc: string, client: nat, b: Binding) {
    exists c | c in w.edits :: Supports(w, c, doc, client, b)
  }

  predicate Supports(w: World, c: Change, doc: string, client: nat, b: Binding) {
    c.room in w.rooms && w.rooms[c.room].doc == doc && Claims(c, client) && ClaimOf(c) == b
  }

  predicate BatchesJustified(w: World, r: Room) {
    forall i, id | i in r.batches && id in r.batches[i].pending :: Justified(w, r.doc, id, r.batches[i].claim)
  }

  predicate Stored(table: map<Key, Binding>, r: Room) {
    && (forall id | id in r.kept :: Key(r.doc, id) in table)
    && (forall i, id | i in r.batches && r.batches[i].landed && id in r.batches[i].pending :: Key(r.doc, id) in table)
  }

  ghost predicate RoomsInv(w: World) {
    forall room | room in w.rooms :: RoomInv(w.rooms[room]) && Stored(w.table, w.rooms[room])
  }

  predicate TableJustified(w: World) {
    forall k | k in w.table :: Justified(w, k.doc, k.client, w.table[k])
  }

  predicate AllBatchesJustified(w: World) {
    forall room | room in w.rooms :: BatchesJustified(w, w.rooms[room])
  }

  ghost predicate Inv(w: World) {
    RoomsInv(w) && TableJustified(w) && AllBatchesJustified(w)
  }

  lemma JustifiedStays(w: World, e: Event, doc: string, client: nat, b: Binding)
    requires Enabled(w, e) && Justified(w, doc, client, b)
    ensures Justified(Step(w, e), doc, client, b)
  {
    var c :| c in w.edits && Supports(w, c, doc, client, b);
    assert c in Step(w, e).edits;
    assert Supports(Step(w, e), c, doc, client, b);
  }

  lemma TableStaysJustified(w: World, e: Event)
    requires Inv(w) && Enabled(w, e)
    ensures TableJustified(Step(w, e))
  {
    hide Insert, Edited, Settled, Justified, RoomInv, Stored;
    var w' := Step(w, e);
    if e.Land? {
      var r := w.rooms[e.room];
      InsertKeepsRows(w.table, r.doc, r.batches[e.batch].pending, r.batches[e.batch].claim);
    }
    forall k | k in w'.table ensures Justified(w', k.doc, k.client, w'.table[k]) {
      JustifiedStays(w, e, k.doc, k.client, w'.table[k]);
    }
  }

  lemma NewBatchJustified(w: World, c: Change, batch: nat, id: nat)
    requires Enabled(w, Edit(c, batch)) && id in Pending(c, w.rooms[c.room].bound)
    ensures Justified(Step(w, Edit(c, batch)), w.rooms[c.room].doc, id, ClaimOf(c))
  {
    var w' := Step(w, Edit(c, batch));
    assert c in w'.edits;
    assert Supports(w', c, w.rooms[c.room].doc, id, ClaimOf(c));
  }

  lemma OldBatch(w: World, e: Event, room: nat, i: nat)
    requires Enabled(w, e) && room in Step(w, e).rooms && i in Step(w, e).rooms[room].batches
    requires !(e.Edit? && room == e.change.room && i == e.batch)
    ensures room in w.rooms && w.rooms[room].doc == Step(w, e).rooms[room].doc && i in w.rooms[room].batches
    ensures w.rooms[room].batches[i].pending == Step(w, e).rooms[room].batches[i].pending
    ensures w.rooms[room].batches[i].claim == Step(w, e).rooms[room].batches[i].claim
  {}

  lemma RoomStaysJustified(w: World, e: Event, room: nat)
    requires Inv(w) && Enabled(w, e) && room in Step(w, e).rooms
    ensures BatchesJustified(Step(w, e), Step(w, e).rooms[room])
  {
    var w' := Step(w, e);
    var r' := w'.rooms[room];
    forall i, id | i in r'.batches && id in r'.batches[i].pending
      ensures Justified(w', r'.doc, id, r'.batches[i].claim)
    {
      BatchStaysJustified(w, e, room, i, id);
    }
  }

  lemma BatchStaysJustified(w: World, e: Event, room: nat, i: nat, id: nat)
    requires AllBatchesJustified(w) && Enabled(w, e) && room in Step(w, e).rooms
    requires i in Step(w, e).rooms[room].batches && id in Step(w, e).rooms[room].batches[i].pending
    ensures Justified(Step(w, e), Step(w, e).rooms[room].doc, id, Step(w, e).rooms[room].batches[i].claim)
  {
    if e.Edit? && room == e.change.room && i == e.batch {
      NewBatchJustified(w, e.change, e.batch, id);
    } else {
      OldBatch(w, e, room, i);
      assert BatchesJustified(w, w.rooms[room]);
      JustifiedStays(w, e, w.rooms[room].doc, id, w.rooms[room].batches[i].claim);
    }
  }

  lemma TableStaysStored(w: World, e: Event, r: Room)
    requires Enabled(w, e) && Stored(w.table, r)
    ensures Stored(Step(w, e).table, r)
  {
    hide Insert, Edited, Settled;
    if e.Land? {
      var landed := w.rooms[e.room];
      InsertKeepsRows(w.table, landed.doc, landed.batches[e.batch].pending, landed.batches[e.batch].claim);
    }
  }

  lemma EditedStored(table: map<Key, Binding>, r: Room, c: Change, batch: nat)
    requires Stored(table, r)
    ensures Stored(table, Edited(r, c, batch))
  {
    hide Pending;
  }

  lemma SettledStored(table: map<Key, Binding>, r: Room, batch: nat, ok: bool)
    requires Stored(table, r) && batch in r.batches && (ok ==> r.batches[batch].landed)
    ensures Stored(table, Settled(r, batch, ok))
  {}

  lemma LandedStored(table: map<Key, Binding>, r: Room, batch: nat)
    requires Stored(table, r) && batch in r.batches
    ensures Stored(Insert(table, r.doc, r.batches[batch].pending, r.batches[batch].claim),
                   r.(batches := r.batches[batch := r.batches[batch].(landed := true)]))
  {
    hide Insert;
    InsertKeepsRows(table, r.doc, r.batches[batch].pending, r.batches[batch].claim);
  }

  lemma RoomStaysStored(w: World, e: Event, room: nat)
    requires Inv(w) && Enabled(w, e) && room in Step(w, e).rooms
    ensures RoomInv(Step(w, e).rooms[room]) && Stored(Step(w, e).table, Step(w, e).rooms[room])
  {
    if e.Open? && room == e.room {
      EmptyRoom(e.doc);
      EmptyStored(w.table, e.doc);
    } else {
      assert RoomInv(w.rooms[room]) && Stored(w.table, w.rooms[room]);
      hide RoomInv, Stored, Insert, Edited, Settled, TableJustified, AllBatchesJustified;
      TableStaysStored(w, e, w.rooms[room]);
      match e
      case Open(_, _) =>
      case Edit(c, batch) =>
        if room == c.room {
          EditedInv(w.rooms[room], c, batch);
          EditedStored(w.table, w.rooms[room], c, batch);
        }
      case Land(landed, batch) =>
        if room == landed {
          LandedInv(w.rooms[room], batch);
          LandedStored(w.table, w.rooms[room], batch);
        }
      case Settle(settled, batch, ok) =>
        if room == settled {
          SettledInv(w.rooms[room], batch, ok);
          SettledStored(w.table, w.rooms[room], batch, ok);
        }
    }
  }

  lemma EmptyStored(table: map<Key, Binding>, doc: string)
    ensures Stored(table, Room(doc, {}, map[], {}))
  {}

  lemma EmptyRoom(doc: string)
    ensures RoomInv(Room(doc, {}, map[], {}))
  {}

  lemma StepKeepsInv(w: World, e: Event)
    requires Inv(w) && Enabled(w, e)
    ensures Inv(Step(w, e))
  {
    TableStaysJustified(w, e);
    forall room | room in Step(w, e).rooms
      ensures BatchesJustified(Step(w, e), Step(w, e).rooms[room])
      ensures RoomInv(Step(w, e).rooms[room]) && Stored(Step(w, e).table, Step(w, e).rooms[room])
    {
      RoomStaysJustified(w, e, room);
      RoomStaysStored(w, e, room);
    }
  }

  lemma {:induction false} RunKeepsInv(w: World, es: seq<Event>)
    requires Inv(w) && Legal(w, es)
    ensures Inv(Run(w, es))
    decreases |es|
  {
    if es != [] {
      StepKeepsInv(w, es[0]);
      RunKeepsInv(Step(w, es[0]), es[1..]);
    }
  }

  lemma {:induction false} EditsHappened(w: World, es: seq<Event>, c: Change)
    requires Legal(w, es) && c in Run(w, es).edits
    ensures c in w.edits || exists e :: e in es && e.Edit? && e.change == c
    decreases |es|
  {
    if es != [] {
      EditsHappened(Step(w, es[0]), es[1..], c);
      if c in Step(w, es[0]).edits && c !in w.edits {
        assert es[0] in es;
      }
    }
  }

  /**
   Over every interleaving, a row comes from some change in that document: sent by its user's
   socket, no draft, under an id the socket had announced.
   */
  lemma EveryBindingIsJustified(es: seq<Event>, k: Key)
    requires Legal(Empty(), es) && k in Run(Empty(), es).table
    ensures exists e | e in es && e.Edit? ::
              var c, b := e.change, Run(Empty(), es).table[k];
              && c.room in Run(Empty(), es).rooms && Run(Empty(), es).rooms[c.room].doc == k.doc
              && c.hasSocket && !c.isDraft
              && c.user == Some(b.user) && b.user != "" && c.isAnonymous == b.isAnonymous
              && k.client in c.announced && c.authors.Some? && k.client in c.authors.value
  {
    RunKeepsInv(Empty(), es);
    var w := Run(Empty(), es);
    var c :| c in w.edits && Supports(w, c, k.doc, k.client, w.table[k]);
    EditsHappened(Empty(), es, c);
  }

  /** In every room of every run: bound is kept plus in flight, batches are disjoint, and kept ids are stored. */
  lemma BoundIsKeptPlusInFlight(es: seq<Event>, room: nat)
    requires Legal(Empty(), es) && room in Run(Empty(), es).rooms
    ensures RoomInv(Run(Empty(), es).rooms[room])
    ensures Stored(Run(Empty(), es).table, Run(Empty(), es).rooms[room])
  {
    RunKeepsInv(Empty(), es);
  }

  // ----- what a change claims is recorded -----

  /** The ids to record: the announced authors not yet bound, of a signed-in user's change to a document that is no draft. */
  lemma PendingExactly(c: Change, bound: set<nat>, id: nat)
    ensures id in Pending(c, bound) <==>
            && c.hasSocket && c.user.Some? && c.user.value != "" && !c.isDraft && c.authors.Some?
            && id in c.announced && id in c.authors.value && id !in bound
  {}

  lemma {:induction false} RunOn(w: World, es: seq<Event>, e: Event)
    requires Legal(w, es + [e])
    ensures Legal(w, es) && Enabled(Run(w, es), e) && Run(w, es + [e]) == Step(Run(w, es), e)
    decreases |es|
  {
    hide Enabled, Step;
    if es == [] {
      assert es + [e] == [e] && [e][1..] == [];
      assert Run(Step(w, e), []) == Step(w, e);
    } else {
      assert (es + [e])[0] == es[0] && (es + [e])[1..] == es[1..] + [e];
      RunOn(Step(w, es[0]), es[1..], e);
    }
  }

  predicate Carries(w: World, room: nat, batch: nat, doc: string, claim: Binding, id: nat) {
    && room in w.rooms && w.rooms[room].doc == doc && batch in w.rooms[room].batches
    && w.rooms[room].batches[batch].claim == claim && id in w.rooms[room].batches[batch].pending
  }

  lemma {:induction false} BatchStays(w: World, es: seq<Event>, room: nat, batch: nat, doc: string, claim: Binding, id: nat)
    requires Legal(w, es) && Carries(w, room, batch, doc, claim, id)
    requires forall e | e in es && e.Settle? :: e.room != room || e.batch != batch
    ensures Carries(Run(w, es), room, batch, doc, claim, id)
    decreases |es|
  {
    if es != [] {
      assert es[0] in es;
      assert forall e | e in es[1..] :: e in es;
      OneStepStays(w, es[0], room, batch, doc, claim, id);
      BatchStays(Step(w, es[0]), es[1..], room, batch, doc, claim, id);
    }
  }

  lemma OneStepStays(w: World, e: Event, room: nat, batch: nat, doc: string, claim: Binding, id: nat)
    requires Enabled(w, e) && Carries(w, room, batch, doc, claim, id)
    requires e.Settle? ==> e.room != room || e.batch != batch
    ensures Carries(Step(w, e), room, batch, doc, claim, id)
  {}

  /**
   An id that a change claims and the room had not bound is in the table once its batch has
   landed, whatever happened in between: under that user, or under whoever was there first.
   */
  lemma ClaimsAreRecorded(w: World, c: Change, batch: nat, id: nat, es: seq<Event>)
    requires Enabled(w, Edit(c, batch)) && Legal(Step(w, Edit(c, batch)), es + [Land(c.room, batch)])
    requires forall e | e in es && e.Settle? :: e.room != c.room || e.batch != batch
    requires c.hasSocket && c.user.Some? && c.user.value != "" && !c.isDraft
    requires c.authors.Some? && id in c.announced && id in c.authors.value && id !in w.rooms[c.room].bound
    ensures Legal(Step(w, Edit(c, batch)), es)
    ensures var before, after := Run(Step(w, Edit(c, batch)), es), Run(Step(w, Edit(c, batch)), es + [Land(c.room, batch)]);
            var k := Key(w.rooms[c.room].doc, id);
            && k in after.table
            && after.table[k] == if k in before.table then before.table[k] else Binding(c.user.value, c.isAnonymous)
  {
    hide Legal, Run;
    var edited, doc := Step(w, Edit(c, batch)), w.rooms[c.room].doc;
    PendingExactly(c, w.rooms[c.room].bound, id);
    RunOn(edited, es, Land(c.room, batch));
    BatchStays(edited, es, c.room, batch, doc, Binding(c.user.value, c.isAnonymous), id);
    var before := Run(edited, es);
    InsertKeepsRows(before.table, doc, before.rooms[c.room].batches[batch].pending, Binding(c.user.value, c.isAnonymous));
  }

  // ----- the hook -----

  function ToSet(ids: seq<nat>): set<nat> {
    set id | id in ids
  }

  /** The ids to write, in the update's order: claimed, unbound, each once. */
  function Wanted(authors: seq<nat>, announced: seq<nat>, bound: set<nat>): (out: seq<nat>)
  {
    if authors == [] then []
    else
      var before := Wanted(authors[..|authors| - 1], announced, bound);
      var id := authors[|authors| - 1];
      if id !in announced || id in bound || id in before then before else before + [id]
  }

  lemma {:induction false} WantedIsPending(authors: seq<nat>, announced: seq<nat>, bound: set<nat>)
    ensures ToSet(Wanted(authors, announced, bound)) == set id | id in authors && id in announced && id !in bound
    ensures |Wanted(authors, announced, bound)| == |ToSet(Wanted(authors, announced, bound))|
  {
    if authors == [] {
      assert ToSet(Wanted(authors, announced, bound)) == {};
    } else {
      var last := |authors| - 1;
      WantedIsPending(authors[..last], announced, bound);
      assert authors == authors[..last] + [authors[last]];
      var before, all := Wanted(authors[..last], announced, bound), Wanted(authors, announced, bound);
      if all != before {
        assert ToSet(all) == ToSet(before) + {authors[last]};
      }
    }
  }

  class ClientAuthorRoom {
    var bound: set<nat>

    constructor ()
      ensures bound == {}
    {
      bound := {};
    }

    /** The ids to write, or none. Their batch is in flight from here on. */
    method RecordClientAuthors(c: Change) returns (pending: seq<nat>)
      modifies this
      ensures ToSet(pending) == Pending(c, old(bound)) && |pending| == |Pending(c, old(bound))|
      ensures ToSet(pending) ==
              if c.hasSocket && c.user.Some? && c.user.value != "" && !c.isDraft && c.authors.Some?
              then set id | id in c.announced && id in c.authors.value && id !in old(bound)
              else {}
      ensures bound == old(bound) + ToSet(pending)
    {
      pending := [];
      if !c.hasSocket || c.user.None? || c.user.value == "" || c.isDraft || c.announced == [] {
        return;
      }
      var hasUnbound := false;
      for i := 0 to |c.announced|
        invariant !hasUnbound ==> forall k | 0 <= k < i :: c.announced[k] in bound
      {
        if c.announced[i] !in bound {
          hasUnbound := true;
          break;
        }
      }
      if !hasUnbound || c.authors.None? {
        return;
      }
      pending := Collect(c.authors.value, c.announced);
      WantedIsPending(c.authors.value, c.announced, old(bound));
    }

    method Collect(authors: seq<nat>, announced: seq<nat>) returns (pending: seq<nat>)
      modifies this
      ensures pending == Wanted(authors, announced, old(bound)) && bound == old(bound) + ToSet(pending)
    {
      pending := [];
      for i := 0 to |authors|
        invariant pending == Wanted(authors[..i], announced, old(bound))
        invariant bound == old(bound) + ToSet(pending)
      {
        assert authors[..i + 1][..i] == authors[..i];
        if authors[i] in announced && authors[i] !in bound {
          bound := bound + {authors[i]};
          pending := pending + [authors[i]];
        }
      }
      assert authors[..|authors|] == authors;
    }

    method WriteFailed(pending: seq<nat>)
      modifies this
      ensures bound == old(bound) - ToSet(pending)
    {
      for i := 0 to |pending|
        invariant bound == old(bound) - ToSet(pending[..i])
      {
        bound := bound - {pending[i]};
        assert pending[..i + 1] == pending[..i] + [pending[i]];
      }
      assert pending[..|pending|] == pending;
    }
  }
}
