/**
 The version rows of one document, and the two protocols that append to them from many
 replicas at once: the direct-save fallback and the on-load schema migration.

 Each database statement is one atomic step; any other task may run between two steps.
 A locked read that waited for its row returns what was newest when the statement began,
 so it is modelled as read then, with the wait as a delay before the task's next step.
 */
module VersionLedger {
  import opened Prelude
  import opened YjsUpdate

  type Version = v: int | 1 <= v witness 1

  datatype Source = Saved(room: nat, state: Update) | Rebuilt

  /** Milliseconds a transaction may last before the client library gives it up; the code keeps the default. */
  const TRANSACTION_MS: nat := 5_000

  const DAY_MS: nat := 86_400_000

  /**
   `base` is the version the row was computed from, 0 when there was none. `lockedAt` is when
   the transaction that inserted the row read its head; the row's own stamp is anything from
   the start of that transaction on.
   */
  datatype Row = Row(data: Update, base: nat, source: Source, lockedAt: nat)

  type Table = map<Version, Row>

  datatype Appended = Appended(version: Version, row: Row)

  datatype Task =
    | Idle
    | Saving(room: nat, state: Update, since: nat, attempt: nat)
    | Merging(room: nat, state: Update, since: nat, attempt: nat, base: nat, head: Option<Update>, at: nat)
    | Loaded(base: nat, original: Update, rebuilt: Update)
    | Persisting(base: nat, original: Update, rebuilt: Update, locked: nat, at: nat)
    | Collided(base: nat, original: Update)

  /**
   `log` is every row ever inserted, kept after retention thins it from `rows`. A saving
   task's `since` is the newest version when its state was taken, and `at` the time of its
   locked read.
   */
  datatype System = System(
    rows: Table,
    rooms: map<nat, Update>,
    tasks: map<nat, Task>,
    log: seq<Appended>,
    now: nat)

  const INITIAL := System(map[], map[], map[], [], 0)

  datatype Event =
    | Edit(room: nat, update: Update)
    | Flush(task: nat, room: nat)
    | ReadForSave(task: nat)
    | InsertSave(task: nat)
    | Load(task: nat, rebuilt: Update)
    | ReadForMigration(task: nat)
    | InsertRebuild(task: nat)
    | ReadWinner(task: nat)
    | Fail(task: nat)
    | Thin(version: Version, retentionDays: int)
    | Wait(ms: nat)

  // ----- the table -----

  lemma NewestExists(rows: Table)
    requires rows != map[]
    ensures exists v :: v in rows && forall w | w in rows :: w <= v
  {
    var v :| v in rows;
    if w :| w in rows && w > v {
      var rest := rows - {v};
      assert w in rest;
      NewestExists(rest);
      var m :| m in rest && forall x | x in rest :: x <= m;
      assert m in rows && forall x | x in rows :: x <= m by {
        assert forall x | x in rows :: x == v || x in rest;
      }
    }
  }

  /** `ORDER BY version DESC LIMIT 1`, 0 for a document with no row. */
  function Newest(rows: Table): (v: nat)
    ensures v == 0 <==> rows == map[]
    ensures v != 0 ==> v in rows
    ensures forall w | w in rows :: w <= v
  {
    if rows == map[] then 0 else
      NewestExists(rows);
      var v :| v in rows && forall w | w in rows :: w <= v;
      v
  }

  function HeadData(rows: Table): (head: Option<Update>)
    ensures head.Some? <==> rows != map[]
  {
    var v := Newest(rows);
    if v == 0 then None else Some(rows[v].data)
  }

  // ----- one step -----

  function TaskOf(s: System, t: nat): Task {
    if t in s.tasks then s.tasks[t] else Idle
  }

  function RoomState(s: System, room: nat): Update {
    if room in s.rooms then s.rooms[room] else Update(map[], {})
  }

  /** The version whose successor the task means to insert, while its transaction lasts. */
  function HeldBase(s: System, t: Task): Option<nat> {
    match t
    case Merging(_, _, _, _, base, _, at) => if s.now <= at + TRANSACTION_MS then Some(base) else None
    case Persisting(_, _, _, locked, at) => if s.now <= at + TRANSACTION_MS then Some(locked) else None
    case _ => None
  }

  predicate NoneHolds(s: System, base: int) {
    forall t | t in s.tasks :: var held := HeldBase(s, s.tasks[t]); held.None? || held.value != base
  }

  /**
   A task inserts only while its transaction lasts. Retention, unless switched off, deletes
   rows stamped more than so many days ago, never a document's newest one; a stamp is at most
   a transaction's length before the locked read.
   */
  predicate Enabled(s: System, e: Event) {
    match e
    case Edit(_, _) => true
    case Flush(t, _) => TaskOf(s, t).Idle?
    case ReadForSave(t) => TaskOf(s, t).Saving?
    case InsertSave(t) => TaskOf(s, t).Merging? && HeldBase(s, TaskOf(s, t)).Some?
    case Load(t, _) => TaskOf(s, t).Idle? && s.rows != map[]
    case ReadForMigration(t) => TaskOf(s, t).Loaded?
    case InsertRebuild(t) => TaskOf(s, t).Persisting? && HeldBase(s, TaskOf(s, t)).Some?
    case ReadWinner(t) => TaskOf(s, t).Collided?
    case Fail(t) => !TaskOf(s, t).Idle?
    case Thin(v, days) =>
      v in s.rows && v != Newest(s.rows) && days > 0 && s.rows[v].lockedAt + days * DAY_MS < s.now + TRANSACTION_MS
    case Wait(_) => true
  }

  function MergedRow(head: Option<Update>, state: Update): Update {
    match head
    case None => StripSnapshotMetadata(state)
    case Some(data) => Append(data, state)
  }

  function SavedRow(task: Task): Row
    requires task.Merging?
  {
    Row(MergedRow(task.head, task.state), task.base, Saved(task.room, task.state), task.at)
  }

  function Put(s: System, t: nat, task: Task): System {
    s.(tasks := s.tasks[t := task])
  }

  function Insert(s: System, v: Version, row: Row): System {
    s.(rows := s.rows[v := row], log := s.log + [Appended(v, row)])
  }

  /** A unique-key collision re-runs the save once; the second one drops the flush. */
  function AfterCollision(task: Task): Task
    requires task.Merging?
  {
    if task.attempt == 1 then Saving(task.room, task.state, task.since, 2) else Idle
  }

  function Step(s: System, e: Event): System
    requires Enabled(s, e)
  {
    match e
    case Edit(room, update) =>
      s.(rooms := s.rooms[room := Compact(Merge(RoomState(s, room), update))])
    case Flush(t, room) =>
      Put(s, t, Saving(room, RoomState(s, room), Newest(s.rows), 1))
    case ReadForSave(t) =>
      var task := TaskOf(s, t);
      Put(s, t, Merging(task.room, task.state, task.since, task.attempt, Newest(s.rows), HeadData(s.rows), s.now))
    case InsertSave(t) =>
      var task := TaskOf(s, t);
      var version := task.base + 1;
      if version in s.rows then Put(s, t, AfterCollision(task)) else
      Put(Insert(s, version, SavedRow(task)), t, Idle)
    case Load(t, rebuilt) =>
      var version := Newest(s.rows);
      Put(s, t, Loaded(version, s.rows[version].data, rebuilt))
    case ReadForMigration(t) =>
      var task := TaskOf(s, t);
      var head := Newest(s.rows);
      Put(s, t, if head > task.base then Idle else Persisting(task.base, task.original, task.rebuilt, head, s.now))
    case InsertRebuild(t) =>
      var task := TaskOf(s, t);
      var version := task.locked + 1;
      if version in s.rows then Put(s, t, Collided(task.base, task.original)) else
      Put(Insert(s, version, Row(task.rebuilt, task.base, Rebuilt, task.at)), t, Idle)
    case ReadWinner(t) => Put(s, t, Idle)
    case Fail(t) => Put(s, t, Idle)
    case Thin(v, _) => s.(rows := s.rows - {v})
    case Wait(ms) => s.(now := s.now + ms)
  }

  /** What the document's loader is handed when this step ends its load. */
  function Served(s: System, e: Event): Option<Update>
    requires Enabled(s, e)
  {
    match e
    case ReadForMigration(t) =>
      if Newest(s.rows) > TaskOf(s, t).base then HeadData(s.rows) else None
    case InsertRebuild(t) =>
      if TaskOf(s, t).locked + 1 in s.rows then None else Some(TaskOf(s, t).rebuilt)
    case ReadWinner(t) =>
      if s.rows == map[] then Some(TaskOf(s, t).original) else HeadData(s.rows)
    case Fail(t) =>
      var task := TaskOf(s, t);
      if task.Loaded? || task.Persisting? || task.Collided? then Some(task.original) else None
    case _ => None
  }

  // ----- runs -----

  ghost predicate Legal(s: System, run: seq<Event>)
    decreases |run|
  {
    run == [] || (Enabled(s, run[0]) && Legal(Step(s, run[0]), run[1..]))
  }

  ghost function Exec(s: System, run: seq<Event>): System
    requires Legal(s, run)
    decreases |run|
  {
    if run == [] then s else Exec(Step(s, run[0]), run[1..])
  }

  // ----- the invariant -----

  ghost predicate BytesWereStored(log: seq<Appended>, bytes: Update) {
    exists i | 0 <= i < |log| :: log[i].row.data == bytes
  }

  /**
   While a transaction that read `base` at `at` lasts: whatever is newer was inserted after
   that read, and the direct successor is still there to collide with.
   */
  ghost predicate BaseGuarded(s: System, base: nat, at: nat) {
    && base <= |s.log|
    && at <= s.now
    && (forall k | base <= k < |s.log| :: at <= s.log[k].row.lockedAt + TRANSACTION_MS)
    && (s.now <= at + TRANSACTION_MS && base < |s.log| ==> base + 1 in s.rows)
  }

  ghost predicate TaskInv(s: System, task: Task) {
    match task
    case Idle => true
    case Saving(room, state, since, attempt) =>
      && Covers(RoomState(s, room), state)
      && (attempt == 1 || attempt == 2)
      && since + attempt - 1 <= |s.log|
    case Merging(room, state, since, attempt, base, head, at) =>
      && Covers(RoomState(s, room), state)
      && (attempt == 1 || attempt == 2)
      && since + attempt - 1 <= base
      && BaseGuarded(s, base, at)
      && head == (if base == 0 then None else Some(s.log[base - 1].row.data))
    case Loaded(base, original, _) => base <= |s.log| && BytesWereStored(s.log, original)
    case Persisting(base, original, _, locked, at) =>
      locked == base && BaseGuarded(s, base, at) && BytesWereStored(s.log, original)
    case Collided(base, original) => base < |s.log| && BytesWereStored(s.log, original)
  }

  /** The data of the i-th row ever inserted, from the row before it and what was saved. */
  ghost predicate RowFollows(log: seq<Appended>, i: nat)
    requires i < |log|
  {
    && log[i].version == i + 1
    && log[i].row.base == i
    && (log[i].row.source.Saved? ==>
          log[i].row.data ==
          MergedRow(if i == 0 then None else Some(log[i - 1].row.data), log[i].row.source.state))
  }

  ghost predicate LogInv(s: System) {
    && (forall i | 0 <= i < |s.log| :: RowFollows(s.log, i))
    && (forall v | v in s.rows :: v <= |s.log| && s.rows[v] == s.log[v - 1].row)
    && (s.log != [] ==> |s.log| in s.rows)
  }

  ghost predicate Inv(s: System) {
    && LogInv(s)
    && forall t | t in s.tasks :: TaskInv(s, s.tasks[t])
  }

  lemma NewestIsLogLength(s: System)
    requires LogInv(s)
    ensures Newest(s.rows) == |s.log|
    ensures s.log != [] ==> HeadData(s.rows) == Some(s.log[|s.log| - 1].row.data)
  {}

  lemma NewestBounds(s: System)
    requires Inv(s)
    ensures Newest(s.rows) == |s.log|
  {
    NewestIsLogLength(s);
  }

  lemma InsertKeepsInv(s: System, t: nat, row: Row)
    requires Inv(s) && row.base == |s.log| && s.now <= row.lockedAt + TRANSACTION_MS
    requires row.source.Saved? ==>
               row.data == MergedRow(if s.log == [] then None else Some(s.log[|s.log| - 1].row.data), row.source.state)
    ensures Inv(Put(Insert(s, |s.log| + 1, row), t, Idle))
  {
    var s' := Put(Insert(s, |s.log| + 1, row), t, Idle);
    forall i | 0 <= i < |s'.log| ensures RowFollows(s'.log, i) {
      if i < |s.log| {
        assert RowFollows(s.log, i);
      }
    }
    forall u | u in s'.tasks ensures TaskInv(s', s'.tasks[u]) {
      if u != t {
        LogGrowthKeepsTask(s, s', s.tasks[u]);
      }
    }
  }

  lemma LogGrowthKeepsTask(s: System, s': System, task: Task)
    requires TaskInv(s, task) && s.rooms == s'.rooms && s.now == s'.now
    requires s.log <= s'.log && s.rows.Keys <= s'.rows.Keys
    requires |s'.log| == |s.log| + 1 ==> |s.log| + 1 in s'.rows
    requires |s'.log| <= |s.log| + 1
    requires |s'.log| == |s.log| + 1 ==> s.now <= s'.log[|s.log|].row.lockedAt + TRANSACTION_MS
    ensures TaskInv(s', task)
  {}

  lemma PutKeepsInv(s: System, t: nat, task: Task)
    requires Inv(s) && TaskInv(s, task)
    ensures Inv(Put(s, t, task))
  {
    hide Covers, RowFollows, BytesWereStored;
  }

  /** What retention deletes follows no version that a transaction still running has read. */
  lemma RetentionSparesHeldBases(s: System, v: Version, retentionDays: int)
    requires Inv(s) && Enabled(s, Thin(v, retentionDays))
    ensures NoneHolds(s, v - 1)
  {
    assert retentionDays * DAY_MS >= DAY_MS;
    forall t | t in s.tasks
      ensures var held := HeldBase(s, s.tasks[t]); held.None? || held.value != v - 1
    {
      assert TaskInv(s, s.tasks[t]);
      assert s.rows[v] == s.log[v - 1].row;
    }
  }

  lemma ThinKeepsInv(s: System, v: Version)
    requires Inv(s) && v in s.rows && v != |s.log| && NoneHolds(s, v - 1)
    ensures Inv(s.(rows := s.rows - {v}))
  {
    hide Covers, RowFollows, BytesWereStored;
  }

  lemma WaitKeepsInv(s: System, ms: nat)
    requires Inv(s)
    ensures Inv(s.(now := s.now + ms))
  {
    hide Covers, RowFollows, BytesWereStored;
  }

  lemma EditGrowsRoom(s: System, room: nat, update: Update)
    ensures var s' := Step(s, Edit(room, update));
            && Covers(RoomState(s', room), RoomState(s, room))
            && Covers(RoomState(s', room), update)
            && Ghosts(RoomState(s', room)) == {}
  {}

  lemma CoversChains(u: Update, v: Update, w: Update)
    ensures Covers(u, u) && (Covers(u, v) && Covers(v, w) ==> Covers(u, w))
  {}

  lemma EditKeepsInv(s: System, room: nat, update: Update)
    requires Inv(s)
    ensures Inv(Step(s, Edit(room, update)))
  {
    hide Covers, RowFollows, BytesWereStored, Merge, Compact;
    var s' := Step(s, Edit(room, update));
    EditGrowsRoom(s, room, update);
    forall t | t in s'.tasks ensures TaskInv(s', s'.tasks[t]) {
      var task := s.tasks[t];
      if task.Saving? || task.Merging? {
        CoversChains(RoomState(s', room), RoomState(s, room), task.state);
      }
    }
  }

  lemma SaveStepsKeepInv(s: System, e: Event)
    requires Inv(s) && Enabled(s, e)
    requires e.Edit? || e.Flush? || e.ReadForSave? || e.InsertSave?
    ensures Inv(Step(s, e))
  {
    hide Covers, MergedRow, Newest, HeadData;
    NewestIsLogLength(s);
    match e
    case Edit(room, update) => EditKeepsInv(s, room, update);
    case Flush(t, room) =>
      CoversChains(RoomState(s, room), RoomState(s, room), RoomState(s, room));
      PutKeepsInv(s, t, Saving(room, RoomState(s, room), |s.log|, 1));
    case ReadForSave(t) =>
      var task := TaskOf(s, t);
      PutKeepsInv(s, t, Merging(task.room, task.state, task.since, task.attempt, |s.log|, HeadData(s.rows), s.now));
    case InsertSave(t) =>
      var task := TaskOf(s, t);
      if task.base + 1 in s.rows {
        PutKeepsInv(s, t, AfterCollision(task));
      } else {
        InsertKeepsInv(s, t, SavedRow(task));
      }
  }

  lemma MigrationStepsKeepInv(s: System, e: Event)
    requires Inv(s) && Enabled(s, e)
    requires e.Load? || e.ReadForMigration? || e.InsertRebuild? || e.ReadWinner? || e.Fail?
    ensures Inv(Step(s, e))
  {
    hide Covers, Newest, HeadData, RowFollows, MergedRow;
    NewestIsLogLength(s);
    match e
    case Load(t, rebuilt) =>
      assert BytesWereStored(s.log, s.log[|s.log| - 1].row.data);
      PutKeepsInv(s, t, Loaded(|s.log|, s.log[|s.log| - 1].row.data, rebuilt));
    case ReadForMigration(t) =>
      var task := TaskOf(s, t);
      PutKeepsInv(s, t,
                  if |s.log| > task.base then Idle
                  else Persisting(task.base, task.original, task.rebuilt, |s.log|, s.now));
    case InsertRebuild(t) =>
      var task := TaskOf(s, t);
      if task.locked + 1 in s.rows {
        PutKeepsInv(s, t, Collided(task.base, task.original));
      } else {
        InsertKeepsInv(s, t, Row(task.rebuilt, task.base, Rebuilt, task.at));
      }
    case ReadWinner(t) => PutKeepsInv(s, t, Idle);
    case Fail(t) => PutKeepsInv(s, t, Idle);
  }

  /** Every step of every task, at any point of any interleaving, keeps the ledger sound. */
  lemma StepKeepsInv(s: System, e: Event)
    requires Inv(s) && Enabled(s, e)
    ensures Inv(Step(s, e))
  {
    hide Inv, NoneHolds;
    NewestBounds(s);
    match e
    case Thin(v, days) =>
      RetentionSparesHeldBases(s, v, days);
      ThinKeepsInv(s, v);
    case Wait(ms) => WaitKeepsInv(s, ms);
    case Edit(_, _) => SaveStepsKeepInv(s, e);
    case Flush(_, _) => SaveStepsKeepInv(s, e);
    case ReadForSave(_) => SaveStepsKeepInv(s, e);
    case InsertSave(_) => SaveStepsKeepInv(s, e);
    case _ => MigrationStepsKeepInv(s, e);
  }

  lemma {:induction false} RunKeepsInv(s: System, run: seq<Event>)
    requires Inv(s) && Legal(s, run)
    ensures Inv(Exec(s, run))
    decreases |run|
  {
    if run != [] {
      StepKeepsInv(s, run[0]);
      RunKeepsInv(Step(s, run[0]), run[1..]);
    }
  }

  // ----- appending on the newest row -----

  lemma MergedRowCovers(head: Option<Update>, state: Update)
    ensures Covers(MergedRow(head, state), state)
    ensures head.Some? ==> Covers(MergedRow(head, state), head.value)
    ensures Ghosts(MergedRow(head, state)) == {}
  {}

  /**
   However stale the locked read, a save that gets past the unique key lands directly on
   the newest row and contains it. One that does not has been overtaken, and a flush is
   dropped only after at least two rows have landed since its state was taken.
   */
  lemma SaveLandsOnTheNewestRow(s: System, t: nat)
    requires Inv(s) && Enabled(s, InsertSave(t))
    ensures var task, s' := TaskOf(s, t), Step(s, InsertSave(t));
            if task.base + 1 in s.rows then
              && s'.rows == s.rows && s'.log == s.log
              && task.base < Newest(s.rows)
              && (TaskOf(s', t).Idle? <==> task.attempt == 2)
              && (TaskOf(s', t).Idle? ==> Newest(s.rows) >= task.since + 2)
            else
              && task.base == Newest(s.rows) && Newest(s'.rows) == task.base + 1
              && HeadData(s'.rows).Some?
              && Covers(HeadData(s'.rows).value, task.state)
              && (HeadData(s.rows).Some? ==> Covers(HeadData(s'.rows).value, HeadData(s.rows).value))
              && Ghosts(HeadData(s'.rows).value) == {}
  {
    NewestIsLogLength(s);
    StepKeepsInv(s, InsertSave(t));
    NewestIsLogLength(Step(s, InsertSave(t)));
    var task := TaskOf(s, t);
    MergedRowCovers(task.head, task.state);
  }

  lemma StepExtendsLog(s: System, e: Event)
    requires Inv(s) && Enabled(s, e)
    ensures s.log <= Step(s, e).log
  {}

  lemma {:induction false} RunExtendsLog(s: System, run: seq<Event>)
    requires Inv(s) && Legal(s, run)
    ensures s.log <= Exec(s, run).log
    decreases |run|
  {
    if run != [] {
      StepExtendsLog(s, run[0]);
      StepKeepsInv(s, run[0]);
      RunExtendsLog(Step(s, run[0]), run[1..]);
    }
  }

  lemma {:induction false} LogDataGrows(log: seq<Appended>, i: nat, j: nat)
    requires i <= j < |log| && forall k | 0 <= k < |log| :: RowFollows(log, k)
    requires forall k | i < k <= j :: log[k].row.source.Saved?
    ensures Covers(log[j].row.data, log[i].row.data)
    ensures log[i].row.source.Saved? ==> Covers(log[j].row.data, log[i].row.source.state)
    decreases j - i
  {
    hide MergedRow;
    if log[j].row.source.Saved? {
      assert RowFollows(log, j);
      MergedRowCovers(if j == 0 then None else Some(log[j - 1].row.data), log[j].row.source.state);
    }
    if i < j {
      LogDataGrows(log, i, j - 1);
    }
  }

  predicate NoRebuildAfter(log: seq<Appended>, i: nat) {
    forall k | i < k < |log| :: log[k].row.source.Saved?
  }

  /**
   The newest row only ever gains, but for a schema rebuild: it contains every row inserted
   since the last one, that rebuild too, and all that each save among them carried.
   */
  lemma HeadOnlyGrows(s: System, run: seq<Event>)
    requires Inv(s) && Legal(s, run)
    ensures var s', head := Exec(s, run), HeadData(Exec(s, run).rows);
            && Newest(s'.rows) >= Newest(s.rows)
            && (s.rows != map[] && NoRebuildAfter(s'.log, |s.log| - 1) ==>
                  head.Some? && Covers(head.value, HeadData(s.rows).value))
            && forall k | 0 <= k < |s'.log| && NoRebuildAfter(s'.log, k) ::
                 var row := s'.log[k].row;
                 && head.Some? && Covers(head.value, row.data)
                 && (row.source.Saved? ==> Covers(head.value, row.source.state))
  {
    hide Covers, MergedRow, Newest, HeadData, TaskInv;
    var s' := Exec(s, run);
    RunKeepsInv(s, run);
    RunExtendsLog(s, run);
    NewestIsLogLength(s);
    NewestIsLogLength(s');
    forall k | 0 <= k < |s'.log| && NoRebuildAfter(s'.log, k)
      ensures Covers(s'.log[|s'.log| - 1].row.data, s'.log[k].row.data)
      ensures var row := s'.log[k].row; row.source.Saved? ==> Covers(s'.log[|s'.log| - 1].row.data, row.source.state)
    {
      LogDataGrows(s'.log, k, |s'.log| - 1);
    }
    if s.rows != map[] && NoRebuildAfter(s'.log, |s.log| - 1) {
      assert s'.log[|s.log| - 1] == s.log[|s.log| - 1];
    }
  }

  /** What a row brought: the state saved, or all of a rebuild. */
  function Contribution(row: Row): Update {
    match row.source
    case Saved(_, state) => state
    case Rebuilt => row.data
  }

  /** The last rebuild's place in the log, or the first row's when there was none. */
  function LastRebuild(log: seq<Appended>): (i: nat)
    requires log != []
    ensures i < |log| && NoRebuildAfter(log, i) && (i == 0 || log[i].row.source.Rebuilt?)
  {
    var last := |log| - 1;
    if last == 0 || log[last].row.source.Rebuilt? then last else LastRebuild(log[..last])
  }

  function ContributionsFrom(log: seq<Appended>, i: nat): (states: seq<Update>)
    requires i <= |log|
    ensures |states| == |log| - i
    ensures forall k | 0 <= k < |states| :: states[k] == Contribution(log[i + k].row)
  {
    seq(|log| - i, k requires 0 <= k < |log| - i => Contribution(log[i + k].row))
  }

  /** A row saved after the last rebuild is what saving that rebuild and every state since would leave. */
  lemma {:induction false} LogIsAFold(log: seq<Appended>, i: nat, n: nat)
    requires i < n <= |log| && forall k | 0 <= k < |log| :: RowFollows(log, k)
    requires NoRebuildAfter(log, i) && (i == 0 || log[i].row.source.Rebuilt?) && log[n - 1].row.source.Saved?
    ensures log[n - 1].row.data == Stored(ContributionsFrom(log, i)[..n - i])
    decreases n
  {
    hide Append, StripSnapshotMetadata;
    var states := ContributionsFrom(log, i)[..n - i];
    assert RowFollows(log, n - 1);
    if n > i + 1 {
      var before := ContributionsFrom(log, i)[..n - 1 - i];
      assert states[..|states| - 1] == before;
      var state := states[|states| - 1];
      assert log[n - 1].row.data == Append(log[n - 2].row.data, state);
      if log[n - 2].row.source.Saved? {
        LogIsAFold(log, i, n - 1);
      } else {
        assert before == [log[n - 2].row.data];
        AppendStripsTheHead(log[n - 2].row.data, state);
      }
    }
  }

  /** Every update a run integrates, and every rebuild it starts, says of each item what its author wrote there. */
  ghost predicate AuthenticEdits(run: seq<Event>, origin: Id -> Content) {
    forall e | e in run :: BringsAuthentic(e, origin)
  }

  ghost predicate BringsAuthentic(e: Event, origin: Id -> Content) {
    (e.Edit? ==> Authentic(e.update, origin)) && (e.Load? ==> Authentic(e.rebuilt, origin))
  }

  /** So does every state a room holds, a task is to insert, or a row has brought. */
  ghost predicate AuthenticStates(s: System, origin: Id -> Content) {
    && (forall r | r in s.rooms :: Authentic(s.rooms[r], origin))
    && (forall t | t in s.tasks :: TaskIsAuthentic(s.tasks[t], origin))
    && (forall k | 0 <= k < |s.log| :: RowIsAuthentic(s.log[k].row, origin))
  }

  ghost predicate TaskIsAuthentic(task: Task, origin: Id -> Content) {
    && (task.Saving? || task.Merging? ==> Authentic(task.state, origin))
    && (task.Loaded? || task.Persisting? ==> Authentic(task.rebuilt, origin))
  }

  ghost predicate RowIsAuthentic(row: Row, origin: Id -> Content) {
    Authentic(Contribution(row), origin)
  }

  lemma RoomIsAuthentic(s: System, room: nat, origin: Id -> Content)
    requires AuthenticStates(s, origin)
    ensures Authentic(RoomState(s, room), origin)
  {}

  lemma EditKeepsAuthentic(s: System, room: nat, update: Update, origin: Id -> Content)
    requires AuthenticStates(s, origin) && Authentic(update, origin)
    ensures AuthenticStates(Step(s, Edit(room, update)), origin)
  {
    hide Authentic, Merge, Compact, RoomState;
    RoomIsAuthentic(s, room, origin);
    MergeKeepsAuthentic(RoomState(s, room), update, origin);
    CompactKeepsAuthentic(Merge(RoomState(s, room), update), origin);
  }

  lemma StepKeepsAuthentic(s: System, e: Event, origin: Id -> Content)
    requires AuthenticStates(s, origin) && Enabled(s, e) && BringsAuthentic(e, origin)
    ensures AuthenticStates(Step(s, e), origin)
  {
    hide Authentic, Newest, HeadData, MergedRow, RoomState, NoneHolds;
    if e.Edit? {
      EditKeepsAuthentic(s, e.room, e.update, origin);
    } else if e.Flush? {
      RoomIsAuthentic(s, e.room, origin);
    } else if e.InsertSave? || e.InsertRebuild? || e.ReadForSave? || e.ReadForMigration? {
      assert TaskIsAuthentic(TaskOf(s, e.task), origin);
    }
  }

  lemma {:induction false} RunKeepsAuthentic(s: System, run: seq<Event>, origin: Id -> Content)
    requires Legal(s, run) && AuthenticStates(s, origin) && AuthenticEdits(run, origin)
    ensures AuthenticStates(Exec(s, run), origin)
    decreases |run|
  {
    hide AuthenticStates, Step, Enabled;
    if run != [] {
      StepKeepsAuthentic(s, run[0], origin);
      RunKeepsAuthentic(Step(s, run[0]), run[1..], origin);
    }
  }

  lemma FoldShowsTheUnion(log: seq<Appended>, origin: Id -> Content)
    requires log != [] && forall k | 0 <= k < |log| :: RowFollows(log, k)
    requires forall k | 0 <= k < |log| :: RowIsAuthentic(log[k].row, origin)
    ensures var states, data := ContributionsFrom(log, LastRebuild(log)), log[|log| - 1].row.data;
            && (log[|log| - 1].row.source.Saved? ==> Ghosts(data) == {})
            && forall id :: id in Visible(data) <==>
                            && HeldBySome(states, id) && !DeletedBySome(states, id)
                            && (log[|log| - 1].row.source.Rebuilt? || !IsTransient(origin(id)))
  {
    hide RowFollows, Authentic, Stored;
    var i := LastRebuild(log);
    var states, data := ContributionsFrom(log, i), log[|log| - 1].row.data;
    if log[|log| - 1].row.source.Saved? {
      hide Visible, Ghosts, HeldBySome, DeletedBySome, IsTransient;
      forall k | 0 <= k < |states| ensures Authentic(states[k], origin) {
        assert RowIsAuthentic(log[i + k].row, origin);
      }
      LogIsAFold(log, i, |log|);
      assert states[..|log| - i] == states;
      StoredShowsTheUnion(states, origin);
    } else {
      assert i == |log| - 1 && states == [data];
      assert forall id :: HeldBySome(states, id) <==> id in Live(data) by {
        assert states[0] == data;
      }
      assert forall id :: DeletedBySome(states, id) <==> id in data.deletes by {
        assert states[0] == data;
      }
    }
  }

  /**
   A reader of the newest row, after any interleaving of any replicas' saves and rebuilds,
   sees exactly the last rebuild, if any, and everything saved since, without the transient
   metadata once something was saved; and a saved row holds no deleted prose.
   */
  lemma HeadShowsEverySave(run: seq<Event>, origin: Id -> Content)
    requires Legal(INITIAL, run) && Exec(INITIAL, run).rows != map[] && AuthenticEdits(run, origin)
    ensures var s := Exec(INITIAL, run);
            && s.log != []
            && var states, head, last := ContributionsFrom(s.log, LastRebuild(s.log)), HeadData(s.rows).value,
                                         s.log[|s.log| - 1].row;
               && (last.source.Saved? ==> Ghosts(head) == {})
               && forall id :: id in Visible(head) <==>
                               && HeldBySome(states, id) && !DeletedBySome(states, id)
                               && (last.source.Rebuilt? || !IsTransient(origin(id)))
  {
    hide Step, Enabled, Newest, HeadData, TaskInv, TaskIsAuthentic, MergedRow, Authentic, Visible, Ghosts, HeldBySome,
      DeletedBySome, IsTransient, Exec, Legal, RowFollows, RowIsAuthentic, LastRebuild, ContributionsFrom;
    var s := Exec(INITIAL, run);
    RunKeepsInv(INITIAL, run);
    RunKeepsAuthentic(INITIAL, run, origin);
    NewestIsLogLength(s);
    FoldShowsTheUnion(s.log, origin);
  }

  // ----- a dropped flush -----

  predicate IsSaveOf(task: Task, room: nat) {
    (task.Saving? || task.Merging?) && task.room == room
  }

  predicate RoomCarries(s: System, room: nat, delta: Update) {
    && Covers(RoomState(s, room), delta)
    && forall t | t in s.tasks :: IsSaveOf(s.tasks[t], room) ==> Covers(s.tasks[t].state, delta)
  }

  lemma EditCarries(s: System, room: nat, update: Update, carrying: nat, delta: Update)
    requires RoomCarries(s, carrying, delta)
    ensures RoomCarries(Step(s, Edit(room, update)), carrying, delta)
  {
    hide Covers, Merge, Compact;
    EditGrowsRoom(s, room, update);
    CoversChains(RoomState(Step(s, Edit(room, update)), room), RoomState(s, room), delta);
  }

  lemma InsertCarries(s: System, t: nat, room: nat, delta: Update)
    requires Inv(s) && Enabled(s, InsertSave(t)) && RoomCarries(s, room, delta) && TaskOf(s, t).room == room
    ensures Covers(SavedRow(TaskOf(s, t)).data, delta)
  {
    hide Covers, MergedRow, Inv, HeldBase;
    var task := TaskOf(s, t);
    MergedRowCovers(task.head, task.state);
    CoversChains(MergedRow(task.head, task.state), task.state, delta);
  }

  lemma StepCarries(s: System, e: Event, room: nat, delta: Update)
    requires Inv(s) && Enabled(s, e) && RoomCarries(s, room, delta)
    ensures var s' := Step(s, e);
            && RoomCarries(s', room, delta)
            && forall k | |s.log| <= k < |s'.log| ::
                 (s'.log[k].row.source.Saved? && s'.log[k].row.source.room == room ==>
                    Covers(s'.log[k].row.data, delta))
  {
    hide Covers, MergedRow, Inv, Newest, HeadData, HeldBase;
    if e.Edit? {
      EditCarries(s, e.room, e.update, room, delta);
    } else if e.InsertSave? && TaskOf(s, e.task).room == room {
      InsertCarries(s, e.task, room, delta);
    }
  }

  lemma {:induction false} RunCarries(s: System, run: seq<Event>, room: nat, delta: Update)
    requires Inv(s) && Legal(s, run) && RoomCarries(s, room, delta)
    ensures var s' := Exec(s, run);
            forall k | |s.log| <= k < |s'.log| ::
              s'.log[k].row.source.Saved? && s'.log[k].row.source.room == room ==>
                Covers(s'.log[k].row.data, delta)
    decreases |run|
  {
    if run != [] {
      var s1 := Step(s, run[0]);
      StepKeepsInv(s, run[0]);
      StepCarries(s, run[0], room, delta);
      StepExtendsLog(s, run[0]);
      RunCarries(s1, run[1..], room, delta);
      RunExtendsLog(s1, run[1..]);
    }
  }

  /**
   A flush dropped after its second collision is not lost while its room lives: every row
   the room manages to save later contains the dropped state. Rooms flush one at a time.
   */
  lemma DroppedFlushIsCarried(s: System, t: nat, run: seq<Event>)
    requires Inv(s) && Enabled(s, InsertSave(t))
    requires TaskOf(s, t).attempt == 2 && TaskOf(s, t).base + 1 in s.rows
    requires forall u | u in s.tasks && u != t :: !IsSaveOf(s.tasks[u], TaskOf(s, t).room)
    requires Legal(Step(s, InsertSave(t)), run)
    ensures var task, s' := TaskOf(s, t), Exec(Step(s, InsertSave(t)), run);
            forall k | |s.log| <= k < |s'.log| ::
              s'.log[k].row.source.Saved? && s'.log[k].row.source.room == task.room ==>
                Covers(s'.log[k].row.data, task.state)
  {
    StepKeepsInv(s, InsertSave(t));
    RunCarries(Step(s, InsertSave(t)), run, TaskOf(s, t).room, TaskOf(s, t).state);
  }

  // ----- the on-load schema migration -----

  /** However many replicas load one old-schema base at once, a base is rebuilt at most once. */
  lemma OneRebuildPerBase(run: seq<Event>)
    requires Legal(INITIAL, run)
    ensures var log := Exec(INITIAL, run).log;
            && (forall i | 0 <= i < |log| && log[i].row.source.Rebuilt? :: log[i].version == log[i].row.base + 1)
            && forall i, j | 0 <= i < |log| && 0 <= j < |log| ::
                 log[i].row.source.Rebuilt? && log[j].row.source.Rebuilt? && log[i].row.base == log[j].row.base ==>
                   i == j
  {
    RunKeepsInv(INITIAL, run);
    var log := Exec(INITIAL, run).log;
    forall i | 0 <= i < |log| ensures log[i].row.base == i && log[i].version == i + 1 {
      assert RowFollows(log, i);
    }
  }

  predicate IsLoad(task: Task) {
    task.Loaded? || task.Persisting? || task.Collided?
  }

  function ActingTask(e: Event): Option<nat> {
    match e
    case Edit(_, _) => None
    case Thin(_, _) => None
    case Wait(_) => None
    case Flush(t, _) => Some(t)
    case ReadForSave(t) => Some(t)
    case InsertSave(t) => Some(t)
    case Load(t, _) => Some(t)
    case ReadForMigration(t) => Some(t)
    case InsertRebuild(t) => Some(t)
    case ReadWinner(t) => Some(t)
    case Fail(t) => Some(t)
  }

  lemma ServedExactlyWhenItEnds(s: System, e: Event)
    requires Inv(s) && Enabled(s, e) && ActingTask(e).Some?
    ensures var t := ActingTask(e).value;
            IsLoad(TaskOf(s, t)) && !IsLoad(TaskOf(Step(s, e), t)) <==> Served(s, e).Some?
  {
    hide Covers, RowFollows, MergedRow, NoneHolds, BytesWereStored;
  }

  lemma FailedLoadsKeepTheirRow(s: System, t: nat)
    requires Inv(s) && Enabled(s, Fail(t)) && IsLoad(TaskOf(s, t))
    ensures BytesWereStored(s.log, TaskOf(s, t).original)
  {
    hide Covers, RowFollows, MergedRow, BytesWereStored;
    assert TaskInv(s, s.tasks[t]);
  }

  lemma EndedLoadsServeTheHead(s: System, e: Event)
    requires Inv(s) && Enabled(s, e) && !e.Fail? && Served(s, e).Some?
    ensures var t, s' := ActingTask(e).value, Step(s, e);
            && s'.log != [] && Served(s, e) == Some(s'.log[|s'.log| - 1].row.data)
            && |s'.log| > TaskOf(s, t).base
  {
    hide Covers, RowFollows, MergedRow, NoneHolds, BytesWereStored;
    NewestIsLogLength(s);
    assert TaskInv(s, s.tasks[ActingTask(e).value]);
  }

  /**
   A load ends exactly when it is served, and never with bytes the ledger has not held. If
   it did not fail it is served the newest row as of that step, one newer than its base:
   its own rebuild, the row that overtook it, or the winner of a collision. If it failed it
   is served the row it loaded.
   */
  lemma LoadsServeStoredBytes(s: System, e: Event)
    requires Inv(s) && Enabled(s, e) && ActingTask(e).Some?
    ensures var t, s' := ActingTask(e).value, Step(s, e);
            && (IsLoad(TaskOf(s, t)) && !IsLoad(TaskOf(s', t)) <==> Served(s, e).Some?)
            && (Served(s, e).Some? ==>
                  && BytesWereStored(s'.log, Served(s, e).value)
                  && (if e.Fail? then Served(s, e).value == TaskOf(s, t).original
                      else Served(s, e) == HeadData(s'.rows) && Newest(s'.rows) > TaskOf(s, t).base))
  {
    hide TaskInv, RowFollows, MergedRow, NoneHolds, Newest, HeadData;
    ServedExactlyWhenItEnds(s, e);
    if Served(s, e).Some? {
      if e.Fail? {
        FailedLoadsKeepTheirRow(s, e.task);
      } else {
        EndedLoadsServeTheHead(s, e);
        StepKeepsInv(s, e);
        NewestIsLogLength(Step(s, e));
      }
    }
  }

  // ----- a rebuild is the one its load computed -----

  lemma {:induction false} RunOn(s: System, run: seq<Event>, e: Event)
    requires Legal(s, run + [e])
    ensures Legal(s, run) && Enabled(Exec(s, run), e) && Exec(s, run + [e]) == Step(Exec(s, run), e)
    decreases |run|
  {
    hide Enabled, Step;
    if run == [] {
      assert run + [e] == [e] && [e][1..] == [];
      assert Exec(Step(s, e), []) == Step(s, e);
    } else {
      assert (run + [e])[0] == run[0] && (run + [e])[1..] == run[1..] + [e];
      RunOn(Step(s, run[0]), run[1..], e);
    }
  }

  lemma {:induction false} RunOnIsLegal(s: System, run: seq<Event>, e: Event)
    requires Legal(s, run) && Enabled(Exec(s, run), e)
    ensures Legal(s, run + [e])
    decreases |run|
  {
    hide Enabled, Step;
    if run == [] {
      assert run + [e] == [e] && [e][1..] == [];
    } else {
      assert (run + [e])[0] == run[0] && (run + [e])[1..] == run[1..] + [e];
      RunOnIsLegal(Step(s, run[0]), run[1..], e);
    }
  }

  lemma {:induction false} StartIsLegal(s: System, run: seq<Event>, n: nat)
    requires Legal(s, run) && n <= |run|
    ensures Legal(s, run[..n])
    decreases |run|
  {
    hide Enabled, Step;
    if n == |run| {
      assert run[..n] == run;
    } else {
      var before, last := run[..|run| - 1], run[|run| - 1];
      assert run == before + [last] && run[..n] == before[..n];
      RunOn(s, before, last);
      StartIsLegal(s, before, n);
    }
  }

  /** The rows as they were before the n-th event of a run from the empty table. */
  ghost function Before(run: seq<Event>, n: nat): System
    requires Legal(INITIAL, run) && n <= |run|
  {
    StartIsLegal(INITIAL, run, n);
    Exec(INITIAL, run[..n])
  }

  /** Where in the run this task last took a load. */
  function LastLoad(run: seq<Event>, t: nat): (at: Option<nat>)
    ensures at.Some? ==> at.value < |run| && run[at.value].Load? && run[at.value].task == t
    ensures at.Some? ==> forall i | at.value < i < |run| :: !(run[i].Load? && run[i].task == t)
  {
    if run == [] then None
    else
      var last := |run| - 1;
      if run[last].Load? && run[last].task == t then Some(last) else LastLoad(run[..last], t)
  }

  /** What a loading task holds is what its last load in the run was given and found. */
  ghost predicate IsFromLoad(run: seq<Event>, t: nat, task: Task)
    requires Legal(INITIAL, run)
  {
    IsLoad(task) ==>
      var at := LastLoad(run, t);
      && at.Some?
      && task.base == Newest(Before(run, at.value).rows)
      && Some(task.original) == HeadData(Before(run, at.value).rows)
      && (!task.Collided? ==> task.rebuilt == run[at.value].rebuilt)
  }

  lemma BeforeStays(run: seq<Event>, e: Event, n: nat)
    requires Legal(INITIAL, run + [e]) && n <= |run|
    ensures Legal(INITIAL, run) && Before(run + [e], n) == Before(run, n)
  {
    hide Exec, Legal;
    RunOn(INITIAL, run, e);
    assert (run + [e])[..n] == run[..n];
  }

  lemma TaskIsFromLoad(run: seq<Event>, e: Event, t: nat)
    requires Legal(INITIAL, run) && Enabled(Exec(INITIAL, run), e) && Legal(INITIAL, run + [e])
    requires IsFromLoad(run, t, TaskOf(Exec(INITIAL, run), t))
    ensures IsFromLoad(run + [e], t, TaskOf(Exec(INITIAL, run + [e]), t))
  {
    hide Exec, Legal, Newest, RoomState, MergedRow;
    RunOn(INITIAL, run, e);
    assert (run + [e])[..|run|] == run;
    if e.Load? && e.task == t {
      BeforeStays(run, e, |run|);
      assert run[..|run|] == run;
    } else if LastLoad(run, t).Some? {
      BeforeStays(run, e, LastLoad(run, t).value);
    }
  }

  lemma {:induction false} TasksAreFromLoads(run: seq<Event>, t: nat)
    requires Legal(INITIAL, run)
    ensures IsFromLoad(run, t, TaskOf(Exec(INITIAL, run), t))
    decreases |run|
  {
    hide IsFromLoad, Step, Enabled;
    if run == [] {
      NoLoad(t);
    } else {
      var before, last := run[..|run| - 1], run[|run| - 1];
      assert run == before + [last];
      RunOn(INITIAL, before, last);
      TasksAreFromLoads(before, t);
      TaskIsFromLoad(before, last, t);
    }
  }

  lemma NoLoad(t: nat)
    ensures IsFromLoad([], t, TaskOf(Exec(INITIAL, []), t))
  {}

  /** The i-th event inserts the k-th row of the log: what its task's last load was given, on the newest row that load found. */
  ghost predicate Inserts(run: seq<Event>, i: nat, k: nat, row: Row)
    requires Legal(INITIAL, run)
  {
    && i < |run| && run[i].InsertRebuild? && |Before(run, i).log| == k
    && var at := LastLoad(run[..i], run[i].task);
       && at.Some? && row.data == run[at.value].rebuilt && row.base == Newest(Before(run, at.value).rows)
  }

  lemma InsertsStays(run: seq<Event>, e: Event, i: nat, k: nat, row: Row)
    requires Legal(INITIAL, run) && Legal(INITIAL, run + [e]) && Inserts(run, i, k, row)
    ensures Inserts(run + [e], i, k, row)
  {
    hide Exec, Legal, Newest;
    assert (run + [e])[..i] == run[..i];
    BeforeStays(run, e, i);
    BeforeStays(run, e, LastLoad(run[..i], run[i].task).value);
  }

  lemma LastInserts(run: seq<Event>, e: Event)
    requires Legal(INITIAL, run + [e]) && Legal(INITIAL, run)
    ensures var log, log' := Exec(INITIAL, run).log, Exec(INITIAL, run + [e]).log;
            && log <= log'
            && forall k | |log| <= k < |log'| && log'[k].row.source.Rebuilt? ::
                 Inserts(run + [e], |run|, k, log'[k].row)
  {
    hide Exec, Legal, Newest, HeadData, MergedRow, RoomState;
    RunOn(INITIAL, run, e);
    if e.InsertRebuild? {
      TasksAreFromLoads(run, e.task);
      assert (run + [e])[..|run|] == run && run[..|run|] == run;
      BeforeStays(run, e, |run|);
      BeforeStays(run, e, LastLoad(run, e.task).value);
    }
  }

  /**
   Over every run, a rebuilt row holds what the last load of the task that inserted it had
   computed, on the row that was newest when that load began.
   */
  lemma {:induction false} RebuildsAreTheLoadsOwn(run: seq<Event>, k: nat)
    requires Legal(INITIAL, run) && k < |Exec(INITIAL, run).log| && Exec(INITIAL, run).log[k].row.source.Rebuilt?
    ensures exists i: nat :: Inserts(run, i, k, Exec(INITIAL, run).log[k].row)
    decreases |run|
  {
    hide Inserts, Step, Enabled;
    if run != [] {
      var before, last := run[..|run| - 1], run[|run| - 1];
      assert run == before + [last];
      RunOn(INITIAL, before, last);
      LastInserts(before, last);
      if k < |Exec(INITIAL, before).log| {
        RebuildsAreTheLoadsOwn(before, k);
        var i: nat :| Inserts(before, i, k, Exec(INITIAL, before).log[k].row);
        InsertsStays(before, last, i, k, Exec(INITIAL, before).log[k].row);
        assert Inserts(run, i, k, Exec(INITIAL, run).log[k].row);
      } else {
        assert Inserts(run, |before|, k, Exec(INITIAL, run).log[k].row);
      }
    }
  }

  /**
   The insert that ends a load: served, and inserted, is exactly what that load computed, if
   no row has been inserted since it began. Else it is neither.
   */
  lemma LoadIsServedItsRebuild(run: seq<Event>, t: nat)
    requires Legal(INITIAL, run + [InsertRebuild(t)])
    ensures Legal(INITIAL, run) && Enabled(Exec(INITIAL, run), InsertRebuild(t)) && LastLoad(run, t).Some?
    ensures var at, s, s' := LastLoad(run, t).value, Exec(INITIAL, run), Exec(INITIAL, run + [InsertRebuild(t)]);
            if |s.log| == |Before(run, at).log| then
              && Served(s, InsertRebuild(t)) == Some(run[at].rebuilt)
              && |s'.log| == |s.log| + 1 && s'.log[|s.log|].row.data == run[at].rebuilt
              && HeadData(s'.rows) == Some(run[at].rebuilt)
            else Served(s, InsertRebuild(t)).None? && s'.log == s.log && s'.rows == s.rows
  {
    hide Exec, Legal, Newest, HeadData;
    var e := InsertRebuild(t);
    RunOn(INITIAL, run, e);
    var s := Exec(INITIAL, run);
    RunKeepsInv(INITIAL, run);
    TasksAreFromLoads(run, t);
    var at := LastLoad(run, t).value;
    StartIsLegal(INITIAL, run, at);
    RunKeepsInv(INITIAL, run[..at]);
    NewestIsLogLength(Before(run, at));
    assert TaskInv(s, s.tasks[t]);
    StepKeepsInv(s, e);
    NewestIsLogLength(s);
    NewestIsLogLength(Step(s, e));
  }

  /** A load that fails is served the row that was newest when it began. */
  lemma FailedLoadServesWhatItLoaded(run: seq<Event>, t: nat)
    requires Legal(INITIAL, run + [Fail(t)]) && Legal(INITIAL, run) && IsLoad(TaskOf(Exec(INITIAL, run), t))
    ensures Enabled(Exec(INITIAL, run), Fail(t)) && LastLoad(run, t).Some?
    ensures Served(Exec(INITIAL, run), Fail(t)) == HeadData(Before(run, LastLoad(run, t).value).rows)
  {
    hide Exec, Legal, Newest, HeadData;
    RunOn(INITIAL, run, Fail(t));
    TasksAreFromLoads(run, t);
  }

  /** And nobody else acting, a load of a document that has a row gets that far. */
  lemma UndisturbedLoad(run: seq<Event>, t: nat, rebuilt: Update)
    requires Legal(INITIAL, run) && Exec(INITIAL, run).rows != map[] && TaskOf(Exec(INITIAL, run), t).Idle?
    ensures var loaded := run + [Load(t, rebuilt)];
            var locked := loaded + [ReadForMigration(t)];
            && Legal(INITIAL, locked + [InsertRebuild(t)]) && Legal(INITIAL, locked)
            && LastLoad(locked, t) == Some(|run|)
            && |Exec(INITIAL, locked).log| == |Before(locked, |run|).log|
            && HeadData(Exec(INITIAL, locked + [InsertRebuild(t)]).rows) == Some(rebuilt)
  {
    hide Exec, Legal, HeadData, Newest;
    var loaded := run + [Load(t, rebuilt)];
    var locked := loaded + [ReadForMigration(t)];
    RunOnIsLegal(INITIAL, run, Load(t, rebuilt));
    RunOn(INITIAL, run, Load(t, rebuilt));
    RunOnIsLegal(INITIAL, loaded, ReadForMigration(t));
    RunOn(INITIAL, loaded, ReadForMigration(t));
    assert locked[..|locked| - 1] == loaded && locked[..|run|] == run;
    RunOnIsLegal(INITIAL, locked, InsertRebuild(t));
    LoadIsServedItsRebuild(locked, t);
  }

  // ----- a save is of what its flush took -----

  /** Where in the run this task last took a flush. */
  function LastFlush(run: seq<Event>, t: nat): (at: Option<nat>)
    ensures at.Some? ==> at.value < |run| && run[at.value].Flush? && run[at.value].task == t
    ensures at.Some? ==> forall i | at.value < i < |run| :: !(run[i].Flush? && run[i].task == t)
  {
    if run == [] then None
    else
      var last := |run| - 1;
      if run[last].Flush? && run[last].task == t then Some(last) else LastFlush(run[..last], t)
  }

  /** What a saving task carries is its room's state as its last flush in the run found it. */
  ghost predicate IsFromFlush(run: seq<Event>, t: nat, task: Task)
    requires Legal(INITIAL, run)
  {
    task.Saving? || task.Merging? ==>
      var at := LastFlush(run, t);
      && at.Some?
      && task.room == run[at.value].room
      && task.state == RoomState(Before(run, at.value), task.room)
      && task.since == |Before(run, at.value).log|
  }

  lemma SaveIsFromFlush(run: seq<Event>, e: Event, t: nat)
    requires Legal(INITIAL, run) && Enabled(Exec(INITIAL, run), e) && Legal(INITIAL, run + [e])
    requires IsFromFlush(run, t, TaskOf(Exec(INITIAL, run), t)) && LogInv(Exec(INITIAL, run))
    ensures IsFromFlush(run + [e], t, TaskOf(Exec(INITIAL, run + [e]), t))
  {
    hide Exec, Legal, Newest, HeadData, RoomState, MergedRow;
    NewestIsLogLength(Exec(INITIAL, run));
    hide LogInv;
    RunOn(INITIAL, run, e);
    assert (run + [e])[..|run|] == run;
    if e.Flush? && e.task == t {
      BeforeStays(run, e, |run|);
      assert run[..|run|] == run;
    } else if LastFlush(run, t).Some? {
      BeforeStays(run, e, LastFlush(run, t).value);
    }
  }

  lemma {:induction false} SavesAreFromFlushes(run: seq<Event>, t: nat)
    requires Legal(INITIAL, run)
    ensures IsFromFlush(run, t, TaskOf(Exec(INITIAL, run), t))
    decreases |run|
  {
    hide IsFromFlush, Step, Enabled;
    if run == [] {
      NoFlush(t);
    } else {
      var before, last := run[..|run| - 1], run[|run| - 1];
      assert run == before + [last];
      RunOn(INITIAL, before, last);
      SavesAreFromFlushes(before, t);
      RunKeepsInv(INITIAL, before);
      SaveIsFromFlush(before, last, t);
    }
  }

  lemma NoFlush(t: nat)
    ensures IsFromFlush([], t, TaskOf(Exec(INITIAL, []), t))
  {}

  /**
   The insert that tries to save a flush: it adds one row, saved from the room's state as the
   flush found it, if it lands; and it gives the flush up only after two rows have landed since.
   */
  lemma FlushIsSavedOrOvertaken(run: seq<Event>, t: nat)
    requires Legal(INITIAL, run + [InsertSave(t)])
    ensures Legal(INITIAL, run) && LastFlush(run, t).Some?
    ensures var at, log, s' := LastFlush(run, t).value, Exec(INITIAL, run).log, Exec(INITIAL, run + [InsertSave(t)]);
            if |s'.log| > |log| then
              && |s'.log| == |log| + 1
              && s'.log[|log|].row.source == Saved(run[at].room, RoomState(Before(run, at), run[at].room))
            else TaskOf(s', t).Idle? ==> |log| >= |Before(run, at).log| + 2
  {
    hide Exec, Legal, Newest, HeadData, MergedRow, RoomState;
    RunOn(INITIAL, run, InsertSave(t));
    SavesAreFromFlushes(run, t);
    RunKeepsInv(INITIAL, run);
    var s := Exec(INITIAL, run);
    SaveLandsOnTheNewestRow(s, t);
    NewestIsLogLength(s);
  }

  // ----- retention beside running transactions -----

  /**
   The key collision needs the row after a held base to still exist. Deleting an old row
   is therefore safe exactly when no transaction still running has read its predecessor.
   */
  lemma ThinningIsSafeExactlyWhen(s: System, v: Version)
    requires Inv(s) && v in s.rows && v != Newest(s.rows)
    ensures Inv(s.(rows := s.rows - {v})) <==> NoneHolds(s, v - 1)
  {}

  /** What retention takes away is one old row: no other changes, nor does what readers of the newest one see. */
  lemma RetentionTakesOneRow(s: System, v: Version, retentionDays: int)
    requires Inv(s) && Enabled(s, Thin(v, retentionDays))
    ensures var s' := Step(s, Thin(v, retentionDays));
            && s'.rows == (map w | w in s.rows && w != v :: s.rows[w])
            && HeadData(s'.rows) == HeadData(s.rows) && s'.log == s.log
  {
    StepKeepsInv(s, Thin(v, retentionDays));
    NewestIsLogLength(s);
    NewestIsLogLength(Step(s, Thin(v, retentionDays)));
  }

  /** Any row but the newest can be taken in time. */
  lemma OldRowsCanGo(s: System, v: Version, retentionDays: int)
    requires Inv(s) && v in s.rows && v != Newest(s.rows) && retentionDays > 0
    ensures var es := [Wait(s.rows[v].lockedAt + retentionDays * DAY_MS + 1), Thin(v, retentionDays)];
            Legal(s, es) && v !in Exec(s, es).rows
  {
    hide Newest;
    var wait := Wait(s.rows[v].lockedAt + retentionDays * DAY_MS + 1);
    var later, thin := Step(s, wait), Thin(v, retentionDays);
    assert Enabled(later, thin);
    assert [wait, thin][1..] == [thin] && [thin][1..] == [];
    assert Legal(later, [thin]) && Legal(s, [wait, thin]);
    assert Exec(Step(later, thin), []) == Step(later, thin);
    assert Exec(later, [thin]) == Step(later, thin);
    assert Exec(s, [wait, thin]) == Exec(later, [thin]);
    assert v !in Step(later, thin).rows;
  }

  /** Without that, a delayed save passes the unique key below the newest row, unseen by readers. */
  lemma UnguardedThinningBuriesASave(s: System, v: Version, t: nat)
    requires Inv(s) && v in s.rows && v != Newest(s.rows)
    requires Enabled(s, InsertSave(t)) && TaskOf(s, t).base == v - 1
    ensures var thinned := s.(rows := s.rows - {v});
            var s' := Step(thinned, InsertSave(t));
            && v in s'.rows && s'.rows[v].source == Saved(TaskOf(s, t).room, TaskOf(s, t).state)
            && v < Newest(s'.rows) && HeadData(s'.rows) == HeadData(s.rows)
  {
    NewestIsLogLength(s);
    var s' := Step(s.(rows := s.rows - {v}), InsertSave(t));
    assert s'.rows.Keys == s.rows.Keys;
    assert |s.log| in s'.rows && s'.rows[|s.log|] == s.rows[|s.log|];
  }
}
