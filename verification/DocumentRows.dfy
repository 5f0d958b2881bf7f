/**
 The statements the collaboration server runs against a document's version rows, as
 updates in place. A statement is atomic, and other tasks' statements may come between two.
 */
module DocumentRows {
  import opened Prelude
  import opened YjsUpdate
  import opened VersionLedger

  datatype SaveOutcome = Committed | Retrying | Dropped

  class Documents {
    var rows: Table
    var rooms: map<nat, Update>
    var tasks: map<nat, Task>
    ghost var log: seq<Appended>
    /** The database's clock. */
    var now: nat

    ghost function View(): System
      reads this
    {
      System(rows, rooms, tasks, log, now)
    }

    constructor ()
      ensures View() == INITIAL && Inv(View())
    {
      rows, rooms, tasks, log, now := map[], map[], map[], [], 0;
    }

    /** `documents.create`: refused when the (document, version) key is taken. */
    method Create(version: Version, row: Row) returns (created: bool)
      modifies this`rows, this`log
      ensures created <==> version !in old(rows)
      ensures !created ==> rows == old(rows) && log == old(log)
      ensures created ==>
                && rows == old(rows)[version := row]
                && log == old(log) + [Appended(version, row)]
    {
      if version in rows {
        return false;
      }
      rows := rows[version := row];
      log := log + [Appended(version, row)];
      return true;
    }

    /** A live room integrates an update; its document collects deleted content as it goes. */
    method ApplyUpdate(room: nat, update: Update)
      requires Inv(View())
      modifies this`rooms
      ensures View() == Step(old(View()), Edit(room, update)) && Inv(View())
    {
      var current := if room in rooms then rooms[room] else Update(map[], {});
      rooms := rooms[room := Compact(Merge(current, update))];
      StepKeepsInv(old(View()), Edit(room, update));
    }

    /** The enqueue failed: keep the room's state, and start the direct save. */
    method BeginFallback(t: nat, room: nat)
      requires Inv(View()) && Enabled(View(), Flush(t, room))
      modifies this`tasks
      ensures View() == Step(old(View()), Flush(t, room)) && Inv(View())
    {
      var state := if room in rooms then rooms[room] else Update(map[], {});
      tasks := tasks[t := Saving(room, state, Newest(rows), 1)];
      StepKeepsInv(old(View()), Flush(t, room));
    }

    /** First half of a merged save: read the newest row, locked. */
    method LockHeadForSave(t: nat)
      requires Inv(View()) && Enabled(View(), ReadForSave(t))
      modifies this`tasks
      ensures View() == Step(old(View()), ReadForSave(t)) && Inv(View())
    {
      var Saving(room, state, since, attempt) := tasks[t];
      var version := Newest(rows);
      var head := if version == 0 then None else Some(rows[version].data);
      tasks := tasks[t := Merging(room, state, since, attempt, version, head, now)];
      StepKeepsInv(old(View()), ReadForSave(t));
    }

    /** Second half: merge raw, strip the result, insert; retry once on a collision. */
    method InsertMerged(t: nat) returns (outcome: SaveOutcome)
      requires Inv(View()) && Enabled(View(), InsertSave(t))
      modifies this`tasks, this`rows, this`log
      ensures View() == Step(old(View()), InsertSave(t)) && Inv(View())
      ensures outcome.Committed? <==> old(TaskOf(View(), t).base + 1 !in rows)
      ensures outcome.Retrying? <==> TaskOf(View(), t).Saving?
    {
      var Merging(room, state, since, attempt, base, head, at) := tasks[t];
      var data := if head.Some?
                  then StripSnapshotMetadata(Merge(head.value, state))
                  else StripSnapshotMetadata(state);
      var created := Create(if head.Some? then base + 1 else 1, Row(data, base, Saved(room, state), at));
      if created {
        outcome := Committed;
        tasks := tasks[t := Idle];
      } else if attempt == 1 {
        outcome := Retrying;
        tasks := tasks[t := Saving(room, state, since, 2)];
      } else {
        outcome := Dropped;
        tasks := tasks[t := Idle];
      }
      StepKeepsInv(old(View()), InsertSave(t));
    }

    /** The loader finds an old-schema row and rebuilds it with fresh item identities. */
    method FetchOldSchema(t: nat, rebuilt: Update)
      requires Inv(View()) && Enabled(View(), Load(t, rebuilt))
      modifies this`tasks
      ensures View() == Step(old(View()), Load(t, rebuilt)) && Inv(View())
    {
      var version := Newest(rows);
      tasks := tasks[t := Loaded(version, rows[version].data, rebuilt)];
      StepKeepsInv(old(View()), Load(t, rebuilt));
    }

    /** Re-read under lock: whoever advanced the document first is served instead. */
    method LockHeadForMigration(t: nat) returns (served: Option<Update>)
      requires Inv(View()) && Enabled(View(), ReadForMigration(t))
      modifies this`tasks
      ensures View() == Step(old(View()), ReadForMigration(t)) && Inv(View())
      ensures served == old(Served(View(), ReadForMigration(t)))
    {
      var Loaded(base, original, rebuilt) := tasks[t];
      var head := Newest(rows);
      if head > base {
        served := Some(rows[head].data);
        tasks := tasks[t := Idle];
      } else {
        served := None;
        tasks := tasks[t := Persisting(base, original, rebuilt, head, now)];
      }
      StepKeepsInv(old(View()), ReadForMigration(t));
    }

    /** Insert the rebuild on the locked head, or learn that another one won the key. */
    method PersistMigratedSnapshot(t: nat) returns (served: Option<Update>)
      requires Inv(View()) && Enabled(View(), InsertRebuild(t))
      modifies this`tasks, this`rows, this`log
      ensures View() == Step(old(View()), InsertRebuild(t)) && Inv(View())
      ensures served == old(Served(View(), InsertRebuild(t)))
    {
      var Persisting(base, original, rebuilt, locked, at) := tasks[t];
      var created := Create(locked + 1, Row(rebuilt, base, Rebuilt, at));
      if created {
        served := Some(rebuilt);
        tasks := tasks[t := Idle];
      } else {
        served := None;
        tasks := tasks[t := Collided(base, original)];
      }
      StepKeepsInv(old(View()), InsertRebuild(t));
    }

    /** After a collision the winner is the newest row; without one the load fails over. */
    method ServeWinner(t: nat) returns (served: Update)
      requires Inv(View()) && Enabled(View(), ReadWinner(t))
      modifies this`tasks
      ensures View() == Step(old(View()), ReadWinner(t)) && Inv(View())
      ensures Some(served) == old(Served(View(), ReadWinner(t)))
    {
      var version := Newest(rows);
      served := if version == 0 then tasks[t].original else rows[version].data;
      tasks := tasks[t := Idle];
      StepKeepsInv(old(View()), ReadWinner(t));
    }
  }
}
