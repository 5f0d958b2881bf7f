/**
 The one-off backfill that compacts stored rows still carrying deleted prose, run beside
 live traffic: rows may be rewritten or deleted by others at any point of the apply loop.
 */
module GhostBackfill {
  import opened Prelude
  import opened YjsUpdate

  /** A stored encoding. Re-encoding a decoded document always produces layout 0. */
  datatype Bytes = Bytes(update: Update, layout: nat)

  datatype Row = Row(id: int, data: Bytes)

  datatype Candidate = Candidate(row: Row, after: Bytes)

  type Table = map<int, Bytes>

  /** Other writers' effect on the rows: `None` deletes, `Some` rewrites. */
  type Edits = map<int, Option<Bytes>>

  datatype Interference = Interference(beforeUpdate: Edits, beforeReread: Edits)

  /** `done` candidates were tried; `halted` when a re-read diverged. */
  datatype Outcome = Outcome(rows: Table, written: nat, skipped: nat, halted: bool, done: nat)

  function CompactBytes(b: Bytes): Bytes {
    Bytes(Compact(b.update), 0)
  }

  /** Whatever bytes a document was stored in, it is re-encoded to the same ones. */
  lemma ReencodedAlike(a: Bytes, b: Bytes)
    requires a.update == b.update
    ensures CompactBytes(a) == CompactBytes(b)
  {}

  /** A rewrite must change the row, and either shrink it or remove deleted text. */
  predicate IsCandidate(data: Bytes, size: Bytes -> nat) {
    var after := CompactBytes(data);
    after != data && !(size(after) >= size(data) && Ghosts(data.update) == {})
  }

  function CandidatesOf(rows: seq<Row>, size: Bytes -> nat): seq<Candidate> {
    if rows == [] then []
    else if IsCandidate(rows[0].data, size) then
      [Candidate(rows[0], CompactBytes(rows[0].data))] + CandidatesOf(rows[1..], size)
    else CandidatesOf(rows[1..], size)
  }

  method FindCandidates(rows: seq<Row>, size: Bytes -> nat) returns (candidates: seq<Candidate>)
    ensures candidates == CandidatesOf(rows, size)
  {
    candidates := [];
    for i := 0 to |rows|
      invariant candidates + CandidatesOf(rows[i..], size) == CandidatesOf(rows, size)
    {
      var row := rows[i];
      var after := CompactBytes(row.data);
      assert rows[i..] == [row] + rows[i + 1..];
      if after == row.data {
        continue;
      }
      if size(after) >= size(row.data) && Ghosts(row.data.update) == {} {
        continue;
      }
      candidates := candidates + [Candidate(row, after)];
    }
  }

  predicate Guarded(c: Candidate) {
    c.after == CompactBytes(c.row.data)
  }

  lemma {:induction false} CandidatesAreGuarded(rows: seq<Row>, size: Bytes -> nat)
    ensures forall c | c in CandidatesOf(rows, size) :: Guarded(c) && c.row in rows && IsCandidate(c.row.data, size)
    ensures forall row | row in rows && IsCandidate(row.data, size) ::
              Candidate(row, CompactBytes(row.data)) in CandidatesOf(rows, size)
  {
    if rows != [] {
      CandidatesAreGuarded(rows[1..], size);
    }
  }

  /** A scanned row is rewritten exactly when that changes it, and makes it smaller or erases deleted prose. */
  lemma CandidateExactlyWhen(rows: seq<Row>, row: Row, size: Bytes -> nat)
    requires row in rows
    ensures (exists c | c in CandidatesOf(rows, size) :: c.row == row) <==>
            && CompactBytes(row.data) != row.data
            && (size(CompactBytes(row.data)) < size(row.data) || Ghosts(row.data.update) != {})
  {
    CandidatesAreGuarded(rows, size);
  }

  /**
   The per-row safety checks before the apply can never refuse: each candidate keeps its
   visible state, re-encodes to itself and loses all its ghosts, and every row that
   carries deleted prose is a candidate, whatever the sizes are. That a candidate re-encodes to
   itself rests on re-encoding always giving one layout.
   */
  lemma PerRowSafetyAlwaysHolds(rows: seq<Row>, size: Bytes -> nat)
    ensures forall c | c in CandidatesOf(rows, size) ::
              && Visible(c.after.update) == Visible(c.row.data.update)
              && CompactBytes(c.after) == c.after
              && Ghosts(c.after.update) == {}
    ensures forall row | row in rows && Ghosts(row.data.update) != {} ::
              Candidate(row, CompactBytes(row.data)) in CandidatesOf(rows, size)
  {}

  // ----- the apply loop -----

  function Disturb(rows: Table, edits: Edits): Table {
    map id | id in rows.Keys + edits.Keys && (id in edits ==> edits[id].Some?) ::
      if id in edits then edits[id].value else rows[id]
  }

  /** `UPDATE … WHERE id = … AND md5(data) = …`, with digests that never collide. */
  function GuardedUpdate(rows: Table, c: Candidate): Table {
    if c.row.id in rows && rows[c.row.id] == c.row.data then rows[c.row.id := c.after] else rows
  }

  predicate ReadsBack(rows: Table, c: Candidate) {
    c.row.id in rows && Visible(rows[c.row.id].update) == Visible(c.row.data.update)
  }

  /** The loop over the candidates, each with what others do around its two statements. */
  function Applied(rows: Table, candidates: seq<Candidate>, others: seq<Interference>): (o: Outcome)
    requires |candidates| == |others|
    ensures o.done <= |candidates|
    decreases |candidates|
  {
    if candidates == [] then Outcome(rows, 0, 0, false, 0) else
      var c, other := candidates[0], others[0];
      var found := Disturb(rows, other.beforeUpdate);
      if !(c.row.id in found && found[c.row.id] == c.row.data) then
        var rest := Applied(Disturb(found, other.beforeReread), candidates[1..], others[1..]);
        rest.(skipped := rest.skipped + 1, done := rest.done + 1)
      else
        var reread := Disturb(GuardedUpdate(found, c), other.beforeReread);
        if !ReadsBack(reread, c) then Outcome(reread, 1, 0, true, 1) else
          var rest := Applied(reread, candidates[1..], others[1..]);
          rest.(written := rest.written + 1, done := rest.done + 1)
  }

  /** The first candidate: skipped unless the row still holds what was scanned, and the end if it then shows anything else. */
  lemma FirstTurn(rows: Table, candidates: seq<Candidate>, others: seq<Interference>)
    requires 0 < |candidates| == |others|
    ensures var c, found := candidates[0], Disturb(rows, others[0].beforeUpdate);
            var o := Applied(rows, candidates, others);
            if c.row.id in found && found[c.row.id] == c.row.data then
              var reread := Disturb(found[c.row.id := c.after], others[0].beforeReread);
              && o.written > 0
              && (c.row.id !in reread || Visible(reread[c.row.id].update) != Visible(c.row.data.update) ==>
                    o == Outcome(reread, 1, 0, true, 1))
              && (c.row.id in reread && Visible(reread[c.row.id].update) == Visible(c.row.data.update) ==>
                    o.rows == Applied(reread, candidates[1..], others[1..]).rows
                    && o.halted == Applied(reread, candidates[1..], others[1..]).halted)
            else o.skipped > 0 && o.rows == Applied(Disturb(found, others[0].beforeReread), candidates[1..], others[1..]).rows
  {}

  class Corpus {
    var rows: Table

    method Apply(candidates: seq<Candidate>, others: seq<Interference>)
      returns (written: nat, skipped: nat, halted: bool, ghost done: nat)
      requires |candidates| == |others|
      modifies this
      ensures Outcome(rows, written, skipped, halted, done) == Applied(old(rows), candidates, others)
    {
      written, skipped, halted, done := 0, 0, false, 0;
      ghost var whole := Applied(rows, candidates, others);
      for i := 0 to |candidates|
        invariant !halted && done == i
        invariant var rest := Applied(rows, candidates[i..], others[i..]);
                  whole == Outcome(rest.rows, written + rest.written, skipped + rest.skipped, rest.halted, i + rest.done)
      {
        var c := candidates[i];
        assert candidates[i..][1..] == candidates[i + 1..] && others[i..][1..] == others[i + 1..];
        done := done + 1;
        rows := Disturb(rows, others[i].beforeUpdate);
        var affected := c.row.id in rows && rows[c.row.id] == c.row.data;
        if !affected {
          skipped := skipped + 1;
          rows := Disturb(rows, others[i].beforeReread);
          continue;
        }
        rows := rows[c.row.id := c.after];
        rows := Disturb(rows, others[i].beforeReread);
        var ok := ReadsBack(rows, c);
        written := written + 1;
        if !ok {
          halted := true;
          break;
        }
      }
    }
  }

  /** What the rows would be had the backfill not run: other writers' edits alone. */
  function Undisturbed(rows: Table, others: seq<Interference>): Table
    decreases |others|
  {
    if others == [] then rows
    else Undisturbed(Disturb(Disturb(rows, others[0].beforeUpdate), others[0].beforeReread), others[1..])
  }

  /** Same rows, each either untouched or compacted. */
  ghost predicate Compacts(actual: Table, ideal: Table) {
    && actual.Keys == ideal.Keys
    && forall id | id in actual :: actual[id] == ideal[id] || actual[id] == CompactBytes(ideal[id])
  }

  lemma DisturbKeepsCompacts(actual: Table, ideal: Table, edits: Edits)
    requires Compacts(actual, ideal)
    ensures Compacts(Disturb(actual, edits), Disturb(ideal, edits))
  {}

  lemma UpdateKeepsCompacts(actual: Table, ideal: Table, c: Candidate)
    requires Compacts(actual, ideal) && Guarded(c)
    ensures Compacts(GuardedUpdate(actual, c), ideal)
  {}

  /**
   Wherever the loop stops and whatever others do meanwhile, each row is the one other
   writers left, at most compacted. So no reader can tell that the backfill ran.
   */
  lemma {:induction false} ApplyOnlyCompacts(rows: Table, ideal: Table, candidates: seq<Candidate>, others: seq<Interference>)
    requires |candidates| == |others| && Compacts(rows, ideal)
    requires forall c | c in candidates :: Guarded(c)
    ensures var o := Applied(rows, candidates, others);
            Compacts(o.rows, Undisturbed(ideal, others[..o.done]))
    decreases |candidates|
  {
    hide Disturb, Compacts, CompactBytes, Visible;
    var o := Applied(rows, candidates, others);
    if candidates != [] {
      var c, other := candidates[0], others[0];
      var found, idealFound := Disturb(rows, other.beforeUpdate), Disturb(ideal, other.beforeUpdate);
      DisturbKeepsCompacts(rows, ideal, other.beforeUpdate);
      UpdateKeepsCompacts(found, idealFound, c);
      var updated := GuardedUpdate(found, c);
      DisturbKeepsCompacts(updated, idealFound, other.beforeReread);
      assert others[..o.done][1..] == others[1..][..o.done - 1];
      var afterRound, idealAfter := Disturb(updated, other.beforeReread), Disturb(idealFound, other.beforeReread);
      if !(c.row.id in found && found[c.row.id] == c.row.data) || ReadsBack(afterRound, c) {
        ApplyOnlyCompacts(afterRound, idealAfter, candidates[1..], others[1..]);
      } else {
        assert Undisturbed(ideal, others[..1]) == idealAfter;
      }
    }
  }

  /** In particular every surviving row shows what it would have shown. */
  lemma ReadersCannotTell(rows: Table, candidates: seq<Candidate>, others: seq<Interference>)
    requires |candidates| == |others| && forall c | c in candidates :: Guarded(c)
    ensures var o := Applied(rows, candidates, others);
            var ideal := Undisturbed(rows, others[..o.done]);
            && o.rows.Keys == ideal.Keys
            && forall id | id in ideal :: Visible(o.rows[id].update) == Visible(ideal[id].update)
  {
    ApplyOnlyCompacts(rows, rows, candidates, others);
    var o := Applied(rows, candidates, others);
    var ideal := Undisturbed(rows, others[..o.done]);
    forall id | id in ideal ensures Visible(o.rows[id].update) == Visible(ideal[id].update) {
      CompactIsSafe(ideal[id].update);
    }
  }

  /** The halt on a diverging re-read is only ever someone else's write, never the rewrite's own. */
  lemma {:induction false} HaltMeansInterference(rows: Table, candidates: seq<Candidate>, others: seq<Interference>)
    requires |candidates| == |others| && forall c | c in candidates :: Guarded(c)
    ensures var o := Applied(rows, candidates, others);
            o.halted ==> o.done > 0 && candidates[o.done - 1].row.id in others[o.done - 1].beforeReread
    decreases |candidates|
  {
    if candidates != [] {
      var c, other := candidates[0], others[0];
      var found := Disturb(rows, other.beforeUpdate);
      if !(c.row.id in found && found[c.row.id] == c.row.data) {
        HaltMeansInterference(Disturb(found, other.beforeReread), candidates[1..], others[1..]);
      } else {
        DivergenceMeansEdit(found, c, other.beforeReread);
        var reread := Disturb(GuardedUpdate(found, c), other.beforeReread);
        if ReadsBack(reread, c) {
          HaltMeansInterference(reread, candidates[1..], others[1..]);
        }
      }
    }
  }

  lemma DivergenceMeansEdit(found: Table, c: Candidate, edits: Edits)
    requires Guarded(c) && c.row.id in found && found[c.row.id] == c.row.data
    ensures !ReadsBack(Disturb(GuardedUpdate(found, c), edits), c) ==> c.row.id in edits
  {}

  // ----- a run nobody disturbs -----

  const QUIET := Interference(map[], map[])

  predicate Distinct(rows: seq<Row>) {
    forall i, j | 0 <= i < j < |rows| :: rows[i].id != rows[j].id
  }

  predicate SnapshotOf(rows: seq<Row>, table: Table) {
    forall row | row in rows :: row.id in table && table[row.id] == row.data
  }

  predicate Scanned(rows: seq<Row>, id: int) {
    exists row | row in rows :: row.id == id
  }

  function Rewritten(data: Bytes, scanned: bool, size: Bytes -> nat): Bytes {
    if scanned && IsCandidate(data, size) then CompactBytes(data) else data
  }

  lemma Untouched(table: Table)
    ensures Disturb(table, map[]) == table
  {}

  /** The first candidate is written and the run goes on from there. */
  lemma QuietTurn(table: Table, candidates: seq<Candidate>)
    requires candidates != [] && Guarded(candidates[0])
    requires candidates[0].row.id in table && table[candidates[0].row.id] == candidates[0].row.data
    ensures var o := Applied(table, candidates, seq(|candidates|, _ => QUIET));
            var rest := Applied(table[candidates[0].row.id := candidates[0].after], candidates[1..],
                                seq(|candidates| - 1, _ => QUIET));
            o == rest.(written := rest.written + 1, done := rest.done + 1)
  {
    hide Compact, Visible, Ghosts;
    var c := candidates[0];
    Untouched(table);
    Untouched(table[c.row.id := c.after]);
    CompactIsSafe(c.row.data.update);
    var others := seq(|candidates|, _ => QUIET);
    assert others[0] == QUIET && others[1..] == seq(|candidates| - 1, _ => QUIET);
    hide Disturb;
  }

  lemma {:induction false} QuietRun(rows: seq<Row>, table: Table, size: Bytes -> nat)
    requires Distinct(rows) && SnapshotOf(rows, table)
    ensures var candidates := CandidatesOf(rows, size);
            var o := Applied(table, candidates, seq(|candidates|, _ => QUIET));
            && !o.halted && o.skipped == 0 && o.written == |candidates|
            && o.rows.Keys == table.Keys
            && forall id | id in table :: o.rows[id] == Rewritten(table[id], Scanned(rows, id), size)
    decreases |rows|
  {
    hide Compact, Visible, Ghosts, IsCandidate;
    if rows != [] {
      var candidates := CandidatesOf(rows, size);
      var others := seq(|candidates|, _ => QUIET);
      var row, rest := rows[0], rows[1..];
      assert forall id :: Scanned(rows, id) <==> id == row.id || Scanned(rest, id);
      assert !Scanned(rest, row.id);
      assert row in rows;
      if IsCandidate(row.data, size) {
        QuietTurn(table, candidates);
        hide Applied;
        QuietRun(rest, table[row.id := CompactBytes(row.data)], size);
      } else {
        QuietRun(rest, table, size);
      }
    }
  }

  /** Undisturbed, one pass erases every ghost of every row, and a second pass finds nothing to do. */
  lemma OnePassIsEnough(rows: seq<Row>, table: Table, size: Bytes -> nat)
    requires Distinct(rows) && SnapshotOf(rows, table) && forall id | id in table :: Scanned(rows, id)
    ensures var candidates := CandidatesOf(rows, size);
            var after := Applied(table, candidates, seq(|candidates|, _ => QUIET)).rows;
            && after.Keys == table.Keys
            && forall id | id in after ::
                 Ghosts(after[id].update) == {} && !IsCandidate(after[id], size)
  {
    QuietRun(rows, table, size);
    var candidates := CandidatesOf(rows, size);
    var after := Applied(table, candidates, seq(|candidates|, _ => QUIET)).rows;
    forall id | id in after ensures Ghosts(after[id].update) == {} && !IsCandidate(after[id], size) {
      CompactIsSafe(table[id].update);
    }
  }
}
