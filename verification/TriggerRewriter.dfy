/** Putting a DROP TRIGGER before every CREATE TRIGGER that lacks one. */
module TriggerRewriter {
  import opened Prelude
  import opened SqlPatterns

  const LOOKAHEAD: nat := 12
  const TAIL: nat := 5

  /** A line of the output: added, kept, or kept as the start of a trigger on a table found. */
  datatype OutLine =
    | Added(text: string)
    | Kept(text: string)
    | Creates(text: string, name: string, table: string)

  function Texts(out: seq<OutLine>): (lines: seq<string>)
    ensures |lines| == |out|
    ensures forall k | 0 <= k < |out| :: lines[k] == out[k].text
  {
    seq(|out|, k requires 0 <= k < |out| => out[k].text)
  }

  // ----- looking ahead for the table -----

  datatype Look = Look(table: Option<string>, read: nat)

  predicate TakeMore(lines: seq<string>, i: nat, n: nat) {
    i + n < |lines| && n < LOOKAHEAD && !(n > 0 && StartsStatement(Probe(lines[i + n])))
  }

  /** From line `i`, with `n` lines read: the table, and how many lines belong to the statement so far. */
  function LookAhead(lines: seq<string>, i: nat, n: nat): (r: Look)
    requires i < |lines| && n <= LOOKAHEAD
    ensures r.table.Some? ==> n < r.read && i + r.read <= |lines|
    ensures r.table.Some? ==> r.table.value != "" && forall c | c in r.table.value :: IsWord(c) || c == '.'
    decreases LOOKAHEAD - n
  {
    if !TakeMore(lines, i, n) then Look(None, n)
    else
      var probe := Probe(lines[i + n]);
      var table := ParseOnTable(probe);
      if HasExecute(probe) || table.Some? then Look(table, n + 1)
      else LookAhead(lines, i, n + 1)
  }

  /** Line `i + n` names the table: the first of twelve to do so, with no other statement and no end of this one before. */
  predicate NamesTableAt(lines: seq<string>, i: nat, n: nat, table: string) {
    && n < 12 && i + n < |lines| && ParseOnTable(Probe(lines[i + n])) == Some(table)
    && (forall m | i <= m < i + n :: ParseOnTable(Probe(lines[m])).None? && !HasExecute(Probe(lines[m])))
    && (forall m | i < m <= i + n ::
          EatThen(Probe(lines[m]), "create").None? && EatThen(Probe(lines[m]), "comment").None?)
  }

  lemma {:induction false} LookAheadFrom(lines: seq<string>, i: nat, n: nat)
    requires i < |lines| && n <= 12
    requires forall m | i <= m < i + n && m < |lines| :: ParseOnTable(Probe(lines[m])).None? && !HasExecute(Probe(lines[m]))
    requires forall m | i < m < i + n && m < |lines| ::
               EatThen(Probe(lines[m]), "create").None? && EatThen(Probe(lines[m]), "comment").None?
    ensures var look := LookAhead(lines, i, n);
            && (look.table.Some? ==> NamesTableAt(lines, i, look.read - 1, look.table.value))
            && (look.table.None? ==> forall k: nat, table | k >= n :: !NamesTableAt(lines, i, k, table))
    decreases 12 - n
  {
    hide ParseOnTable, HasExecute, Probe, EatThen;
    if TakeMore(lines, i, n) && ParseOnTable(Probe(lines[i + n])).None? && !HasExecute(Probe(lines[i + n])) {
      LookAheadFrom(lines, i, n + 1);
    }
  }

  /** The look-ahead finds exactly that line. */
  lemma LookAheadExactlyWhen(lines: seq<string>, i: nat)
    requires i < |lines|
    ensures var look := LookAhead(lines, i, 0);
            && (look.table.Some? ==> NamesTableAt(lines, i, look.read - 1, look.table.value))
            && (look.table.None? ==> forall k: nat, table :: !NamesTableAt(lines, i, k, table))
  {
    LookAheadFrom(lines, i, 0);
  }

  // ----- one move of the rewriter -----

  datatype Move = Move(emitted: seq<OutLine>, read: nat, inBlockComment: bool)

  function Join(lines: seq<string>): string {
    if lines == [] then ""
    else if |lines| == 1 then lines[0]
    else Join(lines[..|lines| - 1]) + "\n" + lines[|lines| - 1]
  }

  function Tail(out: seq<string>): seq<string> {
    if |out| <= TAIL then out else out[|out| - TAIL..]
  }

  function Keep(lines: seq<string>): (out: seq<OutLine>)
    ensures |out| == |lines|
  {
    seq(|lines|, k requires 0 <= k < |lines| => Kept(lines[k]))
  }

  /** The drop statement, unless the last lines written already hold one. */
  function DropFor(before: seq<string>, name: string, table: string): (added: seq<OutLine>)
    ensures |added| <= 1 && (added != [] ==> added[0] == Added(DropLine(name, table)))
  {
    if Drops(Join(Tail(before)), name, table) then [] else [Added(DropLine(name, table))]
  }

  function Statement(lines: seq<string>, name: string, table: string): (out: seq<OutLine>)
    requires lines != []
    ensures |out| == |lines|
  {
    [Creates(lines[0], name, table)] + Keep(lines[1..])
  }

  predicate IsPlain(line: string, inBlockComment: bool) {
    inBlockComment || OpensBlockComment(line) || CreatedTrigger(line).None?
  }

  /** Whether the comment goes on after a plain line. */
  function CommentAfter(line: string, inBlockComment: bool): bool {
    if inBlockComment then !ClosesBlockComment(line) else OpensBlockComment(line)
  }

  function Next(lines: seq<string>, i: nat, inBlockComment: bool, before: seq<string>): (m: Move)
    requires i < |lines|
    ensures 0 < m.read && i + m.read <= |lines|
  {
    if IsPlain(lines[i], inBlockComment) then Move([Kept(lines[i])], 1, CommentAfter(lines[i], inBlockComment))
    else
      var name := CreatedTrigger(lines[i]).value;
      var look := LookAhead(lines, i, 0);
      if look.table.None? then Move([Kept(lines[i])], 1, false)
      else
        Move(DropFor(before, name, look.table.value)
             + Statement(lines[i..i + look.read], name, look.table.value), look.read, false)
  }

  function From(lines: seq<string>, i: nat, inBlockComment: bool, out: seq<OutLine>): seq<OutLine>
    requires i <= |lines|
    decreases |lines| - i
  {
    if i == |lines| then out
    else
      var m := Next(lines, i, inBlockComment, Texts(out));
      From(lines, i + m.read, m.inBlockComment, out + m.emitted)
  }

  function Rewrite(lines: seq<string>): seq<OutLine> {
    From(lines, 0, false, [])
  }

  /** From a line that opens a comment to the first after it that closes one, lines are copied, whatever they say. */
  lemma {:induction false} CommentIsCopied(lines: seq<string>, i: nat, n: nat, inBlockComment: bool, out: seq<OutLine>)
    requires i + n < |lines| && (inBlockComment || (n > 0 && OpensBlockComment(lines[i])))
    requires ClosesBlockComment(lines[i + n])
    requires forall m | (if inBlockComment then i else i + 1) <= m < i + n :: !ClosesBlockComment(lines[m])
    ensures From(lines, i, inBlockComment, out) == From(lines, i + n + 1, false, out + Keep(lines[i..i + n + 1]))
    decreases n
  {
    hide OpensBlockComment, ClosesBlockComment, CreatedTrigger, LookAhead, DropFor, Statement, Texts;
    var more := Keep(lines[i..i + n + 1]);
    var m := Next(lines, i, inBlockComment, Texts(out));
    if n == 0 {
      assert more == [Kept(lines[i])] && m == Move(more, 1, false);
    } else {
      assert m == Move([Kept(lines[i])], 1, true);
      CommentIsCopied(lines, i + 1, n - 1, true, out + [Kept(lines[i])]);
      assert (out + [Kept(lines[i])]) + Keep(lines[i + 1..i + n + 1]) == out + more;
    }
  }

  // ----- it only inserts -----

  function Originals(out: seq<OutLine>): seq<string> {
    if out == [] then []
    else
      var last := |out| - 1;
      Originals(out[..last]) + if out[last].Added? then [] else [out[last].text]
  }

  lemma {:induction false} OriginalsConcat(a: seq<OutLine>, b: seq<OutLine>)
    ensures Originals(a + b) == Originals(a) + Originals(b)
  {
    if b == [] {
      assert a + b == a;
    } else {
      var last := |b| - 1;
      assert (a + b)[..|a + b| - 1] == a + b[..last];
      OriginalsConcat(a, b[..last]);
    }
  }

  lemma {:induction false} OriginalsOfKept(lines: seq<string>)
    ensures Originals(Keep(lines)) == lines
  {
    if lines != [] {
      assert Keep(lines)[..|lines| - 1] == Keep(lines[..|lines| - 1]);
      OriginalsOfKept(lines[..|lines| - 1]);
    }
  }

  lemma OriginalsOfOne(line: OutLine)
    ensures Originals([line]) == if line.Added? then [] else [line.text]
  {}

  lemma StatementKeepsItsLines(drop: seq<OutLine>, lines: seq<string>, name: string, table: string)
    requires lines != [] && |drop| <= 1 && (drop != [] ==> drop[0].Added?)
    ensures Originals(drop + Statement(lines, name, table)) == lines
  {
    if drop != [] {
      OriginalsOfOne(drop[0]);
    }
    OriginalsConcat(drop, Statement(lines, name, table));
    OriginalsOfOne(Creates(lines[0], name, table));
    OriginalsConcat([Creates(lines[0], name, table)], Keep(lines[1..]));
    OriginalsOfKept(lines[1..]);
  }

  lemma MoveKeepsItsLines(lines: seq<string>, i: nat, inBlockComment: bool, before: seq<string>)
    requires i < |lines|
    ensures var m := Next(lines, i, inBlockComment, before); Originals(m.emitted) == lines[i..i + m.read]
  {
    hide CreatedTrigger, LookAhead, OpensBlockComment, CommentAfter, DropFor, DropLine, Statement, Originals, Texts;
    OriginalsOfOne(Kept(lines[i]));
    assert [lines[i]] == lines[i..i + 1];
    if !IsPlain(lines[i], inBlockComment) && LookAhead(lines, i, 0).table.Some? {
      var name, look := CreatedTrigger(lines[i]).value, LookAhead(lines, i, 0);
      StatementKeepsItsLines(DropFor(before, name, look.table.value), lines[i..i + look.read], name, look.table.value);
    }
  }

  lemma {:induction false} FromOnlyInserts(lines: seq<string>, i: nat, inBlockComment: bool, out: seq<OutLine>)
    requires i <= |lines| && Originals(out) == lines[..i]
    ensures Originals(From(lines, i, inBlockComment, out)) == lines
    decreases |lines| - i
  {
    hide Next, Texts;
    if i < |lines| {
      var m := Next(lines, i, inBlockComment, Texts(out));
      MoveKeepsItsLines(lines, i, inBlockComment, Texts(out));
      OriginalsConcat(out, m.emitted);
      assert lines[..i] + lines[i..i + m.read] == lines[..i + m.read];
      FromOnlyInserts(lines, i + m.read, m.inBlockComment, out + m.emitted);
    }
  }

  /** Taking the added lines out again gives the input. */
  lemma OnlyInserts(lines: seq<string>)
    ensures Originals(Rewrite(lines)) == lines
  {
    FromOnlyInserts(lines, 0, false, []);
  }

  // ----- every trigger reached has its drop -----

  predicate NamesTrigger(name: string, table: string) {
    && name != "" && (forall c | c in name :: IsWord(c))
    && table != "" && forall c | c in table :: IsWord(c) || c == '.'
  }

  /** A drop is added right before its trigger, where the test finds none; else the test found one. */
  predicate Decided(out: seq<OutLine>, k: nat)
    requires k < |out|
  {
    match out[k]
    case Kept(_) => true
    case Added(text) =>
      && k + 1 < |out| && out[k + 1].Creates?
      && text == DropLine(out[k + 1].name, out[k + 1].table)
      && !Drops(Join(Tail(Texts(out[..k]))), out[k + 1].name, out[k + 1].table)
    case Creates(_, name, table) =>
      && NamesTrigger(name, table)
      && ((k > 0 && out[k - 1].Added?) || Drops(Join(Tail(Texts(out[..k]))), name, table))
  }

  predicate AllDecided(out: seq<OutLine>) {
    forall k: nat | k < |out| :: Decided(out, k)
  }

  lemma NamesOfTrigger(lines: seq<string>, i: nat)
    requires i < |lines| && CreatedTrigger(lines[i]).Some? && LookAhead(lines, i, 0).table.Some?
    ensures NamesTrigger(CreatedTrigger(lines[i]).value, LookAhead(lines, i, 0).table.value)
  {}

  lemma TextsConcat(a: seq<OutLine>, b: seq<OutLine>)
    ensures Texts(a + b) == Texts(a) + Texts(b)
  {}

  lemma MoreDecided(out: seq<OutLine>, more: seq<OutLine>)
    requires AllDecided(out) && forall k: nat | |out| <= k < |out + more| :: Decided(out + more, k)
    ensures AllDecided(out + more)
  {
    hide Drops, Join, Tail, Texts, DropLine, NamesTrigger;
    forall k: nat | k < |out + more| ensures Decided(out + more, k) {
      if k < |out| {
        assert Decided(out, k);
        assert (out + more)[..k] == out[..k];
      }
    }
  }

  lemma StatementDecided(out: seq<OutLine>, lines: seq<string>, name: string, table: string)
    requires AllDecided(out) && lines != [] && NamesTrigger(name, table)
    ensures AllDecided(out + (DropFor(Texts(out), name, table) + Statement(lines, name, table)))
  {
    hide Drops, Join, Tail, Texts, DropLine, NamesTrigger, AllDecided;
    var drop, statement := DropFor(Texts(out), name, table), Statement(lines, name, table);
    var more := drop + statement;
    assert statement[0] == Creates(lines[0], name, table);
    assert (out + more)[..|out|] == out;
    forall k: nat | |out| <= k < |out + more| ensures Decided(out + more, k) {
      assert (out + more)[k] == more[k - |out|];
      if k >= |out| + |drop| {
        assert (out + more)[k] == statement[k - |out| - |drop|];
      } else {
        assert (out + more)[k + 1] == statement[0];
      }
    }
    MoreDecided(out, more);
  }

  lemma MoveDecided(lines: seq<string>, i: nat, inBlockComment: bool, out: seq<OutLine>)
    requires i < |lines| && AllDecided(out)
    ensures AllDecided(out + Next(lines, i, inBlockComment, Texts(out)).emitted)
  {
    hide CreatedTrigger, LookAhead, OpensBlockComment, CommentAfter, Drops, Join, Statement, AllDecided, DropFor;
    if IsPlain(lines[i], inBlockComment) || LookAhead(lines, i, 0).table.None? {
      MoreDecided(out, [Kept(lines[i])]);
    } else {
      var name, look := CreatedTrigger(lines[i]).value, LookAhead(lines, i, 0);
      NamesOfTrigger(lines, i);
      StatementDecided(out, lines[i..i + look.read], name, look.table.value);
    }
  }

  lemma {:induction false} FromDecided(lines: seq<string>, i: nat, inBlockComment: bool, out: seq<OutLine>)
    requires i <= |lines| && AllDecided(out)
    ensures AllDecided(From(lines, i, inBlockComment, out))
    decreases |lines| - i
  {
    hide Next, Texts, AllDecided;
    if i < |lines| {
      var m := Next(lines, i, inBlockComment, Texts(out));
      MoveDecided(lines, i, inBlockComment, out);
      FromDecided(lines, i + m.read, m.inBlockComment, out + m.emitted);
    }
  }

  lemma RewriteDecided(lines: seq<string>)
    ensures AllDecided(Rewrite(lines))
  {
    FromDecided(lines, 0, false, []);
  }

  lemma {:induction false} JoinEndsWith(lines: seq<string>, line: string)
    ensures exists before: string :: Join(lines + [line]) == before + line
  {
    assert (lines + [line])[..|lines|] == lines;
    if lines == [] {
      assert Join(lines + [line]) == "" + line;
    } else {
      assert Join(lines + [line]) == (Join(lines) + "\n") + line;
    }
  }

  lemma TailEndsWith(lines: seq<string>, line: string)
    ensures exists most: seq<string> :: Tail(lines + [line]) == most + [line]
  {
    var t := Tail(lines + [line]);
    assert t == t[..|t| - 1] + [line];
  }

  /** What the last line says, the last lines joined say. */
  lemma LastLineDrops(lines: seq<string>, line: string, name: string, table: string)
    requires DropsAt(line, name, table)
    ensures Drops(Join(Tail(lines + [line])), name, table)
  {
    TailEndsWith(lines, line);
    var most: seq<string> :| Tail(lines + [line]) == most + [line];
    JoinEndsWith(most, line);
    var before: string :| Join(most + [line]) == before + line;
    assert (before + line)[|before|..] == line;
  }

  /** Once the drop is written, the test that decides on writing it succeeds. */
  lemma AddedIsFound(lines: seq<string>, name: string, table: string)
    requires NamesTrigger(name, table)
    ensures Drops(Join(Tail(lines + [DropLine(name, table)])), name, table)
  {
    assert name[0] in name && table[0] in table;
    DropIsRecognised(name, table, ";");
    LastLineDrops(lines, DropLine(name, table), name, table);
  }

  /** After `DropFor` the drop is there. */
  lemma DropForIsEnough(before: seq<string>, name: string, table: string)
    requires NamesTrigger(name, table)
    ensures Drops(Join(Tail(before + Texts(DropFor(before, name, table)))), name, table)
  {
    var drop := DropFor(before, name, table);
    if drop == [] {
      assert before + Texts(drop) == before;
    } else {
      AddedIsFound(before, name, table);
      assert Texts(drop) == [DropLine(name, table)];
    }
  }

  lemma LastText(out: seq<OutLine>, k: nat)
    requires 0 < k <= |out|
    ensures Texts(out[..k]) == Texts(out[..k - 1]) + [out[k - 1].text]
  {}

  /** Every trigger reached whose table is found has a matching drop among the five lines before it. */
  lemma EveryTriggerHasItsDrop(lines: seq<string>, k: nat)
    requires k < |Rewrite(lines)| && Rewrite(lines)[k].Creates?
    ensures var out := Rewrite(lines); Drops(Join(Tail(Texts(out[..k]))), out[k].name, out[k].table)
  {
    hide Rewrite, Drops, Join, Tail, Texts, NamesTrigger, DropLine;
    var out := Rewrite(lines);
    RewriteDecided(lines);
    assert Decided(out, k);
    if k > 0 && out[k - 1].Added? {
      assert Decided(out, k - 1);
      LastText(out, k);
      AddedIsFound(Texts(out[..k - 1]), out[k].name, out[k].table);
    }
  }

  // ----- a second run adds nothing -----

  /** Every trigger reached from line `i` on has its table found. */
  predicate AllResolve(lines: seq<string>, i: nat, inBlockComment: bool)
    requires i <= |lines|
    decreases |lines| - i
  {
    i == |lines| ||
    (var m := Next(lines, i, inBlockComment, []);
     && (IsPlain(lines[i], inBlockComment) || LookAhead(lines, i, 0).table.Some?)
     && AllResolve(lines, i + m.read, m.inBlockComment))
  }

  lemma {:induction false} NoMarkNoComment(line: string)
    requires forall c | c in line :: c != '-'
    ensures CodeWithoutLineComment(line) == line
  {
    if line != "" {
      assert line[0] in line;
      assert forall c | c in line[1..] :: c in line;
      NoMarkNoComment(line[1..]);
    }
  }

  predicate Clean(s: string) {
    forall c | c in s :: c != '-' && c != '/'
  }

  lemma DropLineIsClean(name: string, table: string)
    requires (forall c | c in name :: IsWord(c)) && forall c | c in table :: IsWord(c) || c == '.'
    ensures Clean(DropLine(name, table))
  {}

  /** A drop statement is neither a trigger nor the start of a comment. */
  lemma DropLineIsPlain(name: string, table: string)
    requires (forall c | c in name :: IsWord(c)) && forall c | c in table :: IsWord(c) || c == '.'
    ensures IsPlain(DropLine(name, table), false) && !CommentAfter(DropLine(name, table), false)
  {
    var line := DropLine(name, table);
    DropLineIsClean(name, table);
    NoMarkNoComment(line);
    assert line[0] == 'D' && Lower('D') != Lower('c');
    assert !SameIgnoringCase(line[..6], "create") by {
      assert line[..6][0] == line[0] && "create"[0] == 'c';
    }
    if IndexOf(line, '/', '*').Some? {
      assert line[IndexOf(line, '/', '*').value] in line;
      assert false;
    }
  }

  lemma {:induction false} LookAgain(lines: seq<string>, i: nat, n: nat, lines': seq<string>, p: nat)
    requires i < |lines| && p < |lines'| && n <= LOOKAHEAD && LookAhead(lines, i, n).table.Some?
    requires p + LookAhead(lines, i, n).read <= |lines'|
    requires lines'[p..p + LookAhead(lines, i, n).read] == lines[i..i + LookAhead(lines, i, n).read]
    ensures LookAhead(lines', p, n) == LookAhead(lines, i, n)
    decreases LOOKAHEAD - n
  {
    hide Probe, ParseOnTable, HasExecute, StartsStatement;
    var r := LookAhead(lines, i, n).read;
    assert lines'[p + n] == lines'[p..p + r][n] == lines[i..i + r][n] == lines[i + n];
    if r > n + 1 {
      LookAgain(lines, i, n + 1, lines', p);
    }
  }

  lemma {:induction false} FromExtends(lines: seq<string>, i: nat, inBlockComment: bool, out: seq<OutLine>)
    requires i <= |lines|
    ensures out <= From(lines, i, inBlockComment, out)
    decreases |lines| - i
  {
    hide Next, Texts;
    if i < |lines| {
      var m := Next(lines, i, inBlockComment, Texts(out));
      FromExtends(lines, i + m.read, m.inBlockComment, out + m.emitted);
    }
  }

  /** A trigger whose drop is already written is copied, wherever it stands. */
  lemma CopiedTrigger(lines: seq<string>, i: nat, lines': seq<string>, p: nat, before: seq<string>)
    requires i < |lines| && p < |lines'| && !IsPlain(lines[i], false) && LookAhead(lines, i, 0).table.Some?
    requires p + LookAhead(lines, i, 0).read <= |lines'|
    requires lines'[p..p + LookAhead(lines, i, 0).read] == lines[i..i + LookAhead(lines, i, 0).read]
    requires Drops(Join(Tail(before)), CreatedTrigger(lines[i]).value, LookAhead(lines, i, 0).table.value)
    ensures var look := LookAhead(lines, i, 0);
            Next(lines', p, false, before) ==
            Move(Statement(lines[i..i + look.read], CreatedTrigger(lines[i]).value, look.table.value), look.read, false)
  {
    hide OpensBlockComment, CreatedTrigger, Drops, Join, Statement, LookAhead, Tail;
    var look := LookAhead(lines, i, 0);
    LookAgain(lines, i, 0, lines', p);
    assert lines'[p] == lines'[p..p + look.read][0] == lines[i..i + look.read][0] == lines[i];
    var name, table := CreatedTrigger(lines[i]).value, look.table.value;
    assert DropFor(before, name, table) == [];
    assert [] + Statement(lines[i..i + look.read], name, table) == Statement(lines[i..i + look.read], name, table);
  }

  lemma CopiedPlain(lines: seq<string>, p: nat, inBlockComment: bool, out: seq<OutLine>)
    requires p < |lines| && IsPlain(lines[p], inBlockComment)
    ensures From(lines, p, inBlockComment, out)
         == From(lines, p + 1, CommentAfter(lines[p], inBlockComment), out + [Kept(lines[p])])
  {}

  /** The second run, standing where the first had written `out`. */
  predicate InStep(final: seq<string>, out: seq<OutLine>, out': seq<OutLine>) {
    Texts(out') == Texts(out) && Texts(out) <= final
  }

  lemma StillInStep(final: seq<string>, out: seq<OutLine>, out': seq<OutLine>, more: seq<OutLine>, more': seq<OutLine>)
    requires Texts(out') == Texts(out) && Texts(more') == Texts(more) && Texts(out + more) <= final
    ensures InStep(final, out, out') && InStep(final, out + more, out' + more')
    ensures |out| + |more| <= |final| && final[|out|..|out| + |more|] == Texts(more)
  {}

  lemma KeptText(line: OutLine)
    ensures Texts([Kept(line.text)]) == Texts([line])
  {}

  lemma StatementTexts(lines: seq<string>, name: string, table: string)
    requires lines != []
    ensures Texts(Statement(lines, name, table)) == lines
  {}

  /** The drop, if the first run added one, is passed over by the second as a plain line. */
  lemma DropAgain(final: seq<string>, out: seq<OutLine>, out': seq<OutLine>, name: string, table: string)
    returns (passed: seq<OutLine>)
    requires (forall c | c in name :: IsWord(c)) && forall c | c in table :: IsWord(c) || c == '.'
    requires Texts(out') == Texts(out) && Texts(out + DropFor(Texts(out), name, table)) <= final
    ensures Texts(passed) == Texts(out + DropFor(Texts(out), name, table))
    ensures From(final, |out|, false, out') == From(final, |passed|, false, passed)
  {
    hide From, Drops, Join, Tail, DropLine, IsPlain, CommentAfter;
    var drop := DropFor(Texts(out), name, table);
    if drop == [] {
      assert out + drop == out;
      passed := out';
    } else {
      KeptText(drop[0]);
      assert drop == [drop[0]];
      StillInStep(final, out, out', drop, [Kept(drop[0].text)]);
      assert final[|out|] == final[|out|..|out| + 1][0] == DropLine(name, table);
      DropLineIsPlain(name, table);
      CopiedPlain(final, |out|, false, out');
      passed := out' + [Kept(drop[0].text)];
    }
  }

  lemma ShorterPrefix(a: seq<OutLine>, b: seq<OutLine>, final: seq<string>)
    requires Texts(a + b) <= final
    ensures Texts(a) <= final
  {}

  lemma OneMoveFrom(lines: seq<string>, i: nat, inBlockComment: bool, out: seq<OutLine>, m: Move)
    requires i < |lines| && m == Next(lines, i, inBlockComment, Texts(out))
    ensures From(lines, i, inBlockComment, out) == From(lines, i + m.read, m.inBlockComment, out + m.emitted)
  {
    hide Next;
  }

  lemma TriggerAgain(lines: seq<string>, i: nat, out: seq<OutLine>, final: seq<string>, out': seq<OutLine>)
    returns (out'': seq<OutLine>)
    requires i < |lines| && !IsPlain(lines[i], false) && LookAhead(lines, i, 0).table.Some?
    requires Texts(out') == Texts(out)
    requires Texts(out + Next(lines, i, false, Texts(out)).emitted) <= final
    ensures Texts(out'') == Texts(out + Next(lines, i, false, Texts(out)).emitted) && |out''| <= |final|
    ensures From(final, |out|, false, out') == From(final, |out''|, false, out'')
  {
    hide CreatedTrigger, LookAhead, OpensBlockComment, Drops, Join, Tail, DropFor, Statement, From, Texts;
    var name, look := CreatedTrigger(lines[i]).value, LookAhead(lines, i, 0);
    var table := look.table.value;
    var drop, statement := DropFor(Texts(out), name, table), Statement(lines[i..i + look.read], name, table);
    assert out + (drop + statement) == (out + drop) + statement;
    ShorterPrefix(out + drop, statement, final);
    var passed := DropAgain(final, out, out', name, table);
    StillInStep(final, out + drop, passed, statement, statement);
    StatementTexts(lines[i..i + look.read], name, table);
    NamesOfTrigger(lines, i);
    DropForIsEnough(Texts(out), name, table);
    TextsConcat(out, drop);
    CopiedTrigger(lines, i, final, |passed|, Texts(passed));
    OneMoveFrom(final, |passed|, false, passed, Move(statement, look.read, false));
    out'' := passed + statement;
  }

  lemma TextsOfPrefix(a: seq<OutLine>, b: seq<OutLine>)
    requires a <= b
    ensures Texts(a) <= Texts(b)
  {}

  lemma PlainAgain(lines: seq<string>, i: nat, inBlockComment: bool, out: seq<OutLine>,
                   final: seq<string>, out': seq<OutLine>)
    requires i < |lines| && IsPlain(lines[i], inBlockComment)
    requires Texts(out') == Texts(out) && Texts(out + [Kept(lines[i])]) <= final
    ensures |out| < |final| && Texts(out' + [Kept(lines[i])]) == Texts(out + [Kept(lines[i])])
    ensures From(final, |out|, inBlockComment, out')
         == From(final, |out| + 1, CommentAfter(lines[i], inBlockComment), out' + [Kept(lines[i])])
  {
    hide From, CommentAfter, IsPlain;
    var line := Kept(lines[i]);
    StillInStep(final, out, out', [line], [line]);
    assert final[|out|] == final[|out|..|out| + 1][0] == lines[i];
    CopiedPlain(final, |out|, inBlockComment, out');
  }

  lemma MoveResolves(lines: seq<string>, i: nat, inBlockComment: bool, before: seq<string>)
    requires i < |lines| && AllResolve(lines, i, inBlockComment)
    ensures var m := Next(lines, i, inBlockComment, before); AllResolve(lines, i + m.read, m.inBlockComment)
    ensures IsPlain(lines[i], inBlockComment) ==>
              Next(lines, i, inBlockComment, before) == Move([Kept(lines[i])], 1, CommentAfter(lines[i], inBlockComment))
    ensures !IsPlain(lines[i], inBlockComment) ==>
              !inBlockComment && LookAhead(lines, i, 0).table.Some? && !Next(lines, i, false, before).inBlockComment
  {
    hide OpensBlockComment, CreatedTrigger, LookAhead, CommentAfter, DropFor, Statement;
  }

  lemma MoveIsInFinal(lines: seq<string>, i: nat, inBlockComment: bool, out: seq<OutLine>)
    requires i < |lines|
    ensures var m := Next(lines, i, inBlockComment, Texts(out));
            && Texts(out + m.emitted) <= Texts(From(lines, i, inBlockComment, out))
            && From(lines, i, inBlockComment, out) == From(lines, i + m.read, m.inBlockComment, out + m.emitted)
  {
    hide Next, Texts;
    var m := Next(lines, i, inBlockComment, Texts(out));
    OneMoveFrom(lines, i, inBlockComment, out, m);
    FromExtends(lines, i + m.read, m.inBlockComment, out + m.emitted);
    TextsOfPrefix(out + m.emitted, From(lines, i + m.read, m.inBlockComment, out + m.emitted));
  }

  lemma {:induction false} Again(lines: seq<string>, i: nat, inBlockComment: bool, out: seq<OutLine>,
                                 final: seq<string>, out': seq<OutLine>)
    requires i <= |lines| && AllResolve(lines, i, inBlockComment) && Texts(out') == Texts(out)
    requires final == Texts(From(lines, i, inBlockComment, out))
    ensures |out| <= |final| && Texts(From(final, |out|, inBlockComment, out')) == final
    decreases |lines| - i
  {
    hide IsPlain, Next, LookAhead, CommentAfter, AllResolve, Texts;
    FromExtends(lines, i, inBlockComment, out);
    if i < |lines| {
      var m := Next(lines, i, inBlockComment, Texts(out));
      MoveResolves(lines, i, inBlockComment, Texts(out));
      MoveIsInFinal(lines, i, inBlockComment, out);
      if IsPlain(lines[i], inBlockComment) {
        PlainAgain(lines, i, inBlockComment, out, final, out');
        Again(lines, i + 1, m.inBlockComment, out + m.emitted, final, out' + m.emitted);
      } else {
        var out'' := TriggerAgain(lines, i, out, final, out');
        Again(lines, i + m.read, false, out + m.emitted, final, out'');
      }
    }
  }

  /** Where every trigger's table is found, running the rewriter on its own output changes nothing. */
  lemma SecondRunAddsNothing(lines: seq<string>)
    requires AllResolve(lines, 0, false)
    ensures Texts(Rewrite(Texts(Rewrite(lines)))) == Texts(Rewrite(lines))
  {
    Again(lines, 0, false, [], Texts(Rewrite(lines)), []);
  }

  // ----- the loops -----

  method LookForTable(lines: seq<string>, i: nat) returns (table: Option<string>, j: nat)
    requires i < |lines|
    ensures i <= j && Look(table, j - i) == LookAhead(lines, i, 0)
  {
    hide Probe, StartsStatement, HasExecute, ParseOnTable;
    table, j := None, i;
    while j < |lines| && j < i + LOOKAHEAD && table.None?
      invariant i <= j <= i + LOOKAHEAD
      invariant table.None? ==> LookAhead(lines, i, j - i) == LookAhead(lines, i, 0)
      invariant table.Some? ==> Look(table, j - i) == LookAhead(lines, i, 0)
      decreases LOOKAHEAD + i - j
    {
      var probe := Probe(lines[j]);
      if j > i && StartsStatement(probe) {
        break;
      }
      table := ParseOnTableByExec(probe);
      if HasExecute(probe) {
        j := j + 1;
        break;
      }
      j := j + 1;
    }
  }

  method MakeTriggersIdempotent(lines: seq<string>) returns (out: seq<string>)
    ensures out == Texts(Rewrite(lines))
  {
    hide Next;
    out := [];
    ghost var marked: seq<OutLine> := [];
    var inBlockComment, i := false, 0;
    while i < |lines|
      invariant i <= |lines| && out == Texts(marked)
      invariant From(lines, i, inBlockComment, marked) == Rewrite(lines)
    {
      var more, read, comment := Advance(lines, i, inBlockComment, out);
      ghost var m := Next(lines, i, inBlockComment, out);
      TextsConcat(marked, m.emitted);
      OneMoveFrom(lines, i, inBlockComment, marked, m);
      marked := marked + m.emitted;
      out := out + more;
      i, inBlockComment := i + read, comment;
    }
  }

  method Advance(lines: seq<string>, i: nat, inBlockComment: bool, out: seq<string>)
    returns (more: seq<string>, read: nat, comment: bool)
    requires i < |lines|
    ensures var m := Next(lines, i, inBlockComment, out);
            more == Texts(m.emitted) && read == m.read && comment == m.inBlockComment
  {
    hide LookAhead, CreatedTrigger, OpensBlockComment, ClosesBlockComment, Drops, Join, Tail, DropLine, Statement, Texts;
    var line := lines[i];
    KeptText(Kept(line));
    OneText(line);
    if inBlockComment {
      return [line], 1, !ClosesBlockComment(line);
    }
    if OpensBlockComment(line) {
      return [line], 1, true;
    }
    var name := CreatedTrigger(line);
    if name.None? {
      return [line], 1, false;
    }
    var table, j := LookForTable(lines, i);
    if table.None? {
      return [line], 1, false;
    }
    var statement := lines[i..j];
    StatementTexts(statement, name.value, table.value);
    TextsConcat(DropFor(out, name.value, table.value), Statement(statement, name.value, table.value));
    if Drops(Join(Tail(out)), name.value, table.value) {
      NoTexts();
      more := [] + statement;
    } else {
      AddedText(DropLine(name.value, table.value));
      more := [DropLine(name.value, table.value)] + statement;
    }
    read, comment := j - i, false;
  }

  lemma OneText(line: string)
    ensures Texts([Kept(line)]) == [line]
  {}

  lemma AddedText(line: string)
    ensures Texts([Added(line)]) == [line]
  {}

  lemma NoTexts()
    ensures Texts([]) == []
  {}
}
