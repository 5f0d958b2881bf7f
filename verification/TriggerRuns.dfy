/** Short runs of the trigger rewriter, on given lines, where it does not do what it is for. */
module TriggerRuns {
  import opened JsText
  import opened Prelude
  import opened SqlPatterns
  import opened TriggerRewriter
  import opened OwnDrops

  // ----- runs of one-line statements -----

  /** The line creates the trigger, and names its table. */
  predicate CreatesOn(line: string, name: string, table: string) {
    && !IsPlain(line, false)
    && CreatedTrigger(line) == Some(name)
    && ParseOnTable(Probe(line)) == Some(table)
  }

  lemma FoundAtOnce(lines: seq<string>, i: nat, name: string, table: string)
    requires i < |lines| && CreatesOn(lines[i], name, table)
    ensures LookAhead(lines, i, 0) == Look(Some(table), 1) && NamesTrigger(name, table)
  {}

  lemma CreateMove(lines: seq<string>, i: nat, before: seq<string>, name: string, table: string)
    requires i < |lines| && CreatesOn(lines[i], name, table)
    ensures Next(lines, i, false, before)
         == Move(DropFor(before, name, table) + [Creates(lines[i], name, table)], 1, false)
  {
    hide IsPlain, CreatedTrigger, ParseOnTable, Probe, LookAhead, Drops;
    FoundAtOnce(lines, i, name, table);
    assert lines[i..i + 1] == [lines[i]];
    assert Statement([lines[i]], name, table) == [Creates(lines[i], name, table)];
  }

  lemma OneMove(lines: seq<string>, i: nat, out: seq<OutLine>, m: Move)
    requires i < |lines| && m == Next(lines, i, false, Texts(out)) && !m.inBlockComment
    ensures From(lines, i, false, out) == From(lines, i + m.read, false, out + m.emitted)
  {
    OneMoveFrom(lines, i, false, out, m);
  }

  lemma Done(lines: seq<string>, out: seq<OutLine>)
    ensures From(lines, |lines|, false, out) == out
  {}

  lemma NothingBefore(name: string, table: string)
    requires NamesTrigger(name, table)
    ensures DropFor([], name, table) == [Added(DropLine(name, table))]
  {
    assert Join(Tail([])) == "";
  }

  /** A drop with one line after it is still among the last lines. */
  lemma StillThere(line: string, name: string, table: string)
    requires NamesTrigger(name, table)
    ensures Drops(Join(Tail([DropLine(name, table), line])), name, table)
  {
    hide DropLine, StatedDrop, DropsAt, NamesTrigger;
    var drop, more := DropLine(name, table), "\n" + line;
    assert [drop, line][..1] == [drop];
    assert Join(Tail([drop, line])) == drop + "\n" + line == drop + more;
    StatedByDropLine(name, table);
    StatedMore(drop, more);
    assert table[..|table|] == table;
    DropsExactlyWhen(drop + more, name, table);
    assert (drop + more)[0..] == drop + more;
  }

  /**
   A trigger created twice within five lines is dropped once: the second creation takes the
   drop before the first for its own.
   */
  lemma CreatedTwiceDroppedOnce(line: string, name: string, table: string)
    requires CreatesOn(line, name, table)
    ensures Rewrite([line, line])
         == [Added(DropLine(name, table)), Creates(line, name, table), Creates(line, name, table)]
  {
    hide IsPlain, CreatedTrigger, ParseOnTable, Probe, LookAhead, Drops, Join, Tail, Next, From, CreatesOn, DropLine;
    var lines := [line, line];
    var drop, create := Added(DropLine(name, table)), Creates(line, name, table);
    FoundAtOnce(lines, 0, name, table);
    NothingBefore(name, table);
    CreateMove(lines, 0, [], name, table);
    NoTexts();
    OneMove(lines, 0, [], Move([drop] + [create], 1, false));
    assert [] + ([drop] + [create]) == [drop, create];
    assert Texts([drop, create]) == [DropLine(name, table), line];
    StillThere(line, name, table);
    CreateMove(lines, 1, [DropLine(name, table), line], name, table);
    OneMove(lines, 1, [drop, create], Move([] + [create], 1, false));
    Done(lines, [drop, create] + ([] + [create]));
  }

  // ----- a table that is not found -----

  /** The line creates the trigger, but neither names its table nor ends the statement. */
  predicate CreatesUnfinished(line: string, name: string) {
    && !IsPlain(line, false)
    && CreatedTrigger(line) == Some(name)
    && ParseOnTable(Probe(line)).None? && !HasExecute(Probe(line))
  }

  lemma StartsWithCreate(line: string, name: string)
    requires CreatedTrigger(line) == Some(name)
    ensures StartsStatement(Probe(line))
  {}

  /** The next statement ends the look-ahead. */
  lemma NotFound(lines: seq<string>, i: nat, name: string, next: string, table: string)
    requires i + 1 < |lines| && CreatesUnfinished(lines[i], name) && CreatesOn(lines[i + 1], next, table)
    ensures LookAhead(lines, i, 0).table.None?
  {
    hide IsPlain, CreatedTrigger, ParseOnTable, Probe, HasExecute, StartsStatement;
    StartsWithCreate(lines[i + 1], next);
    assert LookAhead(lines, i, 0) == LookAhead(lines, i, 1);
  }

  /** A drop statement does not, and names a table. */
  lemma FoundInDrop(lines: seq<string>, i: nat, name: string, next: string, table: string)
    requires i + 1 < |lines| && CreatesUnfinished(lines[i], name) && lines[i + 1] == DropLine(next, table)
    requires NamesTrigger(next, table) && ParseOnTable(DropLine(next, table)) == Some(table)
    ensures LookAhead(lines, i, 0) == Look(Some(table), 2)
  {
    hide IsPlain, CreatedTrigger, ParseOnTable, HasExecute, Probe, DropLine;
    DropLineIsItsProbe(next, table);
    assert LookAhead(lines, i, 0) == LookAhead(lines, i, 1);
    assert lines[i + 1] == lines[1 + i];
  }

  lemma DropLineIsItsProbe(name: string, table: string)
    requires NamesTrigger(name, table)
    ensures Probe(DropLine(name, table)) == DropLine(name, table) && !StartsStatement(DropLine(name, table))
  {
    var line := DropLine(name, table);
    DropLineIsClean(name, table);
    NoMarkNoComment(line);
    assert line[0] == 'D';
    assert !SameIgnoringCase(line[..6], "create") && !SameIgnoringCase(line[..7], "comment") by {
      assert line[..6][0] == 'D' && line[..7][0] == 'D';
    }
  }

  lemma UnfinishedIsKept(first: string, name: string, second: string, next: string, table: string)
    requires CreatesUnfinished(first, name) && CreatesOn(second, next, table) && !Drops(first, next, table)
    ensures Texts(Rewrite([first, second])) == [first, DropLine(next, table), second]
  {
    hide IsPlain, CreatedTrigger, ParseOnTable, Probe, LookAhead, Drops, From, CreatesOn, DropLine, HasExecute;
    var lines := [first, second];
    NotFound(lines, 0, name, next, table);
    NoTexts();
    OneMove(lines, 0, [], Move([Kept(first)], 1, false));
    assert [] + [Kept(first)] == [Kept(first)];
    OneText(first);
    hide Next;
    OneLine(first);
    CreateMove(lines, 1, [first], next, table);
    var drop, create := Added(DropLine(next, table)), Creates(second, next, table);
    OneMove(lines, 1, [Kept(first)], Move([drop] + [create], 1, false));
    Done(lines, [Kept(first)] + ([drop] + [create]));
  }

  lemma UnfinishedIsFound(first: string, name: string, second: string, next: string, table: string)
    requires CreatesUnfinished(first, name) && CreatesOn(second, next, table)
    requires ParseOnTable(DropLine(next, table)) == Some(table)
    ensures Texts(Rewrite([first, DropLine(next, table), second]))
         == [DropLine(name, table), first, DropLine(next, table), second]
  {
    hide IsPlain, CreatedTrigger, ParseOnTable, Probe, LookAhead, Drops, From, CreatesOn, DropLine, HasExecute;
    var lines := [first, DropLine(next, table), second];
    FoundAtOnce(lines, 2, next, table);
    FoundInDrop(lines, 0, name, next, table);
    NamesOfTrigger(lines, 0);
    NothingBefore(name, table);
    NoTexts();
    var drop, create, kept := Added(DropLine(name, table)), Creates(first, name, table), Kept(DropLine(next, table));
    assert lines[0..2] == [first, DropLine(next, table)];
    assert Statement([first, DropLine(next, table)], name, table) == [create, kept] by {
      assert [first, DropLine(next, table)][1..] == [DropLine(next, table)];
    }
    OneMove(lines, 0, [], Move([drop] + [create, kept], 2, false));
    hide Next;
    assert [] + ([drop] + [create, kept]) == [drop, create, kept];
    var before := [DropLine(name, table), first];
    assert Texts([drop, create, kept]) == before + [DropLine(next, table)];
    AddedIsFound(before, next, table);
    CreateMove(lines, 2, before + [DropLine(next, table)], next, table);
    OneMove(lines, 2, [drop, create, kept], Move([] + [Creates(second, next, table)], 1, false));
    Done(lines, [drop, create, kept] + ([] + [Creates(second, next, table)]));
  }

  /**
   A trigger whose table is not found, and after it one whose table is: the first run adds a
   drop between them, and the second run takes that drop's table for the first trigger's.
   */
  lemma SecondRunAddsAWrongDrop(first: string, name: string, second: string, next: string, table: string)
    requires CreatesUnfinished(first, name) && CreatesOn(second, next, table)
    requires ParseOnTable(DropLine(next, table)) == Some(table) && !Drops(first, next, table)
    ensures var once := Texts(Rewrite([first, second]));
            && once == [first, DropLine(next, table), second]
            && Texts(Rewrite(once)) == [DropLine(name, table)] + once
            && !AllResolve([first, second], 0, false)
  {
    hide Rewrite, Drops, CreatesOn, DropLine, CreatedTrigger, ParseOnTable, Probe, IsPlain, HasExecute, LookAhead;
    UnfinishedIsKept(first, name, second, next, table);
    UnfinishedIsFound(first, name, second, next, table);
    NotFound([first, second], 0, name, next, table);
    assert [DropLine(name, table)] + [first, DropLine(next, table), second]
        == [DropLine(name, table), first, DropLine(next, table), second];
  }

  // ----- on actual lines -----

  /** No `ON` follows a space in `s`, nor stands at its start. */
  predicate NamesNoTable(s: string) {
    && (s != "" ==> Lower(s[0]) != 'o')
    && forall k | 0 <= k < |s| - 1 && IsSpace(s[k]) :: Lower(s[k + 1]) != 'o'
  }

  lemma NoOnAt(s: string)
    requires s == "" || Lower(s[0]) != 'o'
    ensures OnAt(s).None?
  {
    if |s| >= 2 {
      assert s[..2][0] == s[0];
    }
  }

  lemma {:induction false} NoneNext(s: string)
    requires forall k | 0 <= k < |s| - 1 && IsSpace(s[k]) :: Lower(s[k + 1]) != 'o'
    ensures NextOn(s).None?
  {
    hide OnAt;
    if s != "" {
      if IsSpace(s[0]) {
        NoOnAt(s[1..]);
      }
      NoneNext(s[1..]);
    }
  }

  lemma NoTable(s: string)
    requires NamesNoTable(s)
    ensures ParseOnTable(s).None?
  {
    NoOnAt(s);
    NoneNext(s);
  }

  lemma {:induction false} FirstOn(before: string, rest: string)
    requires forall k | 0 <= k < |before| && IsSpace(before[k]) :: k + 1 < |before| && Lower(before[k + 1]) != 'o'
    requires OnAt(rest).Some?
    ensures NextOn(before + (" " + rest)) == OnAt(rest)
  {
    hide OnAt;
    var s := before + (" " + rest);
    if before == "" {
      assert s[1..] == rest;
    } else {
      assert s[1..] == before[1..] + (" " + rest);
      FirstOn(before[1..], rest);
      if IsSpace(before[0]) {
        NoOnAt(s[1..]);
      }
    }
  }

  lemma NoOnly(s: string)
    requires s != "" && Lower(s[0]) != 'o'
    ensures EatThen(s, "ONLY").None?
  {
    if |s| >= 4 {
      assert s[..4][0] == s[0];
    }
  }

  lemma DottedWhole(table: string, rest: string)
    requires (forall c | c in table :: IsWord(c) || c == '.') && Ends(rest)
    ensures DottedAt(table + rest) == table
  {
    var s := table + rest;
    assert forall k | 0 <= k < |table| :: s[k] == table[k] && table[k] in table;
    assert s[|table|..] == rest && s[..|table|] == table;
    DottedIs(s, |table|);
  }

  lemma OnTable(table: string, rest: string)
    requires table != "" && (forall c | c in table :: IsWord(c) || c == '.') && Lower(table[0]) != 'o' && Ends(rest)
    ensures OnAt("ON " + (table + rest)) == Some(Found(table, rest))
  {
    hide EatThen, DottedAt, Ends, IsSpace, Lower;
    var c := table + rest;
    assert table[0] in table && c[0] == table[0];
    NotSpace(table[0]);
    assert "ON " + c == "ON" + (" " + c);
    SpaceEaten("ON", c);
    DottedWhole(table, rest);
    NoOnly(c);
    assert c[|table|..] == rest;
  }

  lemma TableAfter(before: string, table: string, rest: string)
    requires before != "" && Lower(before[0]) != 'o'
    requires forall k | 0 <= k < |before| && IsSpace(before[k]) :: k + 1 < |before| && Lower(before[k + 1]) != 'o'
    requires table != "" && (forall c | c in table :: IsWord(c) || c == '.') && Lower(table[0]) != 'o' && Ends(rest)
    requires !SameIgnoringCase(table, "trigger")
    ensures ParseOnTable(before + (" " + ("ON " + (table + rest)))) == Some(table)
  {
    hide NextOn, OnAt;
    OnTable(table, rest);
    FirstOn(before, "ON " + (table + rest));
    NoOnAt(before + (" " + ("ON " + (table + rest))));
  }

  /** `ONLY` before the name is passed over. */
  lemma OnOnlyTable(table: string, rest: string)
    requires table != "" && (forall c | c in table :: IsWord(c) || c == '.') && Ends(rest)
    ensures OnAt("ON ONLY " + (table + rest)) == Some(Found(table, rest))
  {
    hide EatThen, DottedAt, Ends, IsSpace, Lower;
    var c := table + rest;
    assert table[0] in table && c[0] == table[0];
    NotSpace(table[0]);
    SpaceEaten("ONLY", c);
    assert "ON ONLY " + c == "ON" + (" " + ("ONLY" + (" " + c)));
    OnlyIsNoSpace(c);
    SpaceEaten("ON", "ONLY" + (" " + c));
    DottedWhole(table, rest);
    assert c[|table|..] == rest;
  }

  lemma OnlyIsNoSpace(c: string)
    ensures "ONLY" + (" " + c) != "" && !IsSpace(("ONLY" + (" " + c))[0])
  {}

  /** `ON TRIGGER` names no table: the next `ON` does. */
  lemma TriggerIsPassedOver(before: string, mid: string, table: string, rest: string)
    requires before != "" && Lower(before[0]) != 'o'
    requires forall k | 0 <= k < |before| && IsSpace(before[k]) :: k + 1 < |before| && Lower(before[k + 1]) != 'o'
    requires mid != "" && mid[0] == ' '
    requires forall k | 0 <= k < |mid| && IsSpace(mid[k]) :: k + 1 < |mid| && Lower(mid[k + 1]) != 'o'
    requires table != "" && (forall c | c in table :: IsWord(c) || c == '.') && Lower(table[0]) != 'o' && Ends(rest)
    requires !SameIgnoringCase(table, "trigger")
    ensures ParseOnTable(before + (" " + ("ON " + ("TRIGGER" + (mid + (" " + ("ON " + (table + rest)))))))) == Some(table)
  {
    hide NextOn, OnAt, IsSpace, Lower;
    var more := mid + (" " + ("ON " + (table + rest)));
    TriggerIsTrigger();
    MidEnds(mid, " " + ("ON " + (table + rest)));
    OnTable("TRIGGER", more);
    FirstOn(before, "ON " + ("TRIGGER" + more));
    NoOnAt(before + (" " + ("ON " + ("TRIGGER" + more))));
    OnTable(table, rest);
    FirstOn(mid, "ON " + (table + rest));
    var first := Found("TRIGGER", more);
    assert SkipTrigger(Some(first)) == SkipTrigger(Some(Found(table, rest)));
  }

  lemma MidEnds(mid: string, more: string)
    requires mid != "" && mid[0] == ' '
    ensures Ends(mid + more)
  {}

  lemma TriggerIsTrigger()
    ensures SameIgnoringCase("TRIGGER", "trigger")
    ensures "TRIGGER" != "" && (forall c | c in "TRIGGER" :: IsWord(c) || c == '.') && Lower("TRIGGER"[0]) != 'o'
  {}

  function Creation(name: string, more: string): string {
    "CREATE TRIGGER " + (name + more)
  }

  lemma CreateEaten(name: string, more: string)
    requires NamesTrigger(name, "t")
    ensures EatThen(Creation(name, more), "create") == Some("TRIGGER " + (name + more))
  {
    var rest := "TRIGGER " + (name + more);
    var s := Creation(name, more);
    assert s == "CREATE" + (" " + rest);
    assert s[..6] == "CREATE" && s[6..] == " " + rest && (" " + rest)[1..] == rest;
  }

  lemma TriggerEaten(name: string, more: string)
    requires NamesTrigger(name, "t")
    ensures EatThen("TRIGGER " + (name + more), "trigger") == Some(name + more)
  {
    var rest := name + more;
    var s := "TRIGGER " + rest;
    assert name[0] in name && rest[0] == name[0];
    NotSpace(name[0]);
    assert s == "TRIGGER" + (" " + rest);
    assert s[..7] == "TRIGGER" && s[7..] == " " + rest && (" " + rest)[1..] == rest;
  }

  /** Such a line, free of comments, creates that trigger. */
  lemma CreationCreates(name: string, more: string)
    requires NamesTrigger(name, "t") && IsLetter(name[0]) && Clean(Creation(name, more))
    requires more == "" || more[0] == ' '
    ensures Probe(Creation(name, more)) == Creation(name, more)
    ensures CreatedTrigger(Creation(name, more)) == Some(name) && !IsPlain(Creation(name, more), false)
  {
    hide EatThen, WordAt, CodeWithoutLineComment;
    var line := Creation(name, more);
    NoMarkNoComment(line);
    assert line[0] == 'C';
    CreateEaten(name, more);
    TriggerEaten(name, more);
    NameWhole(name, more);
    if IndexOf(line, '/', '*').Some? {
      assert line[IndexOf(line, '/', '*').value] in line;
      assert false;
    }
  }

  lemma NameWhole(name: string, more: string)
    requires (forall c | c in name :: IsWord(c)) && (more == "" || more[0] == ' ')
    ensures WordAt(name + more) == name
  {
    var s := name + more;
    assert forall k | 0 <= k < |name| :: s[k] == name[k] && name[k] in name;
    WordIs(s, |name|);
    assert s[..|name|] == name;
  }

  lemma {:induction false} NoExecute(s: string)
    requires forall k | 0 <= k < |s| - 1 && Lower(s[k]) == 'e' :: Lower(s[k + 1]) != 'x'
    ensures !HasExecute(s)
  {
    if s != "" {
      NoExecute(s[1..]);
      if |s| >= 7 {
        assert s[..7][0] == s[0] && s[..7][1] == s[1];
      }
    }
  }

  const FIRST := "CREATE TRIGGER a"

  const SECOND := "CREATE TRIGGER b AFTER INSERT ON docs"

  lemma FirstIs()
    ensures FIRST == Creation("a", "") && Clean(FIRST) && NamesTrigger("a", "t")
  {}

  lemma SecondIs()
    ensures SECOND == Creation("b", " AFTER INSERT ON docs")
    ensures SECOND == "CREATE TRIGGER b AFTER INSERT" + (" " + ("ON " + ("docs" + "")))
  {}

  lemma SecondIsClean()
    ensures Clean(SECOND)
  {}

  lemma FirstNamesNone()
    ensures ParseOnTable(FIRST).None?
  {
    hide ParseOnTable;
    assert forall k | 0 <= k < |FIRST| - 1 && IsSpace(FIRST[k]) :: k == 6 || k == 14;
    NoTable(FIRST);
  }

  lemma FirstDoesNotExecute()
    ensures !HasExecute(FIRST)
  {
    hide HasExecute;
    assert forall k | 0 <= k < |FIRST| :: FIRST[k] != 'x' && FIRST[k] != 'X';
    NoExecute(FIRST);
  }

  lemma SecondNamesDocs()
    ensures ParseOnTable("CREATE TRIGGER b AFTER INSERT" + (" " + ("ON " + ("docs" + "")))) == Some("docs")
  {
    assert "docs"[0] == 'd' && |"docs"| != |"trigger"|;
    TableAfter("CREATE TRIGGER b AFTER INSERT", "docs", "");
  }

  lemma DropNamesDocs()
    ensures ParseOnTable(DropLine("b", "docs")) == Some("docs")
  {
    var before := "DROP TRIGGER IF EXISTS b";
    assert DropLine("b", "docs") == before + (" " + ("ON " + ("docs" + ";")));
    TableAfter(before, "docs", ";");
  }

  lemma NoDropInFirst(p: nat)
    requires p <= |FIRST|
    ensures !DropsAt(FIRST[p..], "b", "docs")
  {
    if DropsAt(FIRST[p..], "b", "docs") {
      DropsStarts(FIRST[p..], "b", "docs");
      FirstWord(FIRST[p..]);
    }
  }

  lemma NamesAre()
    ensures "docs" + "_old" == "docs_old" && NamesTrigger("b", "docs_old") && NamesTrigger("b", "docs")
    ensures NamesTrigger("b", "t")
  {}

  lemma LinesCreate()
    ensures CreatesUnfinished(FIRST, "a") && CreatesOn(SECOND, "b", "docs") && !Drops(FIRST, "b", "docs")
  {
    hide CreatedTrigger, IsPlain, ParseOnTable, Probe, HasExecute, Creation, Clean, DropsAt;
    FirstIs();
    SecondIs();
    SecondIsClean();
    NamesAre();
    CreationCreates("a", "");
    CreationCreates("b", " AFTER INSERT ON docs");
    FirstNamesNone();
    FirstDoesNotExecute();
    SecondNamesDocs();
    forall p: nat | p <= |FIRST| ensures !DropsAt(FIRST[p..], "b", "docs") {
      NoDropInFirst(p);
    }
  }

  /** So it goes with these two lines: the second run drops `a` on `docs`, where it was never created. */
  lemma TwoRunsOnTwoLines()
    ensures var once := Texts(Rewrite([FIRST, SECOND]));
            && once == [FIRST, DropLine("b", "docs"), SECOND]
            && Texts(Rewrite(once)) == [DropLine("a", "docs")] + once
  {
    hide Rewrite, CreatesOn, CreatesUnfinished, Drops, DropLine, ParseOnTable;
    LinesCreate();
    DropNamesDocs();
    SecondRunAddsAWrongDrop(FIRST, "a", SECOND, "b", "docs");
  }

  /** And with a drop on another table before the second line: nothing that drops `b` on `docs` is added. */
  lemma OldTableIsTaken()
    ensures var line := DropLine("b", "docs_old");
            && Texts(Rewrite([line, SECOND])) == [line, SECOND]
            && !OwnDrop([line], "b", "docs")
  {
    hide Rewrite, CreatesOn, CreatesUnfinished, DropLine, OwnDrop, Drops, IsPlain, CommentAfter, CreatedTrigger, LookAhead;
    var line := DropLine("b", "docs_old");
    NamesAre();
    LinesCreate();
    LongerTableNameCounts("b", "docs", "_old");
    DropLineIsPlain("b", "docs_old");
    TakenOnTwoLines(line, SECOND, "b", "docs");
  }

  lemma TakenOnTwoLines(line: string, trigger: string, name: string, table: string)
    requires IsPlain(line, false) && !CommentAfter(line, false)
    requires CreatesOn(trigger, name, table) && LookAlikeOnly([line], name, table)
    ensures Texts(Rewrite([line, trigger])) == [line, trigger] && !OwnDrop([line], name, table)
  {
    hide Rewrite, IsPlain, CommentAfter, CreatedTrigger, LookAhead, ParseOnTable, Drops, OwnDrop;
    FoundAtOnce([line, trigger], 1, name, table);
    LookAlikeIsTaken(line, trigger, name, table);
  }

  /** And with the second line twice: the second creation has no drop after the first. */
  lemma CreatedAgain()
    ensures Texts(Rewrite([SECOND, SECOND])) == [DropLine("b", "docs"), SECOND, SECOND]
  {
    hide Rewrite, CreatesOn, CreatesUnfinished, DropLine, Drops;
    LinesCreate();
    CreatedTwiceDroppedOnce(SECOND, "b", "docs");
  }
}
