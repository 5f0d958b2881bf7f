/** Whether the drop that lets a trigger be created again is really a drop of that trigger. */
module OwnDrops {
  import opened JsText
  import opened Prelude
  import opened SqlPatterns
  import opened TriggerRewriter

  // ----- code and comments -----

  /** Where reading stands: in code, in a comment up to the line's end, or in block comments nested so deep. */
  datatype Mode = Code | InLine | InBlock(depth: nat)

  datatype Step = Step(mode: Mode, read: nat)

  function Read(s: string, m: Mode): (r: Step)
    requires s != ""
    ensures 1 <= r.read <= |s|
    ensures m.Code? && r.mode.Code? ==> r.read == 1
  {
    match m
    case Code => if "/*" <= s then Step(InBlock(0), 2) else if "--" <= s then Step(InLine, 2) else Step(Code, 1)
    case InLine => if EndsLine(s[0]) then Step(Code, 1) else Step(InLine, 1)
    case InBlock(depth) =>
      if "*/" <= s then Step(if depth == 0 then Code else InBlock(depth - 1), 2)
      else if "/*" <= s then Step(InBlock(depth + 1), 2)
      else Step(m, 1)
  }

  function Blank(n: nat): (s: string)
    ensures |s| == n
  {
    seq(n, _ => ' ')
  }

  /** The line with a space for every character of a comment. */
  function CodeOf(line: string, m: Mode): (code: string)
    ensures |code| == |line|
  {
    if line == "" then ""
    else
      var step := Read(line, m);
      (if m.Code? && step.mode.Code? then line[..1] else Blank(step.read)) + CodeOf(line[step.read..], step.mode)
  }

  function ModeAfter(line: string, m: Mode): (after: Mode)
    ensures !after.InLine?
  {
    if line == "" then if m.InLine? then Code else m
    else
      var step := Read(line, m);
      ModeAfter(line[step.read..], step.mode)
  }

  function ModeAfterAll(lines: seq<string>): (m: Mode)
    ensures !m.InLine?
  {
    if lines == [] then Code
    else ModeAfter(lines[|lines| - 1], ModeAfterAll(lines[..|lines| - 1]))
  }

  function CodeLines(lines: seq<string>): (code: seq<string>)
    ensures |code| == |lines|
    ensures forall k | 0 <= k < |lines| :: code[k] == CodeOf(lines[k], ModeAfterAll(lines[..k]))
  {
    seq(|lines|, k requires 0 <= k < |lines| => CodeOf(lines[k], ModeAfterAll(lines[..k])))
  }

  lemma {:induction false} CleanLine(line: string, m: Mode)
    requires Clean(line) && !m.InLine?
    ensures ModeAfter(line, m) == m && (m.Code? ==> CodeOf(line, m) == line)
  {
    if line != "" {
      assert line[0] in line && (|line| >= 2 ==> line[1] in line);
      assert Read(line, m) == Step(m, 1);
      assert forall c | c in line[1..] :: c in line;
      CleanLine(line[1..], m);
    }
  }

  // ----- a drop statement, read to the end of its table name -----

  datatype Drop = Drop(name: string, table: string)

  function StatedDrop(s: string): Option<Drop> {
    var a := EatThen(s, DROP);
    if a.None? || WordAt(a.value) == "" then None else
      var b := EatSpaces(a.value[|WordAt(a.value)|..]);
      var c := if b.None? then None else EatThen(b.value, "ON");
      if c.None? || DottedAt(c.value) == "" then None else Some(Drop(WordAt(a.value), DottedAt(c.value)))
  }

  /** The statement at the very start of `s` drops that trigger on that table. */
  predicate OwnAt(s: string, name: string, table: string) {
    var d := StatedDrop(s);
    d.Some? && SameIgnoringCase(d.value.name, name) && SameIgnoringCase(d.value.table, table)
  }

  predicate StartsSame(s: string, start: string) {
    |start| <= |s| && SameIgnoringCase(s[..|start|], start)
  }

  /** A name cannot go on with `s`. */
  predicate Ends(s: string) {
    s == "" || !(IsWord(s[0]) || s[0] == '.')
  }

  lemma {:induction false} TrimStartMore(s: string, more: string)
    requires TrimStart(s) != ""
    ensures TrimStart(s + more) == TrimStart(s) + more
  {
    assert (s + more)[0] == s[0];
    if IsSpace(s[0]) {
      assert (s + more)[1..] == s[1..] + more;
      TrimStartMore(s[1..], more);
    }
  }

  lemma SpacesMore(s: string, more: string)
    requires EatSpaces(s).Some? && EatSpaces(s).value != ""
    ensures EatSpaces(s + more) == Some(EatSpaces(s).value + more)
  {
    TrimStartMore(s, more);
  }

  lemma EatMore(s: string, more: string, w: string)
    requires Eat(s, w).Some?
    ensures Eat(s + more, w) == Some(Eat(s, w).value + more)
  {
    assert (s + more)[..|w|] == s[..|w|] && (s + more)[|w|..] == s[|w|..] + more;
  }

  lemma EatThenMore(s: string, more: string, w: string)
    requires EatThen(s, w).Some? && EatThen(s, w).value != ""
    ensures EatThen(s + more, w) == Some(EatThen(s, w).value + more)
  {
    EatMore(s, more, w);
    SpacesMore(Eat(s, w).value, more);
  }

  /** A run of letters, digits and underscores that something else follows is read whole. */
  lemma {:induction false} WordIs(s: string, n: nat)
    requires n <= |s| && (forall k | 0 <= k < n :: IsWord(s[k])) && (n == |s| || !IsWord(s[n]))
    ensures WordAt(s) == s[..n]
  {
    if n > 0 {
      assert s[..n] == [s[0]] + s[1..][..n - 1];
      WordIs(s[1..], n - 1);
    }
  }

  lemma {:induction false} DottedIs(s: string, n: nat)
    requires n <= |s| && (forall k | 0 <= k < n :: IsWord(s[k]) || s[k] == '.') && Ends(s[n..])
    ensures DottedAt(s) == s[..n]
  {
    if n > 0 {
      assert s[..n] == [s[0]] + s[1..][..n - 1] && s[n..] == s[1..][n - 1..];
      DottedIs(s[1..], n - 1);
    }
  }

  lemma {:induction false} DottedReaches(s: string, n: nat)
    requires n <= |s| && forall k | 0 <= k < n :: IsWord(s[k]) || s[k] == '.'
    ensures n <= |DottedAt(s)|
  {
    if n > 0 {
      DottedReaches(s[1..], n - 1);
    }
  }

  lemma {:induction false} WordStops(s: string)
    ensures |WordAt(s)| == |s| || !IsWord(s[|WordAt(s)|])
  {
    if s != "" && IsWord(s[0]) {
      WordStops(s[1..]);
    }
  }

  lemma {:induction false} DottedStops(s: string)
    ensures Ends(s[|DottedAt(s)|..])
  {
    if s != "" && (IsWord(s[0]) || s[0] == '.') {
      assert s[|DottedAt(s)|..] == s[1..][|DottedAt(s[1..])|..];
      DottedStops(s[1..]);
    }
  }

  lemma WordMore(s: string, more: string)
    requires |WordAt(s)| < |s|
    ensures WordAt(s + more) == WordAt(s)
  {
    WordStops(s);
    var w := WordAt(s);
    assert forall k | 0 <= k < |w| :: (s + more)[k] == s[k] == w[k] && w[k] in w;
    WordIs(s + more, |w|);
    assert (s + more)[..|w|] == s[..|w|];
  }

  lemma DottedMore(s: string, more: string)
    requires Ends(more)
    ensures DottedAt(s + more) == DottedAt(s)
  {
    hide IsWord;
    DottedStops(s);
    var w := DottedAt(s);
    assert forall k | 0 <= k < |w| :: (s + more)[k] == s[k] == w[k] && w[k] in w;
    assert (s + more)[|w|..] == s[|w|..] + more;
    DottedIs(s + more, |w|);
    assert (s + more)[..|w|] == s[..|w|];
  }

  /** What follows a statement does not change it, when the table name cannot go on with it. */
  lemma StatedMore(s: string, more: string)
    requires StatedDrop(s).Some? && Ends(more)
    ensures StatedDrop(s + more) == StatedDrop(s)
  {
    hide TrimStart, WordAt, DottedAt, Ends, SameIgnoringCase;
    var a := EatThen(s, DROP).value;
    var w := |WordAt(a)|;
    EatThenMore(s, more, DROP);
    WordMore(a, more);
    assert (a + more)[w..] == a[w..] + more;
    var b := EatSpaces(a[w..]).value;
    SpacesMore(a[w..], more);
    EatThenMore(b, more, "ON");
    DottedMore(EatThen(b, "ON").value, more);
  }

  // ----- what the loose test accepts -----

  lemma SameKeepsWords(a: string, b: string)
    requires SameIgnoringCase(a, b)
    ensures (forall c | c in b :: IsWord(c)) ==> forall k | 0 <= k < |a| :: IsWord(a[k])
    ensures (forall c | c in b :: IsWord(c) || c == '.') ==> forall k | 0 <= k < |a| :: IsWord(a[k]) || a[k] == '.'
  {
    forall k | 0 <= k < |a| ensures b[k] in b && Lower(a[k]) == Lower(b[k]) {}
  }

  /** The trigger's name and a space stand at the start of `a` exactly when the word there is that name. */
  lemma NameExactlyWhen(a: string, name: string)
    requires forall c | c in name :: IsWord(c)
    requires EatSpaces(a[|WordAt(a)|..]).Some?
    ensures EatThen(a, name).Some? <==> SameIgnoringCase(WordAt(a), name)
    ensures EatThen(a, name).Some? ==> EatThen(a, name) == EatSpaces(a[|WordAt(a)|..])
  {
    if EatThen(a, name).Some? {
      SameKeepsWords(a[..|name|], name);
      assert forall k | 0 <= k < |name| :: a[..|name|][k] == a[k];
      assert IsSpace(a[|name|..][0]) && a[|name|..][0] == a[|name|];
      WordIs(a, |name|);
    }
  }

  lemma TableExactlyWhen(c: string, table: string)
    requires forall ch | ch in table :: IsWord(ch) || ch == '.'
    ensures Eat(c, table).Some? <==> StartsSame(DottedAt(c), table)
  {
    var d := DottedAt(c);
    assert d == c[..|d|];
    if Eat(c, table).Some? {
      SameKeepsWords(c[..|table|], table);
      assert forall k | 0 <= k < |table| :: c[..|table|][k] == c[k];
      DottedReaches(c, |table|);
    }
    if |table| <= |d| {
      assert d[..|table|] == c[..|table|];
    }
  }

  /**
   The test of the code on a finished statement: it takes the drop of that trigger on any
   table whose name starts with the one looked for.
   */
  lemma DropsExactlyWhen(s: string, name: string, table: string)
    requires StatedDrop(s).Some? && NamesTrigger(name, table)
    ensures var d := StatedDrop(s).value;
            DropsAt(s, name, table) <==> SameIgnoringCase(d.name, name) && StartsSame(d.table, table)
  {
    hide Eat, WordAt, DottedAt, EatThen, EatSpaces, SameIgnoringCase, StartsSame;
    var a := EatThen(s, DROP).value;
    NameExactlyWhen(a, name);
    TableExactlyWhen(EatThen(EatSpaces(a[|WordAt(a)|..]).value, "ON").value, table);
  }

  lemma SpaceEaten(w: string, rest: string)
    requires rest != "" && !IsSpace(rest[0])
    ensures EatThen(w + (" " + rest), w) == Some(rest)
  {
    var s := w + (" " + rest);
    assert s[..|w|] == w && s[|w|..] == " " + rest;
    assert (" " + rest)[1..] == rest;
  }

  lemma NotSpace(c: char)
    requires IsWord(c) || c == '.'
    ensures !IsSpace(c)
  {}

  /** The statement the code inserts is a drop of that trigger on that table. */
  lemma StatedByDropLine(name: string, table: string)
    requires NamesTrigger(name, table)
    ensures StatedDrop(DropLine(name, table)) == Some(Drop(name, table))
  {
    hide EatThen, Eat, WordAt, DottedAt, IsSpace, IsWord;
    var c := table + ";";
    var b := "ON" + (" " + c);
    var a := name + (" " + b);
    assert name[0] in name && table[0] in table;
    NotSpace(name[0]);
    NotSpace(table[0]);
    assert DropLine(name, table) == DROP + (" " + a);
    SpaceEaten(DROP, a);
    WordOfName(name, " " + b);
    assert a[|name|..] == " " + b && (" " + b)[1..] == b;
    SpacesOfOne(b);
    SpaceEaten("ON", c);
    DottedOfTable(table);
  }

  lemma SpacesOfOne(b: string)
    requires b != "" && b[0] == 'O'
    ensures EatSpaces(" " + b) == Some(b)
  {
    assert (" " + b)[1..] == b;
  }

  lemma WordOfName(name: string, rest: string)
    requires (forall c | c in name :: IsWord(c)) && rest != "" && rest[0] == ' '
    ensures WordAt(name + rest) == name
  {
    var s := name + rest;
    assert forall k | 0 <= k < |name| :: s[k] == name[k] && name[k] in name;
    assert s[|name|] == ' ';
    WordIs(s, |name|);
    assert s[..|name|] == name;
  }

  lemma DottedOfTable(table: string)
    requires forall c | c in table :: IsWord(c) || c == '.'
    ensures DottedAt(table + ";") == table
  {
    var s := table + ";";
    assert forall k | 0 <= k < |table| :: s[k] == table[k] && table[k] in table;
    assert s[|table|..] == ";";
    DottedIs(s, |table|);
    assert s[..|table|] == table;
  }

  // ----- where in the joined lines a drop stands -----

  /** Every match of the test starts with these words, which no line feed interrupts. */
  predicate StartsDrop(s: string) {
    Eat(s, DROP).Some?
  }

  /** What follows the lines before the j-th in the joined text. */
  function Following(lines: seq<string>, j: nat): (s: string)
    requires j <= |lines|
    ensures s == "" || s[0] == '\n'
    decreases |lines| - j
  {
    if j == |lines| then "" else "\n" + (lines[j] + Following(lines, j + 1))
  }

  lemma {:induction false} JoinUpTo(lines: seq<string>, j: nat)
    requires 0 < j <= |lines|
    ensures Join(lines) == Join(lines[..j]) + Following(lines, j)
    decreases |lines| - j
  {
    if j == |lines| {
      assert lines[..j] == lines;
    } else {
      JoinUpTo(lines, j + 1);
      assert lines[..j + 1][..j] == lines[..j];
      assert Join(lines[..j + 1]) == Join(lines[..j]) + "\n" + lines[j];
      assert (Join(lines[..j]) + "\n" + lines[j]) + Following(lines, j + 1)
          == Join(lines[..j]) + ("\n" + (lines[j] + Following(lines, j + 1)));
    }
  }

  /** Where line `j` begins in the joined text. */
  function LineStart(lines: seq<string>, j: nat): nat
    requires j < |lines|
  {
    if j == 0 then 0 else |Join(lines[..j])| + 1
  }

  lemma FromLine(lines: seq<string>, j: nat, q: nat)
    requires j < |lines| && q <= |lines[j]|
    ensures LineStart(lines, j) + q <= |Join(lines)|
    ensures Join(lines)[LineStart(lines, j) + q..] == lines[j][q..] + Following(lines, j + 1)
  {
    hide Join, Following;
    var rest := Following(lines, j + 1);
    if j == 0 {
      FirstLine(lines);
      SliceInside("", lines[0], rest, q);
      assert "" + (lines[0] + rest) == lines[0] + rest;
    } else {
      var before := Join(lines[..j]) + "\n";
      LaterLine(lines, j);
      SliceInside(before, lines[j], rest, q);
    }
  }

  lemma FirstLine(lines: seq<string>)
    requires lines != []
    ensures Join(lines) == lines[0] + Following(lines, 1)
  {
    JoinUpTo(lines, 1);
    assert lines[..1] == [lines[0]];
  }

  lemma LaterLine(lines: seq<string>, j: nat)
    requires 0 < j < |lines|
    ensures Join(lines) == (Join(lines[..j]) + "\n") + (lines[j] + Following(lines, j + 1))
  {
    hide Join;
    JoinUpTo(lines, j);
    var most, rest := Join(lines[..j]), lines[j] + Following(lines, j + 1);
    assert most + ("\n" + rest) == (most + "\n") + rest;
  }

  lemma SliceInside(before: string, line: string, rest: string, q: nat)
    requires q <= |line|
    ensures (before + (line + rest))[|before| + q..] == line[q..] + rest
  {}

  /** A match in the joined text starts within one line. */
  lemma {:induction false} Located(lines: seq<string>, p: nat) returns (j: nat, q: nat)
    requires p <= |Join(lines)| && StartsDrop(Join(lines)[p..])
    ensures j < |lines| && q <= |lines[j]| && p == LineStart(lines, j) + q && StartsDrop(lines[j][q..])
  {
    var s := Join(lines)[p..];
    if |lines| <= 1 {
      j, q := 0, p;
    } else {
      var last := |lines| - 1;
      var most := Join(lines[..last]);
      assert Join(lines) == (most + "\n") + lines[last];
      if p > |most| {
        j, q := last, p - |most| - 1;
        assert s == lines[last][q..];
      } else {
        NoLineFeed(s, |most| - p);
        assert most[p..] == s[..|most| - p];
        assert most[p..][..|DROP|] == s[..|DROP|];
        j, q := Located(lines[..last], p);
        assert lines[..last][..j] == lines[..j];
      }
    }
  }

  lemma NoLineFeed(s: string, n: nat)
    requires n < |s| && s[n] == '\n' && StartsDrop(s)
    ensures |DROP| <= n
  {}

  lemma SpacesOfDropLine(name: string, table: string, k: nat)
    requires NamesTrigger(name, table) && k < |DropLine(name, table)| && DropLine(name, table)[k] == ' '
    ensures k == 4 || k == 12 || k == 15 || k == 22 || k == 23 + |name| || k == 26 + |name|
  {
    assert forall i | 0 <= i < |name| :: name[i] in name;
    assert forall i | 0 <= i < |table| :: table[i] in table;
  }

  lemma FirstWord(s: string)
    requires StartsDrop(s)
    ensures |s| >= |DROP| && Lower(s[0]) == 'd' && s[4] == ' ' && s[12] == ' '
  {
    assert s[..|DROP|][0] == s[0] && s[..|DROP|][4] == s[4] && s[..|DROP|][12] == s[12];
  }

  /** The words a drop starts with are found nowhere else in it. */
  lemma AddedStandsAlone(name: string, table: string, q: nat)
    requires NamesTrigger(name, table) && q <= |DropLine(name, table)| && StartsDrop(DropLine(name, table)[q..])
    ensures q == 0
  {
    hide StartsDrop, NamesTrigger;
    FirstWord(DropLine(name, table)[q..]);
    SpacesOfDropLine(name, table, q + 4);
    SpacesOfDropLine(name, table, q + 12);
  }

  // ----- the drop a trigger needs -----

  /** Among the last lines there is, outside comments, a drop of that trigger on that table. */
  predicate OwnDrop(before: seq<string>, name: string, table: string) {
    var code := Join(Tail(CodeLines(before)));
    exists p | 0 <= p <= |code| :: OwnAt(code[p..], name, table)
  }

  /** The test finds something there, and none of it is a drop of that trigger on that table. */
  predicate LookAlikeOnly(before: seq<string>, name: string, table: string) {
    Drops(Join(Tail(before)), name, table) && !OwnDrop(before, name, table)
  }

  lemma OwnIsFound(before: seq<string>, j: nat, q: nat, name: string, table: string)
    requires j < |before| <= j + TAIL && q <= |before[j]| && OwnAt(CodeLines(before)[j][q..], name, table)
    ensures OwnDrop(before, name, table)
  {
    hide StatedDrop, CodeOf, Join, SameIgnoringCase, ModeAfterAll;
    var code := CodeLines(before);
    var lines := Tail(code);
    var n := j + |lines| - |code|;
    assert lines[n] == code[j];
    FromLine(lines, n, q);
    StatedMore(code[j][q..], Following(lines, n + 1));
    assert OwnAt(Join(lines)[LineStart(lines, n) + q..], name, table);
  }

  /** A match of the test starts in one of the last lines, and is of that trigger if it is finished there. */
  predicate MatchesAt(line: string, name: string, table: string) {
    && StartsDrop(line)
    && var d := StatedDrop(line);
       (d.Some? ==> SameIgnoringCase(d.value.name, name) && StartsSame(d.value.table, table))
  }

  lemma DropsStarts(s: string, name: string, table: string)
    requires DropsAt(s, name, table)
    ensures StartsDrop(s)
  {}

  lemma LooseMatch(before: seq<string>, name: string, table: string) returns (j: nat, q: nat)
    requires NamesTrigger(name, table) && Drops(Join(Tail(before)), name, table)
    ensures j < |before| <= j + TAIL && q <= |before[j]| && MatchesAt(before[j][q..], name, table)
  {
    hide StatedDrop, Join, SameIgnoringCase, StartsSame, DropsAt, StartsDrop;
    var lines := Tail(before);
    var p: nat :| p <= |Join(lines)| && DropsAt(Join(lines)[p..], name, table);
    DropsStarts(Join(lines)[p..], name, table);
    var n;
    n, q := Located(lines, p);
    j := n + |before| - |lines|;
    assert lines[n] == before[j];
    FromLine(lines, n, q);
    var line, more := lines[n][q..], Following(lines, n + 1);
    if StatedDrop(line).Some? {
      StatedMore(line, more);
      DropsExactlyWhen(line + more, name, table);
    }
  }

  lemma AddedKeepsMode(before: seq<string>, name: string, table: string)
    requires NamesTrigger(name, table)
    ensures ModeAfterAll(before + [DropLine(name, table)]) == ModeAfterAll(before)
    ensures ModeAfterAll(before).Code? ==> CodeLines(before + [DropLine(name, table)])[|before|] == DropLine(name, table)
  {
    hide DropLine, ModeAfter, CodeOf;
    var line := DropLine(name, table);
    assert (before + [line])[..|before|] == before;
    DropLineIsClean(name, table);
    CleanLine(line, ModeAfterAll(before));
  }

  lemma AddedIsOwn(before: seq<string>, name: string, table: string)
    requires NamesTrigger(name, table) && ModeAfterAll(before).Code?
    ensures OwnDrop(before + [DropLine(name, table)], name, table)
  {
    hide DropLine, StatedDrop, ModeAfterAll, OwnDrop;
    var line := DropLine(name, table);
    AddedKeepsMode(before, name, table);
    StatedByDropLine(name, table);
    assert line[0..] == line;
    OwnIsFound(before + [line], |before|, 0, name, table);
  }

  /** The lines written when the test for the trigger at `k` is made. */
  function Tested(out: seq<OutLine>, k: nat): seq<string>
    requires k < |out|
  {
    Texts(out[..if k > 0 && out[k - 1].Added? then k - 1 else k])
  }

  /**
   A trigger reached outside comments has its own drop before it exactly when the lines the
   test looked at did not hold a look-alike alone.
   */
  lemma OwnDropExactlyWhen(lines: seq<string>, k: nat)
    requires k < |Rewrite(lines)| && Rewrite(lines)[k].Creates?
    requires ModeAfterAll(Texts(Rewrite(lines)[..k])).Code?
    ensures var out := Rewrite(lines);
            OwnDrop(Texts(out[..k]), out[k].name, out[k].table)
            <==> !LookAlikeOnly(Tested(out, k), out[k].name, out[k].table)
  {
    hide Rewrite, Drops, Join, Tail, Texts, NamesTrigger, DropLine, ModeAfterAll, OwnDrop;
    var out := Rewrite(lines);
    RewriteDecided(lines);
    assert Decided(out, k);
    if k > 0 && out[k - 1].Added? {
      assert Decided(out, k - 1);
      LastText(out, k);
      AddedKeepsMode(Texts(out[..k - 1]), out[k].name, out[k].table);
      AddedIsOwn(Texts(out[..k - 1]), out[k].name, out[k].table);
    }
  }

  // ----- over the input -----

  /** The test takes what starts there for a drop of the trigger, and it is not one, or stands in a comment. */
  predicate LookAlikeAt(line: string, code: string, name: string, table: string) {
    MatchesAt(line, name, table) && !OwnAt(code, name, table)
  }

  /** No line of the input holds a look-alike for a trigger reached. */
  predicate NoLookAlikes(lines: seq<string>) {
    forall t, i: nat, q: nat | t in Rewrite(lines) && t.Creates? && i < |lines| && q <= |lines[i]| ::
      !LookAlikeAt(lines[i][q..], CodeLines(lines)[i][q..], t.name, t.table)
  }

  /** No two triggers of one name are reached on tables of which one's name starts the other's. */
  predicate NoLongerSibling(out: seq<OutLine>) {
    forall t, u | t in out && u in out && t.Creates? && u.Creates? ::
      SameIgnoringCase(u.name, t.name) && StartsSame(u.table, t.table) ==> |u.table| == |t.table|
  }

  /** Every trigger reached stands outside comments in the input. */
  predicate AllOutsideComments(out: seq<OutLine>) {
    forall k: nat | k < |out| && out[k].Creates? :: ModeAfterAll(Originals(out[..k])).Code?
  }

  lemma {:induction false} AddedChangesNoMode(out: seq<OutLine>, k: nat)
    requires AllDecided(out) && k <= |out|
    ensures ModeAfterAll(Texts(out[..k])) == ModeAfterAll(Originals(out[..k]))
  {
    hide Drops, Join, Tail, DropLine, ModeAfter, NamesTrigger, Texts;
    if k == 0 {
      NoTexts();
      assert out[..0] == [];
    } else {
      var last := out[k - 1];
      assert out[..k][..k - 1] == out[..k - 1];
      AddedChangesNoMode(out, k - 1);
      LastText(out, k);
      var before := Texts(out[..k - 1]);
      assert (before + [last.text])[..|before|] == before;
      if last.Added? {
        assert Decided(out, k - 1) && Decided(out, k);
        AddedKeepsMode(before, out[k].name, out[k].table);
        assert Originals(out[..k]) == Originals(out[..k - 1]);
      } else {
        var lines := Originals(out[..k - 1]);
        assert (lines + [last.text])[..|lines|] == lines;
      }
    }
  }

  /** A line of the output that was not added is the input line after those before it. */
  lemma Placed(lines: seq<string>, j: nat) returns (i: nat)
    requires j < |Rewrite(lines)| && !Rewrite(lines)[j].Added?
    ensures i < |lines| && lines[..i] == Originals(Rewrite(lines)[..j]) && lines[i] == Rewrite(lines)[j].text
    ensures CodeLines(lines)[i] == CodeLines(Texts(Rewrite(lines)))[j]
  {
    hide Rewrite, CodeOf, ModeAfterAll, Originals, AllDecided;
    var out := Rewrite(lines);
    OnlyInserts(lines);
    var line := [out[j]];
    assert out == (out[..j] + line) + out[j + 1..];
    OriginalsConcat(out[..j] + line, out[j + 1..]);
    OriginalsConcat(out[..j], line);
    OriginalsOfOne(out[j]);
    i := |Originals(out[..j])|;
    RewriteDecided(lines);
    AddedChangesNoMode(out, j);
    assert Texts(out)[..j] == Texts(out[..j]);
  }

  /** Where a match of the test for the trigger at `k` starts, its own drop stands. */
  lemma MatchIsOwn(lines: seq<string>, k: nat, j: nat, q: nat)
    requires NoLookAlikes(lines) && NoLongerSibling(Rewrite(lines)) && AllOutsideComments(Rewrite(lines))
    requires j < k < |Rewrite(lines)| && Rewrite(lines)[k].Creates? && q <= |Rewrite(lines)[j].text|
    requires MatchesAt(Rewrite(lines)[j].text[q..], Rewrite(lines)[k].name, Rewrite(lines)[k].table)
    ensures OwnAt(CodeLines(Texts(Rewrite(lines)))[j][q..], Rewrite(lines)[k].name, Rewrite(lines)[k].table)
  {
    hide Rewrite, CodeOf, ModeAfterAll, Originals, OwnAt, MatchesAt, AllDecided, Decided, DropLine;
    var out := Rewrite(lines);
    assert out[k] in out;
    if out[j].Added? {
      AddedMatchIsOwn(lines, k, j, q);
    } else {
      var i := Placed(lines, j);
      assert !LookAlikeAt(lines[i][q..], CodeLines(lines)[i][q..], out[k].name, out[k].table);
    }
  }

  lemma AddedMatchIsOwn(lines: seq<string>, k: nat, j: nat, q: nat)
    requires NoLongerSibling(Rewrite(lines)) && AllOutsideComments(Rewrite(lines))
    requires j < k < |Rewrite(lines)| && Rewrite(lines)[k].Creates? && q <= |Rewrite(lines)[j].text|
    requires Rewrite(lines)[j].Added?
    requires MatchesAt(Rewrite(lines)[j].text[q..], Rewrite(lines)[k].name, Rewrite(lines)[k].table)
    ensures OwnAt(CodeLines(Texts(Rewrite(lines)))[j][q..], Rewrite(lines)[k].name, Rewrite(lines)[k].table)
  {
    hide Rewrite, CodeOf, ModeAfterAll, Originals, DropLine, Drops, Join, Tail, NamesTrigger, StatedDrop, StartsDrop;
    var out := Rewrite(lines);
    RewriteDecided(lines);
    assert Decided(out, j) && Decided(out, j + 1);
    var u := out[j + 1];
    assert u in out && out[k] in out;
    AddedStandsAlone(u.name, u.table, q);
    assert out[j].text[0..] == out[j].text;
    StatedByDropLine(u.name, u.table);
    assert SameIgnoringCase(u.table, out[k].table) by {
      assert u.table[..|u.table|] == u.table;
    }
    AddedLineIsCode(out, j);
  }

  lemma AddedLineIsCode(out: seq<OutLine>, j: nat)
    requires AllDecided(out) && AllOutsideComments(out) && j < |out| && out[j].Added?
    ensures CodeLines(Texts(out))[j] == out[j].text
  {
    hide CodeOf, ModeAfterAll, Originals, DropLine, Drops, Join, Tail, NamesTrigger;
    assert Decided(out, j) && Decided(out, j + 1);
    var u := out[j + 1];
    var before := Texts(out[..j]);
    AddedChangesNoMode(out, j + 1);
    LastText(out, j + 1);
    AddedKeepsMode(before, u.name, u.table);
    assert Texts(out)[..j] == before;
    assert (before + [out[j].text])[..j] == before;
  }

  /**
   When the input holds no look-alike, no two triggers of one name are on tables of which
   one's name starts the other's, and no trigger stands in a comment, every trigger reached
   has its own drop among the five lines before it.
   */
  lemma EveryTriggerHasItsOwnDrop(lines: seq<string>, k: nat)
    requires NoLookAlikes(lines) && NoLongerSibling(Rewrite(lines)) && AllOutsideComments(Rewrite(lines))
    requires k < |Rewrite(lines)| && Rewrite(lines)[k].Creates?
    ensures OwnDrop(Texts(Rewrite(lines)[..k]), Rewrite(lines)[k].name, Rewrite(lines)[k].table)
  {
    hide Rewrite, CodeOf, Join, Drops, ModeAfterAll, Originals, OwnAt, MatchesAt, AllDecided, DropLine, OwnDrop,
      NoLookAlikes, NoLongerSibling, NamesTrigger, Tail;
    var out := Rewrite(lines);
    var name, table := out[k].name, out[k].table;
    EveryTriggerHasItsDrop(lines, k);
    RewriteDecided(lines);
    NamesAreKnown(out, k);
    var before := Texts(out[..k]);
    var j, q := LooseMatch(before, name, table);
    MatchIsOwn(lines, k, j, q);
    assert Texts(out)[..j] == before[..j];
    OwnIsFound(before, j, q, name, table);
  }

  lemma NamesAreKnown(out: seq<OutLine>, k: nat)
    requires AllDecided(out) && k < |out| && out[k].Creates?
    ensures NamesTrigger(out[k].name, out[k].table)
  {
    assert Decided(out, k);
  }

  // ----- five lines back -----

  /** A drop with at most four lines after it is found. */
  lemma FoundWithinFive(before: seq<string>, after: seq<string>, name: string, table: string)
    requires NamesTrigger(name, table) && |after| <= 4
    ensures Drops(Join(Tail(before + [DropLine(name, table)] + after)), name, table)
  {
    hide DropLine, StatedDrop, DropsAt, NamesTrigger, Join;
    var all := before + [DropLine(name, table)] + after;
    var lines := Tail(all);
    var n := |lines| - |after| - 1;
    assert lines[n] == DropLine(name, table);
    FromLine(lines, n, 0);
    assert lines[n][0..] == lines[n];
    StatedByDropLine(name, table);
    StatedMore(DropLine(name, table), Following(lines, n + 1));
    assert table[..|table|] == table;
    DropsExactlyWhen(DropLine(name, table) + Following(lines, n + 1), name, table);
    assert DropsAt(Join(lines)[LineStart(lines, n)..], name, table);
  }

  /** One with five is out of sight. */
  lemma OutOfSightBeyondFive(before: seq<string>, after: seq<string>)
    requires |after| == 5
    ensures Tail(before + after) == after
  {}

  // ----- the ways it fails -----

  predicate IsAmongLast(before: seq<string>, j: nat, q: nat) {
    j < |before| <= j + TAIL && q <= |before[j]|
  }

  /**
   Where the test finds look-alikes alone, it finds something, and whatever it finds is not
   the trigger's own: if finished on its line, its table name goes on, or a comment takes part of it.
   */
  lemma EveryMatchIsALookAlike(before: seq<string>, name: string, table: string)
    requires NamesTrigger(name, table) && LookAlikeOnly(before, name, table)
    ensures exists j: nat, q: nat :: IsAmongLast(before, j, q) && MatchesAt(before[j][q..], name, table)
    ensures forall j: nat, q: nat | IsAmongLast(before, j, q) && MatchesAt(before[j][q..], name, table) ::
              var raw, code := StatedDrop(before[j][q..]), StatedDrop(CodeLines(before)[j][q..]);
              raw.Some? ==> |raw.value.table| > |table| || code != raw
  {
    hide StatedDrop, CodeOf, Join, OwnDrop, Drops, ModeAfterAll, NamesTrigger, StartsDrop;
    var i, p := LooseMatch(before, name, table);
    assert IsAmongLast(before, i, p);
    forall j: nat, q: nat | IsAmongLast(before, j, q) && MatchesAt(before[j][q..], name, table)
      ensures var raw, code := StatedDrop(before[j][q..]), StatedDrop(CodeLines(before)[j][q..]);
              raw.Some? ==> |raw.value.table| > |table| || code != raw
    {
      var raw := StatedDrop(before[j][q..]);
      if raw.Some? && raw == StatedDrop(CodeLines(before)[j][q..]) && |raw.value.table| <= |table| {
        assert raw.value.table[..|table|] == raw.value.table;
        OwnIsFound(before, j, q, name, table);
      }
    }
  }

  lemma OneLine(line: string)
    ensures Join(Tail([line])) == line
    ensures Join(Tail(CodeLines([line]))) == CodeOf(line, Code)
  {}

  lemma FoundInLine(line: string, p: nat, name: string, table: string)
    requires p <= |line| && DropsAt(line[p..], name, table)
    ensures Drops(Join(Tail([line])), name, table)
  {
    OneLine(line);
  }

  /** A drop on a table whose name goes on passes the test, and is not the trigger's own. */
  lemma LongerTableNameCounts(name: string, table: string, more: string)
    requires NamesTrigger(name, table) && NamesTrigger(name, table + more) && more != ""
    ensures LookAlikeOnly([DropLine(name, table + more)], name, table)
  {
    hide StatedDrop, DropLine, Join, StartsDrop, DropsAt, Tail, NamesTrigger, Drops, ModeAfter;
    var line := DropLine(name, table + more);
    StatedByDropLine(name, table + more);
    assert (table + more)[..|table|] == table && line[0..] == line;
    DropsExactlyWhen(line, name, table);
    FoundInLine(line, 0, name, table);
    AddedKeepsMode([], name, table + more);
    assert [] + [line] == [line];
    OneLine(line);
    forall p | 0 <= p <= |line| ensures !OwnAt(line[p..], name, table) {
      if OwnAt(line[p..], name, table) {
        OwnStarts(line[p..], name, table);
        AddedStandsAlone(name, table + more, p);
      }
    }
  }

  lemma OwnStarts(s: string, name: string, table: string)
    requires OwnAt(s, name, table)
    ensures StartsDrop(s)
  {}

  lemma {:induction false} CommentIsBlank(s: string)
    requires forall c | c in s :: !EndsLine(c)
    ensures CodeOf(s, InLine) == Blank(|s|)
  {
    if s != "" {
      assert s[0] in s && forall c | c in s[1..] :: c in s;
      CommentIsBlank(s[1..]);
    }
  }

  lemma DropLineIsOneLine(name: string, table: string)
    requires NamesTrigger(name, table)
    ensures forall c | c in DropLine(name, table) :: !EndsLine(c)
  {}

  /** So does one that is commented out. */
  lemma CommentedDropCounts(name: string, table: string)
    requires NamesTrigger(name, table)
    ensures LookAlikeOnly(["-- " + DropLine(name, table)], name, table)
  {
    hide DropLine, Join, StartsDrop, DropsAt, Tail, NamesTrigger, Drops, ModeAfter, StatedDrop;
    var drop := DropLine(name, table);
    var line := "-- " + drop;
    StatedByDropLine(name, table);
    DropsExactlyWhen(drop, name, table);
    assert line[3..] == drop;
    FoundInLine(line, 3, name, table);
    OneLine(line);
    DropLineIsOneLine(name, table);
    assert line[2..] == " " + drop;
    CommentIsBlank(" " + drop);
    assert CodeOf(line, Code) == Blank(|line|);
    forall p | 0 <= p <= |line| ensures !OwnAt(Blank(|line|)[p..], name, table) {
      if OwnAt(Blank(|line|)[p..], name, table) {
        OwnStarts(Blank(|line|)[p..], name, table);
        FirstWord(Blank(|line|)[p..]);
        assert false;
      }
    }
  }

  /** After such a line the trigger is written with nothing before it that drops it. */
  lemma LookAlikeIsTaken(line: string, trigger: string, name: string, table: string)
    requires IsPlain(line, false) && !CommentAfter(line, false)
    requires !IsPlain(trigger, false) && CreatedTrigger(trigger) == Some(name)
    requires LookAhead([line, trigger], 1, 0).table == Some(table) && LookAlikeOnly([line], name, table)
    ensures Rewrite([line, trigger]) == [Kept(line), Creates(trigger, name, table)]
    ensures !OwnDrop(Texts([Kept(line)]), name, table)
  {
    hide IsPlain, CommentAfter, CreatedTrigger, LookAhead, Drops, OwnDrop, Join, Tail;
    var lines := [line, trigger];
    OneText(line);
    var m := Next(lines, 0, false, []);
    assert m == Move([Kept(line)], 1, false);
    assert [] + m.emitted == [Kept(line)];
    assert From(lines, 0, false, []) == From(lines, 1, false, [Kept(line)]);
    var n := Next(lines, 1, false, [line]);
    assert lines[1..2] == [trigger];
    assert n == Move([] + Statement([trigger], name, table), 1, false);
    assert Statement([trigger], name, table) == [Creates(trigger, name, table)];
    assert From(lines, 2, false, [Kept(line)] + n.emitted) == [Kept(line)] + n.emitted;
  }
}
