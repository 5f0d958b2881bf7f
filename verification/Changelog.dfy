/** Changelog files: adding a no-op entry, checking for one, and cutting out a version's notes. */
module Changelog {
  import opened JsText
  import opened Prelude

  // ----- headers -----

  /**
   The versions of packages. A pattern made from one escapes the dots; a `+` in it is not
   escaped and asks for the character before it once or more.
   */
  predicate IsVersion(v: string) {
    && (forall k | 0 <= k < |v| :: IsVersionChar(v[k]))
    && (v != "" ==> v[0] != '+')
    && (forall k | 0 < k < |v| && v[k] == '+' :: v[k - 1] != '+')
  }

  predicate IsVersionChar(c: char) {
    'a' <= c <= 'z' || 'A' <= c <= 'Z' || '0' <= c <= '9' || c == '.' || c == '-' || c == '+'
  }

  /** Whether `s` reads as the pattern made from `v`, and then a closing bracket. */
  predicate Matches(v: string, s: string)
    decreases |s|
  {
    if s == "" then false
    else if v == "" then s[0] == ']'
    else if |v| >= 2 && v[1] == '+' then s[0] == v[0] && (Matches(v, s[1..]) || Matches(v[2..], s[1..]))
    else s[0] == v[0] && Matches(v[1..], s[1..])
  }

  /** `## [`, `## [v]`, and `## [v]` on a line that a line feed ends. */
  datatype Pattern = AnyHeader | Header(version: string) | HeaderLine(version: string)

  function HeaderText(version: string): string {
    "## [" + (version + "]")
  }

  predicate Starts(p: Pattern, s: string) {
    match p
    case AnyHeader => "## [" <= s
    case Header(v) => "## [" <= s && Matches(v, s[4..])
    case HeaderLine(v) => "## [" <= s && Matches(v, s[4..]) && '\n' in s
  }

  /** The first place at a line start where the pattern matches; `lineStart` says whether `s` begins at one. */
  function Search(s: string, lineStart: bool, p: Pattern): (at: Option<nat>)
    ensures at.Some? ==> at.value <= |s|
  {
    if lineStart && Starts(p, s) then Some(0)
    else if s == "" then None
    else
      Shift(1, Search(s[1..], EndsLine(s[0]), p))
  }

  function Shift(n: nat, at: Option<nat>): Option<nat> {
    if at.None? then None else Some(n + at.value)
  }

  lemma {:induction false} SearchFinds(s: string, lineStart: bool, p: Pattern)
    ensures var at := Search(s, lineStart, p); at.Some? ==> Starts(p, s[at.value..])
  {
    hide Starts;
    if s != "" && !(lineStart && Starts(p, s)) {
      SearchFinds(s[1..], EndsLine(s[0]), p);
    }
  }

  predicate HasEntry(content: string, version: string) {
    Search(content, true, Header(version)).Some?
  }

  // ----- adding an entry -----

  /** What is said of a version that changed nothing. */
  function Body(version: string, previous: string): string {
    "Aligned to docs.plus " + version + " family release. " + "No behavioral changes since " + previous + "."
  }

  function Entry(version: string, date: string, previous: string): string {
    (HeaderText(version) + (" \U{2014} " + date)) + ("\n" + ("\n" + (Body(version, previous) + "\n\n")))
  }

  function Insert(content: string, entry: string): string {
    var first := Search(content, true, AnyHeader);
    if first.None? then (TrimEnd(content) + "\n\n") + entry
    else content[..first.value] + (entry + content[first.value..])
  }

  function Generate(content: string, version: string, date: string, previous: string): string {
    if HasEntry(content, version) then content else Insert(content, Entry(version, date, previous))
  }

  // ----- cutting notes out -----

  function AfterLineFeed(s: string): string
    requires '\n' in s
  {
    if s[0] == '\n' then s[1..] else AfterLineFeed(s[1..])
  }

  /** The notes under a header line, `s` starting at that line. What a pattern matches holds no line feed. */
  function Notes(s: string): string
    requires '\n' in s
  {
    var after := AfterLineFeed(s);
    var next := Search(after, true, AnyHeader);
    Trim(if next.Some? then after[..next.value] else after)
  }

  function Slice(content: string, version: string): string {
    var start := Search(content, true, HeaderLine(version));
    if start.None? then "" else
      SearchFinds(content, true, HeaderLine(version));
      Notes(content[start.value..])
  }

  // ----- stretches of text without headers -----

  function LineStartAfter(a: string, lineStart: bool): bool {
    if a == "" then lineStart else EndsLine(a[|a| - 1])
  }

  /** No match of the pattern begins inside `a` when `b` follows it. */
  predicate Clear(a: string, b: string, lineStart: bool, p: Pattern)
    decreases |a|
  {
    a == "" || (!(lineStart && Starts(p, a + b)) && Clear(a[1..], b, EndsLine(a[0]), p))
  }

  lemma ConcatTail(a: string, b: string)
    requires a != ""
    ensures (a + b)[1..] == a[1..] + b && (a + b)[0] == a[0]
  {}

  lemma LineStartMoves(a: string, lineStart: bool)
    requires a != ""
    ensures LineStartAfter(a, lineStart) == LineStartAfter(a[1..], EndsLine(a[0]))
  {}

  lemma ClearMoves(a: string, b: string, lineStart: bool, p: Pattern)
    requires a != "" && Clear(a, b, lineStart, p)
    ensures Search(a + b, lineStart, p) == Shift(1, Search((a + b)[1..], EndsLine((a + b)[0]), p))
    ensures Clear(a[1..], b, EndsLine(a[0]), p)
  {}

  lemma {:induction false} SearchPast(a: string, b: string, lineStart: bool, p: Pattern)
    requires Clear(a, b, lineStart, p)
    ensures Search(a + b, lineStart, p) == Shift(|a|, Search(b, LineStartAfter(a, lineStart), p))
    decreases |a|
  {
    hide Starts, EndsLine, LineStartAfter, Clear, Search;
    if a == "" {
      assert a + b == b;
      NoText(lineStart);
    } else {
      ConcatTail(a, b);
      LineStartMoves(a, lineStart);
      ClearMoves(a, b, lineStart, p);
      SearchPast(a[1..], b, EndsLine(a[0]), p);
    }
  }

  lemma NoText(lineStart: bool)
    ensures LineStartAfter("", lineStart) == lineStart
  {}

  lemma CutAt(s: string, n: nat)
    requires 0 < n <= |s|
    ensures s[..n] + s[n..] == s && s[..n][0] == s[0]
    ensures s[..n][1..] == s[1..][..n - 1] && s[n..] == s[1..][n - 1..]
  {}

  /** How much of `s` comes before the first match. */
  function Reach(s: string, lineStart: bool, p: Pattern): (n: nat)
    ensures n <= |s|
  {
    if s == "" || (lineStart && Starts(p, s)) then 0 else 1 + Reach(s[1..], EndsLine(s[0]), p)
  }

  lemma {:induction false} ReachIsClear(s: string, lineStart: bool, p: Pattern)
    ensures var n := Reach(s, lineStart, p); Clear(s[..n], s[n..], lineStart, p)
  {
    hide Starts, EndsLine;
    var n := Reach(s, lineStart, p);
    if n > 0 {
      ReachIsClear(s[1..], EndsLine(s[0]), p);
      CutAt(s, n);
    }
  }

  lemma {:induction false} ReachIsFirst(s: string, lineStart: bool, p: Pattern)
    ensures var at := Search(s, lineStart, p); Reach(s, lineStart, p) == if at.None? then |s| else at.value
  {
    hide Starts, EndsLine;
    if s != "" && !(lineStart && Starts(p, s)) {
      ReachIsFirst(s[1..], EndsLine(s[0]), p);
    }
  }

  lemma BeforeFirstIsClear(s: string, lineStart: bool, p: Pattern)
    ensures var at := Search(s, lineStart, p);
            var n := if at.None? then |s| else at.value;
            Clear(s[..n], s[n..], lineStart, p)
  {
    hide *;
    ReachIsClear(s, lineStart, p);
    ReachIsFirst(s, lineStart, p);
  }

  /** Any header pattern needs the four characters of a header's opening. */
  lemma OpeningFirst(p: Pattern, s: string)
    requires Starts(p, s)
    ensures "## [" <= s
  {}

  /** Text without headers that ends a line stays without them, whatever follows. */
  lemma {:induction false} ClearWhateverFollows(a: string, b: string, b': string, lineStart: bool, p: Pattern)
    requires Clear(a, b, lineStart, AnyHeader) && (a != "" ==> EndsLine(a[|a| - 1]))
    ensures Clear(a, b', lineStart, p)
    decreases |a|
  {
    if a != "" {
      if lineStart && Starts(p, a + b') {
        OpeningFirst(p, a + b');
        OpeningInside(a, b, b');
      }
      ClearWhateverFollows(a[1..], b, b', EndsLine(a[0]), p);
    }
  }

  lemma OpeningInside(a: string, b: string, b': string)
    requires a != "" && EndsLine(a[|a| - 1]) && "## [" <= a + b'
    ensures "## [" <= a + b
  {
    assert (a + b')[|a| - 1] == a[|a| - 1];
    if |a| >= 4 {
      assert (a + b)[..4] == a[..4] == (a + b')[..4];
    }
  }

  /** No line in it starts with a hash sign. */
  predicate Quiet(a: string, lineStart: bool)
    decreases |a|
  {
    a == "" || (!(lineStart && a[0] == '#') && Quiet(a[1..], EndsLine(a[0])))
  }

  lemma {:induction false} QuietIsClear(a: string, b: string, lineStart: bool, p: Pattern)
    requires Quiet(a, lineStart)
    ensures Clear(a, b, lineStart, p)
    decreases |a|
  {
    if a != "" {
      assert (a + b)[0] == a[0];
      if lineStart && Starts(p, a + b) {
        OpeningFirst(p, a + b);
      }
      QuietIsClear(a[1..], b, EndsLine(a[0]), p);
    }
  }

  lemma {:induction false} QuietConcat(a: string, b: string, lineStart: bool)
    requires Quiet(a, lineStart) && Quiet(b, LineStartAfter(a, lineStart))
    ensures Quiet(a + b, lineStart)
    decreases |a|
  {
    if a == "" {
      assert a + b == b;
    } else {
      assert (a + b)[1..] == a[1..] + b;
      QuietConcat(a[1..], b, EndsLine(a[0]));
    }
  }

  predicate OneLine(s: string) {
    forall c | c in s :: !EndsLine(c)
  }

  lemma {:induction false} OneLineIsQuiet(s: string, lineStart: bool)
    requires OneLine(s) && (lineStart && s != "" ==> s[0] != '#')
    ensures Quiet(s, lineStart)
    decreases |s|
  {
    if s != "" {
      assert s[0] in s;
      assert forall c | c in s[1..] :: c in s;
      OneLineIsQuiet(s[1..], false);
    }
  }

  // ----- where an entry goes -----

  function Before(content: string): string {
    var first := Search(content, true, AnyHeader);
    if first.None? then TrimEnd(content) + "\n\n" else content[..first.value]
  }

  function After(content: string): string {
    var first := Search(content, true, AnyHeader);
    if first.None? then "" else content[first.value..]
  }

  lemma InsertIsBetween(content: string, entry: string)
    ensures Insert(content, entry) == Before(content) + (entry + After(content))
  {}

  lemma {:induction false} SearchAtLineStart(s: string, lineStart: bool, p: Pattern)
    ensures var at := Search(s, lineStart, p); at.Some? ==> LineStartAfter(s[..at.value], lineStart)
  {
    hide Starts, EndsLine;
    if s != "" && !(lineStart && Starts(p, s)) {
      SearchAtLineStart(s[1..], EndsLine(s[0]), p);
      var at := Search(s, lineStart, p);
      if at.Some? {
        CutAt(s, at.value);
        assert at.value > 1 ==> s[..at.value][at.value - 1] == s[1..][..at.value - 1][at.value - 2];
      }
    }
  }

  lemma {:induction false} ClearPrefix(s: string, n: nat, b: string, lineStart: bool, p: Pattern)
    requires n <= |s| && Clear(s, b, lineStart, p)
    ensures Clear(s[..n], s[n..] + b, lineStart, p)
    decreases n
  {
    hide Starts, EndsLine;
    if n > 0 {
      CutAt(s, n);
      assert s[..n] + (s[n..] + b) == s + b;
      ClearPrefix(s[1..], n - 1, b, EndsLine(s[0]), p);
    }
  }

  lemma OpeningBeforeLineFeed(a: string, b: string, b': string)
    requires "## [" <= a + ("\n" + b')
    ensures "## [" <= a + b
  {
    assert (a + ("\n" + b'))[|a|] == '\n';
    if |a| >= 4 {
      assert (a + b)[..4] == a[..4] == (a + ("\n" + b'))[..4];
    }
  }

  /** Text without headers keeps without them when a line feed follows. */
  lemma {:induction false} ClearThenLineFeed(a: string, b: string, b': string, lineStart: bool, p: Pattern)
    requires Clear(a, b, lineStart, AnyHeader)
    ensures Clear(a, "\n" + b', lineStart, p)
    decreases |a|
  {
    hide EndsLine;
    if a != "" {
      if lineStart && Starts(p, a + ("\n" + b')) {
        OpeningFirst(p, a + ("\n" + b'));
        OpeningBeforeLineFeed(a, b, b');
      }
      ClearThenLineFeed(a[1..], b, b', EndsLine(a[0]), p);
    }
  }

  lemma {:induction false} ClearConcat(a: string, x: string, b: string, lineStart: bool, p: Pattern)
    requires Clear(a, x + b, lineStart, p) && Clear(x, b, LineStartAfter(a, lineStart), p)
    ensures Clear(a + x, b, lineStart, p)
    decreases |a|
  {
    hide Starts, EndsLine;
    if a == "" {
      assert a + x == x;
    } else {
      assert (a + x)[1..] == a[1..] + x && (a + x)[0] == a[0] && (a + x) + b == a + (x + b);
      assert LineStartAfter(a, lineStart) == LineStartAfter(a[1..], EndsLine(a[0]));
      ClearConcat(a[1..], x, b, EndsLine(a[0]), p);
    }
  }

  /** Nothing before the place of insertion is a header, and the place is a line start. */
  lemma BeforeIsClear(content: string, b: string, p: Pattern)
    ensures Clear(Before(content), b, true, p) && LineStartAfter(Before(content), true)
  {
    hide Starts, Search, Clear;
    var first := Search(content, true, AnyHeader);
    BeforeFirstIsClear(content, true, AnyHeader);
    if first.Some? {
      SearchAtLineStart(content, true, AnyHeader);
      ClearWhateverFollows(content[..first.value], content[first.value..], b, true, p);
    } else {
      var kept := TrimEnd(content);
      assert content[..|content|] == content && content[|content|..] == "";
      ClearPrefix(content, |kept|, "", true, AnyHeader);
      ClearThenLineFeed(kept, content[|kept|..] + "", "\n" + b, true, p);
      assert "\n" + ("\n" + b) == "\n\n" + b;
      QuietIsClear("\n\n", b, LineStartAfter(kept, true), p) by {
        assert "\n\n"[1..] == "\n" && "\n"[1..] == "";
      }
      ClearConcat(kept, "\n\n", b, true, p);
    }
  }

  /** What follows the place of insertion is nothing, or begins with a header. */
  lemma AfterStartsWithHeader(content: string)
    ensures After(content) == "" || Starts(AnyHeader, After(content))
    ensures Search(After(content), true, AnyHeader) == if After(content) == "" then None else Some(0)
  {
    SearchFinds(content, true, AnyHeader);
  }

  // ----- the entry -----

  lemma VersionIsOneLine(v: string)
    requires IsVersion(v)
    ensures OneLine(v) && forall k | 0 <= k < |v| :: v[k] != ']'
  {
    forall c | c in v ensures !EndsLine(c) {
      var k :| 0 <= k < |v| && v[k] == c;
      assert IsVersionChar(v[k]);
    }
  }

  /** Whether the pattern made from `other` takes the header of `version` for its own. */
  predicate TakesFor(other: string, version: string) {
    Matches(other, version + "]")
  }

  /** A version without a plus reads as its own pattern, and as no other's. */
  lemma {:induction false} PlainTakesItselfOnly(v: string, version: string)
    requires '+' !in v && (forall k | 0 <= k < |v| :: v[k] != ']') && forall k | 0 <= k < |version| :: version[k] != ']'
    ensures TakesFor(v, version) <==> v == version
    decreases |v|
  {
    var s := version + "]";
    if v != "" && version != "" && v[0] == version[0] {
      assert s[1..] == version[1..] + "]" && s[0] == version[0];
      assert v == [v[0]] + v[1..] && version == [version[0]] + version[1..];
      assert |v| >= 2 ==> v[1] in v;
      PlainTakesItselfOnly(v[1..], version[1..]);
    } else if version != "" {
      assert s[0] == version[0];
    }
  }

  lemma VersionTail(v: string)
    requires IsVersion(v) && v != "" && !(|v| >= 2 && v[1] == '+')
    ensures IsVersion(v[1..]) && ('+' in v ==> '+' in v[1..])
  {
    assert v == [v[0]] + v[1..];
    forall k | 0 <= k < |v[1..]| ensures IsVersionChar(v[1..][k]) {
      assert v[1..][k] == v[k + 1];
    }
    forall k | 0 < k < |v[1..]| && v[1..][k] == '+' ensures v[1..][k - 1] != '+' {
      assert v[1..][k] == v[k + 1] && v[1..][k - 1] == v[k];
    }
  }

  /** One with a plus never does: where its text has the plus, its pattern asks for something else. */
  lemma {:induction false} PlusNeverTakesItself(v: string)
    requires IsVersion(v) && '+' in v
    ensures !TakesFor(v, v)
    decreases |v|
  {
    var s := v + "]";
    assert s[0] == v[0] && s[1..] == v[1..] + "]";
    if |v| >= 2 && v[1] == '+' {
      var rest := s[1..];
      assert rest[0] == '+' != v[0];
      assert !Matches(v, rest);
      if |v| >= 3 {
        assert v[2..][0] == v[2] != '+';
        assert !Matches(v[2..], rest);
      } else {
        assert v[2..] == "" && !Matches("", rest);
      }
      assert !Matches(v[2..], rest);
      assert !Matches(v, s);
    } else {
      VersionTail(v);
      PlusNeverTakesItself(v[1..]);
    }
  }

  lemma TakesItselfExactlyWhen(v: string)
    requires IsVersion(v)
    ensures TakesFor(v, v) <==> '+' !in v
  {
    VersionIsOneLine(v);
    if '+' in v {
      PlusNeverTakesItself(v);
    } else {
      PlainTakesItselfOnly(v, v);
    }
  }

  /** A match ends at the first closing bracket. */
  lemma {:induction false} MatchesUpToBracket(other: string, version: string, rest: string)
    requires (forall k | 0 <= k < |other| :: other[k] != ']') && forall k | 0 <= k < |version| :: version[k] != ']'
    ensures Matches(other, version + ("]" + rest)) <==> TakesFor(other, version)
    decreases |version|
  {
    var s, t := version + ("]" + rest), version + "]";
    if version == "" {
      assert s[0] == ']' == t[0];
    } else {
      assert s[0] == version[0] == t[0];
      assert s[1..] == version[1..] + ("]" + rest) && t[1..] == version[1..] + "]";
      MatchesUpToBracket(other, version[1..], rest);
      if other != "" {
        MatchesUpToBracket(other[1..], version[1..], rest);
        if |other| >= 2 {
          MatchesUpToBracket(other[2..], version[1..], rest);
        }
      }
    }
  }

  lemma HasLineFeed(a: string, b: string)
    ensures '\n' in a + ("\n" + b)
  {}

  function DateText(date: string): string {
    " \U{2014} " + date
  }

  function BodyBlock(version: string, previous: string): string {
    "\n" + (Body(version, previous) + "\n\n")
  }

  lemma EntryIs(version: string, date: string, previous: string, rest: string)
    ensures Entry(version, date, previous) + rest
         == HeaderText(version) + (DateText(date) + ("\n" + (BodyBlock(version, previous) + rest)))
  {}

  lemma EntryHasLineFeed(version: string, date: string, previous: string, rest: string)
    ensures '\n' in Entry(version, date, previous) + rest
  {
    hide Body;
    EntryIs(version, date, previous, rest);
    HasLineFeed(HeaderText(version) + DateText(date), BodyBlock(version, previous) + rest);
    assert (HeaderText(version) + DateText(date)) + ("\n" + (BodyBlock(version, previous) + rest))
        == HeaderText(version) + (DateText(date) + ("\n" + (BodyBlock(version, previous) + rest)));
  }

  lemma HeaderThen(version: string, more: string)
    ensures "## [" <= HeaderText(version) + more
    ensures (HeaderText(version) + more)[4..] == version + ("]" + more)
  {}

  /** Which patterns find the new entry's header. */
  lemma EntryStarts(version: string, date: string, previous: string, rest: string, other: string)
    requires IsVersion(version) && IsVersion(other)
    ensures Starts(AnyHeader, Entry(version, date, previous) + rest)
    ensures Starts(Header(other), Entry(version, date, previous) + rest) <==> TakesFor(other, version)
    ensures Starts(HeaderLine(other), Entry(version, date, previous) + rest) <==> TakesFor(other, version)
  {
    hide HeaderText, Entry, Body, BodyBlock, DateText, IsVersion;
    var more := DateText(date) + ("\n" + (BodyBlock(version, previous) + rest));
    EntryIs(version, date, previous, rest);
    EntryHasLineFeed(version, date, previous, rest);
    HeaderThen(version, more);
    VersionIsOneLine(version);
    VersionIsOneLine(other);
    MatchesUpToBracket(other, version, more);
  }

  lemma FoundAtOnce(s: string, p: Pattern)
    requires Starts(p, s)
    ensures Search(s, true, p) == Some(0)
  {}

  // ----- what is cut out afterwards -----

  lemma {:induction false} AfterFirstLineFeed(a: string, b: string)
    requires OneLine(a)
    ensures '\n' in a + ("\n" + b) && AfterLineFeed(a + ("\n" + b)) == b
    decreases |a|
  {
    HasLineFeed(a, b);
    var s := a + ("\n" + b);
    if a == "" {
      assert s[0] == '\n' && s[1..] == b;
    } else {
      assert s[0] == a[0] && a[0] in a && s[1..] == a[1..] + ("\n" + b);
      assert forall c | c in a[1..] :: c in a;
      AfterFirstLineFeed(a[1..], b);
    }
  }

  lemma TrimBlock(body: string)
    requires body != "" && !IsSpace(body[0]) && !IsSpace(body[|body| - 1])
    ensures Trim("\n" + (body + "\n\n")) == body
  {
    var s := body + "\n\n";
    assert ("\n" + s)[1..] == s && s[0] == body[0];
    assert TrimStart("\n" + s) == TrimStart(s) == s;
    assert s[..|s| - 1] == body + "\n" && (body + "\n")[..|body|] == body;
    assert TrimEnd(s) == TrimEnd(body + "\n") == TrimEnd(body) == body;
  }

  lemma BodyEnds(version: string, previous: string)
    ensures var body := Body(version, previous);
            body != "" && body[0] == 'A' && !IsSpace(body[0]) && !IsSpace(body[|body| - 1])
  {}

  lemma OneLineConcat(a: string, b: string)
    requires OneLine(a) && OneLine(b)
    ensures OneLine(a + b)
  {}

  lemma BodyIsOneLine(version: string, previous: string)
    requires OneLine(version) && OneLine(previous)
    ensures OneLine(Body(version, previous))
  {
    hide OneLine;
    OpeningIsOneLine();
    MiddleIsOneLine();
    OneLineConcat("Aligned to docs.plus ", version);
    OneLineConcat("Aligned to docs.plus " + version, " family release. ");
    OneLineConcat("Aligned to docs.plus " + version + " family release. ", "No behavioral changes since ");
    var most := "Aligned to docs.plus " + version + " family release. " + "No behavioral changes since ";
    OneLineConcat(most, previous);
    OneLineConcat(most + previous, ".");
  }

  lemma OpeningIsOneLine()
    ensures OneLine("Aligned to docs.plus ") && OneLine(".")
  {}

  lemma MiddleIsOneLine()
    ensures OneLine(" family release. ") && OneLine("No behavioral changes since ")
  {}

  lemma BlockIsQuiet(version: string, previous: string)
    requires OneLine(version) && OneLine(previous)
    ensures Quiet(BodyBlock(version, previous), true)
  {
    hide Body;
    var body := Body(version, previous);
    BodyIsOneLine(version, previous);
    BodyEnds(version, previous);
    OneLineIsQuiet(body, true);
    assert Quiet("\n\n", LineStartAfter(body, true)) by {
      assert "\n\n"[1..] == "\n" && "\n"[1..] == "";
    }
    QuietConcat(body, "\n\n", true);
    assert ("\n" + (body + "\n\n"))[1..] == body + "\n\n";
  }

  /** The notes under the new entry end where it does. */
  lemma NotesOfEntry(version: string, date: string, previous: string, content: string)
    requires OneLine(version) && OneLine(date) && OneLine(previous)
    ensures var s := Entry(version, date, previous) + After(content);
            '\n' in s && Notes(s) == Body(version, previous)
  {
    hide Body, Starts, Search, Trim, After;
    var block, rest := BodyBlock(version, previous), After(content);
    HeaderLineIsOneLine(version, date);
    EntryIs(version, date, previous, rest);
    assert (HeaderText(version) + DateText(date)) + ("\n" + (block + rest))
        == HeaderText(version) + (DateText(date) + ("\n" + (block + rest)));
    AfterFirstLineFeed(HeaderText(version) + DateText(date), block + rest);
    NotesOfBlock(version, previous, content);
  }

  lemma NotesOfBlock(version: string, previous: string, content: string)
    requires OneLine(version) && OneLine(previous)
    ensures var s := BodyBlock(version, previous) + After(content);
            var next := Search(s, true, AnyHeader);
            Trim(if next.Some? then s[..next.value] else s) == Body(version, previous)
  {
    hide Body, Starts, Search, Trim;
    var block, rest := BodyBlock(version, previous), After(content);
    BlockIsQuiet(version, previous);
    QuietIsClear(block, rest, true, AnyHeader);
    SearchPast(block, rest, true, AnyHeader);
    AfterStartsWithHeader(content);
    assert LineStartAfter(block, true);
    assert (block + rest)[..|block|] == block;
    assert rest == "" ==> block + rest == block;
    BodyEnds(version, previous);
    TrimBlock(Body(version, previous));
  }

  lemma HeaderLineIsOneLine(version: string, date: string)
    requires OneLine(version) && OneLine(date)
    ensures OneLine(HeaderText(version) + DateText(date)) && HeaderText(version) != "" && HeaderText(version)[0] == '#'
  {}

  lemma QuietAfterHeaderLine(line: string, block: string)
    requires line != "" && OneLine(line) && Quiet(block, true)
    ensures Quiet((line + ("\n" + block))[1..], false)
  {
    assert (line + ("\n" + block))[1..] == line[1..] + ("\n" + block);
    assert OneLine(line[1..]) by { assert forall c | c in line[1..] :: c in line; }
    OneLineIsQuiet(line[1..], false);
    assert ("\n" + block)[1..] == block;
    if |line| > 1 {
      assert line[1..][|line| - 2] in line[1..];
    }
    QuietConcat(line[1..], "\n" + block, false);
  }

  /** Past its header the new entry holds none, and it ends at a line start. */
  lemma EntryIsClear(version: string, date: string, previous: string, rest: string, p: Pattern)
    requires IsVersion(version) && OneLine(date) && OneLine(previous)
    requires !Starts(p, Entry(version, date, previous) + rest)
    ensures Clear(Entry(version, date, previous), rest, true, p)
    ensures LineStartAfter(Entry(version, date, previous), true)
  {
    hide HeaderText, Body, Starts;
    var line, block := HeaderText(version) + DateText(date), BodyBlock(version, previous);
    var entry := Entry(version, date, previous);
    VersionIsOneLine(version);
    HeaderLineIsOneLine(version, date);
    BlockIsQuiet(version, previous);
    QuietAfterHeaderLine(line, block);
    assert entry == line + ("\n" + block);
    QuietIsClear(entry[1..], rest, false, p);
    assert entry[0] == '#';
  }

  lemma {:induction false} NoHeaderNoPattern(a: string, b: string, lineStart: bool, p: Pattern)
    requires Clear(a, b, lineStart, AnyHeader)
    ensures Clear(a, b, lineStart, p)
    decreases |a|
  {
    hide EndsLine;
    if a != "" {
      if lineStart && Starts(p, a + b) {
        OpeningFirst(p, a + b);
      }
      NoHeaderNoPattern(a[1..], b, EndsLine(a[0]), p);
    }
  }

  lemma NothingInNothing(lineStart: bool, p: Pattern)
    ensures Search("", lineStart, p).None?
  {}

  lemma NoHeaderNoMatch(content: string, p: Pattern)
    requires Search(content, true, AnyHeader).None?
    ensures Search(content, true, p).None?
  {
    hide Starts, Search, Clear;
    BeforeFirstIsClear(content, true, AnyHeader);
    assert content[..|content|] == content && content[|content|..] == "" && content + "" == content;
    NoHeaderNoPattern(content, "", true, p);
    SearchPast(content, "", true, p);
    NothingInNothing(LineStartAfter(content, true), p);
  }

  lemma MatchFromFirstHeader(content: string, p: Pattern)
    requires Search(content, true, AnyHeader).Some?
    ensures var n := Search(content, true, AnyHeader).value;
            Search(content, true, p) == Shift(n, Search(content[n..], true, p))
  {
    hide Starts, Search, Clear;
    var n := Search(content, true, AnyHeader).value;
    BeforeFirstIsClear(content, true, AnyHeader);
    NoHeaderNoPattern(content[..n], content[n..], true, p);
    SearchPast(content[..n], content[n..], true, p);
    assert content[..n] + content[n..] == content;
    SearchAtLineStart(content, true, AnyHeader);
  }

  /** Every header there is lies after the place of insertion. */
  lemma HeadersAreAfter(content: string, p: Pattern)
    ensures Search(content, true, p).None? <==> Search(After(content), true, p).None?
    ensures Search(content, true, p).Some? ==>
              content[Search(content, true, p).value..] == After(content)[Search(After(content), true, p).value..]
  {
    hide Starts, Search;
    var first := Search(content, true, AnyHeader);
    if first.None? {
      NoHeaderNoMatch(content, p);
      NothingInNothing(true, p);
    } else {
      MatchFromFirstHeader(content, p);
    }
  }

  // ----- what an entry changes -----

  /** Where a pattern that takes the new header finds it. */
  lemma FoundAtEntry(content: string, version: string, date: string, previous: string, p: Pattern)
    requires Starts(p, Entry(version, date, previous) + After(content))
    ensures Search(Insert(content, Entry(version, date, previous)), true, p) == Some(|Before(content)|)
    ensures |Before(content)| <= |Insert(content, Entry(version, date, previous))|
    ensures Insert(content, Entry(version, date, previous))[|Before(content)|..]
         == Entry(version, date, previous) + After(content)
  {
    hide Starts, Entry, Search, Insert, Clear, Before, After;
    var entry, rest := Entry(version, date, previous), After(content);
    InsertIsBetween(content, entry);
    BeforeIsClear(content, entry + rest, p);
    SearchPast(Before(content), entry + rest, true, p);
    FoundAtOnce(entry + rest, p);
    assert (Before(content) + (entry + rest))[|Before(content)|..] == entry + rest;
  }

  /** A pattern that does not take it finds what it found before, if anything. */
  lemma FoundAsBefore(content: string, version: string, date: string, previous: string, p: Pattern)
    requires IsVersion(version) && OneLine(date) && OneLine(previous)
    requires !Starts(p, Entry(version, date, previous) + After(content))
    ensures var updated := Insert(content, Entry(version, date, previous));
            var found, was := Search(updated, true, p), Search(content, true, p);
            (found.Some? <==> was.Some?) && (found.Some? ==> updated[found.value..] == content[was.value..])
  {
    hide Starts, Entry, Search, Clear, Insert, Before, After, IsVersion;
    var entry, rest := Entry(version, date, previous), After(content);
    InsertIsBetween(content, entry);
    BeforeIsClear(content, entry + rest, p);
    SearchPast(Before(content), entry + rest, true, p);
    EntryIsClear(version, date, previous, rest, p);
    SearchPast(entry, rest, true, p);
    HeadersAreAfter(content, p);
    SameNotes(Before(content), entry, rest, p);
  }

  lemma SameNotes(before: string, entry: string, rest: string, p: Pattern)
    requires Search(before + (entry + rest), true, p) == Shift(|before|, Shift(|entry|, Search(rest, true, p)))
    ensures var at := Search(rest, true, p);
            at.Some? ==> (before + (entry + rest))[|before| + (|entry| + at.value)..] == rest[at.value..]
  {}

  /** After generating, the check passes exactly when it passed already or the version has no plus. */
  lemma GeneratedHasEntry(content: string, version: string, date: string, previous: string)
    requires IsVersion(version) && OneLine(date) && OneLine(previous)
    ensures HasEntry(Generate(content, version, date, previous), version) <==> HasEntry(content, version) || '+' !in version
  {
    hide Starts, Entry, Search, Insert, TakesFor;
    if !HasEntry(content, version) {
      EntryStarts(version, date, previous, After(content), version);
      TakesItselfExactlyWhen(version);
      if '+' !in version {
        FoundAtEntry(content, version, date, previous, Header(version));
      } else {
        FoundAsBefore(content, version, date, previous, Header(version));
      }
    }
  }

  lemma InsertGrows(content: string, entry: string)
    requires Search(content, true, AnyHeader).Some?
    ensures |Insert(content, entry)| == |content| + |entry|
  {}

  lemma InsertAgainGrows(content: string, version: string, date: string, previous: string, entry: string)
    requires IsVersion(version) && entry != ""
    ensures |Insert(Insert(content, Entry(version, date, previous)), entry)|
          > |Insert(content, Entry(version, date, previous))|
  {
    hide Starts, Entry, Search, Insert, IsVersion;
    EntryStarts(version, date, previous, After(content), version);
    FoundAtEntry(content, version, date, previous, AnyHeader);
    InsertGrows(Insert(content, Entry(version, date, previous)), entry);
  }

  /** And exactly then a second generation changes nothing. */
  lemma SecondGenerationChangesNothing(content: string, version: string, date: string, previous: string,
                                       date': string, previous': string)
    requires IsVersion(version) && OneLine(date) && OneLine(previous)
    ensures var once := Generate(content, version, date, previous);
            Generate(once, version, date', previous') == once <==> HasEntry(content, version) || '+' !in version
  {
    hide Starts, Search, Insert, HasEntry, Entry, IsVersion;
    GeneratedHasEntry(content, version, date, previous);
    if !HasEntry(content, version) {
      EntryIsText(version, date', previous');
      InsertAgainGrows(content, version, date, previous, Entry(version, date', previous'));
    }
  }

  lemma EntryIsText(version: string, date: string, previous: string)
    ensures Entry(version, date, previous) != ""
  {}

  lemma {:induction false} LineNeedsHeader(s: string, lineStart: bool, v: string)
    requires Search(s, lineStart, Header(v)).None?
    ensures Search(s, lineStart, HeaderLine(v)).None?
  {
    hide Matches, EndsLine;
    if s != "" {
      LineNeedsHeader(s[1..], EndsLine(s[0]), v);
    }
  }

  /** The slice cut out for a version just added is the text generated for it, exactly when the version has no plus. */
  lemma GeneratedSlice(content: string, version: string, date: string, previous: string)
    requires IsVersion(version) && OneLine(date) && OneLine(previous) && !HasEntry(content, version)
    ensures Slice(Generate(content, version, date, previous), version) == Body(version, previous) <==> '+' !in version
  {
    hide Starts, Entry, Search, Insert, Body, Notes, TakesFor, After, IsVersion;
    EntryStarts(version, date, previous, After(content), version);
    TakesItselfExactlyWhen(version);
    VersionIsOneLine(version);
    if '+' !in version {
      FoundAtEntry(content, version, date, previous, HeaderLine(version));
      NotesOfEntry(version, date, previous, content);
    } else {
      GeneratedHasEntry(content, version, date, previous);
      LineNeedsHeader(Generate(content, version, date, previous), true, version);
      BodyEnds(version, previous);
    }
  }

  /** The slice of every version whose pattern does not take the new header is what it was. */
  lemma OtherSlicesUnchanged(content: string, version: string, date: string, previous: string, other: string)
    requires IsVersion(version) && IsVersion(other) && OneLine(date) && OneLine(previous)
    requires HasEntry(content, version) || !TakesFor(other, version)
    ensures Slice(Generate(content, version, date, previous), other) == Slice(content, other)
  {
    hide Starts, Entry, Search, Insert, HasEntry, After, TakesFor, Notes, IsVersion;
    if !HasEntry(content, version) {
      EntryStarts(version, date, previous, After(content), other);
      FoundAsBefore(content, version, date, previous, HeaderLine(other));
    }
  }

  /** Whatever version's pattern takes the new header is given the new text, as the entry comes before all others. */
  lemma SliceTaken(content: string, version: string, date: string, previous: string, other: string)
    requires IsVersion(version) && IsVersion(other) && OneLine(date) && OneLine(previous)
    requires !HasEntry(content, version) && TakesFor(other, version)
    ensures Slice(Generate(content, version, date, previous), other) == Body(version, previous)
  {
    hide Starts, Entry, Search, Insert, Body, Notes, HasEntry, TakesFor, After, IsVersion;
    VersionIsOneLine(version);
    EntryStarts(version, date, previous, After(content), other);
    FoundAtEntry(content, version, date, previous, HeaderLine(other));
    NotesOfEntry(version, date, previous, content);
  }

  /**
   The slice of a version stays what it was exactly when nothing was added, its pattern does
   not take the new header, or it read as the new text before.
   */
  lemma SliceUnchangedExactlyWhen(content: string, version: string, date: string, previous: string, other: string)
    requires IsVersion(version) && IsVersion(other) && OneLine(date) && OneLine(previous)
    ensures Slice(Generate(content, version, date, previous), other) == Slice(content, other) <==>
            HasEntry(content, version) || !TakesFor(other, version) || Slice(content, other) == Body(version, previous)
  {
    hide Slice, Generate, HasEntry, TakesFor, Body, IsVersion;
    if HasEntry(content, version) || !TakesFor(other, version) {
      OtherSlicesUnchanged(content, version, date, previous, other);
    } else {
      SliceTaken(content, version, date, previous, other);
    }
  }

  lemma PlusReadsAsMore()
    ensures TakesFor("1.0.1+1", "1.0.11")
  {
    var v, s := "1.0.1+1", "1.0.11]";
    assert "1.0.11" + "]" == s;
    assert v[1..] == ".0.1+1" && v[1..][1..] == "0.1+1" && v[1..][1..][1..] == ".1+1" && v[1..][1..][1..][1..] == "1+1";
    assert s[1..] == ".0.11]" && s[1..][1..] == "0.11]" && s[1..][1..][1..] == ".11]" && s[1..][1..][1..][1..] == "11]";
    assert "1+1"[2..] == "1" && "11]"[1..] == "1]" && "1"[1..] == "" && "1]"[1..] == "]";
    assert Matches("", "]") && Matches("1", "1]") && Matches("1+1", "11]");
    assert Matches(".1+1", ".11]") && Matches("0.1+1", "0.11]") && Matches(".0.1+1", ".0.11]");
  }

  /** An entry added for 1.0.11 becomes the notes of 1.0.1+1, which had none. */
  lemma AnotherVersionsSliceChanges(date: string, previous: string)
    requires OneLine(date) && OneLine(previous)
    ensures Slice("", "1.0.1+1") == ""
    ensures Slice(Generate("", "1.0.11", date, previous), "1.0.1+1") == Body("1.0.11", previous) != ""
  {
    hide Generate, Body, Matches;
    assert !HasEntry("", "1.0.11");
    assert Search("", true, HeaderLine("1.0.1+1")).None?;
    PlusReadsAsMore();
    SliceTaken("", "1.0.11", date, previous, "1.0.1+1");
    BodyEnds("1.0.11", previous);
  }

  /** The pattern of a version without a plus takes its own header and no other. */
  lemma PlainTakesNoOther(other: string, version: string)
    requires IsVersion(version) && IsVersion(other) && '+' !in other
    ensures TakesFor(other, version) <==> other == version
  {
    VersionIsOneLine(version);
    VersionIsOneLine(other);
    PlainTakesItselfOnly(other, version);
  }

  // ----- the family's files -----

  datatype NoopPackage = NoopPackage(name: string, previous: string)

  function WithEntry(files: map<string, string>, p: NoopPackage, version: string, date: string): map<string, string> {
    if p.name in files then files[p.name := Generate(files[p.name], version, date, p.previous)] else files
  }

  function WithEntries(files: map<string, string>, noops: seq<NoopPackage>,
                       version: string, date: string): map<string, string>
  {
    if noops == [] then files
    else WithEntry(WithEntries(files, noops[..|noops| - 1], version, date), noops[|noops| - 1], version, date)
  }

  predicate NamedOnce(noops: seq<NoopPackage>) {
    forall i, j | 0 <= i < j < |noops| :: noops[i].name != noops[j].name
  }

  /** Each package's file gets its own entry and no other file changes. */
  lemma {:induction false} EachGetsItsEntry(files: map<string, string>, noops: seq<NoopPackage>,
                                            version: string, date: string, name: string)
    requires NamedOnce(noops)
    ensures var after := WithEntries(files, noops, version, date);
            && (name in after <==> name in files)
            && (name in files ==>
                  if exists k :: 0 <= k < |noops| && noops[k].name == name
                  then exists k :: 0 <= k < |noops| && noops[k].name == name
                         && after[name] == Generate(files[name], version, date, noops[k].previous)
                  else after[name] == files[name])
  {
    hide Generate;
    if noops != [] {
      var last := |noops| - 1;
      EachGetsItsEntry(files, noops[..last], version, date, name);
      if noops[last].name == name {
        assert forall k | 0 <= k < last :: noops[..last][k] == noops[k] && noops[k].name != name;
      } else {
        assert forall k | 0 <= k < last :: noops[..last][k] == noops[k];
      }
    }
  }

  function Missing(files: map<string, string>, names: seq<string>, version: string): seq<string> {
    if names == [] then []
    else
      var last := names[|names| - 1];
      Missing(files, names[..|names| - 1], version) + if last in files && HasEntry(files[last], version) then [] else [last]
  }

  lemma {:induction false} NothingMissingMeans(files: map<string, string>, names: seq<string>, version: string)
    ensures Missing(files, names, version) == [] <==>
            forall name | name in names :: name in files && HasEntry(files[name], version)
  {
    hide HasEntry;
    if names != [] {
      var last := |names| - 1;
      NothingMissingMeans(files, names[..last], version);
      assert names == names[..last] + [names[last]];
    }
  }

  class ReleaseFamily {
    var changelogs: map<string, string>

    method GenerateNoopChangelogEntries(noops: seq<NoopPackage>, version: string, date: string)
      modifies this
      ensures changelogs == WithEntries(old(changelogs), noops, version, date)
    {
      hide HasEntry, Insert, Entry;
      for i := 0 to |noops|
        invariant changelogs == WithEntries(old(changelogs), noops[..i], version, date)
      {
        assert noops[..i + 1][..i] == noops[..i];
        var p := noops[i];
        if p.name in changelogs && !HasEntry(changelogs[p.name], version) {
          changelogs := changelogs[p.name := Insert(changelogs[p.name], Entry(version, date, p.previous))];
        }
      }
      assert noops[..|noops|] == noops;
    }

    method CheckChangelogEntries(names: seq<string>, version: string) returns (missing: seq<string>)
      ensures missing == Missing(changelogs, names, version)
      ensures missing == [] <==> forall name | name in names :: name in changelogs && HasEntry(changelogs[name], version)
    {
      hide HasEntry;
      missing := [];
      for i := 0 to |names|
        invariant missing == Missing(changelogs, names[..i], version)
      {
        assert names[..i + 1][..i] == names[..i];
        if names[i] !in changelogs || !HasEntry(changelogs[names[i]], version) {
          missing := missing + [names[i]];
        }
      }
      assert names[..|names|] == names;
      NothingMissingMeans(changelogs, names, version);
    }
  }

  /** Once entries are generated, the check misses a package's exactly when it did before and the version has a plus. */
  lemma GenerationPassesTheCheck(files: map<string, string>, noops: seq<NoopPackage>,
                                 version: string, date: string, name: string)
    requires NamedOnce(noops) && name in files && IsVersion(version) && OneLine(date)
    requires forall k | 0 <= k < |noops| :: OneLine(noops[k].previous)
    requires exists k :: 0 <= k < |noops| && noops[k].name == name
    ensures var after := WithEntries(files, noops, version, date);
            name in after && (HasEntry(after[name], version) <==> HasEntry(files[name], version) || '+' !in version)
  {
    hide Generate, HasEntry, IsVersion;
    EachGetsItsEntry(files, noops, version, date, name);
    var after := WithEntries(files, noops, version, date);
    var k :| 0 <= k < |noops| && noops[k].name == name
             && after[name] == Generate(files[name], version, date, noops[k].previous);
    GeneratedHasEntry(files[name], version, date, noops[k].previous);
  }
}
