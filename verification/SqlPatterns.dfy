/** The patterns the trigger rewriter looks for, on one line or on a few joined by line feeds. */
module SqlPatterns {
  import opened JsText
  import opened Prelude

  // ----- characters -----

  predicate IsLetter(c: char) {
    'a' <= c <= 'z' || 'A' <= c <= 'Z' || c == '_'
  }

  predicate IsWord(c: char) {
    IsLetter(c) || '0' <= c <= '9'
  }

  function Lower(c: char): char {
    if 'A' <= c <= 'Z' then (c as int + 32) as char else c
  }

  predicate SameIgnoringCase(a: string, b: string) {
    |a| == |b| && forall i | 0 <= i < |a| :: Lower(a[i]) == Lower(b[i])
  }

  // ----- pieces of a pattern -----

  /** What follows the word `w` at the start of `s`. */
  function Eat(s: string, w: string): Option<string> {
    if |w| <= |s| && SameIgnoringCase(s[..|w|], w) then Some(s[|w|..]) else None
  }

  /** What follows one or more spaces at the start of `s`. */
  function EatSpaces(s: string): Option<string> {
    if s != "" && IsSpace(s[0]) then Some(TrimStart(s)) else None
  }

  function EatThen(s: string, w: string): Option<string> {
    var rest := Eat(s, w);
    if rest.None? then None else EatSpaces(rest.value)
  }

  /** The longest run of letters, digits and underscores. */
  function WordAt(s: string): (w: string)
    ensures forall c | c in w :: IsWord(c)
    ensures |w| <= |s| && w == s[..|w|]
  {
    if s == "" || !IsWord(s[0]) then "" else [s[0]] + WordAt(s[1..])
  }

  /** The longest run of those and dots. */
  function DottedAt(s: string): (w: string)
    ensures forall c | c in w :: IsWord(c) || c == '.'
    ensures |w| <= |s| && w == s[..|w|]
  {
    if s == "" || !(IsWord(s[0]) || s[0] == '.') then "" else [s[0]] + DottedAt(s[1..])
  }

  // ----- comments -----

  /** `replace(/--.*$/, '')`: a mark counts only when nothing after it ends the line. */
  function CodeWithoutLineComment(line: string): string {
    if line == "" then ""
    else if |line| >= 2 && line[0] == '-' && line[1] == '-' && (forall c | c in line[2..] :: !EndsLine(c)) then ""
    else [line[0]] + CodeWithoutLineComment(line[1..])
  }

  function IndexOf(s: string, a: char, b: char): (p: Option<nat>)
    ensures p.Some? ==> p.value + 1 < |s| && s[p.value] == a
  {
    if |s| < 2 then None
    else if s[0] == a && s[1] == b then Some(0)
    else
      var rest := IndexOf(s[1..], a, b);
      if rest.None? then None else Some(rest.value + 1)
  }

  predicate StandsAt(s: string, p: nat, a: char, b: char) {
    p + 1 < |s| && s[p] == a && s[p + 1] == b
  }

  lemma {:induction false} IndexOfIsFirst(s: string, a: char, b: char)
    ensures var p := IndexOf(s, a, b);
            && (p.None? ==> forall q: nat :: !StandsAt(s, q, a, b))
            && (p.Some? ==> StandsAt(s, p.value, a, b) && forall q: nat | q < p.value :: !StandsAt(s, q, a, b))
  {
    if |s| >= 2 {
      var tail := s[1..];
      IndexOfIsFirst(tail, a, b);
      assert forall q: nat | q > 0 :: StandsAt(s, q, a, b) <==> StandsAt(tail, q - 1, a, b);
      assert StandsAt(s, 0, a, b) <==> s[0] == a && s[1] == b;
    }
  }

  /** A line opens a comment that goes on exactly when nothing closes it after the first opening mark. */
  lemma OpensExactlyWhen(line: string)
    ensures OpensBlockComment(line) <==>
            exists p: nat ::
              && StandsAt(line, p, '/', '*')
              && (forall q: nat | q < p :: !StandsAt(line, q, '/', '*'))
              && forall q: nat | q >= p + 2 :: !StandsAt(line, q, '*', '/')
    ensures ClosesBlockComment(line) <==> exists p: nat :: StandsAt(line, p, '*', '/')
  {
    IndexOfIsFirst(line, '/', '*');
    IndexOfIsFirst(line, '*', '/');
    var start := IndexOf(line, '/', '*');
    if start.Some? {
      var tail := line[start.value + 2..];
      IndexOfIsFirst(tail, '*', '/');
      assert forall q: nat | q >= start.value + 2 ::
          StandsAt(line, q, '*', '/') <==> StandsAt(tail, q - start.value - 2, '*', '/');
      assert forall q: nat :: StandsAt(tail, q, '*', '/') <==> StandsAt(line, q + start.value + 2, '*', '/');
    }
  }

  /** What stands before the first mark is the code, unless the rest of the line is broken. */
  lemma {:induction false} CodeIsBeforeTheMark(before: string, after: string)
    requires forall p: nat :: !StandsAt(before + "-", p, '-', '-')
    requires forall c | c in after :: !EndsLine(c)
    ensures CodeWithoutLineComment(before + ("--" + after)) == before
  {
    var line := before + ("--" + after);
    if before == "" {
      assert line[2..] == after && line[0] == '-' && line[1] == '-';
    } else {
      var tail := before[1..];
      assert line[1..] == tail + ("--" + after) && (before + "-")[1..] == tail + "-";
      forall p: nat ensures !StandsAt(tail + "-", p, '-', '-') {
        assert !StandsAt(before + "-", p + 1, '-', '-');
      }
      CodeIsBeforeTheMark(tail, after);
      assert !StandsAt(before + "-", 0, '-', '-');
      assert line[0] == before[0] && line[1] == (before + "-")[1];
    }
  }

  predicate OpensBlockComment(line: string) {
    var start := IndexOf(line, '/', '*');
    start.Some? && IndexOf(line[start.value + 2..], '*', '/').None?
  }

  predicate ClosesBlockComment(line: string) {
    IndexOf(line, '*', '/').Some?
  }

  function Probe(line: string): string {
    TrimStart(CodeWithoutLineComment(line))
  }

  // ----- statements -----

  /** The trigger a line starts to create. */
  function CreatedTrigger(line: string): (name: Option<string>)
    ensures name.Some? ==> name.value != "" && IsLetter(name.value[0]) && forall c | c in name.value :: IsWord(c)
  {
    var a := EatThen(Probe(line), "create");
    if a.None? then None else
      var b := EatThen(a.value, "trigger");
      if b.None? || b.value == "" || !IsLetter(b.value[0]) then None else Some(WordAt(b.value))
  }

  predicate StartsStatement(probe: string) {
    EatThen(probe, "comment").Some? || EatThen(probe, "create").Some?
  }

  predicate HasExecute(probe: string) {
    || ExecutesAt(probe)
    || (probe != "" && HasExecute(probe[1..]))
  }

  predicate ExecutesAt(s: string) {
    var a := EatThen(s, "execute");
    a.Some? && (EatThen(a.value, "function").Some? || EatThen(a.value, "procedure").Some?)
  }

  /** Somewhere on the line `execute`, then `function` or `procedure`, each followed by a space. */
  lemma {:induction false} ExecutesExactlyWhen(probe: string)
    ensures HasExecute(probe) <==>
            exists p: nat | p <= |probe| ::
              var a := EatThen(probe[p..], "execute");
              a.Some? && (EatThen(a.value, "function").Some? || EatThen(a.value, "procedure").Some?)
  {
    hide EatThen;
    assert probe[0..] == probe;
    assert probe == "" ==> probe[0..] == "";
    if probe != "" {
      var tail := probe[1..];
      ExecutesExactlyWhen(tail);
      assert forall p: nat | p <= |tail| :: tail[p..] == probe[p + 1..];
      assert forall p: nat | 0 < p <= |probe| :: probe[p..] == tail[p - 1..];
    }
  }

  datatype Found = Found(table: string, rest: string)

  /** `ON`, perhaps `ONLY`, and a table name, at the very start of `s`. */
  function OnAt(s: string): (f: Option<Found>)
    ensures f.Some? ==> f.value.table != "" && |f.value.rest| < |s|
    ensures f.Some? ==> forall c | c in f.value.table :: IsWord(c) || c == '.'
  {
    var a := EatThen(s, "ON");
    if a.None? then None else
      var only := EatThen(a.value, "ONLY");
      if only.Some? && DottedAt(only.value) != "" then
        Some(Found(DottedAt(only.value), only.value[|DottedAt(only.value)|..]))
      else if DottedAt(a.value) != "" then
        Some(Found(DottedAt(a.value), a.value[|DottedAt(a.value)|..]))
      else None
  }

  /** The first of them that follows a space. */
  function NextOn(s: string): (f: Option<Found>)
    ensures f.Some? ==> f.value.table != "" && |f.value.rest| < |s|
    ensures f.Some? ==> forall c | c in f.value.table :: IsWord(c) || c == '.'
  {
    if s == "" then None
    else if IsSpace(s[0]) && OnAt(s[1..]).Some? then OnAt(s[1..])
    else NextOn(s[1..])
  }

  /** Passing over `ON TRIGGER`. */
  function SkipTrigger(f: Option<Found>): (table: Option<string>)
    ensures table.Some? ==> table.value != "" && forall c | c in table.value :: IsWord(c) || c == '.'
    decreases if f.Some? then |f.value.rest| else 0, 1
    requires f.Some? ==> f.value.table != "" && forall c | c in f.value.table :: IsWord(c) || c == '.'
  {
    if f.None? then None
    else if !SameIgnoringCase(f.value.table, "trigger") then Some(f.value.table)
    else
      var next := NextOn(f.value.rest);
      if next.None? then None else SkipTrigger(next)
  }

  function ParseOnTable(probe: string): (table: Option<string>)
    ensures table.Some? ==> table.value != "" && forall c | c in table.value :: IsWord(c) || c == '.'
  {
    SkipTrigger(if OnAt(probe).Some? then OnAt(probe) else NextOn(probe))
  }

  method ParseOnTableByExec(probe: string) returns (table: Option<string>)
    ensures table == ParseOnTable(probe)
  {
    var f := if OnAt(probe).Some? then OnAt(probe) else NextOn(probe);
    while f.Some?
      invariant f.Some? ==> f.value.table != "" && forall c | c in f.value.table :: IsWord(c) || c == '.'
      invariant SkipTrigger(f) == ParseOnTable(probe)
      decreases if f.Some? then |f.value.rest| + 1 else 0
    {
      if !SameIgnoringCase(f.value.table, "trigger") {
        return Some(f.value.table);
      }
      f := NextOn(f.value.rest);
    }
    return None;
  }

  // ----- the drop statement -----

  const DROP := "DROP TRIGGER IF EXISTS"

  function DropLine(name: string, table: string): string {
    DROP + " " + (name + (" ON " + (table + ";")))
  }

  /** A drop of that trigger on that table, or on one whose name goes on after it, at the very start of `s`. */
  predicate DropsAt(s: string, name: string, table: string) {
    var a := EatThen(s, DROP);
    a.Some? &&
    var b := EatThen(a.value, name);
    b.Some? &&
    var c := EatThen(b.value, "ON");
    c.Some? && Eat(c.value, table).Some?
  }

  predicate Drops(s: string, name: string, table: string) {
    exists p | 0 <= p <= |s| :: DropsAt(s[p..], name, table)
  }

  /** The inserted statement is recognised, and so is one on any table whose name starts the same. */
  lemma DropIsRecognised(name: string, table: string, more: string)
    requires name != "" && !IsSpace(name[0]) && table != "" && !IsSpace(table[0])
    ensures DropsAt(DROP + " " + (name + (" ON " + (table + more))), name, table)
  {}
}
