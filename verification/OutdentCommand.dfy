/**
 The outdent command: every span it deletes is exactly the indent characters as text,
 and it undoes what indent did to the same lines.
 */
module OutdentCommand {
  import opened Prelude
  import opened IndentDocument
  import opened IndentCommands

  // ----- leading leaves -----

  /** Nodes without content other than text. */
  predicate IsLeafNode(t: Token) {
    t.Leaf? || t.Rule?
  }

  function Leaves(c: seq<Token>): (k: nat)
    ensures k <= |c|
  {
    if c == [] || !c[0].Leaf? then 0 else 1 + Leaves(c[1..])
  }

  lemma {:induction false} LeavesAreFirst(c: seq<Token>, k: nat)
    requires k <= |c| && (forall i | 0 <= i < k :: c[i].Leaf?) && (k < |c| ==> !c[k].Leaf?)
    ensures Leaves(c) == k
  {
    if k > 0 {
      LeavesAreFirst(c[1..], k - 1);
    }
  }

  lemma {:induction false} LeavesHoldNoText(c: seq<Token>)
    ensures TextOf(c[..Leaves(c)]) == ""
  {
    if Leaves(c) > 0 {
      assert c[..Leaves(c)][1..] == c[1..][..Leaves(c[1..])];
      LeavesHoldNoText(c[1..]);
    }
  }

  method SkipZeroWidthLeaves(tokens: seq<Token>, pos: nat) returns (p: nat)
    requires pos <= |tokens|
    ensures pos <= p <= |tokens|
    ensures forall i | pos <= i < p :: IsLeafNode(tokens[i])
    ensures p < |tokens| ==> !IsLeafNode(tokens[p])
  {
    p := pos;
    while p < |tokens| && IsLeafNode(tokens[p])
      invariant pos <= p <= |tokens|
      invariant forall i | pos <= i < p :: IsLeafNode(tokens[i])
    {
      p := p + 1;
    }
  }

  /** Hopping from a line's content start never leaves the line. */
  lemma HopStaysOnLine(d: Doc, i: nat, p: nat)
    requires Proper(d) && i < LineCount(d) && Start(d, 0, i) <= p <= |Flatten(d)|
    requires forall j | Start(d, 0, i) <= j < p :: IsLeafNode(Flatten(d)[j])
    requires p < |Flatten(d)| ==> !IsLeafNode(Flatten(d)[p])
    ensures p == Start(d, 0, i) + Leaves(Content(d, i))
  {
    var c := Content(d, i);
    var before, after := WithInPlace(d, 0, i, c);
    LineIsInline(d, i);
    var k := p - |before|;
    assert Flatten(d)[|before| + |c|] == after[0];
    assert forall j | 0 <= j < |c| :: Flatten(d)[|before| + j] == c[j];
    assert forall j | 0 <= j < |c| :: IsInline(c[j]);
    assert k <= |c|;
    LeavesAreFirst(c, k);
  }

  lemma {:induction false} LineIsInline(d: Doc, i: nat)
    requires Proper(d) && i < LineCount(d)
    ensures forall t | t in Content(d, i) :: IsInline(t)
  {
    if i > 0 {
      LineIsInline(d.rest, i - 1);
    }
  }

  // ----- the window test -----

  function TextBetween(tokens: seq<Token>, from: nat, to: nat): string
    requires from <= |tokens| && from <= to
  {
    TextOf(tokens[from..Min(to, |tokens|)])
  }

  predicate HoldsAt(c: seq<Token>, o: nat, s: string) {
    o + |s| <= |c| && c[o..o + |s|] == Chars(s)
  }

  lemma WindowIsText(w: seq<Token>, s: string)
    requires |w| <= |s|
    ensures TextOf(w) == s <==> w == Chars(s)
  {
    FullTextIsAllCharacters(w);
    TextOfChars(s);
  }

  lemma WindowInside(before: seq<Token>, c: seq<Token>, after: seq<Token>, o: nat, s: string)
    requires o <= |c| && after != [] && after[0] == Close
    ensures var tokens := before + (c + after);
            TextBetween(tokens, |before| + o, |before| + o + |s|) == s <==> HoldsAt(c, o, s)
  {
    var tokens := before + (c + after);
    var w := tokens[|before| + o..Min(|before| + o + |s|, |tokens|)];
    WindowIsText(w, s);
    if o + |s| <= |c| {
      assert w == c[o..o + |s|];
    } else {
      assert w[|c| - o] == Close;
    }
  }

  /**
   Text of length L read from a window of L positions inside a line is `s` exactly when
   all L positions are the characters of `s`, on that line.
   */
  lemma WindowEqualsText(d: Doc, i: nat, o: nat, s: string)
    requires Proper(d) && i < LineCount(d) && o <= |Content(d, i)|
    ensures Start(d, 0, i) + o <= |Flatten(d)|
    ensures TextBetween(Flatten(d), Start(d, 0, i) + o, Start(d, 0, i) + o + |s|) == s <==> HoldsAt(Content(d, i), o, s)
  {
    var before, after := WithInPlace(d, 0, i, Content(d, i));
    WindowInside(before, Content(d, i), after, o, s);
  }

  // ----- lines that start indented -----

  predicate StartsIndented(c: seq<Token>, s: string) {
    HoldsAt(c, Leaves(c), s)
  }

  function StripLine(c: seq<Token>, s: string): seq<Token> {
    if StartsIndented(c, s) then c[..Leaves(c)] + c[Leaves(c) + |s|..] else c
  }

  /** The check on the line's whole text never refuses what the window test would take. */
  lemma TextStartsToo(c: seq<Token>, s: string)
    requires StartsIndented(c, s)
    ensures s <= TextOf(c)
  {
    var k := Leaves(c);
    LeavesHoldNoText(c);
    assert c == c[..k] + c[k..];
    TextOfConcat(c[..k], c[k..]);
    assert c[k..] == Chars(s) + c[k + |s|..];
    TextOfConcat(Chars(s), c[k + |s|..]);
    TextOfChars(s);
  }

  function Strippable(d: Doc, ks: seq<nat>, s: string): (out: seq<nat>)
    requires Ordinals(d, ks)
    ensures Ordinals(d, out)
  {
    if ks == [] then []
    else
      var last := |ks| - 1;
      Strippable(d, ks[..last], s) + if StartsIndented(Content(d, ks[last]), s) then [ks[last]] else []
  }

  function Point(d: Doc, k: nat): nat
    requires k < LineCount(d)
  {
    Start(d, 0, k) + Leaves(Content(d, k))
  }

  function PointsOf(d: Doc, ks: seq<nat>): (ps: seq<nat>)
    requires Ordinals(d, ks)
  {
    seq(|ks|, j requires 0 <= j < |ks| => Point(d, ks[j]))
  }

  method DeletionIn(d: Doc, line: IndentLine, ghost k: nat, s: string) returns (p: Option<nat>)
    requires Proper(d) && k < LineCount(d) && line == IndentLine(TextOf(Content(d, k)), Start(d, 0, k))
    ensures p == if StartsIndented(Content(d, k), s) then Some(Point(d, k)) else None
  {
    if StartsIndented(Content(d, k), s) {
      TextStartsToo(Content(d, k), s);
    }
    if !(s <= line.text) {
      return None;
    }
    LinesAreOrdered(d, 0, k);
    var at := SkipZeroWidthLeaves(Flatten(d), line.pos);
    HopStaysOnLine(d, k, at);
    WindowEqualsText(d, k, Leaves(Content(d, k)), s);
    p := if TextBetween(Flatten(d), at, at + |s|) == s then Some(at) else None;
  }

  method Deletions(d: Doc, lines: seq<IndentLine>, ghost met: seq<nat>, s: string) returns (ps: seq<nat>)
    requires Proper(d) && Ordinals(d, met) && lines == LinesAt(d, met)
    ensures ps == PointsOf(d, Strippable(d, met, s))
  {
    ps := [];
    for i := 0 to |lines|
      invariant ps == PointsOf(d, Strippable(d, met[..i], s))
    {
      assert met[..i + 1][..i] == met[..i];
      var p := DeletionIn(d, lines[i], met[i], s);
      if p.Some? {
        ps := ps + [p.value];
      }
    }
    assert met[..|met|] == met;
  }

  // ----- deleting back to front -----

  function DeleteAt(tokens: seq<Token>, p: nat, n: nat): seq<Token> {
    Delete(tokens, Min(p, |tokens|), Min(p + n, |tokens|))
  }

  function DeleteAll(tokens: seq<Token>, ps: seq<nat>, n: nat): seq<Token>
    decreases |ps|
  {
    if ps == [] then tokens else DeleteAll(DeleteAt(tokens, ps[0], n), ps[1..], n)
  }

  method DeleteEach(before: seq<Token>, ps: seq<nat>, n: nat) returns (tokens: seq<Token>)
    ensures tokens == DeleteAll(before, ps, n)
  {
    tokens := before;
    for i := 0 to |ps|
      invariant DeleteAll(tokens, ps[i..], n) == DeleteAll(before, ps, n)
    {
      assert ps[i..][0] == ps[i] && ps[i..][1..] == ps[i + 1..];
      tokens := DeleteAt(tokens, ps[i], n);
    }
  }

  /** Each of the lines `ks`, in order, stripped of one leading copy of `s`. */
  function Stripped(d: Doc, ks: seq<nat>, s: string): (d': Doc)
    requires Ordinals(d, ks)
    decreases |ks|
  {
    if ks == [] then d else Stripped(With(d, ks[0], StripLine(Content(d, ks[0]), s)), ks[1..], s)
  }

  predicate StrictlyDescending(ks: seq<nat>) {
    forall i, j | 0 <= i < j < |ks| :: ks[i] > ks[j]
  }

  predicate AllStartIndented(d: Doc, ks: seq<nat>, s: string)
    requires Ordinals(d, ks)
  {
    forall j | 0 <= j < |ks| :: StartsIndented(Content(d, ks[j]), s)
  }

  /** Deleting a window on a line leaves every other token alone. */
  lemma CutInLine(d: Doc, k: nat, o: nat, n: nat)
    requires k < LineCount(d) && o + n <= |Content(d, k)|
    ensures Start(d, 0, k) + o + n <= |Flatten(d)|
    ensures var c := Content(d, k);
            DeleteAt(Flatten(d), Start(d, 0, k) + o, n) == Flatten(With(d, k, c[..o] + c[o + n..]))
  {
    hide Flatten, With, Start, Content, DeleteAt;
    var c := Content(d, k);
    var before, after := WithInPlace(d, 0, k, c[..o] + c[o + n..]);
    DeleteInside(before, c, after, o, n);
  }

  lemma DeleteIsStrip(d: Doc, k: nat, s: string)
    requires k < LineCount(d) && StartsIndented(Content(d, k), s)
    ensures Point(d, k) + |s| <= |Flatten(d)|
    ensures DeleteAt(Flatten(d), Point(d, k), |s|) == Flatten(With(d, k, StripLine(Content(d, k), s)))
  {
    hide Leaves, Flatten, With, DeleteAt, Content, Start;
    CutInLine(d, k, Leaves(Content(d, k)), |s|);
  }

  lemma DeleteInside(before: seq<Token>, c: seq<Token>, after: seq<Token>, o: nat, n: nat)
    requires o + n <= |c|
    ensures DeleteAt(before + (c + after), |before| + o, n) == before + ((c[..o] + c[o + n..]) + after)
  {}

  /** Back to front, no deletion moves the window of a later one. */
  lemma {:induction false} DeleteAllIsStripped(d: Doc, ks: seq<nat>, s: string)
    requires Ordinals(d, ks) && StrictlyDescending(ks) && AllStartIndented(d, ks, s)
    ensures DeleteAll(Flatten(d), PointsOf(d, ks), |s|) == Flatten(Stripped(d, ks, s))
    decreases |ks|
  {
    if ks != [] {
      var c := StripLine(Content(d, ks[0]), s);
      var d' := With(d, ks[0], c);
      DeleteIsStrip(d, ks[0], s);
      forall j | 0 < j < |ks| ensures Content(d', ks[j]) == Content(d, ks[j]) && Start(d', 0, ks[j]) == Start(d, 0, ks[j]) {
        WithContent(d, ks[0], c, ks[j]);
        WithStart(d, 0, ks[0], c, ks[j]);
      }
      assert PointsOf(d, ks)[1..] == PointsOf(d', ks[1..]);
      DeleteAllIsStripped(d', ks[1..], s);
    }
  }

  /** Line by line: the listed lines lose their leading copy, every other line and boundary stays. */
  lemma {:induction false} StrippedLines(d: Doc, ks: seq<nat>, s: string)
    requires Ordinals(d, ks) && StrictlyDescending(ks)
    ensures SameFrame(d, Stripped(d, ks, s)) && LineCount(Stripped(d, ks, s)) == LineCount(d)
    ensures forall i: nat | i < LineCount(d) ::
              Content(Stripped(d, ks, s), i) == if i in ks then StripLine(Content(d, i), s) else Content(d, i)
    decreases |ks|
  {
    FrameIsReflexive(d);
    if ks != [] {
      var c := StripLine(Content(d, ks[0]), s);
      var d' := With(d, ks[0], c);
      StrippedLines(d', ks[1..], s);
      WithKeepsFrame(d, ks[0], c, d);
      FrameIsTransitive(d, d', Stripped(d', ks[1..], s));
      forall i: nat | i < LineCount(d)
        ensures Content(Stripped(d, ks, s), i) == if i in ks then StripLine(Content(d, i), s) else Content(d, i)
      {
        WithContent(d, ks[0], c, i);
        assert i in ks <==> i == ks[0] || i in ks[1..];
      }
    }
  }

  // ----- which lines are stripped -----

  lemma {:induction false} StrippableCounts(d: Doc, ks: seq<nat>, s: string, k: nat)
    requires Ordinals(d, ks) && k < LineCount(d)
    ensures multiset(Strippable(d, ks, s))[k] == if StartsIndented(Content(d, k), s) then multiset(ks)[k] else 0
  {
    if ks != [] {
      var last := |ks| - 1;
      assert ks == ks[..last] + [ks[last]];
      StrippableCounts(d, ks[..last], s, k);
    }
  }

  lemma NoRepeatsMeansStrict(ks: seq<nat>)
    requires Descending(ks) && forall j | 0 <= j < |ks| :: multiset(ks)[ks[j]] <= 1
    ensures StrictlyDescending(ks)
  {
    forall i, j | 0 <= i < j < |ks| ensures ks[i] > ks[j] {
      assert ks[i] >= ks[j];
      assert ks == ks[..j] + ks[j..];
      assert ks[i] == ks[..j][i] && ks[j] == ks[j..][0];
      assert ks[i] in multiset(ks[..j]) && ks[j] in multiset(ks[j..]);
    }
  }

  /** The lines outdent strips, last first, each as often as ranges meet it. */
  function ToStrip(d: Doc, ranges: seq<Range>, s: string): (ks: seq<nat>)
    ensures Ordinals(d, ks)
  {
    SortKeepsOrdinals(d, Strippable(d, Met(d, ranges), s));
    SortDescending(Strippable(d, Met(d, ranges), s))
  }

  /** Every line that outdent strips is met by one range only. */
  predicate StrippedLinesMetOnce(d: Doc, ranges: seq<Range>, s: string) {
    forall k: nat | k < LineCount(d) && StartsIndented(Content(d, k), s) :: MeetCount(d, ranges, k) <= 1
  }

  lemma ToStripCounts(d: Doc, ranges: seq<Range>, s: string, k: nat)
    requires k < LineCount(d)
    ensures multiset(ToStrip(d, ranges, s))[k]
         == if StartsIndented(Content(d, k), s) then MeetCount(d, ranges, k) else 0
  {
    StrippableCounts(d, Met(d, ranges), s, k);
    MetCounts(d, ranges, k);
  }

  lemma ToStripHas(d: Doc, ranges: seq<Range>, s: string, k: nat)
    requires k < LineCount(d)
    ensures k in ToStrip(d, ranges, s) <==> IsMet(d, ranges, k) && StartsIndented(Content(d, k), s)
  {
    ToStripCounts(d, ranges, s, k);
    CountedIsMet(d, ranges, k);
    assert k in ToStrip(d, ranges, s) <==> k in multiset(ToStrip(d, ranges, s));
  }

  lemma ToStripStartIndented(d: Doc, ranges: seq<Range>, s: string)
    ensures AllStartIndented(d, ToStrip(d, ranges, s), s) && Descending(ToStrip(d, ranges, s))
  {
    var ks := ToStrip(d, ranges, s);
    SortIsDescending(Strippable(d, Met(d, ranges), s));
    forall j | 0 <= j < |ks| ensures StartsIndented(Content(d, ks[j]), s) {
      assert ks[j] in ks;
      ToStripHas(d, ranges, s, ks[j]);
    }
  }

  /** No line is listed twice exactly when every line stripped is met once. */
  lemma StrictExactlyWhen(d: Doc, ranges: seq<Range>, s: string)
    ensures StrictlyDescending(ToStrip(d, ranges, s)) <==> StrippedLinesMetOnce(d, ranges, s)
  {
    var ks := ToStrip(d, ranges, s);
    ToStripStartIndented(d, ranges, s);
    if StrippedLinesMetOnce(d, ranges, s) {
      forall j | 0 <= j < |ks| ensures multiset(ks)[ks[j]] <= 1 {
        ToStripCounts(d, ranges, s, ks[j]);
      }
      NoRepeatsMeansStrict(ks);
    }
    if StrictlyDescending(ks) {
      forall k: nat | k < LineCount(d) && StartsIndented(Content(d, k), s) ensures MeetCount(d, ranges, k) <= 1 {
        ToStripCounts(d, ranges, s, k);
        StrictHasOnce(ks, k);
      }
    }
  }

  lemma {:induction false} StrictHasOnce(ks: seq<nat>, k: nat)
    requires StrictlyDescending(ks)
    ensures multiset(ks)[k] <= 1
  {
    if ks != [] {
      StrictHasOnce(ks[1..], k);
      assert ks == [ks[0]] + ks[1..];
      if k == ks[0] {
        assert k !in ks[1..];
        assert k !in multiset(ks[1..]);
      }
    }
  }

  function AllPoints(d: Doc): (table: seq<nat>)
    ensures |table| == LineCount(d)
  {
    seq(LineCount(d), i requires 0 <= i < LineCount(d) => Point(d, i))
  }

  lemma PointsIncrease(d: Doc)
    requires Proper(d)
    ensures Increasing(AllPoints(d))
  {
    forall i, j | 0 <= i < j < LineCount(d) ensures Point(d, i) < Point(d, j) {
      LinesAreOrdered(d, 0, i);
    }
  }

  lemma SortedPoints(d: Doc, ks: seq<nat>)
    requires Proper(d) && Ordinals(d, ks)
    ensures Ordinals(d, SortDescending(ks))
    ensures SortDescending(PointsOf(d, ks)) == PointsOf(d, SortDescending(ks))
  {
    PointsIncrease(d);
    assert PointsOf(d, ks) == LookUp(AllPoints(d), ks);
    SortLooksUp(AllPoints(d), ks);
  }

  // ----- one window per line -----

  /** A descending list without its repetitions. */
  function Once(ks: seq<nat>): (out: seq<nat>)
    ensures ks != [] ==> out != [] && out[0] == ks[0]
  {
    if |ks| < 2 then ks
    else if ks[0] == ks[1] then Once(ks[1..])
    else [ks[0]] + Once(ks[1..])
  }

  lemma {:induction false} OnceHas(ks: seq<nat>, k: nat)
    ensures k in Once(ks) <==> k in ks
  {
    if |ks| >= 2 {
      assert ks == [ks[0]] + ks[1..];
      OnceHas(ks[1..], k);
    }
  }

  lemma OnceHasThemAll(ks: seq<nat>)
    ensures forall k :: k in Once(ks) <==> k in ks
    ensures forall j | 0 <= j < |Once(ks)| :: Once(ks)[j] in ks
  {
    forall k ensures k in Once(ks) <==> k in ks {
      OnceHas(ks, k);
    }
  }

  lemma {:induction false} OnceDescends(ks: seq<nat>)
    requires Descending(ks)
    ensures StrictlyDescending(Once(ks))
  {
    if |ks| >= 2 {
      var rest := Once(ks[1..]);
      OnceDescends(ks[1..]);
      OnceHasThemAll(ks[1..]);
      hide Once;
      if ks[0] != ks[1] {
        forall j | 0 <= j < |rest| ensures ks[0] > rest[j] {
          assert rest[j] in ks[1..];
        }
      }
    }
  }

  lemma {:induction false} OnceKeepsStrict(ks: seq<nat>)
    requires StrictlyDescending(ks)
    ensures Once(ks) == ks
  {
    if |ks| >= 2 {
      OnceKeepsStrict(ks[1..]);
      assert ks == [ks[0]] + ks[1..];
    }
  }

  lemma OnceIsStrict(ks: seq<nat>)
    requires Descending(ks)
    ensures StrictlyDescending(Once(ks)) && (Once(ks) == ks <==> StrictlyDescending(ks))
  {
    OnceDescends(ks);
    if StrictlyDescending(ks) {
      OnceKeepsStrict(ks);
    }
  }

  lemma {:induction false} OnceIsNoLonger(ks: seq<nat>)
    ensures |Once(ks)| <= |ks|
  {
    if |ks| >= 2 {
      OnceIsNoLonger(ks[1..]);
    }
  }

  /** How many tokens are left of `length` after the deletions. */
  function LengthAfter(length: nat, ps: seq<nat>, n: nat): nat
    decreases |ps|
  {
    if ps == [] then length
    else LengthAfter(length - (Min(ps[0] + n, length) - Min(ps[0], length)), ps[1..], n)
  }

  lemma {:induction false} DeleteAllLength(tokens: seq<Token>, ps: seq<nat>, n: nat)
    ensures |DeleteAll(tokens, ps, n)| == LengthAfter(|tokens|, ps, n)
    decreases |ps|
  {
    if ps != [] {
      DeleteAllLength(DeleteAt(tokens, ps[0], n), ps[1..], n);
    }
  }

  /** Descending `more` is descending `ps` with some of its numbers repeated more often. */
  predicate Repeats(more: seq<nat>, ps: seq<nat>)
    decreases |more|
  {
    if more == [] then ps == []
    else
      || (ps != [] && more[0] == ps[0] && Repeats(more[1..], ps[1..]))
      || (|more| >= 2 && more[0] == more[1] && Repeats(more[1..], ps))
  }

  lemma RepeatsStart(more: seq<nat>, ps: seq<nat>)
    requires Repeats(more, ps)
    ensures more == [] <==> ps == []
    ensures more != [] ==> more[0] == ps[0]
    decreases |more|
  {
    if more != [] && !(ps != [] && more[0] == ps[0] && Repeats(more[1..], ps[1..])) {
      RepeatsStart(more[1..], ps);
    }
  }

  /** Each window in turn lies inside what is left, with something after it. */
  predicate WindowsInside(length: nat, ps: seq<nat>, n: nat)
    decreases |ps|
  {
    ps == [] || (ps[0] + n < length && WindowsInside(length - n, ps[1..], n))
  }

  lemma {:induction false} FewerStayFewer(less: nat, length: nat, more: seq<nat>, ps: seq<nat>, n: nat)
    requires Repeats(more, ps) && WindowsInside(length, ps, n) && less < length
    requires Descending(more) && (more != [] ==> more[0] <= less)
    ensures LengthAfter(less, more, n) < LengthAfter(length, ps, n)
    decreases |more|
  {
    if more != [] {
      var less' := less - (Min(more[0] + n, less) - Min(more[0], less));
      RepeatsStart(more, ps);
      if Repeats(more[1..], ps[1..]) {
        FewerStayFewer(less', length - n, more[1..], ps[1..], n);
      } else {
        FewerStayFewer(less', length, more[1..], ps, n);
      }
    }
  }

  /** A window deleted once more leaves fewer tokens. */
  lemma {:induction false} RepetitionTakesMore(length: nat, more: seq<nat>, ps: seq<nat>, n: nat)
    requires n > 0 && Repeats(more, ps) && WindowsInside(length, ps, n) && Descending(more) && |more| > |ps|
    ensures LengthAfter(length, more, n) < LengthAfter(length, ps, n)
    decreases |more|
  {
    RepeatsStart(more, ps);
    if Repeats(more[1..], ps[1..]) {
      RepetitionTakesMore(length - n, more[1..], ps[1..], n);
    } else {
      FewerStayFewer(length - n, length, more[1..], ps, n);
    }
  }

  lemma {:induction false} RepeatsOnce(ks: seq<nat>)
    ensures Repeats(ks, Once(ks))
  {
    if |ks| >= 2 {
      RepeatsOnce(ks[1..]);
      if ks[0] != ks[1] {
        assert Once(ks)[1..] == Once(ks[1..]);
      }
    } else if |ks| == 1 {
      assert ks[1..] == [];
    }
  }

  lemma WindowEndsBefore(d: Doc, k: nat, s: string)
    requires Proper(d) && k < LineCount(d) && StartsIndented(Content(d, k), s)
    ensures Point(d, k) + |s| < |Flatten(d)|
    ensures forall j | k < j < LineCount(d) :: Point(d, k) + |s| < Point(d, j)
  {
    LinesAreOrdered(d, 0, k);
  }

  lemma PointsDescend(d: Doc, ks: seq<nat>)
    requires Proper(d) && Ordinals(d, ks) && Descending(ks)
    ensures Descending(PointsOf(d, ks))
  {
    PointsIncrease(d);
    forall i, j | 0 <= i <= j < |ks| ensures PointsOf(d, ks)[i] >= PointsOf(d, ks)[j] {
      assert ks[i] >= ks[j] && PointsOf(d, ks)[i] == AllPoints(d)[ks[i]] && PointsOf(d, ks)[j] == AllPoints(d)[ks[j]];
    }
  }

  lemma {:induction false} StrictWindowsInside(d: Doc, ks: seq<nat>, s: string, length: nat)
    requires Proper(d) && Ordinals(d, ks) && StrictlyDescending(ks) && AllStartIndented(d, ks, s)
    requires ks != [] ==> Point(d, ks[0]) + |s| < length
    ensures WindowsInside(length, PointsOf(d, ks), |s|)
    decreases |ks|
  {
    if ks != [] {
      assert PointsOf(d, ks)[1..] == PointsOf(d, ks[1..]);
      if |ks| >= 2 {
        assert ks[0] > ks[1];
        WindowEndsBefore(d, ks[1], s);
      }
      StrictWindowsInside(d, ks[1..], s, length - |s|);
    }
  }

  lemma OnceOrdinals(d: Doc, ks: seq<nat>)
    requires Ordinals(d, ks)
    ensures Ordinals(d, Once(ks))
  {
    OnceHasThemAll(ks);
  }

  lemma SamePoint(d: Doc, j: nat, k: nat)
    requires Proper(d) && j < LineCount(d) && k < LineCount(d)
    ensures Point(d, j) == Point(d, k) <==> j == k
  {
    PointsIncrease(d);
    assert Point(d, j) == AllPoints(d)[j] && Point(d, k) == AllPoints(d)[k];
  }

  lemma {:induction false} OncePoints(d: Doc, ks: seq<nat>)
    requires Proper(d) && Ordinals(d, ks)
    ensures Ordinals(d, Once(ks)) && PointsOf(d, Once(ks)) == Once(PointsOf(d, ks))
  {
    OnceOrdinals(d, ks);
    if |ks| >= 2 {
      OnceOrdinals(d, ks[1..]);
      OncePoints(d, ks[1..]);
      hide Point, Proper, LineCount;
      assert PointsOf(d, ks)[1..] == PointsOf(d, ks[1..]);
      SamePoint(d, ks[0], ks[1]);
      if ks[0] != ks[1] {
        assert PointsOf(d, [ks[0]] + Once(ks[1..])) == [Point(d, ks[0])] + PointsOf(d, Once(ks[1..]));
      }
    }
  }

  /** Deleting every listed window strips each line once, exactly when no line to strip is met twice. */
  lemma StripsOnceExactlyWhen(d: Doc, ranges: seq<Range>, s: string)
    requires Proper(d) && s != ""
    ensures Ordinals(d, Once(ToStrip(d, ranges, s)))
    ensures DeleteAll(Flatten(d), PointsOf(d, ToStrip(d, ranges, s)), |s|)
         == Flatten(Stripped(d, Once(ToStrip(d, ranges, s)), s))
         <==> StrippedLinesMetOnce(d, ranges, s)
  {
    hide ToStrip, StrippedLinesMetOnce, Flatten, DeleteAll, Stripped;
    var ks := ToStrip(d, ranges, s);
    ToStripStartIndented(d, ranges, s);
    StrictExactlyWhen(d, ranges, s);
    OnceIsStrict(ks);
    OncePoints(d, ks);
    OnceStartsIndented(d, ks, s);
    DeleteAllIsStripped(d, Once(ks), s);
    if !StrictlyDescending(ks) {
      PointsDescend(d, ks);
      RepeatsOnce(PointsOf(d, ks));
      WindowEndsBefore(d, Once(ks)[0], s);
      StrictWindowsInside(d, Once(ks), s, |Flatten(d)|);
      OnceShortens(ks);
      OnceIsNoLonger(ks);
      RepetitionTakesMore(|Flatten(d)|, PointsOf(d, ks), Once(PointsOf(d, ks)), |s|);
      DeleteAllLength(Flatten(d), PointsOf(d, ks), |s|);
      DeleteAllLength(Flatten(d), Once(PointsOf(d, ks)), |s|);
    }
  }

  lemma OnceStartsIndented(d: Doc, ks: seq<nat>, s: string)
    requires Ordinals(d, ks) && Ordinals(d, Once(ks)) && AllStartIndented(d, ks, s)
    ensures AllStartIndented(d, Once(ks), s)
  {
    OnceHasThemAll(ks);
  }

  lemma {:induction false} OnceShortens(ks: seq<nat>)
    ensures |Once(ks)| == |ks| ==> Once(ks) == ks
  {
    if |ks| >= 2 {
      OnceShortens(ks[1..]);
      OnceIsNoLonger(ks[1..]);
      assert ks == [ks[0]] + ks[1..];
    }
  }

  // ----- the caret -----

  predicate HasTrailing(c: seq<Token>, o: nat, s: string) {
    |s| <= o <= |c| && HoldsAt(c, o - |s|, s)
  }

  predicate HasLeading(c: seq<Token>, o: nat, s: string) {
    o == 0 && HoldsAt(c, 0, s)
  }

  function CaretStrip(c: seq<Token>, o: nat, s: string): seq<Token> {
    if HasTrailing(c, o, s) then c[..o - |s|] + c[o..]
    else if HasLeading(c, o, s) then c[|s|..]
    else c
  }

  /** The characters before the caret go if they are the indent; else, at a line's start, the first ones if they are. */
  lemma CaretStripsExactly(c: seq<Token>, o: nat, s: string)
    requires o <= |c|
    ensures CaretStrip(c, o, s) ==
            if |s| <= o && c[o - |s|..o] == Chars(s) then c[..o - |s|] + c[o..]
            else if o == 0 && Chars(s) <= c then c[|s|..]
            else c
    ensures HasTrailing(c, o, s) || HasLeading(c, o, s) <==>
            (|s| <= o && c[o - |s|..o] == Chars(s)) || (o == 0 && Chars(s) <= c)
  {
    assert |Chars(s)| == |s|;
    assert Chars(s) <= c <==> |s| <= |c| && c[0..|s|] == Chars(s) by {
      assert |s| <= |c| ==> c[0..|s|] == c[..|s|];
    }
  }

  /** When outdent does something. */
  predicate CanOutdent(d: Doc, sel: Selection, o: Options)
    requires Selects(d, sel)
  {
    && o.enabled
    && o.indentChars != ""
    && match sel
       case Cursor(line, offset) =>
         && CaretAllowed(d, sel, o.allowed)
         && (HasTrailing(Content(d, line), offset, o.indentChars) || HasLeading(Content(d, line), offset, o.indentChars))
       case OtherCaret(_) => false
       case Span(ranges) =>
         && AllAllowed(d, Met(d, ranges), o.allowed)
         && exists i: nat :: i < LineCount(d) && IsMet(d, ranges, i) && StartsIndented(Content(d, i), o.indentChars)
  }

  /** What it should then leave: each line it strips without one leading copy, every other token in place. */
  function Outdented(d: Doc, sel: Selection, s: string): (d': Doc)
    requires Selects(d, sel)
  {
    match sel
    case Cursor(line, offset) => With(d, line, CaretStrip(Content(d, line), offset, s))
    case OtherCaret(_) => d
    case Span(ranges) =>
      OnceHasThemAll(ToStrip(d, ranges, s));
      Stripped(d, Once(ToStrip(d, ranges, s)), s)
  }

  lemma TrailingIsText(c: seq<Token>, o: nat, s: string)
    requires |s| <= o <= |c|
    ensures HoldsAt(c, o - |s|, s) ==> |TextOf(c[..o])| >= |s|
  {
    if HoldsAt(c, o - |s|, s) {
      assert c[..o] == c[..o - |s|] + Chars(s);
      TextOfConcat(c[..o - |s|], Chars(s));
      TextOfChars(s);
    }
  }

  lemma LeadingIsText(c: seq<Token>, s: string)
    requires HoldsAt(c, 0, s)
    ensures s <= TextOf(c)
  {
    assert c == Chars(s) + c[|s|..];
    TextOfConcat(Chars(s), c[|s|..]);
    TextOfChars(s);
  }

  method FindsTrailing(d: Doc, line: nat, offset: nat, s: string) returns (found: bool)
    requires Proper(d) && line < LineCount(d) && offset <= |Content(d, line)|
    ensures found <==> HasTrailing(Content(d, line), offset, s)
  {
    var textBeforeCursor := TextOf(Content(d, line)[..offset]);
    if |textBeforeCursor| < |s| {
      if offset >= |s| {
        TrailingIsText(Content(d, line), offset, s);
      }
      return false;
    }
    var cursor := Start(d, 0, line) + offset;
    WindowEqualsText(d, line, offset - |s|, s);
    found := TextBetween(Flatten(d), cursor - |s|, cursor) == s;
  }

  method FindsLeading(d: Doc, line: nat, offset: nat, s: string) returns (found: bool)
    requires Proper(d) && line < LineCount(d) && offset <= |Content(d, line)|
    ensures found <==> HasLeading(Content(d, line), offset, s)
  {
    var lineStart := Start(d, 0, line);
    WindowEqualsText(d, line, 0, s);
    if HoldsAt(Content(d, line), 0, s) {
      LeadingIsText(Content(d, line), s);
    }
    found := offset == 0 && s <= TextOf(Content(d, line)) && TextBetween(Flatten(d), lineStart, lineStart + |s|) == s;
  }

  lemma TrailingCut(d: Doc, line: nat, offset: nat, s: string)
    requires line < LineCount(d) && HasTrailing(Content(d, line), offset, s)
    ensures DeleteAt(Flatten(d), Start(d, 0, line) + offset - |s|, |s|)
         == Flatten(With(d, line, CaretStrip(Content(d, line), offset, s)))
  {
    hide Flatten, DeleteAt, With, Start, Content;
    CutInLine(d, line, offset - |s|, |s|);
  }

  lemma LeadingCut(d: Doc, line: nat, offset: nat, s: string)
    requires line < LineCount(d) && HasLeading(Content(d, line), offset, s) && !HasTrailing(Content(d, line), offset, s)
    ensures DeleteAt(Flatten(d), Start(d, 0, line), |s|)
         == Flatten(With(d, line, CaretStrip(Content(d, line), offset, s)))
  {
    var c := Content(d, line);
    CutInLine(d, line, 0, |s|);
    assert c[..0] + c[0 + |s|..] == c[|s|..];
  }

  method OutdentAtCursor(d: Doc, line: nat, offset: nat, s: string) returns (handled: bool, tokens: seq<Token>)
    requires Proper(d) && line < LineCount(d) && offset <= |Content(d, line)|
    ensures handled <==> HasTrailing(Content(d, line), offset, s) || HasLeading(Content(d, line), offset, s)
    ensures handled ==> tokens == Flatten(With(d, line, CaretStrip(Content(d, line), offset, s)))
    ensures !handled ==> tokens == Flatten(d)
  {
    tokens := Flatten(d);
    var lineStart := Start(d, 0, line);
    var removeTrailing := FindsTrailing(d, line, offset, s);
    var removeLeading := FindsLeading(d, line, offset, s);
    if !removeTrailing && !removeLeading {
      return false, tokens;
    }
    if removeTrailing {
      TrailingCut(d, line, offset, s);
      tokens := DeleteAt(tokens, lineStart + offset - |s|, |s|);
    } else {
      LeadingCut(d, line, offset, s);
      tokens := DeleteAt(tokens, lineStart, |s|);
    }
    handled := true;
  }

  // ----- the command -----

  method OutdentLines(d: Doc, lines: seq<IndentLine>, ghost ranges: seq<Range>, s: string)
    returns (handled: bool, tokens: seq<Token>)
    requires Proper(d) && lines == LinesAt(d, Met(d, ranges))
    ensures handled <==> ToStrip(d, ranges, s) != []
    ensures tokens == DeleteAll(Flatten(d), PointsOf(d, ToStrip(d, ranges, s)), |s|)
  {
    var toDelete := Deletions(d, lines, Met(d, ranges), s);
    if toDelete == [] {
      return false, Flatten(d);
    }
    SortedPoints(d, Strippable(d, Met(d, ranges), s));
    tokens := DeleteEach(Flatten(d), SortDescending(toDelete), |s|);
    handled := true;
  }

  lemma SomethingToStrip(d: Doc, ranges: seq<Range>, s: string)
    ensures ToStrip(d, ranges, s) != [] <==>
            exists i: nat :: i < LineCount(d) && IsMet(d, ranges, i) && StartsIndented(Content(d, i), s)
  {
    forall i: nat | i < LineCount(d)
      ensures i in ToStrip(d, ranges, s) <==> IsMet(d, ranges, i) && StartsIndented(Content(d, i), s)
    {
      ToStripHas(d, ranges, s, i);
    }
    if ToStrip(d, ranges, s) != [] {
      assert ToStrip(d, ranges, s)[0] in ToStrip(d, ranges, s);
    }
  }

  /** The deletions the command makes, by position. */
  function Deleted(d: Doc, sel: Selection, s: string): seq<Token>
    requires Selects(d, sel)
  {
    if sel.Span? then DeleteAll(Flatten(d), PointsOf(d, ToStrip(d, sel.ranges, s)), |s|)
    else Flatten(Outdented(d, sel, s))
  }

  /**
   A selection over several lines is outdented as it should be exactly when no line to strip
   is met by two ranges; a caret always is.
   */
  method Outdent(d: Doc, sel: Selection, o: Options) returns (handled: bool, tokens: seq<Token>)
    requires Proper(d) && Selects(d, sel)
    ensures handled <==> CanOutdent(d, sel, o)
    ensures tokens == if handled then Deleted(d, sel, o.indentChars) else Flatten(d)
    ensures handled ==>
              (tokens == Flatten(Outdented(d, sel, o.indentChars)) <==>
               (sel.Span? ==> StrippedLinesMetOnce(d, sel.ranges, o.indentChars)))
  {
    tokens := Flatten(d);
    if !o.enabled || o.indentChars == "" {
      return false, tokens;
    }
    if !sel.Span? {
      CaretIsInside(d, sel);
      var ctx := IndentContextAtPos(tokens, CaretPos(d, sel));
      if ctx.None? || ctx.value !in o.allowed || !sel.Cursor? {
        return false, tokens;
      }
      handled, tokens := OutdentAtCursor(d, sel.line, sel.offset, o.indentChars);
      return;
    }
    SomethingToStrip(d, sel.ranges, o.indentChars);
    StripsOnceExactlyWhen(d, sel.ranges, o.indentChars);
    var lines := MultilineLinesIfAllowed(d, sel.ranges, o.allowed);
    if lines.None? {
      return false, tokens;
    }
    handled, tokens := OutdentLines(d, lines.value, sel.ranges, o.indentChars);
    if !handled {
      tokens := Flatten(d);
    }
  }
}
