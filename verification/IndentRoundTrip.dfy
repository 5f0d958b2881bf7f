/**
 Outdent undoes indent: over the lines of a selection, with the selection the editor keeps,
 and at a caret.
 */
module IndentRoundTrip {
  import opened Prelude
  import opened IndentDocument
  import opened IndentCommands
  import opened OutdentCommand

  // ----- outdent undoes indent -----

  lemma {:induction false} WithKeepsProper(d: Doc, k: nat, c: seq<Token>)
    requires Proper(d) && k < LineCount(d) && forall t | t in c :: IsInline(t)
    ensures Proper(With(d, k, c)) && (Closes(d) ==> Closes(With(d, k, c)))
  {
    if k > 0 {
      WithKeepsProper(d.rest, k - 1, c);
    }
  }

  lemma PrefixedIsInline(d: Doc, k: nat, s: string)
    requires Proper(d) && k < LineCount(d)
    ensures forall t | t in Chars(s) + Content(d, k) :: IsInline(t)
  {}

  lemma {:induction false} IndentedIsProper(d: Doc, ks: seq<nat>, s: string)
    requires Proper(d) && Ordinals(d, ks)
    ensures Proper(Indented(d, ks, s))
    decreases |ks|
  {
    if ks != [] {
      PrefixedIsInline(d, ks[0], s);
      WithKeepsProper(d, ks[0], Chars(s) + Content(d, ks[0]));
      IndentedIsProper(With(d, ks[0], Chars(s) + Content(d, ks[0])), ks[1..], s);
    }
  }

  // ----- one deletion for each copy -----

  /** `e` is `d` with a copy of `s` before a line for each time `ks` lists it. */
  ghost predicate HasCopies(d: Doc, e: Doc, ks: seq<nat>, s: string) {
    && LineCount(e) == LineCount(d)
    && SameFrame(d, e)
    && Proper(e)
    && forall i: nat | i < LineCount(d) :: Content(e, i) == Repeat(s, multiset(ks)[i]) + Content(d, i)
  }

  lemma ChopPrefix(s: string, c: seq<Token>)
    requires s != ""
    ensures Leaves(Chars(s) + c) == 0 && HoldsAt(Chars(s) + c, 0, s)
    ensures (Chars(s) + c)[..0] + (Chars(s) + c)[0 + |s|..] == c
  {}

  lemma OneCopyFirst(s: string, n: nat, c: seq<Token>)
    requires n > 0
    ensures Repeat(s, n) + c == Chars(s) + (Repeat(s, n - 1) + c)
  {}

  lemma OneFewer(ks: seq<nat>, i: nat)
    requires ks != []
    ensures multiset(ks)[i] == multiset(ks[1..])[i] + if i == ks[0] then 1 else 0
  {
    assert ks == [ks[0]] + ks[1..];
  }

  lemma SuffixIsInline(d: Doc, k: nat, c: seq<Token>)
    requires Proper(d) && k < LineCount(d) && |c| <= |Content(d, k)| && Content(d, k)[|Content(d, k)| - |c|..] == c
    ensures Proper(With(d, k, c))
  {
    LineIsInline(d, k);
    assert forall t | t in c :: t in Content(d, k);
    WithKeepsProper(d, k, c);
  }

  /** The document after the first of the deletions. */
  function OneTaken(d: Doc, e: Doc, ks: seq<nat>, s: string): Doc
    requires Ordinals(d, ks) && ks != [] && LineCount(e) == LineCount(d)
  {
    With(e, ks[0], Repeat(s, multiset(ks[1..])[ks[0]]) + Content(d, ks[0]))
  }

  lemma FirstLineHasCopy(d: Doc, e: Doc, ks: seq<nat>, s: string)
    requires HasCopies(d, e, ks, s) && Ordinals(d, ks) && ks != [] && s != ""
    ensures var c := Repeat(s, multiset(ks[1..])[ks[0]]) + Content(d, ks[0]);
            Content(e, ks[0]) == Chars(s) + c && Leaves(Content(e, ks[0])) == 0
  {
    var n := multiset(ks)[ks[0]];
    OneFewer(ks, ks[0]);
    OneCopyFirst(s, n, Content(d, ks[0]));
    ChopPrefix(s, Repeat(s, n - 1) + Content(d, ks[0]));
  }

  lemma TakeOne(d: Doc, e: Doc, ks: seq<nat>, s: string)
    requires HasCopies(d, e, ks, s) && Ordinals(d, ks) && ks != [] && s != ""
    ensures DeleteAt(Flatten(e), Start(e, 0, ks[0]), |s|) == Flatten(OneTaken(d, e, ks, s))
    ensures Start(e, 0, ks[0]) + |s| < |Flatten(e)| && Proper(OneTaken(d, e, ks, s))
    ensures |Flatten(OneTaken(d, e, ks, s))| == |Flatten(e)| - |s|
  {
    FirstLineHasCopy(d, e, ks, s);
    CutFirstCopy(e, ks[0], s, Repeat(s, multiset(ks[1..])[ks[0]]) + Content(d, ks[0]));
  }

  lemma CutFirstCopy(e: Doc, k: nat, s: string, c: seq<Token>)
    requires Proper(e) && k < LineCount(e) && Content(e, k) == Chars(s) + c && s != ""
    ensures DeleteAt(Flatten(e), Start(e, 0, k), |s|) == Flatten(With(e, k, c))
    ensures Start(e, 0, k) + |s| < |Flatten(e)| && Proper(With(e, k, c))
    ensures |Flatten(With(e, k, c))| == |Flatten(e)| - |s|
  {
    hide Flatten, With, Start, Content, Proper;
    ChopPrefix(s, c);
    CutInLine(e, k, 0, |s|);
    LinesAreOrdered(e, 0, k);
    SuffixIsInline(e, k, c);
  }

  lemma TakenHasCopies(d: Doc, e: Doc, ks: seq<nat>, s: string)
    requires HasCopies(d, e, ks, s) && Ordinals(d, ks) && ks != [] && s != ""
    ensures HasCopies(d, OneTaken(d, e, ks, s), ks[1..], s)
  {
    var e', k := OneTaken(d, e, ks, s), ks[0];
    var c := Repeat(s, multiset(ks[1..])[k]) + Content(d, k);
    TakeOne(d, e, ks, s);
    WithKeepsFrame(e, k, c, d);
    forall i: nat | i < LineCount(d) ensures Content(e', i) == Repeat(s, multiset(ks[1..])[i]) + Content(d, i) {
      OneFewer(ks, i);
      WithContent(e, k, c, i);
    }
  }

  lemma TakenStarts(d: Doc, e: Doc, ks: seq<nat>, s: string)
    requires HasCopies(d, e, ks, s) && Ordinals(d, ks) && ks != [] && s != "" && Descending(ks)
    ensures StartsOf(e, ks)[1..] == StartsOf(OneTaken(d, e, ks, s), ks[1..])
  {
    forall j | 0 < j < |ks| ensures Start(OneTaken(d, e, ks, s), 0, ks[j]) == Start(e, 0, ks[j]) {
      assert ks[0] >= ks[j];
      WithStart(e, 0, ks[0], Repeat(s, multiset(ks[1..])[ks[0]]) + Content(d, ks[0]), ks[j]);
    }
  }

  /** Back to front, one deletion at its line's start for each copy: what is left is the original. */
  lemma {:induction false} DeletionsUndoCopies(d: Doc, e: Doc, ks: seq<nat>, s: string)
    requires HasCopies(d, e, ks, s) && Ordinals(d, ks) && Descending(ks) && s != ""
    ensures DeleteAll(Flatten(e), StartsOf(e, ks), |s|) == Flatten(d)
    ensures WindowsInside(|Flatten(e)|, StartsOf(e, ks), |s|)
    decreases |ks|
  {
    if ks == [] {
      FrameAndContentsDecide(d, e);
    } else {
      hide HasCopies, Proper, SameFrame, Content, Repeat, Flatten, Start;
      TakeOne(d, e, ks, s);
      TakenHasCopies(d, e, ks, s);
      TakenStarts(d, e, ks, s);
      DeletionsUndoCopies(d, OneTaken(d, e, ks, s), ks[1..], s);
    }
  }

  /** And with a deletion too many, less is left. */
  lemma MoreDeletionsTakeMore(d: Doc, e: Doc, ks: seq<nat>, more: seq<nat>, s: string)
    requires HasCopies(d, e, ks, s) && Ordinals(d, ks) && Ordinals(d, more) && s != ""
    requires Descending(ks) && Descending(more) && Repeats(more, ks) && |more| > |ks|
    ensures |DeleteAll(Flatten(e), StartsOf(e, more), |s|)| < |Flatten(d)|
  {
    DeletionsUndoCopies(d, e, ks, s);
    RepeatedStarts(e, more, ks);
    StartsDescend(e, more);
    RepetitionTakesMore(|Flatten(e)|, StartsOf(e, more), StartsOf(e, ks), |s|);
    DeleteAllLength(Flatten(e), StartsOf(e, more), |s|);
    DeleteAllLength(Flatten(e), StartsOf(e, ks), |s|);
  }

  lemma {:induction false} RepeatedStarts(e: Doc, more: seq<nat>, ks: seq<nat>)
    requires Ordinals(e, more) && Ordinals(e, ks) && Repeats(more, ks)
    ensures Repeats(StartsOf(e, more), StartsOf(e, ks))
    decreases |more|
  {
    if more != [] {
      RepeatsStart(more, ks);
      assert StartsOf(e, more)[1..] == StartsOf(e, more[1..]);
      assert StartsOf(e, ks)[1..] == StartsOf(e, ks[1..]);
      if Repeats(more[1..], ks[1..]) {
        RepeatedStarts(e, more[1..], ks[1..]);
      } else {
        RepeatedStarts(e, more[1..], ks);
      }
    }
  }

  lemma StartsDescend(e: Doc, ks: seq<nat>)
    requires Proper(e) && Ordinals(e, ks) && Descending(ks)
    ensures Descending(StartsOf(e, ks))
  {
    StartsIncrease(e);
    forall i, j | 0 <= i <= j < |ks| ensures StartsOf(e, ks)[i] >= StartsOf(e, ks)[j] {
      assert ks[i] >= ks[j] && StartsOf(e, ks)[i] == AllStarts(e)[ks[i]] && StartsOf(e, ks)[j] == AllStarts(e)[ks[j]];
    }
  }

  // ----- the selection the editor keeps -----

  /** A position mapped through an insertion of `n` tokens at `p` ends up after them. */
  function MapPos(pos: nat, p: nat, n: nat): nat {
    if pos < p then pos else pos + n
  }

  function MapRange(r: Range, p: nat, n: nat): Range {
    Range(MapPos(r.from, p, n), MapPos(r.to, p, n))
  }

  /** The range mapped through every insertion of a multi-line indent, in the order they are made. */
  function Mapped(d: Doc, r: Range, ks: seq<nat>, s: string): Range
    requires Ordinals(d, ks)
    decreases |ks|
  {
    if ks == [] then r
    else Mapped(With(d, ks[0], Chars(s) + Content(d, ks[0])), MapRange(r, Start(d, 0, ks[0]), |s|), ks[1..], s)
  }

  lemma {:induction false} WithStartAfter(d: Doc, at: nat, k: nat, c: seq<Token>, i: nat)
    requires k < i < LineCount(d)
    ensures Start(With(d, k, c), at, i) + |Content(d, k)| == Start(d, at, i) + |c|
  {
    if k > 0 {
      WithStartAfter(d.rest, at + |d.lead| + |d.content|, k - 1, c, i - 1);
    } else {
      StartShifts(d.rest, at + |d.lead| + |d.content|, i - 1);
      StartShifts(d.rest, at + |d.lead| + |c|, i - 1);
    }
  }

  /** The range ends just where the line starts, so it does not meet the line, but text put there falls into it. */
  predicate Touches(r: Range, d: Doc, k: nat)
    requires k < LineCount(d)
  {
    r.from < Start(d, 0, k) == r.to
  }

  lemma MappedMeetsItsLine(d: Doc, r: Range, k: nat, s: string)
    requires k < LineCount(d) && Content(d, k) != [] && s != ""
    ensures Meets(MapRange(r, Start(d, 0, k), |s|), With(d, k, Chars(s) + Content(d, k)), k) <==>
            Meets(r, d, k) || Touches(r, d, k)
  {
    WithContent(d, k, Chars(s) + Content(d, k), k);
    WithStart(d, 0, k, Chars(s) + Content(d, k), k);
  }

  lemma MappedMeetsEarlier(d: Doc, r: Range, k: nat, s: string, i: nat)
    requires Proper(d) && i < k < LineCount(d)
    ensures Meets(MapRange(r, Start(d, 0, k), |s|), With(d, k, Chars(s) + Content(d, k)), i) <==> Meets(r, d, i)
  {
    WithContent(d, k, Chars(s) + Content(d, k), i);
    WithStart(d, 0, k, Chars(s) + Content(d, k), i);
    LinesAreOrdered(d, 0, i);
  }

  lemma MappedMeetsLater(d: Doc, r: Range, k: nat, s: string, i: nat)
    requires Proper(d) && k < i < LineCount(d)
    ensures Meets(MapRange(r, Start(d, 0, k), |s|), With(d, k, Chars(s) + Content(d, k)), i) <==> Meets(r, d, i)
  {
    WithContent(d, k, Chars(s) + Content(d, k), i);
    WithStartAfter(d, 0, k, Chars(s) + Content(d, k), i);
    LinesAreOrdered(d, 0, k);
  }

  lemma MappedStepMeets(d: Doc, r: Range, k: nat, s: string, i: nat)
    requires Proper(d) && k < LineCount(d) && i < LineCount(d) && Content(d, k) != [] && s != ""
    ensures Meets(MapRange(r, Start(d, 0, k), |s|), With(d, k, Chars(s) + Content(d, k)), i) <==>
            Meets(r, d, i) || (i == k && Touches(r, d, k))
  {
    hide Meets, Touches, Start, With, Proper;
    if i < k {
      MappedMeetsEarlier(d, r, k, s, i);
    } else if i == k {
      MappedMeetsItsLine(d, r, k, s);
    } else {
      MappedMeetsLater(d, r, k, s, i);
    }
  }

  lemma MappedStepTouches(d: Doc, r: Range, k: nat, s: string, i: nat)
    requires Proper(d) && i <= k < LineCount(d) && s != ""
    ensures Touches(MapRange(r, Start(d, 0, k), |s|), With(d, k, Chars(s) + Content(d, k)), i) <==>
            i < k && Touches(r, d, i)
  {
    WithStart(d, 0, k, Chars(s) + Content(d, k), i);
    if i < k {
      LinesAreOrdered(d, 0, i);
    }
  }

  predicate NoneEmpty(d: Doc, ks: seq<nat>)
    requires Ordinals(d, ks)
  {
    forall j | 0 <= j < |ks| :: Content(d, ks[j]) != []
  }

  lemma NoneEmptied(d: Doc, ks: seq<nat>, s: string)
    requires Proper(d) && Ordinals(d, ks) && NoneEmpty(d, ks) && ks != []
    ensures var d' := With(d, ks[0], Chars(s) + Content(d, ks[0])); Proper(d') && NoneEmpty(d', ks[1..])
  {
    PrefixedIsInline(d, ks[0], s);
    WithKeepsProper(d, ks[0], Chars(s) + Content(d, ks[0]));
    forall j | 0 < j < |ks| ensures Content(With(d, ks[0], Chars(s) + Content(d, ks[0])), ks[j]) != [] {
      WithContent(d, ks[0], Chars(s) + Content(d, ks[0]), ks[j]);
    }
  }

  /** Mapped with the document, a range meets the lines it met, those it touched where text went in, and no others. */
  lemma {:induction false} MappedMeets(d: Doc, r: Range, ks: seq<nat>, s: string, i: nat)
    requires Proper(d) && Ordinals(d, ks) && Descending(ks) && NoneEmpty(d, ks) && s != "" && i < LineCount(d)
    ensures LineCount(Indented(d, ks, s)) == LineCount(d)
    ensures Meets(Mapped(d, r, ks, s), Indented(d, ks, s), i) <==> Meets(r, d, i) || (i in ks && Touches(r, d, i))
    decreases |ks|
  {
    if ks != [] {
      var k := ks[0];
      var d', r' := With(d, k, Chars(s) + Content(d, k)), MapRange(r, Start(d, 0, k), |s|);
      NoneEmptied(d, ks, s);
      MappedStepMeets(d, r, k, s, i);
      MappedMeets(d', r', ks[1..], s, i);
      hide Meets, Touches, Proper, NoneEmpty, Start;
      assert ks == [k] + ks[1..];
      if i in ks[1..] {
        assert i <= k;
        MappedStepTouches(d, r, k, s, i);
      }
    }
  }

  // ----- every range of a selection -----

  function MappedAll(d: Doc, ranges: seq<Range>, ks: seq<nat>, s: string): (mapped: seq<Range>)
    requires Ordinals(d, ks)
    ensures |mapped| == |ranges|
  {
    seq(|ranges|, j requires 0 <= j < |ranges| => Mapped(d, ranges[j], ks, s))
  }

  function TouchCount(d: Doc, ranges: seq<Range>, i: nat): nat
    requires i < LineCount(d)
  {
    if ranges == [] then 0
    else TouchCount(d, ranges[..|ranges| - 1], i) + if Touches(ranges[|ranges| - 1], d, i) then 1 else 0
  }

  lemma {:induction false} MappedCounts(d: Doc, ranges: seq<Range>, ks: seq<nat>, s: string, i: nat)
    requires Proper(d) && Ordinals(d, ks) && Descending(ks) && NoneEmpty(d, ks) && s != "" && i < LineCount(d)
    ensures LineCount(Indented(d, ks, s)) == LineCount(d)
    ensures MeetCount(Indented(d, ks, s), MappedAll(d, ranges, ks, s), i)
         == MeetCount(d, ranges, i) + if i in ks then TouchCount(d, ranges, i) else 0
    decreases |ranges|
  {
    MappedMeets(d, Range(0, 0), ks, s, i);
    if ranges != [] {
      var last := |ranges| - 1;
      MappedCounts(d, ranges[..last], ks, s, i);
      MappedMeets(d, ranges[last], ks, s, i);
      assert MappedAll(d, ranges, ks, s)[..last] == MappedAll(d, ranges[..last], ks, s);
    }
  }

  /** No range ends at the start of a line that another one meets. */
  predicate NoneTouches(d: Doc, ranges: seq<Range>) {
    forall k: nat | k < LineCount(d) && IsMet(d, ranges, k) :: forall r | r in ranges :: !Touches(r, d, k)
  }

  lemma {:induction false} TouchCounted(d: Doc, ranges: seq<Range>, k: nat)
    requires k < LineCount(d)
    ensures TouchCount(d, ranges, k) == 0 <==> forall r | r in ranges :: !Touches(r, d, k)
  {
    if ranges != [] {
      var last := |ranges| - 1;
      TouchCounted(d, ranges[..last], k);
      assert ranges == ranges[..last] + [ranges[last]];
    }
  }

  // ----- indent, then outdent -----

  lemma SameFrameSameContext(d: Doc, d': Doc, i: nat, allowed: seq<ContextRule>)
    requires Proper(d) && Proper(d') && SameFrame(d, d') && i < LineCount(d) && i < LineCount(d')
    ensures Allowed(d, i, allowed) <==> Allowed(d', i, allowed)
  {
    LinesAreOrdered(d, 0, i);
    LinesAreOrdered(d', 0, i);
    FrameDecidesContext(d, d', [], i);
  }

  lemma MetIsAnOrdinal(d: Doc, ranges: seq<Range>, k: nat)
    requires k in Met(d, ranges)
    ensures k < LineCount(d)
  {}

  lemma MetHas(d: Doc, ranges: seq<Range>, k: nat)
    requires k < LineCount(d)
    ensures k in Met(d, ranges) <==> MeetCount(d, ranges, k) > 0
  {
    MetCounts(d, ranges, k);
    assert k in Met(d, ranges) <==> k in multiset(Met(d, ranges));
  }

  /** The lines indent has put text on, last first. */
  function IndentedOrdinals(d: Doc, ranges: seq<Range>): (ks: seq<nat>)
    ensures Ordinals(d, ks)
  {
    SortKeepsOrdinals(d, Met(d, ranges));
    SortDescending(Met(d, ranges))
  }

  function AfterIndent(d: Doc, ranges: seq<Range>, s: string): Doc {
    Indented(d, IndentedOrdinals(d, ranges), s)
  }

  /** The selection the editor keeps. */
  function Kept(d: Doc, ranges: seq<Range>, s: string): seq<Range> {
    MappedAll(d, ranges, IndentedOrdinals(d, ranges), s)
  }

  lemma IndentedOrdinalsHave(d: Doc, ranges: seq<Range>, i: nat)
    requires i < LineCount(d)
    ensures multiset(IndentedOrdinals(d, ranges))[i] == MeetCount(d, ranges, i)
    ensures i in IndentedOrdinals(d, ranges) <==> IsMet(d, ranges, i)
  {
    MetCounts(d, ranges, i);
    CountedIsMet(d, ranges, i);
    assert i in IndentedOrdinals(d, ranges) <==> i in multiset(IndentedOrdinals(d, ranges));
  }

  lemma IndentedHasCopies(d: Doc, ranges: seq<Range>, s: string)
    requires Proper(d)
    ensures HasCopies(d, AfterIndent(d, ranges, s), IndentedOrdinals(d, ranges), s)
    ensures Descending(IndentedOrdinals(d, ranges)) && NoneEmpty(d, IndentedOrdinals(d, ranges))
  {
    var ks := IndentedOrdinals(d, ranges);
    SortIsDescending(Met(d, ranges));
    hide Indented, Met, SortDescending, Proper, Content, Repeat, SameFrame;
    IndentedLines(d, ks, s);
    IndentedIsProper(d, ks, s);
    forall j | 0 <= j < |ks| ensures Content(d, ks[j]) != [] {
      assert ks[j] in ks;
      IndentedOrdinalsHave(d, ranges, ks[j]);
      MetIsNotEmpty(d, ranges, ks[j]);
    }
  }

  lemma MetIsNotEmpty(d: Doc, ranges: seq<Range>, k: nat)
    requires k < LineCount(d) && IsMet(d, ranges, k)
    ensures Content(d, k) != []
  {}

  /** After indent each line is met as often as before, and once more for each range that touched it. */
  lemma KeptCounts(d: Doc, ranges: seq<Range>, s: string, i: nat)
    requires Proper(d) && s != "" && i < LineCount(d)
    ensures LineCount(AfterIndent(d, ranges, s)) == LineCount(d)
    ensures MeetCount(AfterIndent(d, ranges, s), Kept(d, ranges, s), i)
         == MeetCount(d, ranges, i) + if IsMet(d, ranges, i) then TouchCount(d, ranges, i) else 0
  {
    IndentedHasCopies(d, ranges, s);
    IndentedOrdinalsHave(d, ranges, i);
    MappedCounts(d, ranges, IndentedOrdinals(d, ranges), s, i);
  }

  lemma MetLineStartsIndented(d: Doc, ranges: seq<Range>, s: string, i: nat)
    requires Proper(d) && s != "" && i < LineCount(d) && IsMet(d, ranges, i)
    ensures LineCount(AfterIndent(d, ranges, s)) == LineCount(d)
    ensures Leaves(Content(AfterIndent(d, ranges, s), i)) == 0 && StartsIndented(Content(AfterIndent(d, ranges, s), i), s)
  {
    var n := MeetCount(d, ranges, i);
    IndentedHasCopies(d, ranges, s);
    IndentedOrdinalsHave(d, ranges, i);
    CountedIsMet(d, ranges, i);
    OneCopyFirst(s, n, Content(d, i));
    ChopPrefix(s, Repeat(s, n - 1) + Content(d, i));
  }

  lemma AfterIndentCounts(d: Doc, ranges: seq<Range>, s: string, i: nat)
    requires Proper(d) && s != "" && i < LineCount(d)
    ensures LineCount(AfterIndent(d, ranges, s)) == LineCount(d)
    ensures multiset(ToStrip(AfterIndent(d, ranges, s), Kept(d, ranges, s), s))[i]
         == MeetCount(d, ranges, i) + if IsMet(d, ranges, i) then TouchCount(d, ranges, i) else 0
  {
    KeptCounts(d, ranges, s, i);
    ToStripCounts(AfterIndent(d, ranges, s), Kept(d, ranges, s), s, i);
    CountedIsMet(d, ranges, i);
    if IsMet(d, ranges, i) {
      MetLineStartsIndented(d, ranges, s, i);
    }
  }

  lemma AfterIndentPoint(d: Doc, ranges: seq<Range>, s: string, k: nat)
    requires Proper(d) && s != "" && k in ToStrip(AfterIndent(d, ranges, s), Kept(d, ranges, s), s)
    ensures k < LineCount(AfterIndent(d, ranges, s))
    ensures Point(AfterIndent(d, ranges, s), k) == Start(AfterIndent(d, ranges, s), 0, k)
  {
    hide AfterIndent, Kept, Start, Content, StartsIndented;
    var d' := AfterIndent(d, ranges, s);
    var ks := ToStrip(d', Kept(d, ranges, s), s);
    IndentedHasCopies(d, ranges, s);
    var j :| 0 <= j < |ks| && ks[j] == k;
    assert k in multiset(ks);
    AfterIndentCounts(d, ranges, s, k);
    CountedIsMet(d, ranges, k);
    MetLineStartsIndented(d, ranges, s, k);
  }

  lemma AfterIndentPoints(d: Doc, ranges: seq<Range>, s: string)
    requires Proper(d) && s != ""
    ensures var d' := AfterIndent(d, ranges, s);
            PointsOf(d', ToStrip(d', Kept(d, ranges, s), s)) == StartsOf(d', ToStrip(d', Kept(d, ranges, s), s))
  {
    hide AfterIndent, Kept, Point, Start;
    var d' := AfterIndent(d, ranges, s);
    var ks := ToStrip(d', Kept(d, ranges, s), s);
    forall j | 0 <= j < |ks| ensures Point(d', ks[j]) == Start(d', 0, ks[j]) {
      assert ks[j] in ks;
      AfterIndentPoint(d, ranges, s, ks[j]);
    }
  }

  function Times(ks: seq<nat>, x: nat): nat {
    multiset(ks)[x]
  }

  /** `more` lists what `ks` lists, at least as often. */
  ghost predicate ListsMore(more: seq<nat>, ks: seq<nat>) {
    forall x: nat :: Times(ks, x) <= Times(more, x) && (Times(more, x) > 0 ==> Times(ks, x) > 0)
  }

  lemma {:induction false} MoreCopies(more: seq<nat>, ks: seq<nat>)
    requires Descending(more) && Descending(ks)
    requires ListsMore(more, ks)
    ensures Repeats(more, ks)
    decreases |more|
  {
    if more == [] {
      SameTimesSameLength(more, ks);
    } else {
      var x := more[0];
      SameFirst(more, ks);
      forall y: nat
        ensures Times(more, y) == Times(more[1..], y) + if y == x then 1 else 0
        ensures Times(ks, y) == Times(ks[1..], y) + if y == x then 1 else 0
      {
        OneFewer(more, y);
        OneFewer(ks, y);
      }
      if Times(more, x) > Times(ks, x) {
        SecondIsSame(more);
        MoreCopies(more[1..], ks);
      } else {
        MoreCopies(more[1..], ks[1..]);
      }
    }
  }

  lemma SameFirst(more: seq<nat>, ks: seq<nat>)
    requires Descending(more) && Descending(ks) && more != []
    requires ListsMore(more, ks)
    ensures ks != [] && ks[0] == more[0]
  {
    assert more[0] in multiset(more) && Times(more, more[0]) > 0;
    assert Times(ks, more[0]) > 0 && more[0] in multiset(ks);
    assert ks[0] in multiset(ks) && Times(ks, ks[0]) > 0;
    assert ks[0] in multiset(more) && ks[0] in more;
  }

  lemma SecondIsSame(more: seq<nat>)
    requires Descending(more) && more != [] && multiset(more)[more[0]] >= 2
    ensures |more| >= 2 && more[1] == more[0]
  {
    OneFewer(more, more[0]);
    assert more[0] in multiset(more[1..]);
    assert more[0] in more[1..];
  }

  lemma {:induction false} RepeatsLength(more: seq<nat>, ks: seq<nat>)
    requires Repeats(more, ks)
    ensures |more| >= |ks| && (|more| == |ks| ==> more == ks)
    decreases |more|
  {
    if more != [] {
      RepeatsStart(more, ks);
      if Repeats(more[1..], ks[1..]) {
        RepeatsLength(more[1..], ks[1..]);
        assert more == [more[0]] + more[1..] && ks == [ks[0]] + ks[1..];
      } else {
        RepeatsLength(more[1..], ks);
      }
    }
  }

  lemma AfterIndentRepeats(d: Doc, ranges: seq<Range>, s: string)
    requires Proper(d) && s != ""
    ensures var more := ToStrip(AfterIndent(d, ranges, s), Kept(d, ranges, s), s);
            var ks := IndentedOrdinals(d, ranges);
            && Ordinals(d, more) && Descending(more) && Repeats(more, ks)
            && (|more| == |ks| <==> NoneTouches(d, ranges)) && (|more| == |ks| ==> more == ks)
  {
    var d' := AfterIndent(d, ranges, s);
    var more, ks := ToStrip(d', Kept(d, ranges, s), s), IndentedOrdinals(d, ranges);
    IndentedHasCopies(d, ranges, s);
    ToStripStartIndented(d', Kept(d, ranges, s), s);
    forall x: nat
      ensures Times(ks, x) <= Times(more, x) && (Times(more, x) > 0 ==> Times(ks, x) > 0)
    {
      CountsOf(d, ranges, s, x);
    }
    MoreCopies(more, ks);
    RepeatsLength(more, ks);
    if |more| == |ks| {
      SameListNoneTouches(d, ranges, s);
    }
    if NoneTouches(d, ranges) {
      NoneTouchesSameLength(d, ranges, s);
    }
  }

  lemma SameListNoneTouches(d: Doc, ranges: seq<Range>, s: string)
    requires Proper(d) && s != ""
    requires ToStrip(AfterIndent(d, ranges, s), Kept(d, ranges, s), s) == IndentedOrdinals(d, ranges)
    ensures NoneTouches(d, ranges)
  {
    hide AfterIndent, Kept, Touches, ToStrip, IndentedOrdinals, IsMet, TouchCount, Times;
    forall k: nat | k < LineCount(d) && IsMet(d, ranges, k) ensures forall r | r in ranges :: !Touches(r, d, k) {
      CountsOf(d, ranges, s, k);
      TouchCounted(d, ranges, k);
    }
  }

  lemma NoneTouchesSameLength(d: Doc, ranges: seq<Range>, s: string)
    requires Proper(d) && s != "" && NoneTouches(d, ranges)
    ensures |ToStrip(AfterIndent(d, ranges, s), Kept(d, ranges, s), s)| == |IndentedOrdinals(d, ranges)|
  {
    hide AfterIndent, Kept, Touches, ToStrip, IndentedOrdinals, IsMet, TouchCount, Times;
    var more, ks := ToStrip(AfterIndent(d, ranges, s), Kept(d, ranges, s), s), IndentedOrdinals(d, ranges);
    forall x: nat ensures Times(more, x) == Times(ks, x) {
      CountsOf(d, ranges, s, x);
      if x < LineCount(d) {
        TouchCounted(d, ranges, x);
      }
    }
    SameTimesSameLength(more, ks);
  }

  lemma CountsOf(d: Doc, ranges: seq<Range>, s: string, x: nat)
    requires Proper(d) && s != ""
    ensures var more := ToStrip(AfterIndent(d, ranges, s), Kept(d, ranges, s), s);
            var ks := IndentedOrdinals(d, ranges);
            && Times(ks, x) <= Times(more, x) && (Times(more, x) > 0 ==> Times(ks, x) > 0)
            && Times(more, x) == Times(ks, x)
               + if x < LineCount(d) && IsMet(d, ranges, x) then TouchCount(d, ranges, x) else 0
  {
    var d' := AfterIndent(d, ranges, s);
    IndentedHasCopies(d, ranges, s);
    if x < LineCount(d) {
      AfterIndentCounts(d, ranges, s, x);
      IndentedOrdinalsHave(d, ranges, x);
      CountedIsMet(d, ranges, x);
    } else {
      NotListed(d', ToStrip(d', Kept(d, ranges, s), s), x);
      NotListed(d, IndentedOrdinals(d, ranges), x);
    }
  }

  lemma NotListed(d: Doc, ks: seq<nat>, x: nat)
    requires Ordinals(d, ks) && x >= LineCount(d)
    ensures multiset(ks)[x] == 0
  {
    assert x !in ks;
    assert x !in multiset(ks);
  }

  lemma SameTimesSameLength(a: seq<nat>, b: seq<nat>)
    requires forall x: nat :: Times(a, x) == Times(b, x)
    ensures |a| == |b|
  {
    forall x: nat ensures multiset(a)[x] == multiset(b)[x] {
      assert Times(a, x) == Times(b, x);
    }
    assert multiset(a) == multiset(b);
    assert |a| == |multiset(a)| && |b| == |multiset(b)|;
  }

  /** Deleting over the kept selection gives the document back exactly when no range touched an indented line. */
  lemma OutdentUndoesIndentExactlyWhen(d: Doc, ranges: seq<Range>, s: string)
    requires Proper(d) && s != ""
    ensures var d' := AfterIndent(d, ranges, s);
            DeleteAll(Flatten(d'), PointsOf(d', ToStrip(d', Kept(d, ranges, s), s)), |s|) == Flatten(d)
            <==> NoneTouches(d, ranges)
  {
    hide AfterIndent, Kept, ToStrip, IndentedOrdinals, NoneTouches, HasCopies;
    var d' := AfterIndent(d, ranges, s);
    var more, ks := ToStrip(d', Kept(d, ranges, s), s), IndentedOrdinals(d, ranges);
    IndentedHasCopies(d, ranges, s);
    AfterIndentPoints(d, ranges, s);
    AfterIndentRepeats(d, ranges, s);
    RepeatsLength(more, ks);
    if |more| > |ks| {
      MoreDeletionsTakeMore(d, d', ks, more, s);
    } else {
      DeletionsUndoCopies(d, d', ks, s);
    }
  }

  lemma KeptIsMetWhereMet(d: Doc, ranges: seq<Range>, s: string, i: nat)
    requires Proper(d) && s != "" && i < LineCount(d)
    ensures LineCount(AfterIndent(d, ranges, s)) == LineCount(d)
    ensures IsMet(AfterIndent(d, ranges, s), Kept(d, ranges, s), i) <==> IsMet(d, ranges, i)
  {
    KeptCounts(d, ranges, s, i);
    CountedIsMet(d, ranges, i);
    CountedIsMet(AfterIndent(d, ranges, s), Kept(d, ranges, s), i);
  }

  /** Indent changes no line's context, so what could be indented can be outdented. */
  lemma KeptIsAllowed(d: Doc, ranges: seq<Range>, s: string, allowed: seq<ContextRule>)
    requires Proper(d) && s != "" && AllAllowed(d, Met(d, ranges), allowed)
    ensures AllAllowed(AfterIndent(d, ranges, s), Met(AfterIndent(d, ranges, s), Kept(d, ranges, s)), allowed)
  {
    hide AfterIndent, Kept, Allowed, IsMet;
    var d' := AfterIndent(d, ranges, s);
    IndentedHasCopies(d, ranges, s);
    forall k | k in Met(d', Kept(d, ranges, s)) ensures Allowed(d', k, allowed) {
      MetIsAnOrdinal(d', Kept(d, ranges, s), k);
      MetHas(d', Kept(d, ranges, s), k);
      CountedIsMet(d', Kept(d, ranges, s), k);
      KeptIsMetWhereMet(d, ranges, s, k);
      CountedIsMet(d, ranges, k);
      MetHas(d, ranges, k);
      SameFrameSameContext(d, d', k, allowed);
    }
  }

  /** There is a line to outdent, and something is still selected. */
  lemma SomethingToOutdent(d: Doc, ranges: seq<Range>, s: string)
    requires Proper(d) && s != "" && Met(d, ranges) != []
    ensures var d' := AfterIndent(d, ranges, s);
            exists i: nat :: i < LineCount(d') && IsMet(d', Kept(d, ranges, s), i) && StartsIndented(Content(d', i), s)
    ensures Selects(AfterIndent(d, ranges, s), Span(Kept(d, ranges, s)))
  {
    hide AfterIndent, Kept, StartsIndented;
    var d', i := AfterIndent(d, ranges, s), Met(d, ranges)[0];
    MetHas(d, ranges, i);
    CountedIsMet(d, ranges, i);
    KeptIsMetWhereMet(d, ranges, s, i);
    MetLineStartsIndented(d, ranges, s, i);
    var r :| r in Kept(d, ranges, s) && Meets(r, d', i);
    assert r.from < r.to;
  }

  /**
   Tab, then Shift-Tab with the selection the editor kept: outdent acts, and the document is
   as it was exactly when no range ended at the start of a line that another one met.
   */
  lemma IndentThenOutdent(d: Doc, ranges: seq<Range>, o: Options)
    requires Proper(d) && Selects(d, Span(ranges)) && CanIndent(d, Span(ranges), o)
    ensures var d', sel := AfterIndent(d, ranges, o.indentChars), Span(Kept(d, ranges, o.indentChars));
            && Selects(d', sel) && CanOutdent(d', sel, o)
            && (Deleted(d', sel, o.indentChars) == Flatten(d) <==> NoneTouches(d, ranges))
  {
    hide AfterIndent, Kept, NoneTouches, ToStrip, IsMet, StartsIndented, AllAllowed;
    SomethingToOutdent(d, ranges, o.indentChars);
    KeptIsAllowed(d, ranges, o.indentChars, o.allowed);
    OutdentUndoesIndentExactlyWhen(d, ranges, o.indentChars);
  }

  /** A selection of one range always comes back. */
  lemma OneRangeTouchesNothing(d: Doc, r: Range)
    ensures NoneTouches(d, [r])
  {
    forall k: nat | k < LineCount(d) && IsMet(d, [r], k) ensures forall q | q in [r] :: !Touches(q, d, k) {
      assert Meets(r, d, k);
    }
  }

  // ----- the caret there and back -----

  function Spliced(c: seq<Token>, o: nat, s: string): seq<Token>
    requires o <= |c|
  {
    c[..o] + (Chars(s) + c[o..])
  }

  /** What indent leaves at a caret. */
  lemma InsertInLine(d: Doc, line: nat, offset: nat, s: string)
    requires line < LineCount(d) && offset <= |Content(d, line)|
    ensures Start(d, 0, line) + offset <= |Flatten(d)|
    ensures InsertText(Flatten(d), Start(d, 0, line) + offset, s)
         == Flatten(With(d, line, Spliced(Content(d, line), offset, s)))
  {
    var c := Content(d, line);
    var before, after := WithInPlace(d, 0, line, Spliced(c, offset, s));
    InsertInside(before, c, after, offset, s);
  }

  lemma InsertInside(before: seq<Token>, c: seq<Token>, after: seq<Token>, o: nat, s: string)
    requires o <= |c|
    ensures InsertText(before + (c + after), |before| + o, s) == before + (Spliced(c, o, s) + after)
  {}

  lemma PrefixOnLine(before: seq<Token>, c: seq<Token>, after: seq<Token>, offset: nat)
    requires offset <= |c|
    ensures (before + (c + after))[..|before|] == before
    ensures (before + (c + after))[..|before| + offset] == before + c[..offset]
  {}

  lemma PrefixIsInline(c: seq<Token>, offset: nat)
    requires offset <= |c| && forall t | t in c :: IsInline(t)
    ensures forall t | t in c[..offset] :: IsInline(t)
  {}

  lemma OpenOnLine(before: seq<Token>, c: seq<Token>, offset: nat)
    requires offset <= |c| && forall t | t in c :: IsInline(t)
    ensures OpenAfter([], before + c[..offset]) == OpenAfter([], before)
  {
    hide IsInline, OpenAfter;
    PrefixIsInline(c, offset);
    OpenAfterConcat([], before, c[..offset]);
    InlineOpensNothing(OpenAfter([], before), c[..offset]);
  }

  lemma ContextOnLine(d: Doc, line: nat, offset: nat)
    requires Proper(d) && line < LineCount(d) && offset <= |Content(d, line)|
    ensures Start(d, 0, line) + offset <= |Flatten(d)|
    ensures ContextAt(Flatten(d), Start(d, 0, line) + offset) == ContextAt(Flatten(d), Start(d, 0, line))
  {
    hide IsInline, OpenAfter, InnermostTextblock, Flatten, Start, Content, Proper;
    var c := Content(d, line);
    var before, after := WithInPlace(d, 0, line, c);
    PrefixOnLine(before, c, after, offset);
    LineIsInline(d, line);
    OpenOnLine(before, c, offset);
  }

  /** A caret's context is its line's. */
  lemma CaretContext(d: Doc, line: nat, offset: nat, allowed: seq<ContextRule>)
    requires Proper(d) && line < LineCount(d) && offset <= |Content(d, line)|
    ensures CaretAllowed(d, Cursor(line, offset), allowed) <==> Allowed(d, line, allowed)
  {
    ContextOnLine(d, line, offset);
  }

  lemma ReplacedKeepsContext(d: Doc, line: nat, c: seq<Token>, allowed: seq<ContextRule>)
    requires Proper(d) && line < LineCount(d) && forall t | t in c :: IsInline(t)
    ensures Proper(With(d, line, c)) && (Allowed(d, line, allowed) <==> Allowed(With(d, line, c), line, allowed))
  {
    WithKeepsProper(d, line, c);
    FrameIsReflexive(d);
    WithKeepsFrame(d, line, c, d);
    SameFrameSameContext(d, With(d, line, c), line, allowed);
  }

  lemma SplicedOutdents(d: Doc, line: nat, offset: nat, s: string)
    requires line < LineCount(d) && offset <= |Content(d, line)|
    ensures var d' := With(d, line, Spliced(Content(d, line), offset, s));
            && offset + |s| <= |Content(d', line)|
            && HasTrailing(Content(d', line), offset + |s|, s)
            && With(d', line, CaretStrip(Content(d', line), offset + |s|, s)) == d
  {}

  lemma SplicedLine(d: Doc, line: nat, offset: nat, s: string)
    requires Proper(d) && line < LineCount(d) && offset <= |Content(d, line)|
    ensures offset + |s| <= |Content(With(d, line, Spliced(Content(d, line), offset, s)), line)|
    ensures forall t | t in Spliced(Content(d, line), offset, s) :: IsInline(t)
  {}

  lemma SplicedStaysAllowed(d: Doc, line: nat, offset: nat, s: string, allowed: seq<ContextRule>)
    requires Proper(d) && line < LineCount(d) && offset <= |Content(d, line)|
    requires CaretAllowed(d, Cursor(line, offset), allowed)
    ensures var d' := With(d, line, Spliced(Content(d, line), offset, s));
            && offset + |s| <= |Content(d', line)|
            && CaretAllowed(d', Cursor(line, offset + |s|), allowed)
  {
    hide Spliced, CaretAllowed, Allowed, SameFrame;
    var c' := Spliced(Content(d, line), offset, s);
    SplicedLine(d, line, offset, s);
    CaretContext(d, line, offset, allowed);
    ReplacedKeepsContext(d, line, c', allowed);
    CaretContext(With(d, line, c'), line, offset + |s|, allowed);
  }

  /** Tab at a caret, then Shift-Tab where it left the caret. `InsertInLine` says what Tab leaves. */
  lemma CaretIndentThenOutdent(d: Doc, line: nat, offset: nat, o: Options)
    requires Proper(d) && Selects(d, Cursor(line, offset)) && CanIndent(d, Cursor(line, offset), o)
    ensures var d' := With(d, line, Spliced(Content(d, line), offset, o.indentChars));
            var sel := Cursor(line, offset + |o.indentChars|);
            Selects(d', sel) && CanOutdent(d', sel, o) && Outdented(d', sel, o.indentChars) == d
  {
    hide HasTrailing, HasLeading, CaretStrip, Spliced, CaretAllowed, With, Content, Proper, Met, AllAllowed;
    SplicedOutdents(d, line, offset, o.indentChars);
    SplicedStaysAllowed(d, line, offset, o.indentChars, o.allowed);
  }

  // ----- two ranges on one line -----

  lemma SharedLine(d: Doc)
    requires d == Line([Open("paragraph", true)], Chars("  ab"), Tail([Close]))
    ensures Proper(d) && LineCount(d) == 1 && Start(d, 0, 0) == 1 && EndOf(d, 0) == 5
    ensures Content(d, 0) == Chars("  ab") && StartsIndented(Content(d, 0), "  ") && Point(d, 0) == 1
    ensures Meets(Range(1, 3), d, 0) && Meets(Range(3, 5), d, 0)
  {
    var c := Chars("  ab");
    assert c[0..2] == Chars("  ");
    assert Leaves(c) == 0;
  }

  lemma SharedLineListedTwice(d: Doc)
    requires d == Line([Open("paragraph", true)], Chars("  ab"), Tail([Close]))
    ensures ToStrip(d, [Range(1, 3), Range(3, 5)], "  ") == [0, 0]
  {
    SharedLine(d);
    var ranges := [Range(1, 3), Range(3, 5)];
    assert ranges[..1] == [Range(1, 3)] && [Range(1, 3)][..0] == [];
    assert MetBefore(d, Range(1, 3), 1) == [0] && MetBefore(d, Range(3, 5), 1) == [0];
    assert Met(d, [Range(1, 3)]) == [0] && Met(d, ranges) == [0, 0];
    assert [0, 0][..1] == [0] && [0][..0] == [];
    assert Strippable(d, [0], "  ") == [0] && Strippable(d, [0, 0], "  ") == [0, 0];
    assert [0, 0][1..] == [0] && [0][1..] == [];
    assert SortDescending([0]) == [0] && SortDescending([0, 0]) == [0, 0];
  }

  lemma SharedLineAllowed(d: Doc, allowed: seq<ContextRule>)
    requires d == Line([Open("paragraph", true)], Chars("  ab"), Tail([Close]))
    requires ContextRule("paragraph", "doc") in allowed
    ensures AllAllowed(d, Met(d, [Range(1, 3), Range(3, 5)]), allowed)
  {
    SharedLine(d);
    var open := Token.Open("paragraph", true);
    assert Flatten(d)[..1] == [open];
    assert OpenAfter([], [open]) == [open] by {
      assert [open][1..] == [] && [] + [open] == [open];
    }
    forall k | k in Met(d, [Range(1, 3), Range(3, 5)]) ensures Allowed(d, k, allowed) {
      MetIsAnOrdinal(d, [Range(1, 3), Range(3, 5)], k);
    }
  }

  lemma SharedLineOutdents(d: Doc, o: Options)
    requires d == Line([Open("paragraph", true)], Chars("  ab"), Tail([Close]))
    requires o.enabled && o.indentChars == "  " && ContextRule("paragraph", "doc") in o.allowed
    ensures Selects(d, Span([Range(1, 3), Range(3, 5)])) && CanOutdent(d, Span([Range(1, 3), Range(3, 5)]), o)
  {
    var ranges := [Range(1, 3), Range(3, 5)];
    SharedLine(d);
    SharedLineAllowed(d, o.allowed);
    hide StartsIndented, AllAllowed, Met, Meets, Chars, Content, LineCount;
    assert Range(1, 3) in ranges;
    assert IsMet(d, ranges, 0);
  }

  /** Two ranges on one line: the command deletes twice, and the second time what is not indentation. */
  lemma SharedLineLosesText(d: Doc, o: Options)
    requires d == Line([Open("paragraph", true)], Chars("  ab"), Tail([Close]))
    requires o.enabled && o.indentChars == "  " && ContextRule("paragraph", "doc") in o.allowed
    ensures var sel := Span([Range(1, 3), Range(3, 5)]);
            && Proper(d) && Selects(d, sel) && CanOutdent(d, sel, o)
            && PointsOf(d, ToStrip(d, sel.ranges, "  ")) == [1, 1]
            && Deleted(d, sel, "  ") == [Open("paragraph", true), Close]
  {
    hide DeleteAll, Flatten, StartsIndented, AllAllowed, Met, CanOutdent, Selects, ToStrip, Leaves;
    SharedLine(d);
    SharedLineListedTwice(d);
    SharedLineOutdents(d, o);
    assert PointsOf(d, [0, 0]) == [1, 1];
    TwoCuts(d);
  }

  lemma TwoCuts(d: Doc)
    requires d == Line([Open("paragraph", true)], Chars("  ab"), Tail([Close]))
    ensures DeleteAll(Flatten(d), [1, 1], 2) == [Open("paragraph", true), Close]
  {
    var once := [Open("paragraph", true), Char('a'), Char('b'), Close];
    FirstCut(d);
    assert DeleteAt(once, 1, 2) == [Open("paragraph", true), Close];
    assert [1, 1][1..] == [1] && [1][1..] == [];
  }

  lemma FirstCut(d: Doc)
    requires d == Line([Open("paragraph", true)], Chars("  ab"), Tail([Close]))
    ensures DeleteAt(Flatten(d), 1, 2) == [Open("paragraph", true), Char('a'), Char('b'), Close]
  {
    var c := Chars("  ab");
    assert c == [Char(' '), Char(' '), Char('a'), Char('b')];
    assert Flatten(d) == [Open("paragraph", true)] + (c + [Close]);
  }

  lemma SharedLineMetTwice(d: Doc)
    requires d == Line([Open("paragraph", true)], Chars("  ab"), Tail([Close]))
    ensures MeetCount(d, [Range(1, 3), Range(3, 5)], 0) == 2
  {
    SharedLine(d);
    var ranges := [Range(1, 3), Range(3, 5)];
    assert ranges[..1] == [Range(1, 3)] && [Range(1, 3)][..0] == [];
    assert MeetCount(d, [Range(1, 3)], 0) == 1;
  }

  /** The same selection, and indent puts its characters in twice. */
  lemma SharedLineIndentedTwice(d: Doc, s: string)
    requires d == Line([Open("paragraph", true)], Chars("  ab"), Tail([Close])) && s != ""
    ensures var ranges := [Range(1, 3), Range(3, 5)];
            var ks := SortDescending(Met(d, ranges));
            && Ordinals(d, ks) && LineCount(Indented(d, ks, s)) == 1
            && !IndentedOnce(d, ranges, s, Indented(d, ks, s))
            && Content(Indented(d, ks, s), 0) == Chars(s) + (Chars(s) + Chars("  ab"))
  {
    hide SortDescending, Met, Indented;
    var ranges := [Range(1, 3), Range(3, 5)];
    SharedLine(d);
    SharedLineMetTwice(d);
    OnceExactlyWhen(d, ranges, s);
    IndentedSelection(d, ranges, s);
    assert Repeat(s, 1) == Chars(s) + [];
    assert Repeat(s, 2) == Chars(s) + Chars(s);
  }

  // ----- a range that ends where the next line starts -----

  function TwoLines(): Doc {
    Line([Open("paragraph", true)], Chars("a"), Line([Close, Open("paragraph", true)], Chars("b"), Tail([Close])))
  }

  lemma TwoLinesAre()
    ensures var d := TwoLines();
            && Proper(d) && LineCount(d) == 2 && Start(d, 0, 0) == 1 && EndOf(d, 0) == 2
            && Start(d, 0, 1) == 4 && EndOf(d, 1) == 5
            && Meets(Range(1, 4), d, 0) && Meets(Range(4, 5), d, 1) && Touches(Range(1, 4), d, 1)
  {
    assert forall t | t in Chars("a") + Chars("b") :: IsInline(t);
  }

  lemma TwoLinesTokens()
    ensures var open := Token.Open("paragraph", true);
            && |Flatten(TwoLines())| == 6
            && Flatten(TwoLines())[..1] == [] + ([open] + [])
            && Flatten(TwoLines())[..4] == [open, Char('a'), Close] + ([open] + [])
  {}

  lemma FirstLineIsBalanced()
    ensures Balanced([Token.Open("paragraph", true), Char('a'), Close]) && Balanced([])
  {
    var tokens := [Token.Open("paragraph", true), Char('a'), Close];
    assert Depth(tokens, 0) == 0 && Depth(tokens, 1) == 1 && Depth(tokens, 2) == 1 && Depth(tokens, 3) == 0;
  }

  lemma TwoLinesAllowed(allowed: seq<ContextRule>)
    requires ContextRule("paragraph", "doc") in allowed
    ensures Allowed(TwoLines(), 0, allowed) && Allowed(TwoLines(), 1, allowed)
  {
    var tokens, open := Flatten(TwoLines()), Token.Open("paragraph", true);
    TwoLinesAre();
    TwoLinesTokens();
    FirstLineIsBalanced();
    hide TwoLines, Flatten, Balanced, ContextAt, Start, LineCount;
    TopLevelContext(tokens, 1, [], open, []);
    TopLevelContext(tokens, 4, [open, Char('a'), Close], open, []);
  }

  lemma TwoLinesIndent(d: Doc, ranges: seq<Range>, o: Options)
    requires d == TwoLines() && ranges == [Range(1, 4), Range(4, 5)]
    requires o.enabled && o.indentChars != "" && ContextRule("paragraph", "doc") in o.allowed
    ensures Proper(d) && Selects(d, Span(ranges)) && CanIndent(d, Span(ranges), o) && !NoneTouches(d, ranges)
  {
    hide Met, TwoLines, Allowed, Proper, Meets, Touches, Flatten;
    TwoLinesAre();
    TwoLinesAllowed(o.allowed);
    assert Range(1, 4) in ranges && Range(4, 5) in ranges;
    assert IsMet(d, ranges, 0) && IsMet(d, ranges, 1);
    forall k | k in Met(d, ranges) ensures Allowed(d, k, o.allowed) {
      MetIsAnOrdinal(d, ranges, k);
    }
    CountedIsMet(d, ranges, 0);
    MetHas(d, ranges, 0);
  }

  /** The first range ends where the second line starts, so the text put there falls into it, and outdent takes too much. */
  lemma TouchingRangeLosesText(d: Doc, ranges: seq<Range>, o: Options)
    requires d == TwoLines() && ranges == [Range(1, 4), Range(4, 5)]
    requires o.enabled && o.indentChars != "" && ContextRule("paragraph", "doc") in o.allowed
    ensures Proper(d) && Selects(d, Span(ranges)) && CanIndent(d, Span(ranges), o)
    ensures var d', sel := AfterIndent(d, ranges, o.indentChars), Span(Kept(d, ranges, o.indentChars));
            Selects(d', sel) && CanOutdent(d', sel, o) && Deleted(d', sel, o.indentChars) != Flatten(d)
  {
    hide AfterIndent, Kept, Deleted, CanOutdent, TwoLines, Proper, Flatten, CanIndent, NoneTouches;
    TwoLinesIndent(d, ranges, o);
    IndentThenOutdent(d, ranges, o);
  }

  // ----- a paragraph in a list item -----

  function ListItem(): Doc {
    Line([Open("bulletList", false), Open("listItem", false), Open("paragraph", true)], Chars("  a"),
         Tail([Close, Close, Close]))
  }

  lemma ListItemIs()
    ensures var d := ListItem();
            && Proper(d) && LineCount(d) == 1 && Start(d, 0, 0) == 3 && EndOf(d, 0) == 6 && |Flatten(d)| == 9
            && Content(d, 0) == Chars("  a") && Meets(Range(3, 6), d, 0)
  {}

  lemma ListItemContext(pos: nat)
    requires 3 <= pos <= 6
    ensures |Flatten(ListItem())| == 9 && ContextAt(Flatten(ListItem()), pos) == Some(ContextRule("paragraph", "listItem"))
  {
    var d, inline := ListItem(), Chars("  a")[..pos - 3];
    var list, item, block := Token.Open("bulletList", false), Token.Open("listItem", false), Token.Open("paragraph", true);
    assert Flatten(d) == [list, item, block] + (Chars("  a") + [Close, Close, Close]);
    assert Flatten(d)[..pos] == [list] + ([item] + ([] + ([block] + inline)));
    EnclosedContext(Flatten(d), pos, [list], item, [], block, inline);
  }

  /** Unless the rules name list items, neither command touches one, at a caret or over its whole line. */
  lemma ListItemIsLeftAlone(o: Options, offset: nat)
    requires ContextRule("paragraph", "listItem") !in o.allowed && offset <= 3
    ensures Selects(ListItem(), Cursor(0, offset)) && Selects(ListItem(), Span([Range(3, 6)]))
    ensures !CanIndent(ListItem(), Cursor(0, offset), o) && !CanOutdent(ListItem(), Cursor(0, offset), o)
    ensures !CanIndent(ListItem(), Span([Range(3, 6)]), o) && !CanOutdent(ListItem(), Span([Range(3, 6)]), o)
  {
    var d, ranges := ListItem(), [Range(3, 6)];
    ListItemIs();
    ListItemContext(3);
    ListItemContext(3 + offset);
    hide ListItem, ContextAt, Met, HasTrailing, HasLeading, Meets;
    assert Range(3, 6) in ranges && IsMet(d, ranges, 0);
    CountedIsMet(d, ranges, 0);
    MetHas(d, ranges, 0);
    assert !Allowed(d, 0, o.allowed);
  }

  /** Switched off, or with nothing to put in, neither command does anything. */
  lemma SwitchedOff(d: Doc, sel: Selection, o: Options)
    requires Selects(d, sel) && (!o.enabled || o.indentChars == "")
    ensures !CanIndent(d, sel, o) && !CanOutdent(d, sel, o)
  {}
}
