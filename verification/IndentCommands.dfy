/**
 The indent and outdent commands: which lines a selection meets, whether their contexts
 allow it, and the edits by position, applied back to front.
 */
module IndentCommands {
  import opened Prelude
  import opened IndentDocument

  datatype ContextRule = ContextRule(textblock: string, parent: string)

  datatype Options = Options(indentChars: string, enabled: bool, allowed: seq<ContextRule>)

  datatype Range = Range(from: nat, to: nat)

  datatype IndentLine = IndentLine(text: string, pos: nat)

  // ----- contexts -----

  function Push(open: seq<Token>, t: Token): seq<Token> {
    if t.Open? then open + [t]
    else if t.Close? && open != [] then open[..|open| - 1]
    else open
  }

  /** The blocks open after reading `tokens`, outermost first. */
  function OpenAfter(open: seq<Token>, tokens: seq<Token>): seq<Token>
    decreases |tokens|
  {
    if tokens == [] then open else OpenAfter(Push(open, tokens[0]), tokens[1..])
  }

  function NameOf(t: Token): string {
    if t.Open? then t.name else ""
  }

  /** Innermost textblock among the open blocks, with its parent's name. */
  function InnermostTextblock(open: seq<Token>): Option<ContextRule> {
    if open == [] then None
    else
      var last := |open| - 1;
      if open[last].Open? && open[last].isTextblock
      then Some(ContextRule(open[last].name, if last == 0 then "doc" else NameOf(open[last - 1])))
      else InnermostTextblock(open[..last])
  }

  method IndentContextAtPos(tokens: seq<Token>, pos: nat) returns (ctx: Option<ContextRule>)
    requires pos <= |tokens|
    ensures ctx == ContextAt(tokens, pos)
    ensures ctx.None? <==> forall k: nat | StillOpen(tokens, pos, k) :: !tokens[k].isTextblock
    ensures ctx.Some? ==> exists k: nat :: IsContext(tokens, pos, k, ctx.value)
  {
    hide StillOpen, IsContext;
    ContextExactly(tokens, pos);
    var open := OpenAfter([], tokens[..pos]);
    var d := |open|;
    assert open[..d] == open;
    while d > 0
      invariant 0 <= d <= |open|
      invariant InnermostTextblock(open) == InnermostTextblock(open[..d])
    {
      var node := open[d - 1];
      assert open[..d][..d - 1] == open[..d - 1];
      if node.Open? && node.isTextblock {
        return Some(ContextRule(node.name, if d == 1 then "doc" else NameOf(open[d - 2])));
      }
      d := d - 1;
    }
    assert open[..0] == [];
    return None;
  }

  function ContextAt(tokens: seq<Token>, pos: nat): Option<ContextRule>
    requires pos <= |tokens|
  {
    InnermostTextblock(OpenAfter([], tokens[..pos]))
  }

  predicate IsAllowedAt(tokens: seq<Token>, pos: nat, allowed: seq<ContextRule>)
    requires pos <= |tokens|
  {
    var ctx := ContextAt(tokens, pos);
    ctx.Some? && ctx.value in allowed
  }

  lemma {:induction false} OpenAfterConcat(open: seq<Token>, a: seq<Token>, b: seq<Token>)
    ensures OpenAfter(open, a + b) == OpenAfter(OpenAfter(open, a), b)
    decreases |a|
  {
    if a == [] {
      assert a + b == b;
    } else {
      assert (a + b)[1..] == a[1..] + b;
      OpenAfterConcat(Push(open, a[0]), a[1..], b);
    }
  }

  lemma {:induction false} InlineOpensNothing(open: seq<Token>, tokens: seq<Token>)
    requires forall t | t in tokens :: IsInline(t)
    ensures OpenAfter(open, tokens) == open
    decreases |tokens|
  {
    if tokens != [] {
      assert IsInline(tokens[0]);
      InlineOpensNothing(open, tokens[1..]);
    }
  }

  /** A line's context depends on the boundaries before it, not on what any line holds. */
  lemma {:induction false} FrameDecidesContext(d: Doc, d': Doc, open: seq<Token>, i: nat)
    requires Proper(d) && Proper(d') && SameFrame(d, d') && i < LineCount(d) && i < LineCount(d')
    requires Start(d, 0, i) <= |Flatten(d)| && Start(d', 0, i) <= |Flatten(d')|
    ensures OpenAfter(open, Flatten(d)[..Start(d, 0, i)]) == OpenAfter(open, Flatten(d')[..Start(d', 0, i)])
  {
    if i == 0 {
      assert Flatten(d)[..|d.lead|] == d.lead == Flatten(d')[..|d.lead|];
    } else {
      OpenAfterLine(d, open, i);
      OpenAfterLine(d', open, i);
      FrameDecidesContext(d.rest, d'.rest, OpenAfter(open, d.lead), i - 1);
    }
  }

  lemma StartShifts(d: Doc, at: nat, i: nat)
    requires i < LineCount(d)
    ensures Start(d, at, i) == at + Start(d, 0, i)
  {}

  lemma OpenAfterLine(d: Doc, open: seq<Token>, i: nat)
    requires Proper(d) && 0 < i < LineCount(d) && Start(d, 0, i) <= |Flatten(d)|
    ensures Start(d.rest, 0, i - 1) <= |Flatten(d.rest)|
    ensures OpenAfter(open, Flatten(d)[..Start(d, 0, i)])
         == OpenAfter(OpenAfter(open, d.lead), Flatten(d.rest)[..Start(d.rest, 0, i - 1)])
  {
    StartShifts(d.rest, |d.lead| + |d.content|, i - 1);
    var k := Start(d.rest, 0, i - 1);
    assert Flatten(d)[..Start(d, 0, i)] == d.lead + (d.content + Flatten(d.rest)[..k]);
    OpenAfterConcat(open, d.lead, d.content + Flatten(d.rest)[..k]);
    OpenAfterConcat(OpenAfter(open, d.lead), d.content, Flatten(d.rest)[..k]);
    InlineOpensNothing(OpenAfter(open, d.lead), d.content);
  }

  // ----- which context that is -----

  /** Blocks opened less blocks closed by the first `n` tokens. */
  function Depth(tokens: seq<Token>, n: nat): int
    requires n <= |tokens|
  {
    if n == 0 then 0
    else Depth(tokens, n - 1) + if tokens[n - 1].Open? then 1 else if tokens[n - 1].Close? then -1 else 0
  }

  /** The block that token `k` opens is not closed before position `pos`. */
  predicate StillOpen(tokens: seq<Token>, pos: nat, k: nat)
    requires pos <= |tokens|
  {
    && k < pos && tokens[k].Open?
    && forall m: nat | k < m <= pos :: Depth(tokens, m) > Depth(tokens, k)
  }

  predicate Balanced(tokens: seq<Token>) {
    Depth(tokens, |tokens|) == 0 && forall m: nat | m <= |tokens| :: Depth(tokens, m) >= 0
  }

  /** Where the blocks were opened that are still open at `pos`. */
  function OpenPlaces(tokens: seq<Token>, pos: nat): seq<nat>
    requires pos <= |tokens|
  {
    if pos == 0 then []
    else
      var before, last := OpenPlaces(tokens, pos - 1), tokens[pos - 1];
      if last.Open? then before + [pos - 1]
      else if last.Close? && before != [] then before[..|before| - 1]
      else before
  }

  ghost predicate PlacesHold(tokens: seq<Token>, pos: nat, places: seq<nat>)
    requires pos <= |tokens|
  {
    && (forall i | 0 <= i < |places| ::
          && StillOpen(tokens, pos, places[i])
          && Depth(tokens, pos) - Depth(tokens, places[i]) == |places| - i)
    && (forall i, j | 0 <= i < j < |places| :: places[i] < places[j])
    && (forall k: nat | StillOpen(tokens, pos, k) :: k in places)
  }

  lemma StillOpenNext(tokens: seq<Token>, pos: nat)
    requires 0 < pos <= |tokens|
    ensures forall k: nat | k < pos - 1 ::
              StillOpen(tokens, pos, k) <==> StillOpen(tokens, pos - 1, k) && Depth(tokens, pos) > Depth(tokens, k)
    ensures StillOpen(tokens, pos, pos - 1) <==> tokens[pos - 1].Open?
  {}

  lemma OpenedPlaces(tokens: seq<Token>, pos: nat, places: seq<nat>)
    requires 0 < pos <= |tokens| && PlacesHold(tokens, pos - 1, places) && tokens[pos - 1].Open?
    ensures PlacesHold(tokens, pos, places + [pos - 1])
  {
    StillOpenNext(tokens, pos);
    assert Depth(tokens, pos) == Depth(tokens, pos - 1) + 1;
    assert forall i | 0 <= i < |places| :: StillOpen(tokens, pos - 1, places[i]) && places[i] < pos - 1;
    var more := places + [pos - 1];
    hide StillOpen, Depth;
    forall k: nat | StillOpen(tokens, pos, k) ensures k in more {
      StillOpenIsBefore(tokens, pos, k);
      if k == pos - 1 {
        assert more[|places|] == k;
      } else {
        var i :| 0 <= i < |places| && places[i] == k;
        assert more[i] == k;
      }
    }
  }

  lemma StillOpenIsBefore(tokens: seq<Token>, pos: nat, k: nat)
    requires pos <= |tokens| && StillOpen(tokens, pos, k)
    ensures k < pos && tokens[k].Open?
  {}

  lemma ClosedPlaces(tokens: seq<Token>, pos: nat, places: seq<nat>)
    requires 0 < pos <= |tokens| && PlacesHold(tokens, pos - 1, places) && tokens[pos - 1].Close?
    ensures PlacesHold(tokens, pos, if places == [] then [] else places[..|places| - 1])
  {
    StillOpenNext(tokens, pos);
    assert Depth(tokens, pos) == Depth(tokens, pos - 1) - 1;
    assert forall i | 0 <= i < |places| :: StillOpen(tokens, pos - 1, places[i]) && places[i] < pos - 1;
    hide StillOpen, Depth;
    if places != [] {
      var left := places[..|places| - 1];
      forall i | 0 <= i < |left|
        ensures StillOpen(tokens, pos, left[i]) && Depth(tokens, pos) - Depth(tokens, left[i]) == |left| - i
      {
        assert left[i] == places[i];
      }
      forall k: nat | StillOpen(tokens, pos, k) ensures k in left {
        StillOpenIsBefore(tokens, pos, k);
        LastIsClosed(tokens, pos, places, k);
      }
    } else {
      forall k: nat | StillOpen(tokens, pos, k) ensures k in places {
        StillOpenIsBefore(tokens, pos, k);
      }
    }
  }

  lemma LastIsClosed(tokens: seq<Token>, pos: nat, places: seq<nat>, k: nat)
    requires 0 < pos <= |tokens| && PlacesHold(tokens, pos - 1, places) && tokens[pos - 1].Close?
    requires StillOpen(tokens, pos, k) && places != []
    ensures k in places[..|places| - 1]
  {
    StillOpenNext(tokens, pos);
    assert Depth(tokens, pos) == Depth(tokens, pos - 1) - 1;
    assert Depth(tokens, pos) > Depth(tokens, k) && StillOpen(tokens, pos - 1, k);
    hide StillOpen, Depth;
    var i :| 0 <= i < |places| && places[i] == k;
    assert places[..|places| - 1][i] == k;
  }

  lemma SamePlaces(tokens: seq<Token>, pos: nat, places: seq<nat>)
    requires 0 < pos <= |tokens| && PlacesHold(tokens, pos - 1, places) && !tokens[pos - 1].Open? && !tokens[pos - 1].Close?
    ensures PlacesHold(tokens, pos, places)
  {
    StillOpenNext(tokens, pos);
    assert Depth(tokens, pos) == Depth(tokens, pos - 1);
    assert forall i | 0 <= i < |places| :: StillOpen(tokens, pos - 1, places[i]) && places[i] < pos - 1;
    hide StillOpen, Depth;
    forall k: nat | StillOpen(tokens, pos, k) ensures k in places {
      StillOpenIsBefore(tokens, pos, k);
    }
  }

  lemma {:induction false} PlacesAreOpen(tokens: seq<Token>, pos: nat)
    requires pos <= |tokens|
    ensures PlacesHold(tokens, pos, OpenPlaces(tokens, pos))
  {
    if pos > 0 {
      PlacesAreOpen(tokens, pos - 1);
      hide PlacesHold;
      var places := OpenPlaces(tokens, pos - 1);
      if tokens[pos - 1].Open? {
        OpenedPlaces(tokens, pos, places);
      } else if tokens[pos - 1].Close? {
        ClosedPlaces(tokens, pos, places);
      } else {
        SamePlaces(tokens, pos, places);
      }
    }
  }

  lemma {:induction false} StackIsAtPlaces(tokens: seq<Token>, pos: nat)
    requires pos <= |tokens|
    ensures |OpenAfter([], tokens[..pos])| == |OpenPlaces(tokens, pos)|
    ensures forall i | 0 <= i < |OpenPlaces(tokens, pos)| ::
              && OpenPlaces(tokens, pos)[i] < pos
              && OpenAfter([], tokens[..pos])[i] == tokens[OpenPlaces(tokens, pos)[i]]
  {
    if pos > 0 {
      StackIsAtPlaces(tokens, pos - 1);
      OneTokenOn([], tokens, pos - 1);
    }
  }

  lemma OneTokenOn(open: seq<Token>, tokens: seq<Token>, n: nat)
    requires n < |tokens|
    ensures OpenAfter(open, tokens[..n + 1]) == Push(OpenAfter(open, tokens[..n]), tokens[n])
  {
    OpenAfterConcat(open, tokens[..n], [tokens[n]]);
    assert tokens[..n] + [tokens[n]] == tokens[..n + 1];
    assert [tokens[n]][1..] == [];
  }

  lemma {:induction false} NoneInnermost(open: seq<Token>)
    requires forall i | 0 <= i < |open| :: open[i].Open?
    ensures InnermostTextblock(open).None? <==> forall i | 0 <= i < |open| :: !open[i].isTextblock
  {
    if open != [] {
      NoneInnermost(open[..|open| - 1]);
    }
  }

  lemma {:induction false} InnermostIs(open: seq<Token>) returns (i: nat)
    requires (forall i | 0 <= i < |open| :: open[i].Open?) && InnermostTextblock(open).Some?
    ensures i < |open| && open[i].isTextblock && forall j | i < j < |open| :: !open[j].isTextblock
    ensures InnermostTextblock(open) == Some(ContextRule(open[i].name, if i == 0 then "doc" else open[i - 1].name))
  {
    var last := |open| - 1;
    if open[last].isTextblock {
      i := last;
    } else {
      i := InnermostIs(open[..last]);
    }
  }

  /** The textblock opened at `k` is the innermost one still open; its parent is the block just around it, or the document. */
  ghost predicate IsContext(tokens: seq<Token>, pos: nat, k: nat, ctx: ContextRule)
    requires pos <= |tokens|
  {
    && StillOpen(tokens, pos, k) && tokens[k].isTextblock && ctx.textblock == tokens[k].name
    && (forall m: nat | k < m && StillOpen(tokens, pos, m) :: !tokens[m].isTextblock)
    && (|| (ctx.parent == "doc" && forall j: nat | StillOpen(tokens, pos, j) :: j >= k)
        || exists j: nat :: IsAround(tokens, pos, j, k) && ctx.parent == tokens[j].name)
  }

  /** The block opened at `j` is the innermost one around the one opened at `k`. */
  predicate IsAround(tokens: seq<Token>, pos: nat, j: nat, k: nat)
    requires pos <= |tokens|
  {
    j < k && StillOpen(tokens, pos, j) && forall m: nat | j < m < k :: !StillOpen(tokens, pos, m)
  }

  /** There is a context exactly when some textblock is still open, and it is that of the innermost one. */
  lemma ContextExactly(tokens: seq<Token>, pos: nat)
    requires pos <= |tokens|
    ensures var ctx := ContextAt(tokens, pos);
            && (ctx.None? <==> forall k: nat | StillOpen(tokens, pos, k) :: !tokens[k].isTextblock)
            && (ctx.Some? ==> exists k: nat :: IsContext(tokens, pos, k, ctx.value))
  {
    var open, places := OpenAfter([], tokens[..pos]), OpenPlaces(tokens, pos);
    StackIsAtPlaces(tokens, pos);
    PlacesAreOpen(tokens, pos);
    hide OpenPlaces, OpenAfter, InnermostTextblock, IsContext, Depth;
    assert forall i | 0 <= i < |open| :: StillOpen(tokens, pos, places[i]) && open[i] == tokens[places[i]];
    NoneInnermost(open);
    hide StillOpen;
    if ContextAt(tokens, pos).Some? {
      var i := InnermostIs(open);
      PlaceIsContext(tokens, pos, open, places, i);
    }
  }

  lemma PlaceIsContext(tokens: seq<Token>, pos: nat, open: seq<Token>, places: seq<nat>, i: nat)
    requires pos <= |tokens| && PlacesHold(tokens, pos, places) && |open| == |places| && i < |open|
    requires forall j | 0 <= j < |places| :: places[j] < |tokens| && open[j] == tokens[places[j]] && open[j].Open?
    requires open[i].isTextblock && forall j | i < j < |open| :: !open[j].isTextblock
    ensures IsContext(tokens, pos, places[i], ContextRule(open[i].name, if i == 0 then "doc" else open[i - 1].name))
  {
    assert forall k: nat | StillOpen(tokens, pos, k) :: k < |tokens| && tokens[k].Open?;
    hide StillOpen, Depth;
    var k := places[i];
    if i > 0 {
      assert IsAround(tokens, pos, places[i - 1], k);
    }
  }

  lemma {:induction false} StaysAbove(open: seq<Token>, tokens: seq<Token>, n: nat)
    requires n <= |tokens| && forall m: nat | m <= n :: Depth(tokens, m) >= 0
    ensures |OpenAfter(open, tokens[..n])| == |open| + Depth(tokens, n) && OpenAfter(open, tokens[..n])[..|open|] == open
  {
    if n > 0 {
      StaysAbove(open, tokens, n - 1);
      OneTokenOn(open, tokens, n - 1);
    }
  }

  lemma BalancedOpensNothing(open: seq<Token>, tokens: seq<Token>)
    requires Balanced(tokens)
    ensures OpenAfter(open, tokens) == open
  {
    StaysAbove(open, tokens, |tokens|);
    assert tokens[..|tokens|] == tokens;
    var after := OpenAfter(open, tokens);
    assert after[..|open|] == after;
  }

  lemma AfterOpening(open: seq<Token>, tokens: seq<Token>, t: Token, more: seq<Token>)
    requires t.Open?
    ensures OpenAfter(open, tokens + ([t] + more)) == OpenAfter(OpenAfter(open, tokens) + [t], more)
  {
    OpenAfterConcat(open, tokens, [t] + more);
    assert ([t] + more)[1..] == more;
  }

  /** Inside a textblock that stands in some block, whatever stands before it there: that textblock and that block. */
  lemma EnclosedContext(tokens: seq<Token>, pos: nat, before: seq<Token>, parent: Token, mid: seq<Token>,
                        block: Token, inline: seq<Token>)
    requires pos <= |tokens| && tokens[..pos] == before + ([parent] + (mid + ([block] + inline)))
    requires parent.Open? && Balanced(mid) && block.Open? && block.isTextblock && forall t | t in inline :: IsInline(t)
    ensures ContextAt(tokens, pos) == Some(ContextRule(block.name, parent.name))
  {
    hide Balanced, OpenAfter;
    var open := OpenAfter([], before);
    AfterOpening([], before, parent, mid + ([block] + inline));
    AfterOpening(open + [parent], mid, block, inline);
    BalancedOpensNothing(open + [parent], mid);
    InlineOpensNothing((open + [parent]) + [block], inline);
  }

  /** Inside one that nothing encloses: that textblock and the document. */
  lemma TopLevelContext(tokens: seq<Token>, pos: nat, mid: seq<Token>, block: Token, inline: seq<Token>)
    requires pos <= |tokens| && tokens[..pos] == mid + ([block] + inline)
    requires Balanced(mid) && block.Open? && block.isTextblock && forall t | t in inline :: IsInline(t)
    ensures ContextAt(tokens, pos) == Some(ContextRule(block.name, "doc"))
  {
    hide Balanced, OpenAfter;
    AfterOpening([], mid, block, inline);
    BalancedOpensNothing([], mid);
    InlineOpensNothing([] + [block], inline);
  }

  // ----- the lines a selection meets -----

  /** Some position of the line is selected; sharing only an end with the range is not enough. */
  predicate Meets(r: Range, d: Doc, i: nat)
    requires i < LineCount(d)
  {
    Max(r.from, Start(d, 0, i)) < Min(r.to, EndOf(d, i))
  }

  function Max(a: int, b: int): int { if a < b then b else a }

  function Min(a: int, b: int): int { if a < b then a else b }

  predicate Ordinals(d: Doc, met: seq<nat>) {
    forall j | 0 <= j < |met| :: met[j] < LineCount(d)
  }

  /** The lines before the n-th that the range meets, in document order. */
  function MetBefore(d: Doc, r: Range, n: nat): (met: seq<nat>)
    requires n <= LineCount(d)
    ensures Ordinals(d, met)
  {
    if n == 0 then []
    else if Meets(r, d, n - 1) then MetBefore(d, r, n - 1) + [n - 1]
    else MetBefore(d, r, n - 1)
  }

  /** What each range meets, range after range. */
  function Met(d: Doc, ranges: seq<Range>): (met: seq<nat>)
    ensures Ordinals(d, met)
  {
    if ranges == [] then []
    else Met(d, ranges[..|ranges| - 1]) + MetBefore(d, ranges[|ranges| - 1], LineCount(d))
  }

  /** How many of the ranges meet the i-th line. */
  function MeetCount(d: Doc, ranges: seq<Range>, i: nat): nat
    requires i < LineCount(d)
  {
    if ranges == [] then 0
    else MeetCount(d, ranges[..|ranges| - 1], i) + (if Meets(ranges[|ranges| - 1], d, i) then 1 else 0)
  }

  lemma {:induction false} MetBeforeCounts(d: Doc, r: Range, n: nat, k: nat)
    requires n <= LineCount(d) && k < LineCount(d)
    ensures multiset(MetBefore(d, r, n))[k] == if k < n && Meets(r, d, k) then 1 else 0
  {
    if n > 0 {
      MetBeforeCounts(d, r, n - 1, k);
    }
  }

  /** A line is listed once for every range that meets it. */
  lemma {:induction false} MetCounts(d: Doc, ranges: seq<Range>, k: nat)
    requires k < LineCount(d)
    ensures multiset(Met(d, ranges))[k] == MeetCount(d, ranges, k)
  {
    if ranges != [] {
      MetCounts(d, ranges[..|ranges| - 1], k);
      MetBeforeCounts(d, ranges[|ranges| - 1], LineCount(d), k);
    }
  }

  function LinesAt(d: Doc, met: seq<nat>): (lines: seq<IndentLine>)
    requires Ordinals(d, met)
  {
    seq(|met|, j requires 0 <= j < |met| => IndentLine(TextOf(Content(d, met[j])), Start(d, 0, met[j])))
  }

  lemma LinesAtConcat(d: Doc, a: seq<nat>, b: seq<nat>)
    requires Ordinals(d, a) && Ordinals(d, b)
    ensures Ordinals(d, a + b) && LinesAt(d, a + b) == LinesAt(d, a) + LinesAt(d, b)
  {}

  /** The i-th line sits in an allowed context, judged at its content start. */
  predicate Allowed(d: Doc, i: nat, allowed: seq<ContextRule>) {
    i < LineCount(d) && Start(d, 0, i) <= |Flatten(d)| && IsAllowedAt(Flatten(d), Start(d, 0, i), allowed)
  }

  predicate AllAllowed(d: Doc, met: seq<nat>, allowed: seq<ContextRule>) {
    forall k | k in met :: Allowed(d, k, allowed)
  }

  method LineIfAllowed(d: Doc, i: nat, allowed: seq<ContextRule>) returns (line: Option<seq<IndentLine>>)
    requires Proper(d) && i < LineCount(d)
    ensures line.Some? <==> Allowed(d, i, allowed)
    ensures line.Some? ==> line.value == LinesAt(d, [i])
  {
    LinesAreOrdered(d, 0, i);
    var ctx := IndentContextAtPos(Flatten(d), Start(d, 0, i));
    if ctx.Some? && ctx.value in allowed {
      line := Some([IndentLine(TextOf(Content(d, i)), Start(d, 0, i))]);
    } else {
      line := None;
    }
  }

  lemma {:induction false} OneDisallowedIsEnough(d: Doc, r: Range, n: nat, i: nat, allowed: seq<ContextRule>)
    requires i < n <= LineCount(d) && Meets(r, d, i) && !Allowed(d, i, allowed)
    ensures !AllAllowed(d, MetBefore(d, r, n), allowed)
  {
    MetBeforeCounts(d, r, n, i);
    assert i in multiset(MetBefore(d, r, n));
  }

  lemma NoLines(d: Doc)
    ensures LinesAt(d, []) == []
  {}

  /** The walk over the textblocks in one range, giving up at the first disallowed line. */
  method LinesInRange(d: Doc, r: Range, allowed: seq<ContextRule>) returns (lines: Option<seq<IndentLine>>)
    requires Proper(d)
    ensures lines.Some? <==> AllAllowed(d, MetBefore(d, r, LineCount(d)), allowed)
    ensures lines.Some? ==> lines.value == LinesAt(d, MetBefore(d, r, LineCount(d)))
  {
    hide Allowed, Proper, Start, Content, LinesAt;
    NoLines(d);
    var out: seq<IndentLine> := [];
    for i := 0 to LineCount(d)
      invariant AllAllowed(d, MetBefore(d, r, i), allowed) && out == LinesAt(d, MetBefore(d, r, i))
    {
      if Max(r.from, Start(d, 0, i)) < Min(r.to, EndOf(d, i)) {
        var line := LineIfAllowed(d, i, allowed);
        if line.None? {
          OneDisallowedIsEnough(d, r, LineCount(d), i, allowed);
          return None;
        }
        out := out + line.value;
        LinesAtConcat(d, MetBefore(d, r, i), [i]);
      }
    }
    lines := Some(out);
  }

  lemma {:induction false} PrefixAllowed(d: Doc, ranges: seq<Range>, n: nat, allowed: seq<ContextRule>)
    requires n <= |ranges| && AllAllowed(d, Met(d, ranges), allowed)
    ensures AllAllowed(d, Met(d, ranges[..n]), allowed)
    decreases |ranges|
  {
    if n == |ranges| {
      assert ranges[..n] == ranges;
    } else {
      PrefixAllowed(d, ranges[..|ranges| - 1], n, allowed);
      assert ranges[..|ranges| - 1][..n] == ranges[..n];
    }
  }

  method MultilineLinesIfAllowed(d: Doc, ranges: seq<Range>, allowed: seq<ContextRule>) returns (lines: Option<seq<IndentLine>>)
    requires Proper(d)
    ensures lines.Some? <==> AllAllowed(d, Met(d, ranges), allowed)
    ensures lines.Some? ==> lines.value == LinesAt(d, Met(d, ranges))
  {
    var out: seq<IndentLine> := [];
    for r := 0 to |ranges|
      invariant AllAllowed(d, Met(d, ranges[..r]), allowed) && out == LinesAt(d, Met(d, ranges[..r]))
    {
      assert ranges[..r + 1][..r] == ranges[..r];
      var more := LinesInRange(d, ranges[r], allowed);
      if more.None? {
        if AllAllowed(d, Met(d, ranges), allowed) {
          PrefixAllowed(d, ranges, r + 1, allowed);
        }
        return None;
      }
      out := out + more.value;
      LinesAtConcat(d, Met(d, ranges[..r]), MetBefore(d, ranges[r], LineCount(d)));
    }
    assert ranges[..|ranges|] == ranges;
    lines := Some(out);
  }

  // ----- edits back to front -----

  predicate Descending(ps: seq<nat>) {
    forall i, j | 0 <= i <= j < |ps| :: ps[i] >= ps[j]
  }

  function InsertSorted(p: nat, ps: seq<nat>): (r: seq<nat>)
    ensures multiset(r) == multiset(ps) + multiset{p}
    ensures |r| == |ps| + 1
  {
    if ps == [] || p >= ps[0] then [p] + ps
    else
      assert ps == [ps[0]] + ps[1..];
      [ps[0]] + InsertSorted(p, ps[1..])
  }

  /** `sort((a, b) => b - a)`. */
  function SortDescending(ps: seq<nat>): (r: seq<nat>)
    ensures multiset(r) == multiset(ps)
    ensures |r| == |ps|
  {
    if ps == [] then []
    else
      assert ps == [ps[0]] + ps[1..];
      InsertSorted(ps[0], SortDescending(ps[1..]))
  }

  lemma {:induction false} InsertSortedIsDescending(p: nat, ps: seq<nat>)
    requires Descending(ps)
    ensures Descending(InsertSorted(p, ps))
  {
    if ps != [] && p < ps[0] {
      var rest := InsertSorted(p, ps[1..]);
      InsertSortedIsDescending(p, ps[1..]);
      forall j | 0 <= j < |rest| ensures ps[0] >= rest[j] {
        assert rest[j] in multiset(rest);
        assert rest[j] == p || rest[j] in ps[1..];
      }
    }
  }

  lemma {:induction false} SortIsDescending(ps: seq<nat>)
    ensures Descending(SortDescending(ps))
  {
    if ps != [] {
      SortIsDescending(ps[1..]);
      InsertSortedIsDescending(ps[0], SortDescending(ps[1..]));
    }
  }

  /** Every one of `ps` in order, in a document whose tokens are `tokens`. */
  function InsertAll(tokens: seq<Token>, ps: seq<nat>, s: string): seq<Token>
    requires forall p | p in ps :: p <= |tokens|
    decreases |ps|
  {
    if ps == [] then tokens else
      assert ps[0] in ps && forall q | q in ps[1..] :: q in ps;
      InsertAll(InsertText(tokens, ps[0], s), ps[1..], s)
  }

  function StartsOf(d: Doc, ks: seq<nat>): (ps: seq<nat>)
    requires Ordinals(d, ks)
  {
    seq(|ks|, j requires 0 <= j < |ks| => Start(d, 0, ks[j]))
  }

  /** Each of the lines `ks`, in order, with `s` put before its content. */
  function Indented(d: Doc, ks: seq<nat>, s: string): (d': Doc)
    requires Ordinals(d, ks)
    decreases |ks|
  {
    if ks == [] then d else
      Indented(With(d, ks[0], Chars(s) + Content(d, ks[0])), ks[1..], s)
  }

  lemma InsertIsWith(d: Doc, k: nat, s: string)
    requires k < LineCount(d)
    ensures Start(d, 0, k) <= |Flatten(d)|
    ensures InsertText(Flatten(d), Start(d, 0, k), s) == Flatten(With(d, k, Chars(s) + Content(d, k)))
  {
    hide Flatten, With, Start, Content, InsertText, Chars;
    var before, after := WithInPlace(d, 0, k, Chars(s) + Content(d, k));
    InsertInside(before, Content(d, k), after, s);
  }

  lemma InsertInside(before: seq<Token>, c: seq<Token>, after: seq<Token>, s: string)
    ensures InsertText(before + (c + after), |before|, s) == before + ((Chars(s) + c) + after)
  {
    hide Chars;
    var all := before + (c + after);
    assert all[..|before|] == before && all[|before|..] == c + after;
  }

  /** Back to front, the positions computed before any edit are still right when their turn comes. */
  lemma {:induction false} InsertAllIsIndented(d: Doc, ks: seq<nat>, s: string)
    requires Ordinals(d, ks) && Descending(ks)
    requires forall p | p in StartsOf(d, ks) :: p <= |Flatten(d)|
    ensures InsertAll(Flatten(d), StartsOf(d, ks), s) == Flatten(Indented(d, ks, s))
    decreases |ks|
  {
    if ks != [] {
      var d' := With(d, ks[0], Chars(s) + Content(d, ks[0]));
      InsertIsWith(d, ks[0], s);
      forall j | 0 < j < |ks| ensures Start(d', 0, ks[j]) == Start(d, 0, ks[j]) {
        WithStart(d, 0, ks[0], Chars(s) + Content(d, ks[0]), ks[j]);
      }
      assert StartsOf(d, ks)[1..] == StartsOf(d', ks[1..]);
      forall p | p in StartsOf(d', ks[1..]) ensures p <= |Flatten(d')| {
        assert p in StartsOf(d, ks);
      }
      InsertAllIsIndented(d', ks[1..], s);
    }
  }

  function Repeat(s: string, n: nat): seq<Token> {
    if n == 0 then [] else Chars(s) + Repeat(s, n - 1)
  }

  /** Line by line: one copy for each time the line is listed, before all it held, and nothing else. */
  lemma {:induction false} IndentedLines(d: Doc, ks: seq<nat>, s: string)
    requires Ordinals(d, ks)
    ensures SameFrame(d, Indented(d, ks, s)) && LineCount(Indented(d, ks, s)) == LineCount(d)
    ensures forall i: nat | i < LineCount(d) ::
              Content(Indented(d, ks, s), i) == Repeat(s, multiset(ks)[i]) + Content(d, i)
    decreases |ks|
  {
    if ks == [] {
      FrameIsReflexive(d);
    } else {
      hide With, Content, Repeat, SameFrame, Chars;
      var k, rest := ks[0], ks[1..];
      var d' := With(d, k, Chars(s) + Content(d, k));
      IndentedLines(d', rest, s);
      FrameIsReflexive(d);
      WithKeepsFrame(d, k, Chars(s) + Content(d, k), d);
      FrameIsTransitive(d, d', Indented(d', rest, s));
      var others: multiset<nat> := multiset(rest);
      FirstCounts(ks);
      forall i: nat | i < LineCount(d)
        ensures Content(Indented(d, ks, s), i) == Repeat(s, multiset(ks)[i]) + Content(d, i)
      {
        WithContent(d, k, Chars(s) + Content(d, k), i);
        RepeatSlides(s, others[i], Content(d, i));
      }
    }
  }

  lemma FirstCounts(ks: seq<nat>)
    requires ks != []
    ensures forall i: nat :: multiset(ks)[i] == multiset(ks[1..])[i] + if i == ks[0] then 1 else 0
  {
    assert ks == [ks[0]] + ks[1..];
  }

  lemma {:induction false} RepeatSlides(s: string, n: nat, c: seq<Token>)
    ensures Repeat(s, n) + (Chars(s) + c) == Repeat(s, n + 1) + c
  {
    if n > 0 {
      RepeatSlides(s, n - 1, c);
      assert Repeat(s, n) + (Chars(s) + c) == Chars(s) + (Repeat(s, n - 1) + (Chars(s) + c));
      assert Chars(s) + (Repeat(s, n) + c) == Repeat(s, n + 1) + c;
    }
  }

  lemma FrameIsReflexive(d: Doc)
    ensures SameFrame(d, d)
  {}

  lemma FrameIsTransitive(a: Doc, b: Doc, c: Doc)
    requires SameFrame(a, b) && SameFrame(b, c)
    ensures SameFrame(a, c)
  {}

  // ----- sorting positions -----

  predicate Increasing(table: seq<nat>) {
    forall i, j | 0 <= i < j < |table| :: table[i] < table[j]
  }

  predicate Indexes(table: seq<nat>, ks: seq<nat>) {
    forall j | 0 <= j < |ks| :: ks[j] < |table|
  }

  function LookUp(table: seq<nat>, ks: seq<nat>): (ps: seq<nat>)
    requires Indexes(table, ks)
  {
    seq(|ks|, j requires 0 <= j < |ks| => table[ks[j]])
  }

  lemma SortKeepsIndexes(table: seq<nat>, ks: seq<nat>)
    requires Indexes(table, ks)
    ensures Indexes(table, SortDescending(ks))
  {
    forall j | 0 <= j < |ks| ensures SortDescending(ks)[j] < |table| {
      assert SortDescending(ks)[j] in multiset(SortDescending(ks));
    }
  }

  lemma LookUpConcat(table: seq<nat>, a: seq<nat>, b: seq<nat>)
    requires Indexes(table, a) && Indexes(table, b)
    ensures Indexes(table, a + b) && LookUp(table, a + b) == LookUp(table, a) + LookUp(table, b)
  {}

  lemma {:induction false} InsertSortedLooksUp(table: seq<nat>, k: nat, ks: seq<nat>)
    requires Increasing(table) && k < |table| && Indexes(table, ks)
    ensures Indexes(table, InsertSorted(k, ks))
    ensures InsertSorted(table[k], LookUp(table, ks)) == LookUp(table, InsertSorted(k, ks))
  {
    if ks == [] || k >= ks[0] {
      LookUpConcat(table, [k], ks);
      assert LookUp(table, [k]) == [table[k]];
      assert ks == [] || table[k] >= table[ks[0]];
    } else {
      assert table[k] < table[ks[0]] == LookUp(table, ks)[0];
      assert LookUp(table, ks)[1..] == LookUp(table, ks[1..]);
      InsertSortedLooksUp(table, k, ks[1..]);
      assert LookUp(table, [ks[0]]) == [table[ks[0]]];
      LookUpConcat(table, [ks[0]], InsertSorted(k, ks[1..]));
    }
  }

  /** Sorting the positions of some lines is taking the positions of the sorted lines. */
  lemma {:induction false} SortLooksUp(table: seq<nat>, ks: seq<nat>)
    requires Increasing(table) && Indexes(table, ks)
    ensures Indexes(table, SortDescending(ks))
    ensures SortDescending(LookUp(table, ks)) == LookUp(table, SortDescending(ks))
  {
    SortKeepsIndexes(table, ks);
    if ks != [] {
      assert LookUp(table, ks)[1..] == LookUp(table, ks[1..]);
      SortLooksUp(table, ks[1..]);
      InsertSortedLooksUp(table, ks[0], SortDescending(ks[1..]));
    }
  }

  function AllStarts(d: Doc): (table: seq<nat>)
    ensures |table| == LineCount(d)
  {
    seq(LineCount(d), i requires 0 <= i < LineCount(d) => Start(d, 0, i))
  }

  lemma StartsIncrease(d: Doc)
    requires Proper(d)
    ensures Increasing(AllStarts(d))
  {
    forall i, j | 0 <= i < j < LineCount(d) ensures Start(d, 0, i) < Start(d, 0, j) {
      LinesAreOrdered(d, 0, i);
    }
  }

  lemma SortedStarts(d: Doc, ks: seq<nat>)
    requires Proper(d) && Ordinals(d, ks)
    ensures Ordinals(d, SortDescending(ks))
    ensures SortDescending(StartsOf(d, ks)) == StartsOf(d, SortDescending(ks))
  {
    StartsIncrease(d);
    assert StartsOf(d, ks) == LookUp(AllStarts(d), ks);
    SortLooksUp(AllStarts(d), ks);
  }

  // ----- the indent command -----

  /** An empty text selection, any other empty selection, or one with something selected. */
  datatype Selection = Cursor(line: nat, offset: nat) | OtherCaret(pos: nat) | Span(ranges: seq<Range>)

  predicate Selects(d: Doc, sel: Selection) {
    match sel
    case Cursor(line, offset) => line < LineCount(d) && offset <= |Content(d, line)|
    case OtherCaret(pos) => pos <= |Flatten(d)|
    case Span(ranges) => exists r | r in ranges :: r.from < r.to
  }

  function CaretPos(d: Doc, sel: Selection): nat
    requires Selects(d, sel) && !sel.Span?
  {
    if sel.Cursor? then Start(d, 0, sel.line) + sel.offset else sel.pos
  }

  lemma CaretIsInside(d: Doc, sel: Selection)
    requires Proper(d) && Selects(d, sel) && !sel.Span?
    ensures CaretPos(d, sel) <= |Flatten(d)|
  {
    if sel.Cursor? {
      LinesAreOrdered(d, 0, sel.line);
    }
  }

  predicate CaretAllowed(d: Doc, sel: Selection, allowed: seq<ContextRule>)
    requires Selects(d, sel) && !sel.Span?
  {
    CaretPos(d, sel) <= |Flatten(d)| && IsAllowedAt(Flatten(d), CaretPos(d, sel), allowed)
  }

  /** When indent does something: the condition a caller can check beforehand. */
  predicate CanIndent(d: Doc, sel: Selection, o: Options)
    requires Selects(d, sel)
  {
    && o.enabled
    && o.indentChars != ""
    && if sel.Span? then AllAllowed(d, Met(d, sel.ranges), o.allowed) && Met(d, sel.ranges) != []
       else CaretAllowed(d, sel, o.allowed)
  }

  method Indent(d: Doc, sel: Selection, o: Options) returns (handled: bool, tokens: seq<Token>)
    requires Proper(d) && Selects(d, sel)
    ensures handled <==> CanIndent(d, sel, o)
    ensures !handled ==> tokens == Flatten(d)
    ensures handled && sel.Span? ==>
              && Ordinals(d, SortDescending(Met(d, sel.ranges)))
              && tokens == Flatten(Indented(d, SortDescending(Met(d, sel.ranges)), o.indentChars))
    ensures handled && !sel.Span? ==> tokens == InsertText(Flatten(d), CaretPos(d, sel), o.indentChars)
  {
    tokens := Flatten(d);
    if !o.enabled || o.indentChars == "" {
      return false, tokens;
    }
    if !sel.Span? {
      CaretIsInside(d, sel);
      var ctx := IndentContextAtPos(tokens, CaretPos(d, sel));
      if ctx.None? || ctx.value !in o.allowed {
        return false, tokens;
      }
      return true, InsertText(tokens, CaretPos(d, sel), o.indentChars);
    }
    var lines := MultilineLinesIfAllowed(d, sel.ranges, o.allowed);
    if lines.None? || lines.value == [] {
      return false, tokens;
    }
    tokens := IndentLines(d, lines.value, Met(d, sel.ranges), o.indentChars);
    handled := true;
  }

  method InsertEach(before: seq<Token>, positions: seq<nat>, s: string) returns (tokens: seq<Token>)
    requires forall p | p in positions :: p <= |before|
    ensures tokens == InsertAll(before, positions, s)
  {
    tokens := before;
    for i := 0 to |positions|
      invariant |tokens| >= |before| && forall p | p in positions[i..] :: p <= |before|
      invariant InsertAll(tokens, positions[i..], s) == InsertAll(before, positions, s)
    {
      assert positions[i..][0] == positions[i] && positions[i..][1..] == positions[i + 1..];
      assert positions[i] in positions;
      ghost var rest := positions[i + 1..];
      forall p | p in rest ensures p <= |before| {
        assert p in positions;
      }
      tokens := InsertText(tokens, positions[i], s);
    }
  }

  method IndentLines(d: Doc, lines: seq<IndentLine>, ghost met: seq<nat>, s: string) returns (tokens: seq<Token>)
    requires Proper(d) && Ordinals(d, met) && lines == LinesAt(d, met)
    ensures Ordinals(d, SortDescending(met)) && tokens == Flatten(Indented(d, SortDescending(met), s))
  {
    var positions := seq(|lines|, j requires 0 <= j < |lines| => lines[j].pos);
    assert positions == StartsOf(d, met);
    SortedStarts(d, met);
    SortIsDescending(met);
    StartsAreInside(d, SortDescending(met));
    tokens := InsertEach(Flatten(d), SortDescending(positions), s);
    InsertAllIsIndented(d, SortDescending(met), s);
  }

  lemma StartsAreInside(d: Doc, ks: seq<nat>)
    requires Proper(d) && Ordinals(d, ks)
    ensures forall p | p in StartsOf(d, ks) :: p <= |Flatten(d)|
  {
    forall p | p in StartsOf(d, ks) ensures p <= |Flatten(d)| {
      var j :| 0 <= j < |ks| && StartsOf(d, ks)[j] == p;
      LinesAreOrdered(d, 0, ks[j]);
    }
  }

  // ----- what indent does to each line -----

  predicate IsMet(d: Doc, ranges: seq<Range>, i: nat)
    requires i < LineCount(d)
  {
    exists r | r in ranges :: Meets(r, d, i)
  }

  lemma {:induction false} CountedIsMet(d: Doc, ranges: seq<Range>, i: nat)
    requires i < LineCount(d)
    ensures MeetCount(d, ranges, i) > 0 <==> IsMet(d, ranges, i)
  {
    if ranges != [] {
      var last := |ranges| - 1;
      CountedIsMet(d, ranges[..last], i);
      assert ranges == ranges[..last] + [ranges[last]];
    }
  }

  /** A multi-line indent gives each line one copy of `s` for every range that meets it. */
  lemma IndentedSelection(d: Doc, ranges: seq<Range>, s: string)
    ensures Ordinals(d, SortDescending(Met(d, ranges)))
    ensures var d' := Indented(d, SortDescending(Met(d, ranges)), s);
            && SameFrame(d, d') && LineCount(d') == LineCount(d)
            && forall i: nat | i < LineCount(d) ::
                 Content(d', i) == Repeat(s, MeetCount(d, ranges, i)) + Content(d, i)
  {
    var ks := Met(d, ranges);
    SortKeepsOrdinals(d, ks);
    IndentedLines(d, SortDescending(ks), s);
    forall i: nat | i < LineCount(d) ensures multiset(SortDescending(ks))[i] == MeetCount(d, ranges, i) {
      MetCounts(d, ranges, i);
    }
  }

  lemma SortKeepsOrdinals(d: Doc, ks: seq<nat>)
    requires Ordinals(d, ks)
    ensures Ordinals(d, SortDescending(ks))
  {
    SortKeepsIndexes(AllStarts(d), ks);
  }

  /** One copy on every met line and nothing on any other. */
  predicate IndentedOnce(d: Doc, ranges: seq<Range>, s: string, d': Doc) {
    && LineCount(d') == LineCount(d)
    && forall i: nat | i < LineCount(d) ::
         Content(d', i) == (if IsMet(d, ranges, i) then Chars(s) else []) + Content(d, i)
  }

  predicate NoLineTwice(d: Doc, ranges: seq<Range>) {
    forall i: nat | i < LineCount(d) :: MeetCount(d, ranges, i) <= 1
  }

  /** Exactly once per line, exactly when no two ranges meet one line. */
  lemma OnceExactlyWhen(d: Doc, ranges: seq<Range>, s: string)
    requires s != ""
    ensures Ordinals(d, SortDescending(Met(d, ranges)))
    ensures IndentedOnce(d, ranges, s, Indented(d, SortDescending(Met(d, ranges)), s)) <==> NoLineTwice(d, ranges)
  {
    IndentedSelection(d, ranges, s);
    var d' := Indented(d, SortDescending(Met(d, ranges)), s);
    forall i: nat | i < LineCount(d)
      ensures Content(d', i) == (if IsMet(d, ranges, i) then Chars(s) else []) + Content(d, i) <==>
              MeetCount(d, ranges, i) <= 1
    {
      OnceOnLine(d, ranges, s, i, Content(d', i));
    }
  }

  lemma OnceOnLine(d: Doc, ranges: seq<Range>, s: string, i: nat, c: seq<Token>)
    requires s != "" && i < LineCount(d) && c == Repeat(s, MeetCount(d, ranges, i)) + Content(d, i)
    ensures c == (if IsMet(d, ranges, i) then Chars(s) else []) + Content(d, i) <==> MeetCount(d, ranges, i) <= 1
  {}
}
