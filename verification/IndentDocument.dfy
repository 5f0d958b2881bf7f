/**
 An editor document and its positions. A position counts tokens: one for each character,
 each leaf, and each opening or closing boundary of a block.
 */
module IndentDocument {
  /** `Leaf` is an inline node without text, such as a hard break; `Rule` is a block without content. */
  datatype Token = Open(name: string, isTextblock: bool) | Close | Char(c: char) | Leaf | Rule

  /**
   A document cut at its textblocks. `lead` is every boundary up to and including the one
   that opens the textblock; `content` is what the textblock holds. What closes it begins `rest`.
   */
  datatype Doc = Tail(tokens: seq<Token>) | Line(lead: seq<Token>, content: seq<Token>, rest: Doc)

  function Flatten(d: Doc): seq<Token> {
    match d
    case Tail(tokens) => tokens
    case Line(lead, content, rest) => lead + (content + Flatten(rest))
  }

  predicate IsInline(t: Token) {
    t.Char? || t.Leaf?
  }

  /** The cuts are at the textblocks and at nothing else. */
  predicate Proper(d: Doc) {
    match d
    case Tail(tokens) => forall t | t in tokens :: !IsInline(t) && !(t.Open? && t.isTextblock)
    case Line(lead, content, rest) =>
      && lead != []
      && lead[|lead| - 1].Open? && lead[|lead| - 1].isTextblock
      && (forall t | t in lead[..|lead| - 1] :: !IsInline(t) && !(t.Open? && t.isTextblock))
      && (forall t | t in content :: IsInline(t))
      && Closes(rest)
      && Proper(rest)
  }

  predicate Closes(d: Doc) {
    match d
    case Tail(tokens) => tokens != [] && tokens[0] == Close
    case Line(lead, _, _) => lead != [] && lead[0] == Close
  }

  function LineCount(d: Doc): nat {
    if d.Tail? then 0 else 1 + LineCount(d.rest)
  }

  /** Where the i-th textblock's content starts, in a document that begins at `at`. */
  function Start(d: Doc, at: nat, i: nat): nat
    requires i < LineCount(d)
  {
    if i == 0 then at + |d.lead| else Start(d.rest, at + |d.lead| + |d.content|, i - 1)
  }

  function Content(d: Doc, i: nat): seq<Token>
    requires i < LineCount(d)
  {
    if i == 0 then d.content else Content(d.rest, i - 1)
  }

  function EndOf(d: Doc, i: nat): nat
    requires i < LineCount(d)
  {
    Start(d, 0, i) + |Content(d, i)|
  }

  // ----- replacing lines -----

  /** The document with its i-th line holding `c`. */
  function With(d: Doc, i: nat, c: seq<Token>): (d': Doc)
    requires i < LineCount(d)
    ensures LineCount(d') == LineCount(d)
  {
    if i == 0 then d.(content := c) else d.(rest := With(d.rest, i - 1, c))
  }

  lemma {:induction false} WithContent(d: Doc, i: nat, c: seq<Token>, j: nat)
    requires i < LineCount(d) && j < LineCount(d)
    ensures Content(With(d, i, c), j) == if j == i then c else Content(d, j)
  {
    if i > 0 && j > 0 {
      WithContent(d.rest, i - 1, c, j - 1);
    }
  }

  /** Lines up to and including the one replaced start where they did. */
  lemma {:induction false} WithStart(d: Doc, at: nat, i: nat, c: seq<Token>, j: nat)
    requires j <= i < LineCount(d)
    ensures Start(With(d, i, c), at, j) == Start(d, at, j)
  {
    if i > 0 && j > 0 {
      WithStart(d.rest, at + |d.lead| + |d.content|, i - 1, c, j - 1);
    }
  }

  /** Replacing a line's content changes the tokens there and nowhere else. */
  lemma {:induction false} WithInPlace(d: Doc, at: nat, i: nat, c: seq<Token>) returns (before: seq<Token>, after: seq<Token>)
    requires i < LineCount(d)
    ensures at + |before| == Start(d, at, i)
    ensures Flatten(d) == before + (Content(d, i) + after)
    ensures Flatten(With(d, i, c)) == before + (c + after)
    ensures Proper(d) ==> after != [] && after[0] == Close
  {
    if i == 0 {
      before, after := d.lead, Flatten(d.rest);
    } else {
      before, after := WithInPlace(d.rest, at + |d.lead| + |d.content|, i - 1, c);
      Regroup(d.lead, d.content, before, Content(d, i) + after);
      Regroup(d.lead, d.content, before, c + after);
      before := d.lead + d.content + before;
    }
  }

  lemma Regroup(a: seq<Token>, b: seq<Token>, c: seq<Token>, e: seq<Token>)
    ensures a + (b + (c + e)) == (a + b + c) + e
  {}

  /** Same boundaries everywhere; only line contents may differ. */
  predicate SameFrame(d: Doc, d': Doc) {
    match d
    case Tail(tokens) => d' == d
    case Line(lead, _, rest) => d'.Line? && d'.lead == lead && SameFrame(rest, d'.rest)
  }

  lemma {:induction false} WithKeepsFrame(d: Doc, i: nat, c: seq<Token>, d0: Doc)
    requires i < LineCount(d) && SameFrame(d0, d)
    ensures SameFrame(d0, With(d, i, c))
  {
    if i > 0 {
      WithKeepsFrame(d.rest, i - 1, c, d0.rest);
    }
  }

  /** A document is its boundaries and its lines. */
  lemma {:induction false} FrameAndContentsDecide(d: Doc, d': Doc)
    requires SameFrame(d, d') && LineCount(d) == LineCount(d')
    requires forall i | 0 <= i < LineCount(d) :: Content(d, i) == Content(d', i)
    ensures d == d'
  {
    if d.Line? {
      assert Content(d, 0) == Content(d', 0);
      forall i | 0 <= i < LineCount(d.rest) ensures Content(d.rest, i) == Content(d'.rest, i) {
        assert Content(d, i + 1) == Content(d', i + 1);
      }
      FrameAndContentsDecide(d.rest, d'.rest);
    }
  }

  /** Textblocks follow one another without overlapping, inside the document. */
  lemma {:induction false} LinesAreOrdered(d: Doc, at: nat, i: nat)
    requires i < LineCount(d) && Proper(d)
    ensures at < Start(d, at, i) && Start(d, at, i) + |Content(d, i)| < at + |Flatten(d)|
    ensures forall j | i < j < LineCount(d) :: Start(d, at, i) + |Content(d, i)| < Start(d, at, j)
  {
    if i > 0 {
      LinesAreOrdered(d.rest, at + |d.lead| + |d.content|, i - 1);
      forall j | i < j < LineCount(d) ensures Start(d, at, i) + |Content(d, i)| < Start(d, at, j) {
        assert Start(d, at, j) == Start(d.rest, at + |d.lead| + |d.content|, j - 1);
      }
    } else {
      assert Flatten(d.rest) != [];
      forall j | 0 < j < LineCount(d) ensures Start(d, at, 0) + |d.content| < Start(d, at, j) {
        LinesAreOrdered(d.rest, at + |d.lead| + |d.content|, j - 1);
      }
    }
  }

  // ----- text -----

  function Chars(s: string): (r: seq<Token>)
    ensures |r| == |s| && forall i | 0 <= i < |s| :: r[i] == Char(s[i])
  {
    seq(|s|, i requires 0 <= i < |s| => Char(s[i]))
  }

  /** `textBetween` over these tokens: boundaries and leaves contribute nothing. */
  function TextOf(tokens: seq<Token>): (s: string)
    ensures |s| <= |tokens|
  {
    if tokens == [] then ""
    else if tokens[0].Char? then [tokens[0].c] + TextOf(tokens[1..])
    else TextOf(tokens[1..])
  }

  /** As much text as positions leaves room for nothing but characters. */
  lemma {:induction false} FullTextIsAllCharacters(tokens: seq<Token>)
    ensures |TextOf(tokens)| == |tokens| <==> forall t | t in tokens :: t.Char?
    ensures |TextOf(tokens)| == |tokens| <==> tokens == Chars(TextOf(tokens))
  {
    if tokens != [] {
      FullTextIsAllCharacters(tokens[1..]);
      assert tokens == [tokens[0]] + tokens[1..];
    }
  }

  lemma {:induction false} TextOfConcat(a: seq<Token>, b: seq<Token>)
    ensures TextOf(a + b) == TextOf(a) + TextOf(b)
  {
    if a == [] {
      assert a + b == b;
    } else {
      assert (a + b)[1..] == a[1..] + b;
      TextOfConcat(a[1..], b);
    }
  }

  lemma {:induction false} TextOfChars(s: string)
    ensures TextOf(Chars(s)) == s
  {
    if s != "" {
      assert Chars(s)[1..] == Chars(s[1..]);
      TextOfChars(s[1..]);
    }
  }

  // ----- edits by position -----

  function InsertText(tokens: seq<Token>, at: nat, s: string): (r: seq<Token>)
    requires at <= |tokens|
    ensures |r| == |tokens| + |s|
  {
    tokens[..at] + Chars(s) + tokens[at..]
  }

  function Delete(tokens: seq<Token>, from: nat, to: nat): (r: seq<Token>)
    requires from <= to <= |tokens|
    ensures |r| == |tokens| - (to - from)
  {
    tokens[..from] + tokens[to..]
  }
}
