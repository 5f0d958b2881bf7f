/** Plain text of a snapshot's blocks: the walk on an explicit stack, against the recursive one. */
module BlockText {
  import opened Prelude

  /**
   Stored JSON as far as the walk can tell it apart: a record whose `content` is an array and
   whose `text` may be a string, a record without such content, or anything else.
   */
  datatype Json =
    | Block(text: Option<string>, content: seq<Json>)
    | Leaf(text: Option<string>)
    | Other

  function TextOf(n: Json): Option<string> {
    if n.Other? then None else n.text
  }

  predicate HoldsText(children: seq<Json>) {
    exists c | c in children :: TextOf(c).Some?
  }

  /** `children.map(…).join('')`. */
  function TextRun(children: seq<Json>): string {
    if children == [] then ""
    else TextRun(children[..|children| - 1])
         + var text := TextOf(children[|children| - 1]); if text.Some? then text.value else ""
  }

  // ----- the recursive walk -----

  /** One line for each node that has a text child, parents before children, in document order. */
  function Lines(n: Json): seq<string> {
    if !n.Block? then []
    else (if HoldsText(n.content) then [TextRun(n.content)] else []) + LinesOfAll(n.content, |n.content|)
  }

  function LinesOfAll(nodes: seq<Json>, count: nat): seq<string>
    requires count <= |nodes|
    decreases nodes, count
  {
    if count == 0 then [] else LinesOfAll(nodes, count - 1) + Lines(nodes[count - 1])
  }

  function Join(lines: seq<string>, separator: string): string {
    if lines == [] then ""
    else if |lines| == 1 then lines[0]
    else Join(lines[..|lines| - 1], separator) + separator + lines[|lines| - 1]
  }

  /** The texts of the children one after another, in order. */
  lemma {:induction false} TextRunJoins(a: seq<Json>, c: Json, b: seq<Json>)
    ensures TextRun(a + ([c] + b)) == TextRun(a) + ((if !c.Other? && c.text.Some? then c.text.value else "") + TextRun(b))
    decreases |b|
  {
    var text := if !c.Other? && c.text.Some? then c.text.value else "";
    if b == [] {
      assert [c] + b == [c] && (a + [c])[..|a|] == a;
      assert TextRun(a + [c]) == TextRun(a) + text == TextRun(a) + (text + "");
    } else {
      var before, last := b[..|b| - 1], b[|b| - 1];
      var all := a + ([c] + b);
      assert all[..|all| - 1] == a + ([c] + before) && all[|all| - 1] == last;
      TextRunJoins(a, c, before);
      var more := if TextOf(last).Some? then TextOf(last).value else "";
      assert TextRun(all) == (TextRun(a) + (text + TextRun(before))) + more;
      assert TextRun(b) == TextRun(before) + more;
      RegroupText(TextRun(a), text, TextRun(before), more);
    }
  }

  lemma RegroupText(a: string, b: string, c: string, d: string)
    ensures (a + (b + c)) + d == a + (b + (c + d))
  {}

  /** The first line, then the separator and the rest. */
  lemma {:induction false} JoinIs(line: string, rest: seq<string>, separator: string)
    ensures Join([], separator) == ""
    ensures Join([line] + rest, separator) == line + if rest == [] then "" else separator + Join(rest, separator)
  {
    if rest == [] {
      assert [line] + rest == [line];
    } else {
      var before, last := rest[..|rest| - 1], rest[|rest| - 1];
      JoinIs(line, before, separator);
      assert ([line] + rest)[..|rest|] == [line] + before;
      assert Join([line] + rest, separator) == Join([line] + before, separator) + separator + last;
      if before != [] {
        assert Join(rest, separator) == Join(before, separator) + separator + last;
        assert (line + (separator + Join(before, separator))) + separator + last
            == line + (separator + (Join(before, separator) + separator + last));
      } else {
        assert Join(rest, separator) == last;
      }
    }
  }

  /** A node's own line, if some child has text, then its children's, each after those before it. */
  lemma {:induction false} LinesAre(n: Json, k: nat)
    requires n.Block? && k < |n.content|
    ensures Lines(n) == (if exists c | c in n.content :: !c.Other? && c.text.Some? then [TextRun(n.content)] else [])
                        + LinesOfAll(n.content, |n.content|)
    ensures LinesOfAll(n.content, 0) == [] && LinesOfAll(n.content, k + 1) == LinesOfAll(n.content, k) + Lines(n.content[k])
  {}

  // ----- what is still on the stack -----

  /** The lines the nodes on the stack still owe, the last one first. */
  function StackLines(stack: seq<Json>): seq<string> {
    if stack == [] then [] else Lines(stack[|stack| - 1]) + StackLines(stack[..|stack| - 1])
  }

  function Size(n: Json): nat {
    if n.Block? then 1 + SizeOfAll(n.content, |n.content|) else 1
  }

  function SizeOfAll(nodes: seq<Json>, count: nat): nat
    requires count <= |nodes|
    decreases nodes, count
  {
    if count == 0 then 0 else SizeOfAll(nodes, count - 1) + Size(nodes[count - 1])
  }

  function StackSize(stack: seq<Json>): nat {
    if stack == [] then 0 else Size(stack[|stack| - 1]) + StackSize(stack[..|stack| - 1])
  }

  lemma Pushed(stack: seq<Json>, n: Json)
    ensures StackLines(stack + [n]) == Lines(n) + StackLines(stack)
    ensures StackSize(stack + [n]) == Size(n) + StackSize(stack)
  {}

  lemma NotABlock(n: Json)
    requires !n.Block?
    ensures Lines(n) == []
  {}

  lemma Regroup(a: seq<string>, b: seq<string>, c: seq<string>)
    ensures a + (b + c) == (a + b) + c
  {}

  /** Pushing the nodes back to front makes the stack owe their lines front to back, before all it owed. */
  method PushAll(below: seq<Json>, nodes: seq<Json>, onlyBlocks: bool) returns (stack: seq<Json>)
    ensures StackLines(stack) == LinesOfAll(nodes, |nodes|) + StackLines(below)
    ensures StackSize(stack) <= SizeOfAll(nodes, |nodes|) + StackSize(below)
  {
    hide Lines, Size;
    stack := below;
    var i := |nodes|;
    while i > 0
      invariant 0 <= i <= |nodes|
      invariant LinesOfAll(nodes, i) + StackLines(stack) == LinesOfAll(nodes, |nodes|) + StackLines(below)
      invariant SizeOfAll(nodes, i) + StackSize(stack) <= SizeOfAll(nodes, |nodes|) + StackSize(below)
    {
      i := i - 1;
      var child := nodes[i];
      Regroup(LinesOfAll(nodes, i), Lines(child), StackLines(stack));
      if !onlyBlocks || child.Block? {
        Pushed(stack, child);
        stack := stack + [child];
      } else {
        NotABlock(child);
        assert [] + StackLines(stack) == StackLines(stack);
      }
    }
    assert [] + StackLines(stack) == StackLines(stack);
  }

  /** One node popped: its own line, then its children's, before the rest of the stack. */
  method Visit(n: Json, below: seq<Json>) returns (line: seq<string>, stack: seq<Json>)
    ensures line + StackLines(stack) == Lines(n) + StackLines(below)
    ensures StackSize(stack) < Size(n) + StackSize(below)
  {
    if !n.Block? {
      return [], below;
    }
    line := if HoldsText(n.content) then [TextRun(n.content)] else [];
    stack := PushAll(below, n.content, true);
    Regroup(line, LinesOfAll(n.content, |n.content|), StackLines(below));
  }

  /** The walk ends for every tree, whatever its depth, with the recursive walk's lines. */
  method BlockText(nodes: seq<Json>, separator: string) returns (text: string)
    ensures text == Join(LinesOfAll(nodes, |nodes|), separator)
  {
    hide Lines, Size;
    var lines: seq<string> := [];
    var stack := PushAll([], nodes, false);
    assert StackLines([]) == [];
    assert LinesOfAll(nodes, |nodes|) + [] == LinesOfAll(nodes, |nodes|);
    while stack != []
      invariant lines + StackLines(stack) == LinesOfAll(nodes, |nodes|)
      decreases StackSize(stack)
    {
      var top := |stack| - 1;
      var node := stack[top];
      var line, more := Visit(node, stack[..top]);
      Regroup(lines, line, StackLines(more));
      lines, stack := lines + line, more;
    }
    assert lines + [] == lines;
    text := Join(lines, separator);
  }

  // ----- one line for each node with a text child -----

  function TextNodes(n: Json): nat {
    if !n.Block? then 0 else (if HoldsText(n.content) then 1 else 0) + TextNodesOfAll(n.content, |n.content|)
  }

  function TextNodesOfAll(nodes: seq<Json>, count: nat): nat
    requires count <= |nodes|
    decreases nodes, count
  {
    if count == 0 then 0 else TextNodesOfAll(nodes, count - 1) + TextNodes(nodes[count - 1])
  }

  lemma {:induction false} OneLineEach(nodes: seq<Json>, count: nat)
    requires count <= |nodes|
    ensures |LinesOfAll(nodes, count)| == TextNodesOfAll(nodes, count)
    decreases nodes, count
  {
    hide Lines, TextNodes;
    if count > 0 {
      OneLineEach(nodes, count - 1);
      OneLineOf(nodes[count - 1]);
    }
  }

  lemma {:induction false} OneLineOf(n: Json)
    ensures |Lines(n)| == TextNodes(n)
    decreases n
  {
    hide HoldsText, TextRun, LinesOfAll, TextNodesOfAll;
    if n.Block? {
      OneLineEach(n.content, |n.content|);
    }
  }
}
