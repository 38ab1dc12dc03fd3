/** The indentation-driven parser of text plans. */
module PlanTree {
  import opened Common

  /** Beyond this nesting input is refused. */
  const MAX_PLAN_DEPTH: nat := 256

  datatype Line = Line(indent: nat, content: Text, isNode: bool)

  /** A node with its property lines and children, in the order they were added. */
  datatype PlanNode = PlanNode(content: Text, properties: seq<Text>, children: seq<PlanNode>)

  datatype ParseError = NoLines | NotANode(content: Text) | BadCost(content: Text) | MaxDepthExceeded

  datatype Parsed = Ok(node: PlanNode, rest: seq<Line>) | Err(error: ParseError)

  /** Decides whether the cost of a node line can be read. */
  type CostReader = Text -> bool

  // ---- The parser ----

  /** A node line and everything below it. */
  function ParseNode(cost: CostReader, lines: seq<Line>, depth: nat): (r: Parsed)
    ensures r.Ok? ==> |r.rest| < |lines|
    decreases |lines|, 1
  {
    if depth >= MAX_PLAN_DEPTH then Err(MaxDepthExceeded)
    else if lines == [] then Err(NoLines)
    else if !lines[0].isNode then Err(NotANode(lines[0].content))
    else if !cost(lines[0].content) then Err(BadCost(lines[0].content))
    else ParseBody(cost, lines[1..], depth, lines[0].indent, PlanNode(lines[0].content, [], []))
  }

  function WithProperty(node: PlanNode, property: Text): PlanNode {
    node.(properties := node.properties + [property])
  }

  function WithChild(node: PlanNode, child: PlanNode): PlanNode {
    node.(children := node.children + [child])
  }

  /** The lines deeper than `indent`, added to `node`. */
  function ParseBody(cost: CostReader, lines: seq<Line>, depth: nat, indent: nat, node: PlanNode): (r: Parsed)
    ensures r.Ok? ==> |r.rest| <= |lines|
    decreases |lines|, 2
  {
    if lines == [] || lines[0].indent <= indent then Ok(node, lines)
    else if lines[0].isNode then
      match ParseNode(cost, lines, depth + 1)
      case Err(e) => Err(e)
      case Ok(child, rest) => ParseBody(cost, rest, depth, indent, WithChild(node, child))
    else ParseBody(cost, lines[1..], depth, indent, WithProperty(node, lines[0].content))
  }

  datatype TreeResult = Tree(node: PlanNode, next: nat) | Failed(error: ParseError)

  /** `parse_node_tree`, by index. */
  method ParseNodeTree(cost: CostReader, lines: seq<Line>, start: nat, depth: nat) returns (r: TreeResult)
    requires start <= |lines|
    ensures r.Tree? ==> start < r.next <= |lines| && ParseNode(cost, lines[start..], depth) == Ok(r.node, lines[r.next..])
    ensures r.Failed? ==> ParseNode(cost, lines[start..], depth) == Err(r.error)
    decreases |lines| - start
  {
    if depth >= MAX_PLAN_DEPTH {
      return Failed(MaxDepthExceeded);
    }
    if start >= |lines| {
      return Failed(NoLines);
    }
    var line := lines[start];
    if !line.isNode {
      return Failed(NotANode(line.content));
    }
    if !cost(line.content) {
      return Failed(BadCost(line.content));
    }
    var node := PlanNode(line.content, [], []);
    var idx := start + 1;
    assert lines[start..][1..] == lines[idx..];
    while idx < |lines| && lines[idx].indent > line.indent
      invariant start < idx <= |lines|
      invariant ParseNode(cost, lines[start..], depth) == ParseBody(cost, lines[idx..], depth, line.indent, node)
      decreases |lines| - idx
    {
      if lines[idx].isNode {
        var child := ParseNodeTree(cost, lines, idx, depth + 1);
        if child.Failed? {
          return child;
        }
        node := WithChild(node, child.node);
        idx := child.next;
      } else {
        node := WithProperty(node, lines[idx].content);
        assert lines[idx..][1..] == lines[idx + 1..];
        idx := idx + 1;
      }
    }
    return Tree(node, idx);
  }

  // ---- Where a subtree ends ----

  /** `rest` is what follows the first lines of `lines`, all deeper than `indent`, and does not go on deeper. */
  ghost predicate EndsBelow(lines: seq<Line>, rest: seq<Line>, indent: nat) {
    && |rest| <= |lines| && rest == lines[|lines| - |rest|..]
    && (forall k :: 0 <= k < |lines| - |rest| ==> lines[k].indent > indent)
    && (rest == [] || rest[0].indent <= indent)
  }

  /** A subtree is exactly the lines up to the first one not deeper than its root. */
  lemma {:induction false} SubtreeInterval(cost: CostReader, lines: seq<Line>, depth: nat)
    requires ParseNode(cost, lines, depth).Ok?
    ensures lines != [] && EndsBelow(lines[1..], ParseNode(cost, lines, depth).rest, lines[0].indent)
    decreases |lines|, 1
  {
    BodyInterval(cost, lines[1..], depth, lines[0].indent, PlanNode(lines[0].content, [], []));
  }

  lemma {:induction false} BodyInterval(cost: CostReader, lines: seq<Line>, depth: nat, indent: nat, node: PlanNode)
    requires ParseBody(cost, lines, depth, indent, node).Ok?
    ensures EndsBelow(lines, ParseBody(cost, lines, depth, indent, node).rest, indent)
    decreases |lines|, 2
  {
    if lines != [] && lines[0].indent > indent {
      if lines[0].isNode {
        SubtreeInterval(cost, lines, depth + 1);
        var child := ParseNode(cost, lines, depth + 1);
        BodyInterval(cost, child.rest, depth, indent, WithChild(node, child.node));
        EndsBelowJoin(lines, child.rest, ParseBody(cost, lines, depth, indent, node).rest, indent);
      } else {
        BodyInterval(cost, lines[1..], depth, indent, WithProperty(node, lines[0].content));
        EndsBelowStep(lines, ParseBody(cost, lines, depth, indent, node).rest, indent);
      }
    }
  }

  lemma EndsBelowStep(lines: seq<Line>, rest: seq<Line>, indent: nat)
    requires lines != [] && lines[0].indent > indent && EndsBelow(lines[1..], rest, indent)
    ensures EndsBelow(lines, rest, indent)
  {
    forall k | 0 <= k < |lines| - |rest| ensures lines[k].indent > indent {
      assert k > 0 ==> lines[k] == lines[1..][k - 1];
    }
  }

  lemma EndsBelowJoin(lines: seq<Line>, mid: seq<Line>, rest: seq<Line>, indent: nat)
    requires lines != [] && lines[0].indent > indent
    requires EndsBelow(lines[1..], mid, lines[0].indent) && EndsBelow(mid, rest, indent)
    ensures EndsBelow(lines, rest, indent)
  {
    var m := |lines| - |mid|;
    forall k | 0 <= k < |lines| - |rest| ensures lines[k].indent > indent {
      if 0 < k < m {
        assert lines[k] == lines[1..][k - 1];
      } else if k >= m {
        assert lines[k] == mid[k - m];
      }
    }
  }

  // ---- Size and depth ----

  function NodeCount(node: PlanNode): nat
    decreases node, 1
  {
    1 + CountAll(node.children)
  }

  function CountAll(nodes: seq<PlanNode>): nat
    decreases nodes, 0
  {
    if nodes == [] then 0 else NodeCount(nodes[0]) + CountAll(nodes[1..])
  }

  function MaxDepth(node: PlanNode): nat
    decreases node, 1
  {
    1 + MaxDepthAll(node.children)
  }

  function MaxDepthAll(nodes: seq<PlanNode>): nat
    decreases nodes, 0
  {
    if nodes == [] then 0
    else
      var first, others := MaxDepth(nodes[0]), MaxDepthAll(nodes[1..]);
      if first > others then first else others
  }

  lemma {:induction false} AllAppend(a: seq<PlanNode>, last: PlanNode)
    ensures MaxDepthAll(a + [last]) == (if MaxDepth(last) > MaxDepthAll(a) then MaxDepth(last) else MaxDepthAll(a))
    decreases |a|
  {
    if a == [] {
      var one := [last];
      assert a + one == one && one[1..] == [];
    } else {
      HeadTail(a, [last]);
      AllAppend(a[1..], last);
    }
  }

  /** The nodes' lines, each node in front of its children. */
  function Preorder(node: PlanNode): seq<Text>
    decreases node, 1
  {
    [node.content] + PreorderAll(node.children)
  }

  function PreorderAll(nodes: seq<PlanNode>): seq<Text>
    decreases nodes, 0
  {
    if nodes == [] then [] else Preorder(nodes[0]) + PreorderAll(nodes[1..])
  }

  lemma {:induction false} PreorderAppend(a: seq<PlanNode>, last: PlanNode)
    ensures PreorderAll(a + [last]) == PreorderAll(a) + Preorder(last)
    decreases |a|
  {
    if a == [] {
      var one := [last];
      assert a + one == one && one[1..] == [];
      assert Preorder(last) + [] == Preorder(last);
    } else {
      HeadTail(a, [last]);
      PreorderAppend(a[1..], last);
      Assoc(Preorder(a[0]), PreorderAll(a[1..]), Preorder(last));
    }
  }

  lemma ChildPreorder(node: PlanNode, child: PlanNode)
    ensures Preorder(WithChild(node, child)) == Preorder(node) + Preorder(child)
  {
    PreorderAppend(node.children, child);
    Assoc([node.content], PreorderAll(node.children), Preorder(child));
  }

  /** The node lines among some lines. */
  function NodeLines(lines: seq<Line>): seq<Text>
    decreases |lines|
  {
    if lines == [] then [] else (if lines[0].isNode then [lines[0].content] else []) + NodeLines(lines[1..])
  }

  /** The tree is, in preorder, exactly the node lines it consumed, and never exceeds the depth cap. */
  lemma {:induction false} NodeMeasures(cost: CostReader, lines: seq<Line>, depth: nat)
    requires ParseNode(cost, lines, depth).Ok?
    ensures var r := ParseNode(cost, lines, depth);
            NodeLines(lines) == Preorder(r.node) + NodeLines(r.rest) && depth + MaxDepth(r.node) <= MAX_PLAN_DEPTH
    decreases |lines|, 1
  {
    var bare := PlanNode(lines[0].content, [], []);
    BareMeasures(lines[0].content);
    BodyMeasures(cost, lines[1..], depth, lines[0].indent, bare);
    assert NodeLines(lines) == Preorder(bare) + NodeLines(lines[1..]);
  }

  lemma BareMeasures(content: Text)
    ensures Preorder(PlanNode(content, [], [])) == [content] && MaxDepth(PlanNode(content, [], [])) == 1
  {}

  lemma {:induction false} BodyMeasures(cost: CostReader, lines: seq<Line>, depth: nat, indent: nat, node: PlanNode)
    requires ParseBody(cost, lines, depth, indent, node).Ok? && depth + MaxDepth(node) <= MAX_PLAN_DEPTH
    ensures var r := ParseBody(cost, lines, depth, indent, node);
            Preorder(node) + NodeLines(lines) == Preorder(r.node) + NodeLines(r.rest)
            && depth + MaxDepth(r.node) <= MAX_PLAN_DEPTH
    decreases |lines|, 2
  {
    if lines != [] && lines[0].indent > indent {
      if lines[0].isNode {
        NodeMeasures(cost, lines, depth + 1);
        var child := ParseNode(cost, lines, depth + 1);
        AllAppend(node.children, child.node);
        ChildPreorder(node, child.node);
        Assoc(Preorder(node), Preorder(child.node), NodeLines(child.rest));
        BodyMeasures(cost, child.rest, depth, indent, WithChild(node, child.node));
      } else {
        BodyMeasures(cost, lines[1..], depth, indent, WithProperty(node, lines[0].content));
      }
    }
  }

  lemma {:induction false} PreorderCounts(node: PlanNode)
    ensures |Preorder(node)| == NodeCount(node)
    decreases node, 1
  {
    PreorderAllCounts(node.children);
  }

  lemma {:induction false} PreorderAllCounts(nodes: seq<PlanNode>)
    ensures |PreorderAll(nodes)| == CountAll(nodes)
    decreases nodes, 0
  {
    if nodes != [] {
      PreorderCounts(nodes[0]);
      PreorderAllCounts(nodes[1..]);
    }
  }

  // ---- A stack of open nodes ----

  /** Open nodes, innermost first, above the finished ones. */
  datatype Stack = Done(nodes: seq<PlanNode>) | Open(node: PlanNode, indent: nat, below: Stack)

  function Height(s: Stack): nat {
    if s.Done? then 0 else 1 + Height(s.below)
  }

  function Attach(s: Stack, node: PlanNode): (r: Stack)
    ensures Height(r) == Height(s)
  {
    match s
    case Done(nodes) => Done(nodes + [node])
    case Open(open, indent, below) => Open(WithChild(open, node), indent, below)
  }

  /** Close every node that a line at `indent` is not inside of. */
  function Close(s: Stack, indent: nat): Stack
    decreases Height(s)
  {
    if s.Open? && s.indent >= indent then Close(Attach(s.below, s.node), indent) else s
  }

  /** The line goes to the innermost node still open: as its child, or as its property. */
  function Feed(s: Stack, line: Line): Stack {
    var t := Close(s, line.indent);
    if line.isNode then Open(PlanNode(line.content, [], []), line.indent, t)
    else if t.Open? then t.(node := WithProperty(t.node, line.content))
    else t
  }

  function FeedAll(s: Stack, lines: seq<Line>): Stack
    decreases |lines|
  {
    if lines == [] then s else FeedAll(Feed(s, lines[0]), lines[1..])
  }

  lemma {:induction false} FeedAllAppend(s: Stack, a: seq<Line>, b: seq<Line>)
    ensures FeedAll(s, a + b) == FeedAll(FeedAll(s, a), b)
    decreases |a|
  {
    if a == [] {
      assert a + b == b;
    } else {
      HeadTail(a, b);
      FeedAllAppend(Feed(s, a[0]), a[1..], b);
    }
  }

  /** A line at `indent` would be inside the innermost open node. */
  predicate Inside(s: Stack, indent: nat) {
    s.Open? ==> s.indent < indent
  }

  /** Two stacks that every line at or above `indent` treats alike. */
  ghost predicate SameFrom(s: Stack, t: Stack, indent: nat) {
    forall i: nat :: i <= indent ==> Close(s, i) == Close(t, i)
  }

  /** The lines a parse consumed. */
  function Consumed(lines: seq<Line>, rest: seq<Line>): seq<Line>
    requires |rest| <= |lines|
  {
    lines[..|lines| - |rest|]
  }

  /** Recursive descent builds what the stack of open nodes builds. */
  lemma {:induction false} NodeByStack(cost: CostReader, lines: seq<Line>, depth: nat, s: Stack)
    requires ParseNode(cost, lines, depth).Ok? && Inside(s, lines[0].indent)
    ensures var r := ParseNode(cost, lines, depth);
            SameFrom(FeedAll(s, Consumed(lines, r.rest)), Attach(s, r.node), lines[0].indent)
    decreases |lines|, 1
  {
    var r := ParseNode(cost, lines, depth);
    var root := PlanNode(lines[0].content, [], []);
    BodyByStack(cost, lines[1..], depth, lines[0].indent, root, s);
    var all := Consumed(lines, r.rest);
    assert all[0] == lines[0] && all[1..] == Consumed(lines[1..], r.rest);
    assert Close(s, lines[0].indent) == s;
  }

  lemma {:induction false} BodyByStack(cost: CostReader, lines: seq<Line>, depth: nat, indent: nat, node: PlanNode, s: Stack)
    requires ParseBody(cost, lines, depth, indent, node).Ok? && Inside(s, indent)
    ensures var r := ParseBody(cost, lines, depth, indent, node);
            SameFrom(FeedAll(Open(node, indent, s), Consumed(lines, r.rest)), Attach(s, r.node), indent)
    decreases |lines|, 2
  {
    var r := ParseBody(cost, lines, depth, indent, node);
    var top := Open(node, indent, s);
    if lines == [] || lines[0].indent <= indent {
      assert Consumed(lines, r.rest) == [];
    } else if lines[0].isNode {
      var child := ParseNode(cost, lines, depth + 1);
      NodeByStack(cost, lines, depth + 1, top);
      SubtreeInterval(cost, lines, depth + 1);
      BodyByStack(cost, child.rest, depth, indent, WithChild(node, child.node), s);
      var first, later := Consumed(lines, child.rest), Consumed(child.rest, r.rest);
      assert child.rest == lines[|lines| - |child.rest|..];
      assert Consumed(lines, r.rest) == first + later;
      FeedAllAppend(top, first, later);
      SameFeed(FeedAll(top, first), Attach(top, child.node), later, lines[0].indent, indent);
    } else {
      BodyByStack(cost, lines[1..], depth, indent, WithProperty(node, lines[0].content), s);
      var all := Consumed(lines, r.rest);
      assert all[0] == lines[0] && all[1..] == Consumed(lines[1..], r.rest);
      assert Close(top, lines[0].indent) == top;
    }
  }

  /** Alike stacks stay alike under the same lines, if the first of them sees no difference. */
  lemma SameFeed(s: Stack, t: Stack, lines: seq<Line>, high: nat, low: nat)
    requires SameFrom(s, t, high) && low <= high
    requires lines != [] ==> lines[0].indent <= high
    ensures SameFrom(FeedAll(s, lines), FeedAll(t, lines), low)
  {
    if lines != [] {
      assert Close(s, lines[0].indent) == Close(t, lines[0].indent);
      assert Feed(s, lines[0]) == Feed(t, lines[0]);
    }
  }

  /**
   * The parsed tree is the one obtained by giving every line of its interval,
   * one by one, to the innermost node still open.
   */
  lemma TreeByStack(cost: CostReader, lines: seq<Line>)
    requires ParseNode(cost, lines, 0).Ok?
    ensures var r := ParseNode(cost, lines, 0);
            Close(FeedAll(Done([]), Consumed(lines, r.rest)), 0) == Done([r.node])
  {
    var r := ParseNode(cost, lines, 0);
    NodeByStack(cost, lines, 0, Done([]));
    assert Close(Attach(Done([]), r.node), 0) == Done([r.node]);
  }
}
