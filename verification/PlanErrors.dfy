/** When a plan is refused, and for which of its lines. */
module PlanErrors {
  import opened PlanTree

  /** How many nodes are open once line `k` has been read, with `s` open in front of `lines`. */
  function HeightAfter(s: Stack, lines: seq<Line>, k: nat): nat
    requires k < |lines|
  {
    Height(FeedAll(s, lines[..k + 1]))
  }

  /** With `s` open in front of `lines`: a node nested too deep, or one whose cost cannot be read. */
  predicate Refused(cost: CostReader, s: Stack, lines: seq<Line>, k: nat)
    requires k < |lines|
  {
    lines[k].isNode && (HeightAfter(s, lines, k) > MAX_PLAN_DEPTH || !cost(lines[k].content))
  }

  function ErrorAt(s: Stack, lines: seq<Line>, k: nat): ParseError
    requires k < |lines|
  {
    if HeightAfter(s, lines, k) > MAX_PLAN_DEPTH then MaxDepthExceeded else BadCost(lines[k].content)
  }

  /** The first `k + 1` lines are deeper than `indent`. */
  predicate Deeper(lines: seq<Line>, k: nat, indent: nat) {
    k < |lines| && forall j :: 0 <= j <= k ==> lines[j].indent > indent
  }

  ghost predicate FirstRefused(cost: CostReader, s: Stack, lines: seq<Line>, k: nat) {
    k < |lines| && Refused(cost, s, lines, k) && forall j :: 0 <= j < k ==> !Refused(cost, s, lines, j)
  }

  /** What a parse of the lines below `indent` says of them. */
  ghost predicate Explained(cost: CostReader, s: Stack, lines: seq<Line>, indent: nat, r: Parsed) {
    match r
    case Ok(_, rest) => |rest| <= |lines| && forall k :: 0 <= k < |lines| - |rest| ==> !Refused(cost, s, lines, k)
    case Err(e) => exists k :: Deeper(lines, k, indent) && FirstRefused(cost, s, lines, k) && e == ErrorAt(s, lines, k)
  }

  /** Behind the first `m` lines, with `t` open, it is as high as with `s` in front of them. */
  ghost predicate Agrees(s: Stack, t: Stack, lines: seq<Line>, m: nat) {
    m <= |lines| && forall k :: 0 <= k < |lines| - m ==> HeightAfter(s, lines, m + k) == HeightAfter(t, lines[m..], k)
  }

  lemma RefusedBehind(cost: CostReader, s: Stack, t: Stack, lines: seq<Line>, m: nat, k: nat)
    requires Agrees(s, t, lines, m) && k < |lines| - m
    ensures Refused(cost, s, lines, m + k) <==> Refused(cost, t, lines[m..], k)
    ensures ErrorAt(s, lines, m + k) == ErrorAt(t, lines[m..], k)
  {
    assert lines[m..][k] == lines[m + k];
  }

  /** Lines none of which is refused may stand in front. */
  lemma ExplainedBehind(cost: CostReader, s: Stack, t: Stack, lines: seq<Line>, m: nat, indent: nat, r: Parsed)
    requires Agrees(s, t, lines, m) && Explained(cost, t, lines[m..], indent, r)
    requires forall j :: 0 <= j < m ==> !Refused(cost, s, lines, j) && lines[j].indent > indent
    ensures Explained(cost, s, lines, indent, r)
  {
    match r
    case Ok(_, rest) =>
      forall k | 0 <= k < |lines| - |rest| ensures !Refused(cost, s, lines, k) {
        if k >= m {
          RefusedBehind(cost, s, t, lines, m, k - m);
        }
      }
    case Err(e) =>
      var k :| Deeper(lines[m..], k, indent) && FirstRefused(cost, t, lines[m..], k) && e == ErrorAt(t, lines[m..], k);
      RefusedBehind(cost, s, t, lines, m, k);
      forall j | 0 <= j < m + k ensures !Refused(cost, s, lines, j) {
        if j >= m {
          RefusedBehind(cost, s, t, lines, m, j - m);
        }
      }
      DeeperBehind(lines, m, k, indent);
  }

  lemma DeeperBehind(lines: seq<Line>, m: nat, k: nat, indent: nat)
    requires m <= |lines| && Deeper(lines[m..], k, indent) && forall j :: 0 <= j < m ==> lines[j].indent > indent
    ensures Deeper(lines, m + k, indent)
  {
    forall j | 0 <= j <= m + k ensures lines[j].indent > indent {
      assert j >= m ==> lines[j] == lines[m..][j - m];
    }
  }

  lemma AgreesBehind(s: Stack, t: Stack, lines: seq<Line>, m: nat, high: nat)
    requires m <= |lines| && SameFrom(FeedAll(s, lines[..m]), t, high)
    requires m < |lines| ==> lines[m].indent <= high
    ensures Agrees(s, t, lines, m)
  {
    forall k | 0 <= k < |lines| - m ensures HeightAfter(s, lines, m + k) == HeightAfter(t, lines[m..], k) {
      var first, later := lines[..m], lines[m..][..k + 1];
      assert lines[..m + k + 1] == first + later;
      FeedAllAppend(s, first, later);
      assert later[0] == lines[m];
      assert Feed(FeedAll(s, first), later[0]) == Feed(t, later[0]);
    }
  }

  lemma {:induction false} NodeExplained(cost: CostReader, lines: seq<Line>, depth: nat, s: Stack, indent: nat)
    requires lines != [] && lines[0].isNode && lines[0].indent > indent
    requires Inside(s, lines[0].indent) && Height(s) == depth <= MAX_PLAN_DEPTH
    ensures Explained(cost, s, lines, indent, ParseNode(cost, lines, depth))
    decreases |lines|, 1
  {
    RootOpens(s, lines);
    if depth >= MAX_PLAN_DEPTH || !cost(lines[0].content) {
      assert Deeper(lines, 0, indent) && FirstRefused(cost, s, lines, 0);
    } else {
      var root := PlanNode(lines[0].content, [], []);
      BodyExplained(cost, lines[1..], depth, lines[0].indent, root, s);
      LowerBound(cost, Open(root, lines[0].indent, s), lines[1..], lines[0].indent, indent,
                 ParseBody(cost, lines[1..], depth, lines[0].indent, root));
      RootAgrees(s, root, lines);
      ExplainedBehind(cost, s, Open(root, lines[0].indent, s), lines, 1, indent, ParseNode(cost, lines, depth));
    }
  }

  lemma LowerBound(cost: CostReader, s: Stack, lines: seq<Line>, high: nat, low: nat, r: Parsed)
    requires Explained(cost, s, lines, high, r) && low <= high
    ensures Explained(cost, s, lines, low, r)
  {
    if r.Err? {
      var k :| Deeper(lines, k, high) && FirstRefused(cost, s, lines, k) && r.error == ErrorAt(s, lines, k);
      assert Deeper(lines, k, low);
    }
  }

  /** The root's line opens one more node. */
  lemma RootOpens(s: Stack, lines: seq<Line>)
    requires lines != [] && lines[0].isNode && Inside(s, lines[0].indent)
    ensures FeedAll(s, lines[..1]) == Open(PlanNode(lines[0].content, [], []), lines[0].indent, s)
    ensures HeightAfter(s, lines, 0) == Height(s) + 1
  {
    var one := lines[..1];
    assert one[0] == lines[0] && one[1..] == [];
    assert Close(s, lines[0].indent) == s;
  }

  lemma RootAgrees(s: Stack, root: PlanNode, lines: seq<Line>)
    requires lines != [] && lines[0].isNode && Inside(s, lines[0].indent)
    requires root == PlanNode(lines[0].content, [], [])
    ensures Agrees(s, Open(root, lines[0].indent, s), lines, 1)
  {
    var top := Open(root, lines[0].indent, s);
    RootOpens(s, lines);
    AgreesBehind(s, top, lines, 1, if |lines| > 1 then lines[1].indent else 0);
  }

  lemma {:induction false} BodyExplained(cost: CostReader, lines: seq<Line>, depth: nat, indent: nat, node: PlanNode, s: Stack)
    requires Inside(s, indent) && Height(s) == depth < MAX_PLAN_DEPTH
    ensures Explained(cost, Open(node, indent, s), lines, indent, ParseBody(cost, lines, depth, indent, node))
    decreases |lines|, 2
  {
    var top := Open(node, indent, s);
    if lines != [] && lines[0].indent > indent {
      if lines[0].isNode {
        NodeExplained(cost, lines, depth + 1, top, indent);
        var child := ParseNode(cost, lines, depth + 1);
        if child.Ok? {
          BodyExplained(cost, child.rest, depth, indent, WithChild(node, child.node), s);
          ChildAgrees(cost, lines, depth, indent, node, s);
          ExplainedBehind(cost, top, Attach(top, child.node), lines, |lines| - |child.rest|, indent,
                          ParseBody(cost, lines, depth, indent, node));
        }
      } else {
        BodyExplained(cost, lines[1..], depth, indent, WithProperty(node, lines[0].content), s);
        PropertyAgrees(lines, indent, node, s);
        ExplainedBehind(cost, top, Open(WithProperty(node, lines[0].content), indent, s), lines, 1, indent,
                        ParseBody(cost, lines, depth, indent, node));
      }
    }
  }

  lemma ChildAgrees(cost: CostReader, lines: seq<Line>, depth: nat, indent: nat, node: PlanNode, s: Stack)
    requires ParseNode(cost, lines, depth + 1).Ok? && lines[0].indent > indent
    ensures var child, top := ParseNode(cost, lines, depth + 1), Open(node, indent, s);
            var m := |lines| - |child.rest|;
            && child.rest == lines[m..] && Agrees(top, Attach(top, child.node), lines, m)
            && forall j :: 0 <= j < m ==> lines[j].indent > indent
  {
    var child, top := ParseNode(cost, lines, depth + 1), Open(node, indent, s);
    var m := |lines| - |child.rest|;
    NodeByStack(cost, lines, depth + 1, top);
    SubtreeInterval(cost, lines, depth + 1);
    assert lines[1..][|lines[1..]| - |child.rest|..] == lines[m..];
    forall j | 0 <= j < m ensures lines[j].indent > indent {
      assert j > 0 ==> lines[j] == lines[1..][j - 1];
    }
    AgreesBehind(top, Attach(top, child.node), lines, m, lines[0].indent);
  }

  lemma PropertyAgrees(lines: seq<Line>, indent: nat, node: PlanNode, s: Stack)
    requires lines != [] && lines[0].indent > indent && !lines[0].isNode
    ensures Agrees(Open(node, indent, s), Open(WithProperty(node, lines[0].content), indent, s), lines, 1)
  {
    var top, next := Open(node, indent, s), Open(WithProperty(node, lines[0].content), indent, s);
    var one := lines[..1];
    assert one[0] == lines[0] && one[1..] == [];
    assert Close(top, lines[0].indent) == top;
    assert FeedAll(top, one) == next;
    AgreesBehind(top, next, lines, 1, if |lines| > 1 then lines[1].indent else 0);
  }

  /** The root or below it. */
  predicate InTree(lines: seq<Line>, k: nat) {
    k < |lines| && forall j :: 0 < j <= k ==> lines[j].indent > lines[0].indent
  }

  /**
   * A plan is refused exactly if it has no line, does not begin with a node,
   * or has in its first tree a node that is the 257th one inside the other, or
   * whose cost cannot be read; and the first such node is the error.
   */
  lemma RefusedExactly(cost: CostReader, lines: seq<Line>)
    ensures var r := ParseNode(cost, lines, 0);
            if lines == [] then r == Err(NoLines)
            else if !lines[0].isNode then r == Err(NotANode(lines[0].content))
            else
              && (r.Ok? <==> forall k: nat :: InTree(lines, k) ==> !Refused(cost, Done([]), lines, k))
              && (r.Err? ==> exists k: nat :: InTree(lines, k) && FirstRefused(cost, Done([]), lines, k)
                                      && r.error == ErrorAt(Done([]), lines, k))
  {
    if lines != [] && lines[0].isNode {
      WholeExplained(cost, lines);
    }
  }

  lemma WholeExplained(cost: CostReader, lines: seq<Line>)
    requires lines != [] && lines[0].isNode
    ensures var r := ParseNode(cost, lines, 0);
            && (r.Ok? ==> forall k: nat :: InTree(lines, k) ==> !Refused(cost, Done([]), lines, k))
            && (r.Err? ==> exists k: nat :: InTree(lines, k) && FirstRefused(cost, Done([]), lines, k)
                                    && r.error == ErrorAt(Done([]), lines, k))
  {
    var s, root := Done([]), PlanNode(lines[0].content, [], []);
    var r := ParseNode(cost, lines, 0);
    RootOpens(s, lines);
    if !cost(lines[0].content) {
      assert InTree(lines, 0) && FirstRefused(cost, s, lines, 0);
    } else {
      BodyExplained(cost, lines[1..], 0, lines[0].indent, root, s);
      RootAgrees(s, root, lines);
      if r.Ok? {
        SubtreeInterval(cost, lines, 0);
        TreeAccepted(cost, lines, r.node, r.rest, Open(root, lines[0].indent, s));
      } else {
        TreeRefused(cost, lines, r, root);
      }
    }
  }

  lemma TreeAccepted(cost: CostReader, lines: seq<Line>, node: PlanNode, rest: seq<Line>, top: Stack)
    requires lines != [] && EndsBelow(lines[1..], rest, lines[0].indent)
    requires Agrees(Done([]), top, lines, 1) && Explained(cost, top, lines[1..], lines[0].indent, Ok(node, rest))
    requires !Refused(cost, Done([]), lines, 0)
    ensures forall k: nat :: InTree(lines, k) ==> !Refused(cost, Done([]), lines, k)
  {
    forall k: nat | InTree(lines, k) ensures !Refused(cost, Done([]), lines, k) {
      InTreeIsConsumed(lines, rest, k);
      if k > 0 {
        RefusedBehind(cost, Done([]), top, lines, 1, k - 1);
      }
    }
  }

  lemma InTreeIsConsumed(lines: seq<Line>, rest: seq<Line>, k: nat)
    requires lines != [] && EndsBelow(lines[1..], rest, lines[0].indent) && InTree(lines, k)
    ensures k < |lines| - |rest|
  {
    var n := |lines| - |rest|;
    assert rest != [] ==> rest[0] == lines[1..][n - 1] == lines[n];
  }

  lemma TreeRefused(cost: CostReader, lines: seq<Line>, r: Parsed, root: PlanNode)
    requires lines != [] && r.Err?
    requires var top := Open(root, lines[0].indent, Done([]));
             Agrees(Done([]), top, lines, 1) && Explained(cost, top, lines[1..], lines[0].indent, r)
    requires !Refused(cost, Done([]), lines, 0)
    ensures exists k: nat :: InTree(lines, k) && FirstRefused(cost, Done([]), lines, k) && r.error == ErrorAt(Done([]), lines, k)
  {
    var top := Open(root, lines[0].indent, Done([]));
    var k: nat :| Deeper(lines[1..], k, lines[0].indent) && FirstRefused(cost, top, lines[1..], k)
             && r.error == ErrorAt(top, lines[1..], k);
    RefusedBehind(cost, Done([]), top, lines, 1, k);
    forall j | 0 <= j < k + 1 ensures !Refused(cost, Done([]), lines, j) {
      if j > 0 {
        RefusedBehind(cost, Done([]), top, lines, 1, j - 1);
      }
    }
    forall j | 0 < j <= k + 1 ensures lines[j].indent > lines[0].indent {
      assert lines[j] == lines[1..][j - 1];
    }
    assert InTree(lines, k + 1);
  }
}
