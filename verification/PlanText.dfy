/** From the text of a plan to its lines, and the layout that PostgreSQL prints. */
module PlanText {
  import opened Common
  import opened Lines
  import opened Unicode
  import opened EntryState
  import opened PlanTree

  const SPACE: nat := ' ' as nat
  const CR: nat := 13

  /** What the two cost expressions say of a trimmed line. */
  datatype CostOracle = CostOracle(isNode: CostReader, readable: CostReader)

  // ---- Reading ----

  /** `str::lines` drops the terminator, `\n` or `\r\n`. */
  function WithoutTerminator(line: Text): Text {
    var n := |line|;
    if n == 0 || line[n - 1] != NEWLINE then line
    else if n > 1 && line[n - 2] == CR then line[..n - 2]
    else line[..n - 1]
  }

  function LeadingSpaces(line: Text): (n: nat)
    ensures n <= |line|
  {
    if line != [] && line[0] == SPACE then 1 + LeadingSpaces(line[1..]) else 0
  }

  /** A line's place in the tree; blank lines have none. */
  function ReadLine(u: Tables, o: CostOracle, line: Text): seq<Line> {
    var content := Trim(u, line);
    if content == [] then [] else [Line(LeadingSpaces(line) / 2, content, o.isNode(content))]
  }

  function ReadLines(u: Tables, o: CostOracle, lines: seq<Text>): seq<Line>
    decreases |lines|
  {
    if lines == [] then [] else ReadLine(u, o, WithoutTerminator(lines[0])) + ReadLines(u, o, lines[1..])
  }

  function ParseLines(u: Tables, o: CostOracle, text: Text): seq<Line> {
    ReadLines(u, o, Split(text, NEWLINE))
  }

  /** `parse_plan` ignores whatever follows the first tree. */
  function ParsePlan(u: Tables, o: CostOracle, text: Text): Option<PlanNode> {
    match ParseNode(o.readable, ParseLines(u, o, text), 0)
    case Ok(node, rest) => Some(node)
    case Err(e) => None
  }

  /** Only spaces indent, and all in front do. */
  lemma {:induction false} LeadingSpacesAre(line: Text)
    ensures var n := LeadingSpaces(line);
            (forall i :: 0 <= i < n ==> line[i] == SPACE) && (n < |line| ==> line[n] != SPACE)
  {
    if line != [] && line[0] == SPACE {
      LeadingSpacesAre(line[1..]);
      forall i | 0 <= i < LeadingSpaces(line) ensures line[i] == SPACE {
        assert i > 0 ==> line[i] == line[1..][i - 1];
      }
    }
  }

  function Terminated(lines: seq<Text>, terminator: Text): seq<Text>
    decreases |lines|
  {
    if lines == [] then [] else [lines[0] + terminator] + Terminated(lines[1..], terminator)
  }

  /** Lines may end in `\n` or in `\r\n`. */
  lemma {:induction false} TerminatorsReadAlike(u: Tables, o: CostOracle, lines: seq<Text>)
    requires forall i :: 0 <= i < |lines| ==> lines[i] == [] || lines[i][|lines[i]| - 1] != CR
    ensures ReadLines(u, o, Terminated(lines, [CR, NEWLINE])) == ReadLines(u, o, Terminated(lines, [NEWLINE]))
    decreases |lines|
  {
    if lines != [] {
      TerminatorsReadAlike(u, o, lines[1..]);
      var line := lines[0];
      assert (line + [CR, NEWLINE])[..|line|] == line && (line + [NEWLINE])[..|line|] == line;
    }
  }

  lemma {:induction false} ReadLinesAppend(u: Tables, o: CostOracle, a: seq<Text>, b: seq<Text>)
    ensures ReadLines(u, o, a + b) == ReadLines(u, o, a) + ReadLines(u, o, b)
    decreases |a|
  {
    if a == [] {
      assert a + b == b;
    } else {
      HeadTail(a, b);
      ReadLinesAppend(u, o, a[1..], b);
      Assoc(ReadLine(u, o, WithoutTerminator(a[0])), ReadLines(u, o, a[1..]), ReadLines(u, o, b));
    }
  }

  lemma {:induction false} SpaceTrimsAway(u: Tables, t: Text)
    requires forall i :: 0 <= i < |t| ==> IsSpace(u, t[i])
    ensures TrimEnd(u, t) == []
  {
    if t != [] {
      SpaceTrimsAway(u, t[..|t| - 1]);
    }
  }

  /** A line of white space may stand anywhere. */
  lemma BlankLinesDoNotMatter(u: Tables, o: CostOracle, a: seq<Text>, blank: Text, b: seq<Text>)
    requires forall i :: 0 <= i < |blank| ==> IsSpace(u, blank[i])
    ensures ReadLines(u, o, a + [blank] + b) == ReadLines(u, o, a + b)
  {
    var one := [blank];
    var line := WithoutTerminator(blank);
    SpaceTrimsAway(u, line);
    assert one[1..] == [];
    assert ReadLines(u, o, one) == [];
    ReadLinesAppend(u, o, a + one, b);
    ReadLinesAppend(u, o, a, one);
    ReadLinesAppend(u, o, a, b);
    assert ReadLines(u, o, a) + [] == ReadLines(u, o, a);
  }

  // ---- Printing ----

  /** A line of output before it is indented. */
  datatype Row = Row(level: nat, content: Text)

  /** 0, 2, 8, 14, 20 spaces and so on. */
  function Indent(level: nat): nat {
    if level == 0 then 0 else 6 * level - 4
  }

  function PropertyRows(properties: seq<Text>, level: nat): seq<Row>
    decreases |properties|
  {
    if properties == [] then [] else [Row(level, properties[0])] + PropertyRows(properties[1..], level)
  }

  /** The node, then its properties and its children one level below it. */
  function Rows(node: PlanNode, level: nat): (r: seq<Row>)
    ensures r != [] && r[0] == Row(level, node.content)
    decreases node, 1
  {
    [Row(level, node.content)] + (PropertyRows(node.properties, level + 1) + RowsOfAll(node.children, level + 1))
  }

  function RowsOfAll(nodes: seq<PlanNode>, level: nat): (r: seq<Row>)
    ensures nodes != [] ==> r != [] && r[0].level == level
    ensures nodes == [] ==> r == []
    decreases nodes, 0
  {
    if nodes == [] then [] else Rows(nodes[0], level) + RowsOfAll(nodes[1..], level)
  }

  function Spaces(n: nat): (s: Text)
    ensures |s| == n
  {
    if n == 0 then [] else [SPACE] + Spaces(n - 1)
  }

  function RowText(row: Row): Text {
    Spaces(Indent(row.level)) + (row.content + [NEWLINE])
  }

  function RowTexts(rows: seq<Row>): seq<Text>
    decreases |rows|
  {
    if rows == [] then [] else [RowText(rows[0])] + RowTexts(rows[1..])
  }

  function PrintTree(node: PlanNode): Text {
    Flatten(RowTexts(Rows(node, 0)))
  }

  // ---- What can be printed ----

  /** Text that fills a line on its own. */
  predicate OneLine(u: Tables, t: Text) {
    t != [] && !IsSpace(u, t[0]) && !IsSpace(u, t[|t| - 1]) && NEWLINE !in t
  }

  predicate PrintableAll(u: Tables, o: CostOracle, nodes: seq<PlanNode>)
    decreases nodes, 0
  {
    nodes != [] ==> Printable(u, o, nodes[0]) && PrintableAll(u, o, nodes[1..])
  }

  predicate PropertyLines(u: Tables, o: CostOracle, properties: seq<Text>)
    decreases |properties|
  {
    properties != [] ==>
      && OneLine(u, properties[0]) && !o.isNode(properties[0])
      && PropertyLines(u, o, properties[1..])
  }

  /** Every node has a cost, no property looks as if it had. */
  predicate Printable(u: Tables, o: CostOracle, node: PlanNode)
    decreases node, 1
  {
    && OneLine(u, node.content) && o.isNode(node.content) && o.readable(node.content)
    && PropertyLines(u, o, node.properties) && PrintableAll(u, o, node.children)
  }

  // ---- Lines back to the tree ----

  function AsLine(o: CostOracle, row: Row): Line {
    Line(Indent(row.level) / 2, row.content, o.isNode(row.content))
  }

  function AsLines(o: CostOracle, rows: seq<Row>): (r: seq<Line>)
    ensures |r| == |rows|
    ensures rows != [] ==> r[0] == AsLine(o, rows[0])
    decreases |rows|
  {
    if rows == [] then [] else [AsLine(o, rows[0])] + AsLines(o, rows[1..])
  }

  lemma {:induction false} AsLinesAppend(o: CostOracle, a: seq<Row>, b: seq<Row>)
    ensures AsLines(o, a + b) == AsLines(o, a) + AsLines(o, b)
    decreases |a|
  {
    if a == [] {
      assert a + b == b;
    } else {
      HeadTail(a, b);
      AsLinesAppend(o, a[1..], b);
    }
  }

  /** Deeper levels are deeper after halving, too. */
  lemma IndentGrows(level: nat)
    ensures Indent(level) / 2 < Indent(level + 1) / 2
  {}

  /** `rest` does not continue a subtree rooted at `level`. */
  predicate Shallow(rest: seq<Line>, level: nat) {
    rest == [] || rest[0].indent <= Indent(level) / 2
  }

  function WithProperties(node: PlanNode, properties: seq<Text>): PlanNode {
    node.(properties := node.properties + properties)
  }

  function WithChildren(node: PlanNode, children: seq<PlanNode>): PlanNode {
    node.(children := node.children + children)
  }

  lemma {:induction false} PropertiesReadBack(u: Tables, o: CostOracle, properties: seq<Text>, level: nat, depth: nat, node: PlanNode, rest: seq<Line>)
    requires PropertyLines(u, o, properties)
    ensures ParseBody(o.readable, AsLines(o, PropertyRows(properties, level + 1)) + rest, depth, Indent(level) / 2, node)
         == ParseBody(o.readable, rest, depth, Indent(level) / 2, WithProperties(node, properties))
    decreases |properties|
  {
    var lines := AsLines(o, PropertyRows(properties, level + 1));
    if properties == [] {
      assert lines + rest == rest && WithProperties(node, properties) == node;
    } else {
      var next := WithProperty(node, properties[0]);
      HeadTail(lines, rest);
      assert lines[1..] == AsLines(o, PropertyRows(properties[1..], level + 1));
      PropertiesReadBack(u, o, properties[1..], level, depth, next, rest);
      IndentGrows(level);
      HeadTail(properties, []);
      Assoc(node.properties, [properties[0]], properties[1..]);
    }
  }

  /** What reading a printed subtree must give. */
  function Expected(node: PlanNode, rest: seq<Line>, tooDeep: bool): Parsed {
    if tooDeep then Err(MaxDepthExceeded) else Ok(node, rest)
  }

  lemma {:induction false} NodeReadsBack(u: Tables, o: CostOracle, node: PlanNode, level: nat, depth: nat, rest: seq<Line>)
    requires Printable(u, o, node) && depth <= MAX_PLAN_DEPTH && Shallow(rest, level)
    ensures ParseNode(o.readable, AsLines(o, Rows(node, level)) + rest, depth)
         == Expected(node, rest, depth + MaxDepth(node) > MAX_PLAN_DEPTH)
    decreases node, 1
  {
    var lines := AsLines(o, Rows(node, level));
    if depth < MAX_PLAN_DEPTH {
      var props := PropertyRows(node.properties, level + 1);
      var below := RowsOfAll(node.children, level + 1);
      var bare := PlanNode(node.content, [], []);
      AsLinesAppend(o, props, below);
      HeadTail(lines, rest);
      assert Rows(node, level)[1..] == props + below;
      Assoc(AsLines(o, props), AsLines(o, below), rest);
      PropertiesReadBack(u, o, node.properties, level, depth, bare, AsLines(o, below) + rest);
      ChildrenReadBack(u, o, node.children, level, depth, WithProperties(bare, node.properties), rest);
    }
  }

  lemma {:induction false} ChildrenReadBack(u: Tables, o: CostOracle, nodes: seq<PlanNode>, level: nat, depth: nat, parent: PlanNode, rest: seq<Line>)
    requires PrintableAll(u, o, nodes) && depth < MAX_PLAN_DEPTH && Shallow(rest, level)
    ensures ParseBody(o.readable, AsLines(o, RowsOfAll(nodes, level + 1)) + rest, depth, Indent(level) / 2, parent)
         == Expected(WithChildren(parent, nodes), rest, depth + 1 + MaxDepthAll(nodes) > MAX_PLAN_DEPTH)
    decreases nodes, 0
  {
    if nodes == [] {
      assert AsLines(o, RowsOfAll(nodes, level + 1)) + rest == rest && WithChildren(parent, nodes) == parent;
    } else {
      var after := AsLines(o, RowsOfAll(nodes[1..], level + 1)) + rest;
      FirstChildLines(o, nodes, level, rest);
      NodeReadsBack(u, o, nodes[0], level + 1, depth + 1, after);
      ChildrenReadBack(u, o, nodes[1..], level, depth, WithChild(parent, nodes[0]), rest);
      WithFirstChild(parent, nodes);
      FirstChildStep(o, AsLines(o, RowsOfAll(nodes, level + 1)) + rest, depth, level, parent, nodes[0], after);
    }
  }

  lemma WithFirstChild(parent: PlanNode, nodes: seq<PlanNode>)
    requires nodes != []
    ensures WithChildren(parent, nodes) == WithChildren(WithChild(parent, nodes[0]), nodes[1..])
  {
    HeadTail(nodes, []);
    Assoc(parent.children, [nodes[0]], nodes[1..]);
  }

  lemma FirstChildLines(o: CostOracle, nodes: seq<PlanNode>, level: nat, rest: seq<Line>)
    requires nodes != [] && Shallow(rest, level)
    ensures var after := AsLines(o, RowsOfAll(nodes[1..], level + 1)) + rest;
      && AsLines(o, RowsOfAll(nodes, level + 1)) + rest == AsLines(o, Rows(nodes[0], level + 1)) + after
      && Shallow(after, level + 1)
  {
    var first, others := Rows(nodes[0], level + 1), RowsOfAll(nodes[1..], level + 1);
    AsLinesAppend(o, first, others);
    Assoc(AsLines(o, first), AsLines(o, others), rest);
    IndentGrows(level);
  }

  /** A deeper node line starts a child. */
  lemma FirstChildStep(o: CostOracle, lines: seq<Line>, depth: nat, level: nat, parent: PlanNode, child: PlanNode, after: seq<Line>)
    requires lines != [] && lines[0].isNode && lines[0].indent == Indent(level + 1) / 2
    requires depth < MAX_PLAN_DEPTH
    requires ParseNode(o.readable, lines, depth + 1) == Expected(child, after, depth + 1 + MaxDepth(child) > MAX_PLAN_DEPTH)
    ensures ParseBody(o.readable, lines, depth, Indent(level) / 2, parent)
         == if depth + 1 + MaxDepth(child) > MAX_PLAN_DEPTH then Err(MaxDepthExceeded)
            else ParseBody(o.readable, after, depth, Indent(level) / 2, WithChild(parent, child))
  {
    IndentGrows(level);
  }

  // ---- Text back to the lines ----

  predicate RowOk(u: Tables, row: Row) {
    OneLine(u, row.content)
  }

  predicate RowsOk(u: Tables, rows: seq<Row>)
    decreases |rows|
  {
    rows != [] ==> RowOk(u, rows[0]) && RowsOk(u, rows[1..])
  }

  lemma {:induction false} RowsOkAppend(u: Tables, a: seq<Row>, b: seq<Row>)
    requires RowsOk(u, a) && RowsOk(u, b)
    ensures RowsOk(u, a + b)
    decreases |a|
  {
    if a == [] {
      assert a + b == b;
    } else {
      HeadTail(a, b);
      RowsOkAppend(u, a[1..], b);
    }
  }

  lemma {:induction false} PropertyRowsOk(u: Tables, o: CostOracle, properties: seq<Text>, level: nat)
    requires PropertyLines(u, o, properties)
    ensures RowsOk(u, PropertyRows(properties, level))
    decreases |properties|
  {
    if properties != [] {
      PropertyRowsOk(u, o, properties[1..], level);
    }
  }

  lemma {:induction false} NodeRowsOk(u: Tables, o: CostOracle, node: PlanNode, level: nat)
    requires Printable(u, o, node)
    ensures RowsOk(u, Rows(node, level))
    decreases node, 1
  {
    PropertyRowsOk(u, o, node.properties, level + 1);
    AllRowsOk(u, o, node.children, level + 1);
    RowsOkAppend(u, PropertyRows(node.properties, level + 1), RowsOfAll(node.children, level + 1));
  }

  lemma {:induction false} AllRowsOk(u: Tables, o: CostOracle, nodes: seq<PlanNode>, level: nat)
    requires PrintableAll(u, o, nodes)
    ensures RowsOk(u, RowsOfAll(nodes, level))
    decreases nodes, 0
  {
    if nodes != [] {
      NodeRowsOk(u, o, nodes[0], level);
      AllRowsOk(u, o, nodes[1..], level);
      RowsOkAppend(u, Rows(nodes[0], level), RowsOfAll(nodes[1..], level));
    }
  }

  lemma {:induction false} SpacesAreSpaces(n: nat)
    ensures forall i :: 0 <= i < n ==> Spaces(n)[i] == SPACE
  {
    if n > 0 {
      SpacesAreSpaces(n - 1);
    }
  }

  lemma {:induction false} IndentedReads(u: Tables, n: nat, content: Text)
    requires OneLine(u, content)
    ensures LeadingSpaces(Spaces(n) + content) == n
    ensures TrimStart(u, Spaces(n) + content) == content
  {
    if n == 0 {
      assert Spaces(n) + content == content;
    } else {
      HeadTail(Spaces(n), content);
      assert Spaces(n)[1..] == Spaces(n - 1);
      IndentedReads(u, n - 1, content);
    }
  }

  lemma RowReadsBack(u: Tables, o: CostOracle, row: Row)
    requires RowOk(u, row)
    ensures ReadLine(u, o, WithoutTerminator(RowText(row))) == [AsLine(o, row)]
  {
    var n := Indent(row.level);
    var bare := Spaces(n) + row.content;
    assert RowText(row) == bare + [NEWLINE];
    assert bare[|bare| - 1] == row.content[|row.content| - 1];
    assert WithoutTerminator(RowText(row)) == bare;
    IndentedReads(u, n, row.content);
    assert TrimEnd(u, bare) == bare;
  }

  lemma RowIsLine(u: Tables, row: Row)
    requires RowOk(u, row)
    ensures IsLine(RowText(row), NEWLINE, false)
  {
    SpacesAreSpaces(Indent(row.level));
  }

  lemma {:induction false} RowsReadBack(u: Tables, o: CostOracle, rows: seq<Row>)
    requires RowsOk(u, rows)
    ensures IsSplit(RowTexts(rows), NEWLINE)
    ensures ReadLines(u, o, RowTexts(rows)) == AsLines(o, rows)
    decreases |rows|
  {
    if rows != [] {
      RowIsLine(u, rows[0]);
      RowReadsBack(u, o, rows[0]);
      RowsReadBack(u, o, rows[1..]);
      var texts := RowTexts(rows);
      assert texts[0] == RowText(rows[0]) && texts[1..] == RowTexts(rows[1..]);
    }
  }

  lemma PrintedLinesReadBack(u: Tables, o: CostOracle, node: PlanNode)
    requires Printable(u, o, node)
    ensures ParseLines(u, o, PrintTree(node)) == AsLines(o, Rows(node, 0))
  {
    NodeRowsOk(u, o, node, 0);
    RowsReadBack(u, o, Rows(node, 0));
    SplitUnique(RowTexts(Rows(node, 0)), NEWLINE);
  }

  /**
   * Printing any tree and parsing the text gives the tree back, properties on
   * their nodes and children in order, exactly when it is not nested too deep.
   */
  lemma PrintedTreeParsesBack(u: Tables, o: CostOracle, node: PlanNode)
    requires Printable(u, o, node)
    ensures ParsePlan(u, o, PrintTree(node)) == if MaxDepth(node) <= MAX_PLAN_DEPTH then Some(node) else None
  {
    var lines := AsLines(o, Rows(node, 0));
    PrintedLinesReadBack(u, o, node);
    assert lines + [] == lines;
    NodeReadsBack(u, o, node, 0, 0, []);
  }
}
