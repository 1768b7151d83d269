/**
 * The newer formatter, CallGraph.py: a call graph whose nodes are full Java method
 * signatures and whose edges are (source, destination, optional label) triples, with
 * node coverage, edge coverage and ranking scores, exported as a Graphviz DOT document
 * in which nodes are clustered by declaring class and covered nodes, edges and fully
 * covered clusters are coloured green.
 */
module CallGraphModel {
  import opened Wrappers
  import opened PyStrings
  import opened Signature
  import opened Grouping
  import opened DotHeader
  import ScoreFormat

  /** A node is a full method signature, e.g. `<pkg.Cls: void m(int)>`. */
  type Node = string

  /** The key of an edge in the edge-coverage mapping: `"<src>"->"<dst>"`. */
  type EdgeKey = string

  /** An edge: source signature, destination signature and optional label (`str | None`). */
  datatype Edge = Edge(src: Node, dst: Node, edgeLabel: Option<string>)

  /** Python's `if label:` on a `str | None`: present and not empty. */
  predicate HasLabel(e: Edge)
  {
    e.edgeLabel.Some? && e.edgeLabel.value != ""
  }

  // ---------------------------------------------------------------------------
  // Signatures, labels and cluster keys
  // ---------------------------------------------------------------------------

  /** `simplify_method_signature(sig)` returns instead of raising IndexError: when the inner
      text has a ':', the text before the first '(' must hold a token. */
  predicate Simplifiable(sig: Node)
  {
    ':' in Inner(sig) ==> HasMethodName(Inner(sig))
  }

  /** The cluster of a node: `simplified.split(".", 1)[0]`. */
  function ClusterKey(raw: Node): string
    requires Simplifiable(raw)
  {
    SplitOnce(CallGraph.SimplifyMethodSignature(raw), '.')[0]
  }

  /** The export needs `simplified.split(".", 1)[1]`, which raises IndexError unless the
      simplified label has a '.'. */
  predicate Exportable(raw: Node)
  {
    Simplifiable(raw) && '.' in CallGraph.SimplifyMethodSignature(raw)
  }

  /** The node label before any ranking: `simplified.split(".", 1)[1]`. */
  function MethodOnly(raw: Node): string
    requires Exportable(raw)
  {
    SplitOnce(CallGraph.SimplifyMethodSignature(raw), '.')[1]
  }

  // ---------------------------------------------------------------------------
  // EDGE_KEY_PATTERN = ^"<.*>"\s*->\s*"<.*>"$
  // ---------------------------------------------------------------------------

  /** Text matched by `"<.*>"`, where `.` is any character but a newline. */
  predicate QuotedAngle(t: string)
  {
    |t| >= 4 && t[..2] == "\"<" && t[|t| - 2..] == ">\"" && '\n' !in t[2..|t| - 2]
  }

  /** `b` matches `"<.*>"\s*->\s*"<.*>"` with the arrow at position `i`. */
  predicate SplitsAt(b: string, i: int)
  {
    0 <= i <= |b| - 2 && b[i] == '-' && b[i + 1] == '>'
    && QuotedAngle(RStrip(b[..i], IsSpace)) && QuotedAngle(LStrip(b[i + 2..], IsSpace))
  }

  /** `b` matches `"<.*>"\s*->\s*"<.*>"` as a whole. */
  predicate EdgeKeyBody(b: string)
  {
    exists i :: 0 <= i <= |b| - 2 && SplitsAt(b, i)
  }

  // ---------------------------------------------------------------------------
  // Cluster identifiers: re.sub(r'[^A-Za-z0-9_]', '_', cls)
  // ---------------------------------------------------------------------------

  predicate IsIdentChar(c: char)
  {
    ('A' <= c <= 'Z') || ('a' <= c <= 'z') || ('0' <= c <= '9') || c == '_'
  }

  /** `re.sub(r'[^A-Za-z0-9_]', '_', cls)`: each character outside the class becomes '_'. */
  function SafeClusterId(cls: string): (r: string)
    ensures |r| == |cls|
    ensures forall i :: 0 <= i < |r| ==> r[i] == if IsIdentChar(cls[i]) then cls[i] else '_'
    ensures forall i :: 0 <= i < |r| ==> IsIdentChar(r[i])
  {
    if cls == [] then []
    else [if IsIdentChar(cls[0]) then cls[0] else '_'] + SafeClusterId(cls[1..])
  }

  /** The attributes that colour a node or an edge green. */
  function GreenAttr(green: bool): string
  {
    if green then "color=\"green\", fontcolor=\"green\"" else ""
  }

  /** The start of an edge line, up to the opening '['. */
  function EdgeHead(e: Edge): string
  {
    "    \"" + e.src + "\"->\"" + e.dst + "\"["
  }

  // ---------------------------------------------------------------------------
  // The graph
  // ---------------------------------------------------------------------------

  class CallGraph {
    /** The node set: full method signatures. */
    const nodes: set<Node>
    /** The edge list, duplicates allowed. */
    const edges: seq<Edge>
    /** Method signature to coverage score. */
    const nodeCoverage: map<Node, real>
    /** Edge key to coverage score. */
    const edgeCoverage: map<EdgeKey, real>
    /** Method signature to ranking score. */
    const graphRanking: map<Node, real>

    /** `__init__`: an absent (None) mapping becomes the empty mapping. */
    constructor (nodes: set<Node>, edges: seq<Edge>, nodeCoverage: Option<map<Node, real>>,
                 edgeCoverage: Option<map<EdgeKey, real>>, graphRanking: Option<map<Node, real>>)
      ensures this.nodes == nodes && this.edges == edges
      ensures this.nodeCoverage == if nodeCoverage.Some? then nodeCoverage.value else map[]
      ensures this.edgeCoverage == if edgeCoverage.Some? then edgeCoverage.value else map[]
      ensures this.graphRanking == if graphRanking.Some? then graphRanking.value else map[]
    {
      this.nodes := nodes;
      this.edges := edges;
      this.nodeCoverage := if nodeCoverage.Some? then nodeCoverage.value else map[];
      this.edgeCoverage := if edgeCoverage.Some? then edgeCoverage.value else map[];
      this.graphRanking := if graphRanking.Some? then graphRanking.value else map[];
    }

    /** `simplify_method_signature`: `<pkg.Cls: ret name(args)>` becomes `Cls.name`; an inner
        text without ':' is returned as it is. */
    static function SimplifyMethodSignature(sig: Node): string
      requires Simplifiable(sig)
    {
      var inner := Inner(sig);
      if ':' !in inner then inner
      else ShortClassName(inner) + "." + MethodName(inner)
    }

    /** `get_edge_key`: the endpoints, each quoted, joined by `->`; the label takes no part. */
    static function GetEdgeKey(src: Node, dst: Node): EdgeKey
    {
      "\"" + src + "\"->\"" + dst + "\""
    }

    /** `is_valid_edge_key`: `EDGE_KEY_PATTERN.match(key)` succeeds; Python's `$` also
        matches just before a final newline. */
    static predicate IsValidEdgeKey(key: EdgeKey)
    {
      EdgeKeyBody(key) || (key != [] && key[|key| - 1] == '\n' && EdgeKeyBody(key[..|key| - 1]))
    }

    predicate AllSimplifiable()
    {
      forall n :: n in nodes ==> Simplifiable(n)
    }

    predicate AllExportable()
    {
      forall n :: n in nodes ==> Exportable(n)
    }

    /** Each node's cluster key. */
    function KeyMap(): (m: map<Node, string>)
      requires AllSimplifiable()
      ensures m.Keys == nodes
    {
      map n | n in nodes :: ClusterKey(n)
    }

    /** The class names that `get_clusters` produces. */
    function ClusterKeys(): set<string>
      requires AllSimplifiable()
    {
      GroupKeys(nodes, KeyMap())
    }

    /** The raw signatures that `get_clusters` puts under class name `k`. */
    function ClusterMembers(k: string): set<Node>
      requires AllSimplifiable()
    {
      Group(nodes, KeyMap(), k)
    }

    /** `node_coverage.get(raw, 0)`. */
    function NodeScore(raw: Node): real
    {
      if raw in nodeCoverage then nodeCoverage[raw] else 0.0
    }

    predicate NodeCovered(raw: Node)
    {
      NodeScore(raw) > 0.0
    }

    /** `all(node_coverage.get(raw, 0) > 0 for raw in raw_nodes)`. */
    predicate AllCovered(members: set<Node>)
    {
      forall raw :: raw in members ==> NodeCovered(raw)
    }

    /** `cov_score` of an edge: 0, plus the edge-coverage entry of its key when there is one. */
    function EdgeScore(e: Edge): real
    {
      var key := GetEdgeKey(e.src, e.dst);
      0.0 + (if key in edgeCoverage then edgeCoverage[key] else 0.0)
    }

    predicate EdgeCovered(e: Edge)
    {
      EdgeScore(e) > 0.0
    }

    /** The three lines that open the subgraph of class `k` with members `members`. */
    function ClusterOpening(k: string, members: set<Node>): (lines: seq<string>)
    {
      var green := AllCovered(members);
      [ "    subgraph \"cluster_" + SafeClusterId(k) + "\" {",
        "        label = \"" + k + "\"; " + (if green then "color=green; fontcolor=green;" else ""),
        "        style=rounded; " + (if green then "color=green;" else "") ]
    }

    lemma OpeningIs(k: string, members: set<Node>, green: bool)
      requires green == AllCovered(members)
      ensures ClusterOpening(k, members)
        == [ "    subgraph \"cluster_" + SafeClusterId(k) + "\" {" ]
           + [ "        label = \"" + k + "\"; " + (if green then "color=green; fontcolor=green;" else "") ]
           + [ "        style=rounded; " + (if green then "color=green;" else "") ]
    {
    }

    /** `label_text`: the method name, followed by the formatted ranking score when the node
        has one. */
    function NodeLabel(raw: Node): string
      requires Exportable(raw)
    {
      if raw in graphRanking then MethodOnly(raw) + "\\n(" + ScoreFormat.FormatScore(graphRanking[raw]) + ")"
      else MethodOnly(raw)
    }

    /** The line of a node inside its cluster. */
    function NodeLine(raw: Node): string
      requires Exportable(raw)
    {
      "        \"" + raw + "\" [label=\"" + NodeLabel(raw) + "\" " + GreenAttr(NodeCovered(raw)) + "];"
    }

    /** The node lines of `ms`, in order. */
    function NodeLines(ms: seq<Node>): (lines: seq<string>)
      requires forall t :: 0 <= t < |ms| ==> Exportable(ms[t])
      ensures |lines| == |ms|
    {
      if ms == [] then [] else NodeLines(ms[..|ms| - 1]) + [NodeLine(ms[|ms| - 1])]
    }

    lemma NodeLinesNext(ms: seq<Node>, j: int)
      requires forall t :: 0 <= t < |ms| ==> Exportable(ms[t])
      requires 0 <= j < |ms|
      ensures NodeLines(ms[..j + 1]) == NodeLines(ms[..j]) + [NodeLine(ms[j])]
    {
      assert ms[..j + 1][..j] == ms[..j];
    }

    /** Line `t` of the node lines is the line of node `t`. */
    lemma {:induction false} NodeLinesAt(ms: seq<Node>, t: int)
      requires forall t :: 0 <= t < |ms| ==> Exportable(ms[t])
      requires 0 <= t < |ms|
      ensures NodeLines(ms)[t] == NodeLine(ms[t])
    {
      if t < |ms| - 1 {
        var init := ms[..|ms| - 1];
        NodeLinesAt(init, t);
        assert init[t] == ms[t];
      }
    }

    /** The lines of the subgraph of class `k` with members `members`: three opening lines,
        one line per member in ascending order, and the closing brace. */
    function ClusterBlock(k: string, members: set<Node>): (lines: seq<string>)
      requires members <= nodes && AllExportable()
      ensures |lines| == 4 + |members|
    {
      SortedExportable(members);
      ClusterOpening(k, members) + NodeLines(SortedSet(members)) + ["    }"]
    }

    lemma SortedExportable(members: set<Node>)
      requires members <= nodes && AllExportable()
      ensures forall t :: 0 <= t < |SortedSet(members)| ==> Exportable(SortedSet(members)[t])
    {
      var ms := SortedSet(members);
      forall t | 0 <= t < |ms| ensures Exportable(ms[t]) {
        assert ms[t] in members;
      }
    }

    /** The subgraphs of the classes `ks`, in that order, each with the members that the
        grouping `keyOf` gives it. */
    function ClusterLines(keyOf: map<Node, string>, ks: seq<string>): seq<string>
      requires keyOf.Keys == nodes && AllExportable()
    {
      if ks == [] then []
      else ClusterLines(keyOf, ks[..|ks| - 1]) + ClusterBlock(ks[|ks| - 1], Group(nodes, keyOf, ks[|ks| - 1]))
    }

    lemma ClusterLinesNext(keyOf: map<Node, string>, ks: seq<string>, i: int)
      requires keyOf.Keys == nodes && AllExportable() && 0 <= i < |ks|
      ensures ClusterLines(keyOf, ks[..i + 1])
        == ClusterLines(keyOf, ks[..i]) + ClusterBlock(ks[i], Group(nodes, keyOf, ks[i]))
    {
      assert ks[..i + 1][..i] == ks[..i];
    }

    /** The line of an edge. */
    function EdgeLine(e: Edge): string
    {
      EdgeHead(e) + (if HasLabel(e) then "label=\"" + e.edgeLabel.value + "\" " else "")
      + GreenAttr(EdgeCovered(e)) + "];"
    }

    /** The lines of the edges `es`, in order. */
    function EdgeLinesOf(es: seq<Edge>): (lines: seq<string>)
      ensures |lines| == |es|
    {
      if es == [] then [] else EdgeLinesOf(es[..|es| - 1]) + [EdgeLine(es[|es| - 1])]
    }

    lemma EdgeLinesNext(es: seq<Edge>, k: int)
      requires 0 <= k < |es|
      ensures EdgeLinesOf(es[..k + 1]) == EdgeLinesOf(es[..k]) + [EdgeLine(es[k])]
    {
      assert es[..k + 1][..k] == es[..k];
    }

    /** Line `t` of the edge lines is the line of edge `t`. */
    lemma {:induction false} EdgeLinesAt(es: seq<Edge>, t: int)
      requires 0 <= t < |es|
      ensures EdgeLinesOf(es)[t] == EdgeLine(es[t])
    {
      if t < |es| - 1 {
        var init := es[..|es| - 1];
        EdgeLinesAt(init, t);
        assert init[t] == es[t];
      }
    }

    /** All lines of the document that `export_to_dot` joins, for the grouping `keyOf`. */
    function DotLinesFor(keyOf: map<Node, string>): seq<string>
      requires keyOf.Keys == nodes && AllExportable()
    {
      HeaderLines() + ClusterLines(keyOf, SortedSet(GroupKeys(nodes, keyOf))) + EdgeLinesOf(edges) + ["}"]
    }

    /** All lines of the exported document: the clusters are those of `get_clusters`. */
    function DotLines(): seq<string>
      requires AllExportable()
    {
      DotLinesFor(KeyMap())
    }

    /** `get_clusters`: groups the raw signatures by the class name of their simplified
        label. The Python lists hold no duplicates (they are filled from a set) and only
        their sorted order is ever observed, so they are modelled as sets. */
    method GetClusters() returns (clusters: map<string, set<Node>>)
      requires AllSimplifiable()
      ensures clusters.Keys == ClusterKeys()
      ensures forall k :: k in clusters ==> clusters[k] == ClusterMembers(k)
    {
      clusters := map[];
      var rest := nodes;
      ghost var seen: set<Node> := {};
      ghost var keyOf := KeyMap();
      while rest != {}
        invariant rest <= nodes && seen == nodes - rest
        invariant clusters.Keys == GroupKeys(seen, keyOf)
        invariant forall k :: k in clusters ==> clusters[k] == Group(seen, keyOf, k)
        decreases rest
      {
        var raw :| raw in rest;
        var simplified := SimplifyMethodSignature(raw);
        var cls := SplitOnce(simplified, '.')[0];
        assert cls == keyOf[raw];
        GroupsAddOne(clusters, seen, keyOf, raw);
        clusters := clusters[cls := (if cls in clusters then clusters[cls] else {}) + {raw}];
        MoveOne(nodes, rest, seen, raw);
        rest := rest - {raw};
        seen := seen + {raw};
      }
    }

    /** `export_to_dot`: the header, one subgraph per cluster in class-name order with its
        nodes in signature order, one line per edge in list order, and the closing brace,
        joined by newlines. */
    method ExportToDot() returns (dot: string)
      requires AllExportable()
      ensures dot == JoinWith(DotLines(), "\n")
    {
      var lines := HeaderLines();
      var clusters := GetClusters();
      ghost var keyOf := KeyMap();
      var keys := SortedSet(clusters.Keys);
      var i := 0;
      while i < |keys|
        invariant 0 <= i <= |keys|
        invariant lines == HeaderLines() + ClusterLines(keyOf, keys[..i])
      {
        var block := EmitCluster(keys[i], clusters[keys[i]]);
        ClusterLinesNext(keyOf, keys, i);
        AppendAssoc(HeaderLines(), ClusterLines(keyOf, keys[..i]), block);
        lines := lines + block;
        i := i + 1;
      }
      TakeAll(keys);
      var tail := EmitEdges();
      lines := lines + tail + ["}"];
      dot := JoinWith(lines, "\n");
    }

    /** The body of the cluster loop of `export_to_dot` for class `cls` with members
        `rawNodes`: the three opening lines, one line per member in sorted order, and the
        closing brace. */
    method EmitCluster(cls: string, rawNodes: set<Node>) returns (block: seq<string>)
      requires rawNodes <= nodes && AllExportable()
      ensures block == ClusterBlock(cls, rawNodes)
    {
      var safeCls := SafeClusterId(cls);
      var allGreen := forall raw | raw in rawNodes :: (if raw in nodeCoverage then nodeCoverage[raw] else 0.0) > 0.0;
      block := ["    subgraph \"cluster_" + safeCls + "\" {"];
      block := block + ["        label = \"" + cls + "\"; " + (if allGreen then "color=green; fontcolor=green;" else "")];
      block := block + ["        style=rounded; " + (if allGreen then "color=green;" else "")];
      OpeningIs(cls, rawNodes, allGreen);
      var members := SortedSet(rawNodes);
      SortedExportable(rawNodes);
      var nodeLines := EmitNodes(members);
      block := block + nodeLines + ["    }"];
    }

    /** The node loop of `export_to_dot`: one line per member, in the given order. */
    method EmitNodes(members: seq<Node>) returns (nodeLines: seq<string>)
      requires forall t :: 0 <= t < |members| ==> Exportable(members[t])
      ensures nodeLines == NodeLines(members)
    {
      nodeLines := [];
      var j := 0;
      while j < |members|
        invariant 0 <= j <= |members|
        invariant nodeLines == NodeLines(members[..j])
      {
        var line := EmitNode(members[j]);
        NodeLinesNext(members, j);
        nodeLines := nodeLines + [line];
        j := j + 1;
      }
      TakeAll(members);
    }

    /** The body of the node loop of `export_to_dot`: the line of node `raw`. */
    method EmitNode(raw: Node) returns (line: string)
      requires Exportable(raw)
      ensures line == NodeLine(raw)
    {
      var simplified := SimplifyMethodSignature(raw);
      var methodOnly := SplitOnce(simplified, '.')[1];
      var labelText := if raw in graphRanking
        then methodOnly + "\\n(" + ScoreFormat.FormatScore(graphRanking[raw]) + ")"
        else methodOnly;
      var covScore := if raw in nodeCoverage then nodeCoverage[raw] else 0.0;
      var colorAttr := if covScore > 0.0 then "color=\"green\", fontcolor=\"green\"" else "";
      assert methodOnly == MethodOnly(raw);
      assert labelText == NodeLabel(raw);
      assert colorAttr == GreenAttr(NodeCovered(raw));
      line := "        \"" + raw + "\" [label=\"" + labelText + "\" " + colorAttr + "];";
    }

    /** The body of the edge loop of `export_to_dot`: the line of edge `e`. */
    method EmitEdge(e: Edge) returns (line: string)
      ensures line == EdgeLine(e)
    {
      var edgeKey := GetEdgeKey(e.src, e.dst);
      var covScore := 0.0;
      if edgeKey in edgeCoverage {
        covScore := covScore + edgeCoverage[edgeKey];
      }
      var colorAttr := if covScore > 0.0 then "color=\"green\", fontcolor=\"green\"" else "";
      assert colorAttr == GreenAttr(EdgeCovered(e));
      var head := "    \"" + e.src + "\"->\"" + e.dst + "\"[";
      assert head == EdgeHead(e);
      if e.edgeLabel.Some? && e.edgeLabel.value != "" {
        line := head + "label=\"" + e.edgeLabel.value + "\" " + colorAttr + "];";
        LabelledLine(head, e.edgeLabel.value, colorAttr + "];");
        AppendAssoc(head + ("label=\"" + e.edgeLabel.value + "\" "), colorAttr, "];");
      } else {
        line := head + colorAttr + "];";
        assert head + "" == head;
      }
    }

    /** The edge loop of `export_to_dot`: one line per edge, in list order. */
    method EmitEdges() returns (tail: seq<string>)
      ensures tail == EdgeLinesOf(edges)
    {
      tail := [];
      var k := 0;
      while k < |edges|
        invariant 0 <= k <= |edges|
        invariant tail == EdgeLinesOf(edges[..k])
      {
        var line := EmitEdge(edges[k]);
        EdgeLinesNext(edges, k);
        tail := tail + [line];
        k := k + 1;
      }
      TakeAll(edges);
    }
  }

  /** Regrouping the attribute text of a labelled edge line. */
  lemma LabelledLine(head: string, v: string, tail: string)
    ensures head + "label=\"" + v + "\" " + tail == head + ("label=\"" + v + "\" ") + tail
  {
    AppendAssoc(head, "label=\"", v);
    AppendAssoc(head, "label=\"" + v, "\" ");
  }

}
