/**
 * What the newer formatter promises: how `simplify_method_signature` cuts a signature,
 * how `get_clusters` partitions the nodes, what the edge key looks like and when it is
 * valid, and the shape, order and colouring of the document `export_to_dot` writes.
 */
module CallGraphProps {
  import opened Wrappers
  import opened PyStrings
  import opened Signature
  import opened Grouping
  import opened DotHeader
  import ScoreFormat
  import opened CallGraphModel
  import opened SignatureShape

  // ---------------------------------------------------------------------------
  // simplify_method_signature
  // ---------------------------------------------------------------------------

  /** Without ':' in what is left after the brackets are stripped, the result is that text:
      every leading and every trailing '<' or '>' is gone, however many there were. */
  lemma SimplifyWithoutColon(pre: string, core: string, post: string)
    requires forall k :: 0 <= k < |pre| ==> IsAngle(pre[k])
    requires forall k :: 0 <= k < |post| ==> IsAngle(post[k])
    requires core == [] || (!IsAngle(core[0]) && !IsAngle(core[|core| - 1]))
    requires ':' !in core
    ensures Simplifiable(pre + core + post)
    ensures CallGraph.SimplifyMethodSignature(pre + core + post) == core
  {
    StripWrapped(pre, core, post, IsAngle);
  }

  /** With a ':', the result is the short class name, a '.', and the method name; the
      class name holds no '.', so the cluster key (the text before the first '.') is the
      short class name and the node label (the text after it) is the method name. */
  lemma SimplifyWithColon(sig: Node)
    requires ':' in Inner(sig) && HasMethodName(Inner(sig))
    ensures Simplifiable(sig) && Exportable(sig)
    ensures CallGraph.SimplifyMethodSignature(sig) == ShortClassName(Inner(sig)) + "." + MethodName(Inner(sig))
    ensures ClusterKey(sig) == ShortClassName(Inner(sig)) && '.' !in ClusterKey(sig)
    ensures MethodOnly(sig) == MethodName(Inner(sig))
  {
    var inner := Inner(sig);
    var c, m := ShortClassName(inner), MethodName(inner);
    var s := c + "." + m;
    assert CallGraph.SimplifyMethodSignature(sig) == s;
    assert s == c + ['.'] + m;
    SplitOnceAt(c, '.', m);
    assert s[|c|] == '.';
  }

  /** A signature of the usual shape `<pkg.Short: ret name(args)>` simplifies to
      `Short.name`: its cluster key is the short class name and its label the method name. */
  lemma SimplifyShape(sig: Node, pkg: string, short: string, ret: string, name: string, args: string)
    requires sig == "<" + pkg + "." + short + ": " + ret + " " + name + "(" + args + ")>"
    requires pkg != [] && !IsAngle(pkg[0]) && ':' !in pkg
    requires ':' !in short && '.' !in short
    requires ret != [] && NoSpace(ret) && '(' !in ret
    requires name != [] && NoSpace(name) && '(' !in name
    ensures Exportable(sig) && CallGraph.SimplifyMethodSignature(sig) == short + "." + name
    ensures ClusterKey(sig) == short && MethodOnly(sig) == name
  {
    ShapeParts(sig, pkg, short, ret, name, args);
    SimplifyWithColon(sig);
  }

  /** The example of the docstring: `<com.kuleuven.library.Book: void <init>(java.lang.String)>`
      becomes `Book.<init>`. */
  lemma SimplifyDocExample(sig: Node)
    requires sig == "<com.kuleuven.library.Book: void <init>(java.lang.String)>"
    ensures Exportable(sig) && CallGraph.SimplifyMethodSignature(sig) == "Book.<init>"
  {
    DocSignature();
    DocWords();
    SimplifyShape(sig, "com.kuleuven.library", "Book", "void", "<init>", "java.lang.String");
    var r := CallGraph.SimplifyMethodSignature(sig);
    assert r == "Book" + "." + "<init>";
    DocResult(r);
  }

  /** The docstring's result, spelled out. */
  lemma DocResult(r: string)
    requires r == "Book" + "." + "<init>"
    ensures r == "Book.<init>"
  {
  }

  // ---------------------------------------------------------------------------
  // get_clusters
  // ---------------------------------------------------------------------------

  /** The clusters partition the nodes: every node lies in the cluster of its own key and
      in no other, only nodes lie in clusters, and no cluster is empty. */
  lemma ClustersPartition(g: CallGraph)
    requires g.AllSimplifiable()
    ensures forall n :: n in g.nodes ==> ClusterKey(n) in g.ClusterKeys() && n in g.ClusterMembers(ClusterKey(n))
    ensures forall n, k :: n in g.ClusterMembers(k) ==> n in g.nodes && k == ClusterKey(n)
    ensures forall k :: k in g.ClusterKeys() ==> g.ClusterMembers(k) != {}
  {
    var keyOf := g.KeyMap();
    GroupsPartition(g.nodes, keyOf);
  }

  // ---------------------------------------------------------------------------
  // get_edge_key and is_valid_edge_key
  // ---------------------------------------------------------------------------

  /** The coverage score of an edge depends on its endpoints only, not on its label. */
  lemma EdgeScoreIgnoresLabel(g: CallGraph, e: Edge, other: Option<string>)
    ensures g.EdgeScore(e) == g.EdgeScore(Edge(e.src, e.dst, other))
  {
  }

  /** Two endpoints without '"' can be read back from their key. */
  lemma EdgeKeyInjective(s1: Node, d1: Node, s2: Node, d2: Node)
    requires '"' !in s1 && '"' !in s2
    requires CallGraph.GetEdgeKey(s1, d1) == CallGraph.GetEdgeKey(s2, d2)
    ensures s1 == s2 && d1 == d2
  {
    var key := CallGraph.GetEdgeKey(s1, d1);
    var body := key[1..];
    assert body == s1 + ("\"->\"" + d1 + "\"");
    assert body == s2 + ("\"->\"" + d2 + "\"");
    assert body[..|s1|] == s1 && body[|s1|] == '"';
    assert body[..|s2|] == s2 && body[|s2|] == '"';
    IndexOfIs(body, '"', |s1|);
    IndexOfIs(body, '"', |s2|);
    assert key[|s1| + 5..|key| - 1] == d1;
    assert key[|s2| + 5..|key| - 1] == d2;
  }

  /** `rstrip` keeps a text that does not end in a dropped character. */
  lemma RStripKeeps(s: string, drop: char -> bool)
    requires s == [] || !drop(s[|s| - 1])
    ensures RStrip(s, drop) == s
  {
  }

  /** `lstrip` keeps a text that does not start with a dropped character. */
  lemma LStripKeeps(s: string, drop: char -> bool)
    requires s == [] || !drop(s[0])
    ensures LStrip(s, drop) == s
  {
  }

  /** A bracketed signature on one line, in double quotes, matches `"<.*>"`. */
  lemma QuotedSignature(sig: Node)
    requires sig != [] && sig[0] == '<' && sig[|sig| - 1] == '>' && '\n' !in sig
    ensures QuotedAngle("\"" + sig + "\"")
  {
    var t := "\"" + sig + "\"";
    assert t[..2] == "\"<";
    assert t[|t| - 2..] == ">\"";
    assert t[2..|t| - 2] == sig[1..|sig| - 1];
  }

  /** The key of two bracketed signatures on one line matches `EDGE_KEY_PATTERN`. */
  lemma EdgeKeyValid(src: Node, dst: Node)
    requires src != [] && src[0] == '<' && src[|src| - 1] == '>' && '\n' !in src
    requires dst != [] && dst[0] == '<' && dst[|dst| - 1] == '>' && '\n' !in dst
    ensures CallGraph.IsValidEdgeKey(CallGraph.GetEdgeKey(src, dst))
  {
    var key := CallGraph.GetEdgeKey(src, dst);
    var left := "\"" + src + "\"";
    var right := "\"" + dst + "\"";
    assert key == left + "->" + right;
    QuotedSignature(src);
    QuotedSignature(dst);
    ArrowJoin(left, right);
    assert SplitsAt(key, |left|);
  }

  /** Two texts matching `"<.*>"`, joined by `->`, match the pattern with the arrow
      between them. */
  lemma ArrowJoin(left: string, right: string)
    requires QuotedAngle(left) && QuotedAngle(right)
    ensures SplitsAt(left + "->" + right, |left|)
  {
    var b := left + "->" + right;
    assert b[..|left|] == left;
    assert b[|left| + 2..] == right;
    RStripKeeps(left, IsSpace);
    LStripKeeps(right, IsSpace);
  }

  // ---------------------------------------------------------------------------
  // export_to_dot: size and layout
  // ---------------------------------------------------------------------------

  /** Each cluster contributes its three opening lines, one line per member and the
      closing brace. */
  lemma {:induction false} ClusterLinesLength(g: CallGraph, keyOf: map<Node, string>, ks: seq<string>)
    requires keyOf.Keys == g.nodes && g.AllExportable()
    ensures |g.ClusterLines(keyOf, ks)| == 4 * |ks| + GroupSizes(g.nodes, keyOf, ks)
  {
    if ks != [] {
      ClusterLinesLength(g, keyOf, ks[..|ks| - 1]);
    }
  }

  /** The document has 9 header lines, 4 lines per cluster, one line per node, one line
      per edge and the closing brace. */
  lemma DotLineCount(g: CallGraph)
    requires g.AllExportable()
    ensures |g.DotLines()| == 10 + 4 * |g.ClusterKeys()| + |g.nodes| + |g.edges|
  {
    var keyOf := g.KeyMap();
    var ks := SortedSet(GroupKeys(g.nodes, keyOf));
    ClusterLinesLength(g, keyOf, ks);
    GroupSizesTotal(g.nodes, keyOf);
  }

  /** The document opens with the header and closes with '}'; just before the brace come
      the edge lines, one per edge in list order, duplicates kept. */
  lemma DotLayout(g: CallGraph)
    requires g.AllExportable()
    ensures var d := g.DotLines();
      |d| >= 10 + |g.edges| && d[..9] == HeaderLines() && d[|d| - 1] == "}"
      && forall t :: 0 <= t < |g.edges| ==> d[|d| - 1 - |g.edges| + t] == g.EdgeLine(g.edges[t])
  {
    DotLayoutFor(g, g.KeyMap());
  }

  /** `DotLayout`, for any grouping of the nodes. */
  lemma DotLayoutFor(g: CallGraph, keyOf: map<Node, string>)
    requires keyOf.Keys == g.nodes && g.AllExportable()
    ensures var d := g.DotLinesFor(keyOf);
      |d| >= 10 + |g.edges| && d[..9] == HeaderLines() && d[|d| - 1] == "}"
      && forall t :: 0 <= t < |g.edges| ==> d[|d| - 1 - |g.edges| + t] == g.EdgeLine(g.edges[t])
  {
    var h, c, tail := HeaderLines(), g.ClusterLines(keyOf, SortedSet(GroupKeys(g.nodes, keyOf))), g.EdgeLinesOf(g.edges);
    var d := g.DotLinesFor(keyOf);
    assert d == h + c + tail + ["}"];
    ConcatEnds(h + c, tail, ["}"]);
    ConcatPrefix(h, c, tail + ["}"]);
    AppendAssoc(h + c, tail, ["}"]);
    forall t | 0 <= t < |g.edges| ensures d[|h| + |c| + t] == g.EdgeLine(g.edges[t]) {
      ConcatMiddle(h + c, tail, ["}"], t);
      g.EdgeLinesAt(g.edges, t);
    }
  }

  /** The clusters are written in strictly ascending class-name order, each class once. */
  lemma ClustersAscending(g: CallGraph)
    requires g.AllExportable()
    ensures var ks := SortedSet(g.ClusterKeys());
      StrictlySorted(ks) && |ks| == |g.ClusterKeys()| && (forall k :: k in ks <==> k in g.ClusterKeys())
      && g.DotLines() == HeaderLines() + g.ClusterLines(g.KeyMap(), ks) + g.EdgeLinesOf(g.edges) + ["}"]
  {
  }

  /** A cluster's block: the opening lines, then the line of each member in strictly
      ascending signature order, then the closing brace. */
  lemma ClusterBlockLayout(g: CallGraph, k: string, members: set<Node>)
    requires members <= g.nodes && g.AllExportable()
    ensures var b := g.ClusterBlock(k, members);
      var ms := SortedSet(members);
      b[..3] == g.ClusterOpening(k, members) && b[|b| - 1] == "    }"
      && StrictlySorted(ms) && (forall n :: n in ms <==> n in members)
      && (forall t :: 0 <= t < |ms| ==> Exportable(ms[t]) && b[3 + t] == g.NodeLine(ms[t]))
  {
    var b := g.ClusterBlock(k, members);
    var ms := SortedSet(members);
    g.SortedExportable(members);
    var o := g.ClusterOpening(k, members);
    var nl := g.NodeLines(ms);
    assert b == o + nl + ["    }"];
    assert |o| == 3;
    ConcatPrefix(o, nl, ["    }"]);
    forall t | 0 <= t < |ms| ensures b[3 + t] == g.NodeLine(ms[t]) {
      ConcatMiddle(o, nl, ["    }"], t);
      g.NodeLinesAt(ms, t);
    }
  }

  // ---------------------------------------------------------------------------
  // export_to_dot: colouring and labels
  // ---------------------------------------------------------------------------

  /** `color="green", fontcolor="green"];`: how a green node or edge line ends. */
  function GreenTail(): string
  {
    GreenAttr(true) + "];"
  }

  /** A line made of `head`, the colour attributes and `];` ends in the green tail exactly
      when it is green, provided `head` does not end in '"'. */
  lemma GreenLineIff(head: string, green: bool)
    requires head != [] && head[|head| - 1] != '"'
    ensures EndsWith(head + GreenAttr(green) + "];", GreenTail()) <==> green
  {
    var line := head + GreenAttr(green) + "];";
    if green {
      assert line[|line| - |GreenTail()|..] == GreenTail();
    } else {
      assert line == head + "];";
      assert line[|line| - 3] == head[|head| - 1];
      assert GreenTail()[|GreenTail()| - 3] == '"';
    }
  }

  /** A node line ends in the green attributes exactly when the node's coverage, 0 when it
      has none, is positive. */
  lemma NodeGreenIff(g: CallGraph, raw: Node)
    requires Exportable(raw)
    ensures EndsWith(g.NodeLine(raw), GreenTail())
      <==> (raw in g.nodeCoverage && g.nodeCoverage[raw] > 0.0)
  {
    var head := "        \"" + raw + "\" [label=\"" + g.NodeLabel(raw) + "\" ";
    assert head[|head| - 1] == ' ';
    assert g.NodeLine(raw) == head + GreenAttr(g.NodeCovered(raw)) + "];";
    GreenLineIff(head, g.NodeCovered(raw));
  }

  /** The label and style lines of a cluster carry the green colour exactly when every
      member's coverage is positive. */
  lemma ClusterGreenIff(g: CallGraph, k: string, members: set<Node>)
    ensures var o := g.ClusterOpening(k, members);
      var green := forall raw :: raw in members ==> raw in g.nodeCoverage && g.nodeCoverage[raw] > 0.0;
      (EndsWith(o[1], "color=green; fontcolor=green;") <==> green)
      && (EndsWith(o[2], "color=green;") <==> green)
  {
    var o := g.ClusterOpening(k, members);
    if !g.AllCovered(members) {
      assert o[1][|o[1]| - 1] == ' ';
      assert o[2][|o[2]| - 1] == ' ';
    }
  }

  /** An edge line ends in the green attributes exactly when the edge-coverage entry of
      its key exists and is positive. */
  lemma EdgeGreenIff(g: CallGraph, e: Edge)
    ensures var key := CallGraph.GetEdgeKey(e.src, e.dst);
      EndsWith(g.EdgeLine(e), GreenTail()) <==> (key in g.edgeCoverage && g.edgeCoverage[key] > 0.0)
  {
    var head := EdgeHead(e) + (if HasLabel(e) then "label=\"" + e.edgeLabel.value + "\" " else "");
    assert head[|head| - 1] == if HasLabel(e) then ' ' else '[';
    GreenLineIff(head, g.EdgeCovered(e));
  }

  /** An edge line carries a `label="..."` attribute exactly when the label is present and
      not empty. */
  lemma EdgeLabelIff(g: CallGraph, e: Edge)
    ensures StartsWith(g.EdgeLine(e), EdgeHead(e) + "label=\"")
      <==> (e.edgeLabel.Some? && e.edgeLabel.value != "")
  {
    var line := g.EdgeLine(e);
    var head := EdgeHead(e);
    if HasLabel(e) {
      assert line == head + "label=\"" + e.edgeLabel.value + "\" " + GreenAttr(g.EdgeCovered(e)) + "];";
    } else {
      assert line == head + (GreenAttr(g.EdgeCovered(e)) + "];");
      assert line[|head|] == (if g.EdgeCovered(e) then 'c' else ']');
      assert (head + "label=\"")[|head|] == 'l';
    }
  }

  /** A node label is the text after the first '.' of the simplified signature, followed
      by the formatted ranking score exactly when the node has a ranking entry. */
  lemma NodeLabelShape(g: CallGraph, raw: Node)
    requires Exportable(raw)
    ensures CallGraph.SimplifyMethodSignature(raw) == ClusterKey(raw) + "." + MethodOnly(raw)
    ensures '.' !in ClusterKey(raw)
    ensures StartsWith(g.NodeLabel(raw), MethodOnly(raw))
    ensures raw in g.graphRanking ==>
      g.NodeLabel(raw)[|MethodOnly(raw)|..] == "\\n(" + ScoreFormat.FormatScore(g.graphRanking[raw]) + ")"
    ensures raw !in g.graphRanking ==> g.NodeLabel(raw) == MethodOnly(raw)
  {
    SimplifiedSplits(raw);
    if raw in g.graphRanking {
      var m := MethodOnly(raw);
      var f := ScoreFormat.FormatScore(g.graphRanking[raw]);
      assert g.NodeLabel(raw) == m + "\\n(" + f + ")";
      RankedLabel(m, f);
    }
  }

  /** The simplified signature is the cluster key, a '.', and the text after it. */
  lemma SimplifiedSplits(raw: Node)
    requires Exportable(raw)
    ensures CallGraph.SimplifyMethodSignature(raw) == ClusterKey(raw) + "." + MethodOnly(raw)
    ensures '.' !in ClusterKey(raw)
  {
    var r := SplitOnce(CallGraph.SimplifyMethodSignature(raw), '.');
    assert ClusterKey(raw) == r[0] && MethodOnly(raw) == r[1];
  }

  /** A label with a score is the method name followed by the bracketed score. */
  lemma RankedLabel(m: string, f: string)
    ensures StartsWith(m + "\\n(" + f + ")", m)
    ensures (m + "\\n(" + f + ")")[|m|..] == "\\n(" + f + ")"
  {
    AppendAssoc(m, "\\n(", f);
    AppendAssoc(m, "\\n(" + f, ")");
  }

  // ---------------------------------------------------------------------------
  // re.sub(r'[^A-Za-z0-9_]', '_', cls)
  // ---------------------------------------------------------------------------

  /** An identifier that is already safe is left as it is. */
  lemma SafeClusterIdKeeps(cls: string)
    requires forall i :: 0 <= i < |cls| ==> IsIdentChar(cls[i])
    ensures SafeClusterId(cls) == cls
  {
  }

  /** Making an identifier safe twice is making it safe once. */
  lemma SafeClusterIdIdempotent(cls: string)
    ensures SafeClusterId(SafeClusterId(cls)) == SafeClusterId(cls)
  {
    SafeClusterIdKeeps(SafeClusterId(cls));
  }

}
