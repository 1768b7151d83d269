/**
 * What the older formatter promises: how `simplify_method_label` cuts and cleans a
 * signature (and how it relates to the newer `simplify_method_signature`), which pairs
 * the extraction loop collects and which nodes, how the labels are clustered, and the
 * size, order and shape of the document `convert_to_clean_graphviz` writes.
 */
module CleanGraphvizProps {
  import opened Wrappers
  import opened PyStrings
  import opened Signature
  import opened SignatureShape
  import opened Grouping
  import opened DotHeader
  import opened CleanGraphviz
  import CallGraphModel

  // ---------------------------------------------------------------------------
  // simplify_method_label
  // ---------------------------------------------------------------------------

  /** The label splits at its first '.' into the short class name, which holds no '.',
      and the method name, which holds no `<init>` and is the method name of the
      signature itself when that had none. */
  lemma LabelParts(raw: string)
    requires Simplifiable(raw)
    ensures var r := SimplifyMethodLabel(raw);
      r == ClassOf(r) + "." + MethodOf(r)
      && ClassOf(r) == ShortClassName(Inner(raw)) && '.' !in ClassOf(r)
      && !IsSubstring("<init>", MethodOf(r))
      && (!IsSubstring("<init>", MethodName(Inner(raw))) ==> MethodOf(r) == MethodName(Inner(raw)))
  {
    CleanMethodNameRemovesInit(MethodName(Inner(raw)));
  }

  /** The two versions agree on every signature both accept, up to the renaming of
      `<init>`: the newer one's label is the class and the raw method name, the older
      one's the class and the cleaned method name. */
  lemma VersionsAgree(raw: string)
    requires Simplifiable(raw)
    ensures CallGraphModel.Exportable(raw)
    ensures CallGraphModel.ClusterKey(raw) == ClassOf(SimplifyMethodLabel(raw))
    ensures MethodOf(SimplifyMethodLabel(raw)) == CleanMethodName(CallGraphModel.MethodOnly(raw))
    ensures !IsSubstring("<init>", CallGraphModel.MethodOnly(raw))
      ==> SimplifyMethodLabel(raw) == CallGraphModel.CallGraph.SimplifyMethodSignature(raw)
  {
    CallGraphModelWithColon(raw);
    LabelParts(raw);
  }

  /** The newer version's cut of a signature with a ':' and a method name. */
  lemma CallGraphModelWithColon(raw: string)
    requires Simplifiable(raw)
    ensures CallGraphModel.Exportable(raw)
    ensures CallGraphModel.CallGraph.SimplifyMethodSignature(raw) == ShortClassName(Inner(raw)) + "." + MethodName(Inner(raw))
    ensures CallGraphModel.ClusterKey(raw) == ShortClassName(Inner(raw))
    ensures CallGraphModel.MethodOnly(raw) == MethodName(Inner(raw))
  {
    var inner := Inner(raw);
    var c, m := ShortClassName(inner), MethodName(inner);
    assert CallGraphModel.Simplifiable(raw);
    assert CallGraphModel.CallGraph.SimplifyMethodSignature(raw) == c + "." + m;
    assert c + "." + m == c + ['.'] + m;
    SplitOnceAt(c, '.', m);
  }

  /** The docstring's example: `<com.kuleuven.library.Book: void <init>(java.lang.String)>`
      becomes `Book.constructor`. */
  lemma SimplifyLabelExample(sig: string)
    requires sig == "<com.kuleuven.library.Book: void <init>(java.lang.String)>"
    ensures Simplifiable(sig) && SimplifyMethodLabel(sig) == "Book.constructor"
  {
    DocSignature();
    DocWords();
    ShapeParts(sig, "com.kuleuven.library", "Book", "void", "<init>", "java.lang.String");
    InitCleaned("<init>");
    var r := SimplifyMethodLabel(sig);
    SplitsBack(r);
    assert r == "Book" + "." + "constructor";
    ExampleLabel(r);
  }

  /** A label is its class, a '.', and its method part. */
  lemma SplitsBack(r: Label)
    requires '.' in r
    ensures r == ClassOf(r) + "." + MethodOf(r)
  {
  }

  /** `"<init>".replace("<init>", "constructor")`. */
  lemma InitCleaned(m: string)
    requires m == "<init>"
    ensures CleanMethodName(m) == "constructor"
  {
    assert StartsWith(m, "<init>");
    assert m[|"<init>"|..] == [];
    assert ReplaceAll([], "<init>", "constructor") == [];
  }

  /** The example's label, spelled out. */
  lemma ExampleLabel(r: string)
    requires r == "Book" + "." + "constructor"
    ensures r == "Book.constructor"
  {
  }

  // ---------------------------------------------------------------------------
  // The extraction loop
  // ---------------------------------------------------------------------------

  /** The edge list of a text made of two runs of lines is that of the first run followed
      by that of the second: pairs keep the order of their lines. */
  lemma {:induction false} EdgesOfAppend(a: seq<string>, b: seq<string>, search: Search)
    requires AllConvertible(a + b, search)
    ensures AllConvertible(a, search) && AllConvertible(b, search)
    ensures EdgesOf(a + b, search) == EdgesOf(a, search) + EdgesOf(b, search)
    decreases |b|
  {
    ConvertibleParts(a, b, search);
    if b != [] {
      var init, last := b[..|b| - 1], b[|b| - 1];
      var ab := a + b;
      assert ab[..|ab| - 1] == a + init;
      assert ab[|ab| - 1] == last;
      EdgesOfLast(ab, search);
      EdgesOfLast(b, search);
      EdgesOfAppend(a, init, search);
      AppendAssoc(EdgesOf(a, search), EdgesOf(init, search), LineEdges(last, search));
    } else {
      assert a + b == a;
    }
  }

  /** The edge list of some lines: that of all but the last, then what the last adds. */
  lemma EdgesOfLast(lines: seq<string>, search: Search)
    requires AllConvertible(lines, search) && lines != []
    ensures AllConvertible(lines[..|lines| - 1], search)
    ensures EdgesOf(lines, search) == EdgesOf(lines[..|lines| - 1], search) + LineEdges(lines[|lines| - 1], search)
  {
    ConvertiblePrefix(lines, search, |lines| - 1);
  }

  /** Both runs of a convertible text are convertible. */
  lemma ConvertibleParts(a: seq<string>, b: seq<string>, search: Search)
    requires AllConvertible(a + b, search)
    ensures AllConvertible(a, search) && AllConvertible(b, search)
  {
    forall i | 0 <= i < |a| ensures LineConvertible(a[i], search) {
      assert (a + b)[i] == a[i];
    }
    forall i | 0 <= i < |b| ensures LineConvertible(b[i], search) {
      assert (a + b)[|a| + i] == b[i];
    }
  }

  /** A single line contributes its pair when the pattern matches it and nothing when it
      does not. */
  lemma EdgesOfLine(line: string, search: Search)
    requires LineConvertible(line, search)
    ensures AllConvertible([line], search)
    ensures search(line).Some? ==> EdgesOf([line], search) == [PairOf(line, search)]
    ensures search(line).None? ==> EdgesOf([line], search) == []
  {
    var ls := [line];
    assert ls[0] == line && ls[..0] == [];
    ConvertiblePrefix(ls, search, 0);
    assert EdgesOf(ls, search) == EdgesOf([], search) + LineEdges(line, search);
  }

  /** The node set holds exactly the endpoints of the pairs: every source and destination
      is a node, and every node is the source or destination of some pair. */
  lemma {:induction false} NodesAreEndpoints(es: seq<Pair>, n: Label)
    ensures n in Endpoints(es) <==> exists t :: 0 <= t < |es| && (es[t].src == n || es[t].dst == n)
  {
    if es != [] {
      var init := es[..|es| - 1];
      NodesAreEndpoints(init, n);
      if n in Endpoints(init) {
        var t :| 0 <= t < |init| && (init[t].src == n || init[t].dst == n);
        assert es[t] == init[t];
      }
      if exists t :: 0 <= t < |es| && (es[t].src == n || es[t].dst == n) {
        var t :| 0 <= t < |es| && (es[t].src == n || es[t].dst == n);
        if t < |init| {
          assert init[t] == es[t];
        }
      }
    }
  }

  // ---------------------------------------------------------------------------
  // The clusters
  // ---------------------------------------------------------------------------

  /** The clusters partition the nodes by the text before their first '.': every node
      lies in the cluster of its class and in no other, only nodes lie in clusters, and
      no cluster is empty. */
  lemma ClustersPartition(nodes: set<Label>)
    ensures forall n :: n in nodes ==>
      (ClassOf(n) in GroupKeys(nodes, KeyMap(nodes)) && n in Group(nodes, KeyMap(nodes), ClassOf(n)))
    ensures forall n, k :: n in Group(nodes, KeyMap(nodes), k) ==> n in nodes && k == ClassOf(n)
    ensures forall k :: k in GroupKeys(nodes, KeyMap(nodes)) ==> Group(nodes, KeyMap(nodes), k) != {}
  {
    GroupsPartition(nodes, KeyMap(nodes));
  }

  /** Every endpoint of a pair collected from a line is clustered under the short class
      name of its signature. */
  lemma EndpointCluster(line: string, search: Search)
    requires search(line).Some? && LineConvertible(line, search)
    ensures ClassOf(PairOf(line, search).src) == ShortClassName(Inner("<" + search(line).value.0 + ">"))
    ensures ClassOf(PairOf(line, search).dst) == ShortClassName(Inner("<" + search(line).value.1 + ">"))
  {
  }

  // ---------------------------------------------------------------------------
  // The document
  // ---------------------------------------------------------------------------

  /** Each cluster contributes its three opening lines, one line per member and the
      closing brace. */
  lemma {:induction false} ClusterLinesLength(nodes: set<Label>, keyOf: map<Label, string>, ks: seq<string>)
    requires keyOf.Keys == nodes && AllDotted(nodes)
    ensures |ClusterLines(nodes, keyOf, ks)| == 4 * |ks| + GroupSizes(nodes, keyOf, ks)
  {
    if ks != [] {
      ClusterLinesLength(nodes, keyOf, ks[..|ks| - 1]);
    }
  }

  /** The document has 9 header lines, 4 lines per cluster, one line per node, one line
      per edge and the closing brace. */
  lemma CleanLineCount(edges: seq<Pair>, nodes: set<Label>)
    requires AllDotted(nodes)
    ensures |CleanLinesFor(edges, nodes, KeyMap(nodes))|
      == 10 + 4 * |GroupKeys(nodes, KeyMap(nodes))| + |nodes| + |edges|
  {
    var keyOf := KeyMap(nodes);
    var ks := SortedSet(GroupKeys(nodes, keyOf));
    ClusterLinesLength(nodes, keyOf, ks);
    GroupSizesTotal(nodes, keyOf);
  }

  /** The document opens with the header and closes with '}'; just before the brace come
      the edge lines, one per pair in list order, duplicates kept. */
  lemma CleanLayout(edges: seq<Pair>, nodes: set<Label>)
    requires AllDotted(nodes)
    ensures var d := CleanLinesFor(edges, nodes, KeyMap(nodes));
      |d| >= 10 + |edges| && d[..9] == HeaderLines() && d[|d| - 1] == "}"
      && forall t :: 0 <= t < |edges| ==> d[|d| - 1 - |edges| + t] == EdgeLine(edges[t])
  {
    var keyOf := KeyMap(nodes);
    var h, c, tail := HeaderLines(), ClusterLines(nodes, keyOf, SortedSet(GroupKeys(nodes, keyOf))), EdgeLines(edges);
    var d := CleanLinesFor(edges, nodes, keyOf);
    assert d == h + c + tail + ["}"];
    ConcatEnds(h + c, tail, ["}"]);
    ConcatPrefix(h, c, tail + ["}"]);
    AppendAssoc(h + c, tail, ["}"]);
    forall t | 0 <= t < |edges| ensures d[|h| + |c| + t] == EdgeLine(edges[t]) {
      ConcatMiddle(h + c, tail, ["}"], t);
      EdgeLinesAt(edges, t);
    }
  }

  /** The clusters are written in strictly ascending class-name order, each class once. */
  lemma ClustersAscending(edges: seq<Pair>, nodes: set<Label>)
    requires AllDotted(nodes)
    ensures var keyOf := KeyMap(nodes);
      var ks := SortedSet(GroupKeys(nodes, keyOf));
      StrictlySorted(ks) && (forall k :: k in ks <==> k in GroupKeys(nodes, keyOf))
      && CleanLinesFor(edges, nodes, keyOf)
         == HeaderLines() + ClusterLines(nodes, keyOf, ks) + EdgeLines(edges) + ["}"]
  {
  }

  /** A cluster's block: the three opening lines, then the line of each member in strictly
      ascending order, then the closing brace; a member's line labels it with the text
      after its first '.'. */
  lemma ClusterBlockLayout(cls: string, members: set<Label>)
    requires AllDotted(members)
    ensures var b := ClusterBlock(cls, members);
      var ms := SortedSet(members);
      b[..3] == ClusterOpening(cls) && b[|b| - 1] == "    }"
      && StrictlySorted(ms) && (forall n :: n in ms <==> n in members)
      && (forall t :: 0 <= t < |ms| ==> '.' in ms[t] && b[3 + t] == NodeLine(ms[t]))
  {
    var b := ClusterBlock(cls, members);
    var ms := SortedSet(members);
    SortedDotted(members);
    var o := ClusterOpening(cls);
    var nl := NodeLines(ms);
    assert b == o + nl + ["    }"];
    ConcatPrefix(o, nl, ["    }"]);
    forall t | 0 <= t < |ms| ensures b[3 + t] == NodeLine(ms[t]) {
      ConcatMiddle(o, nl, ["    }"], t);
      NodeLinesAt(ms, t);
    }
  }

  /** `convert_to_clean_graphviz` as a whole: for the pairs of the input's matching lines
      and their endpoints, the document has the size and the frame stated above. */
  lemma ConvertedDocument(input: string, search: Search)
    requires AllConvertible(SplitLines(input), search)
    ensures var edges := EdgesOf(SplitLines(input), search);
      var nodes := Endpoints(edges);
      var d := CleanLines(input, search);
      AllDotted(nodes)
      && |d| == 10 + 4 * |GroupKeys(nodes, KeyMap(nodes))| + |nodes| + |edges|
      && d[..9] == HeaderLines() && d[|d| - 1] == "}"
  {
    var edges := EdgesOf(SplitLines(input), search);
    var nodes := Endpoints(edges);
    EndpointsDotted(edges);
    assert CleanLines(input, search) == CleanLinesFor(edges, nodes, KeyMap(nodes));
    CleanLineCount(edges, nodes);
    CleanLayout(edges, nodes);
  }

}
