/**
 * The older formatter, main.py: reads `src -> dst` pairs of full Java method signatures
 * out of the lines of a raw DOT export, collapses each endpoint to a short label
 * `Cls.method` (with `<init>` renamed to `constructor`) that then serves as the node's
 * identity, clusters the labels by class, and writes a clean DOT document.
 */
module CleanGraphviz {
  import opened Wrappers
  import opened PyStrings
  import opened Signature
  import opened Grouping
  import opened DotHeader

  /** A node of the clean graph: a simplified label such as `Book.constructor`. */
  type Label = string

  /** An edge of the clean graph, as the `(src, dst)` tuple of the edge list. */
  datatype Pair = Pair(src: Label, dst: Label)

  /** `pattern.search(line)` for the edge pattern `"?<(.*?)>"?\s*->\s*"?<(.*?)>"?;`: the
      two groups of the first match in a line, or None when nothing matches. The regular
      expression engine itself is not modelled; any such search may be supplied. */
  type Search = string -> Option<(string, string)>

  // ---------------------------------------------------------------------------
  // simplify_method_label
  // ---------------------------------------------------------------------------

  /** `simplify_method_label` returns instead of raising: the stripped text must hold a
      ':' (or the two-way unpacking raises ValueError) and its text before the first '('
      must hold a token (or `[-1]` raises IndexError). */
  predicate Simplifiable(raw: string)
  {
    ':' in Inner(raw) && HasMethodName(Inner(raw))
  }

  /** `method.replace("<init>", "constructor")`. */
  function CleanMethodName(m: string): string
  {
    ReplaceAll(m, "<init>", "constructor")
  }

  /** After the replacement no `<init>` is left, and a name without one is unchanged. */
  lemma CleanMethodNameRemovesInit(m: string)
    ensures !IsSubstring("<init>", CleanMethodName(m))
    ensures !IsSubstring("<init>", m) ==> CleanMethodName(m) == m
  {
    InitReplacement();
    ReplaceAllRemoves(m, "<init>", "constructor");
    if !IsSubstring("<init>", m) {
      ReplaceAllAbsent(m, "<init>", "constructor");
    }
  }

  /** Each `<init>` becomes `constructor`: the text before the first one is kept, that
      occurrence is replaced, and the text after it is cleaned in the same way. */
  lemma CleanMethodNameRenames(a: string, b: string)
    requires !IsSubstring("<init>", a)
    ensures CleanMethodName(a + "<init>" + b) == a + "constructor" + CleanMethodName(b)
  {
    InitReplacement();
    ReplaceAllFirst(a, "<init>", b, "constructor");
  }

  /** Neither can `constructor` start an `<init>`, nor can it complete one; and `<init>`
      starts no other occurrence of itself. */
  lemma InitReplacement()
    ensures '<' !in "constructor" && 'c' !in "<init>"[1..]
    ensures "<init>"[0] == '<' && '<' !in "<init>"[1..]
  {
    var rep, rest := "constructor", "<init>"[1..];
    assert rep == ['c', 'o', 'n', 's', 't', 'r', 'u', 'c', 't', 'o', 'r'];
    assert rest == ['i', 'n', 'i', 't', '>'];
  }

  /** The class of a label: `node.split(".", 1)[0]`. */
  function ClassOf(n: Label): (cls: string)
    ensures '.' !in cls && StartsWith(n, cls)
  {
    SplitOnce(n, '.')[0]
  }

  /** The method part of a label: `n.split(".", 1)[1]`, which needs a '.'. */
  function MethodOf(n: Label): (m: string)
    requires '.' in n
    ensures n == ClassOf(n) + "." + m
  {
    SplitOnce(n, '.')[1]
  }

  /** `simplify_method_label`: the short class name, a '.', and the method name with
      `<init>` replaced; the label splits back at its first '.' into exactly these two,
      because the short class name holds no '.'. */
  function SimplifyMethodLabel(raw: string): (r: Label)
    requires Simplifiable(raw)
    ensures '.' in r
    ensures ClassOf(r) == ShortClassName(Inner(raw))
    ensures MethodOf(r) == CleanMethodName(MethodName(Inner(raw)))
  {
    var inner := Inner(raw);
    var clsShort := ShortClassName(inner);
    var methodName := CleanMethodName(MethodName(inner));
    SplitOnceAt(clsShort, '.', methodName);
    clsShort + "." + methodName
  }

  // ---------------------------------------------------------------------------
  // The extraction loop of convert_to_clean_graphviz
  // ---------------------------------------------------------------------------

  /** A matching line's two groups, each put back in angle brackets, can be simplified. */
  predicate LineConvertible(line: string, search: Search)
  {
    search(line).Some? ==>
      Simplifiable("<" + search(line).value.0 + ">") && Simplifiable("<" + search(line).value.1 + ">")
  }

  /** Every line can be converted, so the extraction loop does not raise. */
  predicate AllConvertible(lines: seq<string>, search: Search)
  {
    forall i :: 0 <= i < |lines| ==> LineConvertible(lines[i], search)
  }

  /** Both endpoints of a pair are labels with a '.'. */
  predicate Dotted(p: Pair)
  {
    '.' in p.src && '.' in p.dst
  }

  /** The pair that a matching line contributes. */
  function PairOf(line: string, search: Search): (p: Pair)
    requires search(line).Some? && LineConvertible(line, search)
    ensures Dotted(p)
  {
    var m := search(line).value;
    Pair(SimplifyMethodLabel("<" + m.0 + ">"), SimplifyMethodLabel("<" + m.1 + ">"))
  }

  /** What one line adds to the edge list: its pair when the pattern matches, nothing
      otherwise. */
  function LineEdges(line: string, search: Search): (es: seq<Pair>)
    requires LineConvertible(line, search)
    ensures |es| == (if search(line).Some? then 1 else 0)
    ensures forall t :: 0 <= t < |es| ==> Dotted(es[t])
  {
    if search(line).Some? then [PairOf(line, search)] else []
  }

  /** The edge list after the extraction loop over `lines`: one pair per matching line,
      in line order, duplicates kept; every endpoint is a label with a '.'. */
  function EdgesOf(lines: seq<string>, search: Search): (es: seq<Pair>)
    requires AllConvertible(lines, search)
    ensures forall t :: 0 <= t < |es| ==> Dotted(es[t])
  {
    if lines == [] then []
    else
      ConvertiblePrefix(lines, search, |lines| - 1);
      var es := EdgesOf(lines[..|lines| - 1], search);
      var more := LineEdges(lines[|lines| - 1], search);
      DottedJoin(es, more);
      es + more
  }

  /** The lines before position `n` of convertible lines are convertible. */
  lemma ConvertiblePrefix(lines: seq<string>, search: Search, n: int)
    requires AllConvertible(lines, search) && 0 <= n <= |lines|
    ensures AllConvertible(lines[..n], search)
  {
    var init := lines[..n];
    forall i | 0 <= i < |init| ensures LineConvertible(init[i], search) {
      assert init[i] == lines[i];
    }
  }

  /** Joining two lists of dotted pairs gives a list of dotted pairs. */
  lemma DottedJoin(a: seq<Pair>, b: seq<Pair>)
    requires forall t :: 0 <= t < |a| ==> Dotted(a[t])
    requires forall t :: 0 <= t < |b| ==> Dotted(b[t])
    ensures forall t :: 0 <= t < |a + b| ==> Dotted((a + b)[t])
  {
    forall t | 0 <= t < |a + b| ensures Dotted((a + b)[t]) {
      if t < |a| {
        assert (a + b)[t] == a[t];
      } else {
        assert (a + b)[t] == b[t - |a|];
      }
    }
  }

  lemma EdgesOfNext(lines: seq<string>, search: Search, i: int)
    requires AllConvertible(lines, search) && 0 <= i < |lines|
    ensures AllConvertible(lines[..i], search) && AllConvertible(lines[..i + 1], search)
    ensures EdgesOf(lines[..i + 1], search) == EdgesOf(lines[..i], search) + LineEdges(lines[i], search)
  {
    ConvertiblePrefix(lines, search, i);
    ConvertiblePrefix(lines, search, i + 1);
    assert lines[..i + 1][..i] == lines[..i];
  }

  /** The node set after adding the endpoints of the pairs `es`, one pair at a time. */
  function Endpoints(es: seq<Pair>): set<Label>
  {
    if es == [] then {} else Endpoints(es[..|es| - 1]) + {es[|es| - 1].src} + {es[|es| - 1].dst}
  }

  /** `nodes.add(src); nodes.add(dst)` keeps the node set the endpoints of the edge list. */
  lemma EndpointsNext(es: seq<Pair>, p: Pair)
    ensures Endpoints(es + [p]) == Endpoints(es) + {p.src} + {p.dst}
  {
    assert (es + [p])[..|es|] == es;
  }

  /** Every node is a label with a '.'. */
  predicate AllDotted(nodes: set<Label>)
  {
    forall n :: n in nodes ==> '.' in n
  }

  /** The endpoints of dotted pairs are dotted. */
  lemma {:induction false} EndpointsDotted(es: seq<Pair>)
    requires forall t :: 0 <= t < |es| ==> Dotted(es[t])
    ensures AllDotted(Endpoints(es))
  {
    if es != [] {
      EndpointsDotted(es[..|es| - 1]);
    }
  }

  /** The first loop of `convert_to_clean_graphviz`: for each line of the input that the
      pattern matches, its simplified source and destination form one more pair of the
      edge list, and both join the node set. */
  method CollectEdges(input: string, search: Search) returns (edges: seq<Pair>, nodes: set<Label>)
    requires AllConvertible(SplitLines(input), search)
    ensures edges == EdgesOf(SplitLines(input), search)
    ensures nodes == Endpoints(edges)
  {
    var lines := SplitLines(input);
    edges := [];
    nodes := {};
    var i := 0;
    while i < |lines|
      invariant 0 <= i <= |lines|
      invariant AllConvertible(lines[..i], search) && edges == EdgesOf(lines[..i], search)
      invariant nodes == Endpoints(edges)
    {
      var found := MatchLine(lines[i], search);
      CollectNext(lines, search, i, edges, found);
      if found.Some? {
        var src, dst := found.value.src, found.value.dst;
        edges := edges + [Pair(src, dst)];
        nodes := nodes + {src};
        nodes := nodes + {dst};
      }
      i := i + 1;
    }
    TakeAll(lines);
  }

  /** One step of the extraction loop keeps the edge list and the node set those of the
      lines seen so far. */
  lemma CollectNext(lines: seq<string>, search: Search, i: int, edges: seq<Pair>, found: Option<Pair>)
    requires AllConvertible(lines, search) && 0 <= i < |lines|
    requires AllConvertible(lines[..i], search) && edges == EdgesOf(lines[..i], search)
    requires LineEdges(lines[i], search) == if found.Some? then [found.value] else []
    ensures AllConvertible(lines[..i + 1], search)
    ensures found.Some? ==> EdgesOf(lines[..i + 1], search) == edges + [found.value]
    ensures found.Some? ==> Endpoints(edges + [found.value]) == Endpoints(edges) + {found.value.src} + {found.value.dst}
    ensures found.None? ==> EdgesOf(lines[..i + 1], search) == edges
  {
    EdgesOfNext(lines, search, i);
    if found.Some? {
      EndpointsNext(edges, found.value);
    } else {
      assert edges + [] == edges;
    }
  }

  /** The start of the body of the extraction loop: the search of one line and the
      simplification of both groups of its match, when there is one. */
  method MatchLine(line: string, search: Search) returns (found: Option<Pair>)
    requires LineConvertible(line, search)
    ensures LineEdges(line, search) == if found.Some? then [found.value] else []
  {
    var m := search(line);
    if m.None? {
      return None;
    }
    var src := SimplifyMethodLabel("<" + m.value.0 + ">");
    var dst := SimplifyMethodLabel("<" + m.value.1 + ">");
    found := Some(Pair(src, dst));
  }

  // ---------------------------------------------------------------------------
  // The clustering loop
  // ---------------------------------------------------------------------------

  /** Each node's class. */
  function KeyMap(nodes: set<Label>): (m: map<Label, string>)
    ensures m.Keys == nodes
  {
    map n | n in nodes :: ClassOf(n)
  }

  /** The second loop of `convert_to_clean_graphviz`: groups the nodes by the text before
      their first '.'. The Python lists hold no duplicates (they are filled from a set)
      and only their sorted order is ever observed, so they are modelled as sets. */
  method GroupByClass(nodes: set<Label>) returns (clusters: map<string, set<Label>>)
    ensures clusters.Keys == GroupKeys(nodes, KeyMap(nodes))
    ensures forall k :: k in clusters ==> clusters[k] == Group(nodes, KeyMap(nodes), k)
  {
    clusters := map[];
    var rest := nodes;
    ghost var seen: set<Label> := {};
    ghost var keyOf := KeyMap(nodes);
    while rest != {}
      invariant rest <= nodes && seen == nodes - rest
      invariant clusters.Keys == GroupKeys(seen, keyOf)
      invariant forall k :: k in clusters ==> clusters[k] == Group(seen, keyOf, k)
      decreases rest
    {
      var node :| node in rest;
      var cls := SplitOnce(node, '.')[0];
      assert cls == keyOf[node];
      GroupsAddOne(clusters, seen, keyOf, node);
      clusters := clusters[cls := (if cls in clusters then clusters[cls] else {}) + {node}];
      MoveOne(nodes, rest, seen, node);
      rest := rest - {node};
      seen := seen + {node};
    }
  }

  // ---------------------------------------------------------------------------
  // The document
  // ---------------------------------------------------------------------------

  /** The three lines that open the subgraph of class `cls`. */
  function ClusterOpening(cls: string): (lines: seq<string>)
    ensures |lines| == 3
  {
    [ "    subgraph cluster_" + cls + " {",
      "        label = \"" + cls + "\";",
      "        style=rounded;" ]
  }

  /** The line of node `n` inside its cluster: its label is the text after its first '.'. */
  function NodeLine(n: Label): string
    requires '.' in n
  {
    "        \"" + n + "\" [label=\"" + MethodOf(n) + "\"];"
  }

  /** The node lines of `ms`, in order. */
  function NodeLines(ms: seq<Label>): (lines: seq<string>)
    requires forall t :: 0 <= t < |ms| ==> '.' in ms[t]
    ensures |lines| == |ms|
  {
    if ms == [] then [] else NodeLines(ms[..|ms| - 1]) + [NodeLine(ms[|ms| - 1])]
  }

  lemma NodeLinesNext(ms: seq<Label>, j: int)
    requires forall t :: 0 <= t < |ms| ==> '.' in ms[t]
    requires 0 <= j < |ms|
    ensures NodeLines(ms[..j + 1]) == NodeLines(ms[..j]) + [NodeLine(ms[j])]
  {
    assert ms[..j + 1][..j] == ms[..j];
  }

  /** Line `t` of the node lines is the line of node `t`. */
  lemma {:induction false} NodeLinesAt(ms: seq<Label>, t: int)
    requires forall t :: 0 <= t < |ms| ==> '.' in ms[t]
    requires 0 <= t < |ms|
    ensures NodeLines(ms)[t] == NodeLine(ms[t])
  {
    if t < |ms| - 1 {
      var init := ms[..|ms| - 1];
      NodeLinesAt(init, t);
      assert init[t] == ms[t];
    }
  }

  /** A sorted listing of dotted labels holds dotted labels only. */
  lemma SortedDotted(members: set<Label>)
    requires AllDotted(members)
    ensures forall t :: 0 <= t < |SortedSet(members)| ==> '.' in SortedSet(members)[t]
  {
    var ms := SortedSet(members);
    forall t | 0 <= t < |ms| ensures '.' in ms[t] {
      assert ms[t] in members;
    }
  }

  /** The lines of the subgraph of class `cls` with members `members`: three opening
      lines, one line per member in ascending order, and the closing brace. */
  function ClusterBlock(cls: string, members: set<Label>): (lines: seq<string>)
    requires AllDotted(members)
    ensures |lines| == 4 + |members|
  {
    SortedDotted(members);
    ClusterOpening(cls) + NodeLines(SortedSet(members)) + ["    }"]
  }

  /** The subgraphs of the classes `ks`, in that order, each with the members that the
      grouping `keyOf` gives it. */
  function ClusterLines(nodes: set<Label>, keyOf: map<Label, string>, ks: seq<string>): seq<string>
    requires keyOf.Keys == nodes && AllDotted(nodes)
  {
    if ks == [] then []
    else ClusterLines(nodes, keyOf, ks[..|ks| - 1]) + ClusterBlock(ks[|ks| - 1], Group(nodes, keyOf, ks[|ks| - 1]))
  }

  lemma ClusterLinesNext(nodes: set<Label>, keyOf: map<Label, string>, ks: seq<string>, i: int)
    requires keyOf.Keys == nodes && AllDotted(nodes) && 0 <= i < |ks|
    ensures ClusterLines(nodes, keyOf, ks[..i + 1])
      == ClusterLines(nodes, keyOf, ks[..i]) + ClusterBlock(ks[i], Group(nodes, keyOf, ks[i]))
  {
    assert ks[..i + 1][..i] == ks[..i];
  }

  /** The line of an edge. */
  function EdgeLine(p: Pair): string
  {
    "    \"" + p.src + "\" -> \"" + p.dst + "\";"
  }

  /** The lines of the edges `es`, in order. */
  function EdgeLines(es: seq<Pair>): (lines: seq<string>)
    ensures |lines| == |es|
  {
    if es == [] then [] else EdgeLines(es[..|es| - 1]) + [EdgeLine(es[|es| - 1])]
  }

  lemma EdgeLinesNext(es: seq<Pair>, k: int)
    requires 0 <= k < |es|
    ensures EdgeLines(es[..k + 1]) == EdgeLines(es[..k]) + [EdgeLine(es[k])]
  {
    assert es[..k + 1][..k] == es[..k];
  }

  /** Line `t` of the edge lines is the line of edge `t`. */
  lemma {:induction false} EdgeLinesAt(es: seq<Pair>, t: int)
    requires 0 <= t < |es|
    ensures EdgeLines(es)[t] == EdgeLine(es[t])
  {
    if t < |es| - 1 {
      var init := es[..|es| - 1];
      EdgeLinesAt(init, t);
      assert init[t] == es[t];
    }
  }

  /** The lines of the document for edge list `edges`, node set `nodes` and grouping
      `keyOf`: the header, the clusters in ascending class order, the edges in list order
      and the closing brace. */
  function CleanLinesFor(edges: seq<Pair>, nodes: set<Label>, keyOf: map<Label, string>): seq<string>
    requires keyOf.Keys == nodes && AllDotted(nodes)
  {
    HeaderLines() + ClusterLines(nodes, keyOf, SortedSet(GroupKeys(nodes, keyOf))) + EdgeLines(edges) + ["}"]
  }

  /** The lines of the document `convert_to_clean_graphviz` writes for `input`. */
  function CleanLines(input: string, search: Search): seq<string>
    requires AllConvertible(SplitLines(input), search)
  {
    var edges := EdgesOf(SplitLines(input), search);
    var nodes := Endpoints(edges);
    EndpointsDotted(edges);
    CleanLinesFor(edges, nodes, KeyMap(nodes))
  }

  /** `convert_to_clean_graphviz`: the document of the pairs found in the input's lines,
      joined by newlines. */
  method ConvertToCleanGraphviz(input: string, search: Search) returns (dot: string)
    requires AllConvertible(SplitLines(input), search)
    ensures dot == JoinWith(CleanLines(input, search), "\n")
  {
    var edges, nodes := CollectEdges(input, search);
    EndpointsDotted(edges);
    var lines := EmitDocument(edges, nodes);
    dot := JoinWith(lines, "\n");
  }

  /** What `convert_to_clean_graphviz` does after the extraction loop: it clusters the
      nodes, then writes the header, the clusters in ascending class order, the edges in
      list order and the closing brace. */
  method EmitDocument(edges: seq<Pair>, nodes: set<Label>) returns (lines: seq<string>)
    requires AllDotted(nodes)
    ensures lines == CleanLinesFor(edges, nodes, KeyMap(nodes))
  {
    var clusters := GroupByClass(nodes);
    ghost var keyOf := KeyMap(nodes);
    lines := HeaderLines();
    var keys := SortedSet(clusters.Keys);
    var i := 0;
    while i < |keys|
      invariant 0 <= i <= |keys|
      invariant lines == HeaderLines() + ClusterLines(nodes, keyOf, keys[..i])
    {
      var block := EmitCluster(keys[i], clusters[keys[i]]);
      ClusterLinesNext(nodes, keyOf, keys, i);
      AppendAssoc(HeaderLines(), ClusterLines(nodes, keyOf, keys[..i]), block);
      lines := lines + block;
      i := i + 1;
    }
    TakeAll(keys);
    var tail := EmitEdges(edges);
    lines := lines + tail + ["}"];
  }

  /** The body of the cluster loop for class `cls` with members `classNodes`. */
  method EmitCluster(cls: string, classNodes: set<Label>) returns (block: seq<string>)
    requires AllDotted(classNodes)
    ensures block == ClusterBlock(cls, classNodes)
  {
    block := ["    subgraph cluster_" + cls + " {"];
    block := block + ["        label = \"" + cls + "\";"];
    block := block + ["        style=rounded;"];
    assert block == ClusterOpening(cls);
    var members := SortedSet(classNodes);
    SortedDotted(classNodes);
    var nodeLines := EmitNodes(members);
    block := block + nodeLines + ["    }"];
  }

  /** The node loop: one line per member, in the given order. */
  method EmitNodes(members: seq<Label>) returns (nodeLines: seq<string>)
    requires forall t :: 0 <= t < |members| ==> '.' in members[t]
    ensures nodeLines == NodeLines(members)
  {
    nodeLines := [];
    var j := 0;
    while j < |members|
      invariant 0 <= j <= |members|
      invariant nodeLines == NodeLines(members[..j])
    {
      var n := members[j];
      var methodOnly := SplitOnce(n, '.')[1];
      NodeLinesNext(members, j);
      nodeLines := nodeLines + ["        \"" + n + "\" [label=\"" + methodOnly + "\"];"];
      j := j + 1;
    }
    TakeAll(members);
  }

  /** The edge loop: one line per pair, in list order. */
  method EmitEdges(edges: seq<Pair>) returns (tail: seq<string>)
    ensures tail == EdgeLines(edges)
  {
    tail := [];
    var k := 0;
    while k < |edges|
      invariant 0 <= k <= |edges|
      invariant tail == EdgeLines(edges[..k])
    {
      EdgeLinesNext(edges, k);
      tail := tail + ["    \"" + edges[k].src + "\" -> \"" + edges[k].dst + "\";"];
      k := k + 1;
    }
    TakeAll(edges);
  }

}
