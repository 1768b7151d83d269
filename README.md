# Call-graph DOT formatter, modelled in Dafny

The repository turns a call graph of Java methods into a Graphviz DOT document. It does
this in two versions.

- **`CallGraph` (CallGraph.py)** is the newer version. A graph holds:
  - a set of full method signatures such as
    `<com.kuleuven.library.Book: void <init>(java.lang.String)>`;
  - a list of `(src, dst, label?)` edges;
  - node-coverage, edge-coverage and ranking scores.

  `export_to_dot` writes a fixed header, then one subgraph per declaring class, then one
  line per edge, then a closing brace:
  - subgraphs come in sorted class order, each listing its members in sorted order;
  - edges come in list order;
  - a covered node or edge (score > 0) is coloured green, and so is a cluster whose
    members are all covered.
- **`convert_to_clean_graphviz` (main.py)** is the older version:
  - it pulls `src -> dst` pairs out of the lines of a raw DOT text;
  - it collapses each endpoint to a short label `Cls.method`, renaming `<init>` to
    `constructor`, and that label is the node's identity;
  - it clusters the labels by class and writes a clean document in the same layout.

The Dafny modules follow that structure:

| file | module | what it holds |
|---|---|---|
| wrappers.dfy | `Wrappers` | `Option` |
| pystrings.dfy | `PyStrings` | the Python `str` operations used: `strip`, `split(c)`, `split(c, 1)`, `split()`, `replace`, `splitlines`, `join`, `in`, and the code-point order of `sorted`; `Strip`, `SplitOnce`, `SplitAll`, `LastSegment`, `Words` and `SplitLines` carry contracts, while `ReplaceAll`, `JoinWith` and `LexLess` are plain definitions characterised by the lemmas beside them (`ReplaceAllStep`, `ReplaceAllFirst`, `ReplaceAllAbsent`, `ReplaceAllRemoves`; the split/join round trips; `LexLessTotal`, `LexLessTransitive`) |
| signature.dfy | `Signature`, `DotHeader` | the steps that cut a signature into short class name and method name, shared by both versions; the nine header lines |
| signature_shape.dfy | `SignatureShape` | how a signature of the shape `<pkg.Short: ret name(args)>` is cut |
| grouping.dfy | `Grouping` | grouping a node set by a key (the `setdefault(...).append` loops) and the partition facts |
| scoreformat.dfy | `ScoreFormat` | `f"{x:.4f}"` on exact reals |
| callgraph.dfy | `CallGraphModel` | the `CallGraph` class and its operations; its fields are `const`s because no operation of the class assigns or mutates them |
| callgraph_props.dfy | `CallGraphProps` | what `CallGraph` promises |
| cleangraphviz.dfy | `CleanGraphviz` | `simplify_method_label` and `convert_to_clean_graphviz` |
| cleangraphviz_props.dfy | `CleanGraphvizProps` | what main.py promises |

The loops of the source are imperative methods:
- `get_clusters` and the clustering loop of main.py;
- the extraction loop of main.py;
- the cluster, node and edge loops of both exporters.

Each method is proved equal to a specification function, such as `DotLines()` or
`CleanLines(input, search)`. The lemmas state the properties of those functions.

The comment `# extract inside "< >"` (CallGraph.py:125, main.py:12) could be read as
removing one bracket on each side; the code's `strip("<>")` removes *every* leading and
trailing `<` and `>`, and the model does what the code does (`Signature.Inner`,
`CallGraphProps.SimplifyWithoutColon`). Colouring is green exactly when a score is > 0
(CallGraph.py:74, 89, 102).

## Model

| member | source | states |
|---|---|---|
| PyStrings.Strip | CallGraph.py:126 | `strip(chars)`: the result is the slice of the input left after a run of dropped characters at each end, and it neither starts nor ends with one |
| PyStrings.StripWrapped | CallGraph.py:126 | any run of dropped characters on each side of a core that starts and ends with a kept character is removed, leaving exactly the core |
| PyStrings.StripIdempotent | CallGraph.py:126 | stripping twice is stripping once |
| PyStrings.SplitOnce | CallGraph.py:131 | `split(c, 1)`: one part when `c` is absent, otherwise the text before the first `c` (which holds no `c`) and the rest, which rejoin to the input |
| PyStrings.SplitOnceAt | CallGraph.py:131 | splitting `a + c + b`, where `a` holds no `c`, gives back `[a, b]` |
| PyStrings.SplitAll | CallGraph.py:132 | `split(c)`: at least one piece, and no piece holds `c` |
| PyStrings.SplitAllJoinBack | CallGraph.py:132 | joining the pieces of `split(c)` with `c` gives back the input |
| PyStrings.SplitAllJoin | CallGraph.py:132 | splitting pieces without `c`, joined by `c`, gives back the pieces |
| PyStrings.LastSegment | CallGraph.py:132 | `split(c)[-1]` is a suffix without `c` that is either the whole text or starts right after a `c` |
| PyStrings.LastSegmentUnique | CallGraph.py:132 | those three properties determine `split(c)[-1]` |
| PyStrings.LastSegmentAfter | CallGraph.py:132 | the last segment of `a + c + b`, where `b` holds no `c`, is `b` |
| PyStrings.Words | CallGraph.py:136 | `split()`: non-empty tokens without whitespace, none exactly when the text is all whitespace |
| PyStrings.WordsSkipSpace | CallGraph.py:136 | leading whitespace of any kind and length yields no token |
| PyStrings.WordsStep | CallGraph.py:136 | after any whitespace, a maximal run of non-whitespace is the next token and `split()` goes on after it; with `WordsSkipSpace` this fixes `split()` on every text |
| PyStrings.WordsLast | CallGraph.py:136 | `split()[-1]` is the last word of the text without its trailing whitespace: a suffix of it that is all of it or comes right after whitespace |
| PyStrings.LastWordUnique | CallGraph.py:136 | a non-empty whitespace-free last word in that sense is unique |
| PyStrings.WordsJoin | CallGraph.py:136 | `split()` undoes joining non-empty, space-free words with single spaces |
| PyStrings.WordsAvoid | CallGraph.py:135-136 | a character absent from the text is absent from each of its tokens |
| PyStrings.ReplaceAllStep | main.py:24 | `replace`: an occurrence of the pattern that no earlier character can start becomes the replacement, the text before it is kept and the text after it is processed in the same way |
| PyStrings.ReplaceAllFirst | main.py:24 | `replace` on a pattern whose first character does not recur in it: the first occurrence becomes the replacement, the text before it (which holds no occurrence) is kept and the text after it is processed in the same way |
| PyStrings.ReplaceAllRemoves | main.py:24 | no occurrence of a pattern survives `replace` when the replacement can neither start nor complete one |
| PyStrings.ReplaceAllAbsent | main.py:24 | `replace` leaves a text without the pattern unchanged |
| PyStrings.SplitLines | main.py:34 | `splitlines()`: lines without boundary characters, none for the empty text |
| PyStrings.SplitLinesJoin | main.py:34 | `splitlines` undoes joining boundary-free lines with "\n" when the last line is not empty |
| PyStrings.SplitLinesTerminated | main.py:34 | `splitlines` undoes writing boundary-free lines each followed by "\n", as a file is written |
| PyStrings.SortedSet | CallGraph.py:72 | `sorted` of a set: every element exactly once, in strictly ascending code-point order |
| PyStrings.SortedUnique | CallGraph.py:80 | the strictly ascending listing of a set is unique, so it is what `sorted` returns |
| PyStrings.LexLessTotal | CallGraph.py:80 | Python string order is total on distinct strings |
| PyStrings.LexLessTransitive | CallGraph.py:80 | Python string order is transitive |
| Signature.Inner | CallGraph.py:126 | the inner text neither starts nor ends with '<' or '>' |
| Signature.ClassPart | CallGraph.py:131 | the declaring type is the ':'-free prefix before the first ':' |
| Signature.Remainder | CallGraph.py:131 | the class part, ':' and the remainder rebuild the inner text |
| Signature.ShortClassName | CallGraph.py:132 | the short class name is a '.'-free suffix of the declaring type |
| Signature.MethodFragment | CallGraph.py:135 | the fragment is the whole trimmed remainder up to its first '(' (all of it when it has none) |
| Signature.MethodName | CallGraph.py:136 | the method name is a non-empty token without whitespace or '(' and is the last word of the fragment (`IsLastWord` after `rstrip`), which determines it |
| DotHeader.HeaderLines | CallGraph.py:57-67 | nine header lines, the first opening the digraph |
| CallGraphModel.CallGraph.constructor | CallGraph.py:32-42 | absent mappings become empty; the node set and edge list are kept as given |
| CallGraphProps.SimplifyWithoutColon | CallGraph.py:126-128 | `CallGraph.SimplifyMethodSignature`: without ':' after stripping, the result is the text with every leading and trailing angle bracket removed |
| CallGraphProps.SimplifyWithColon | CallGraph.py:130-138 | `CallGraph.SimplifyMethodSignature` and `ClusterKey` (CallGraph.py:50): with ':', the result is short class name + "." + method name; its cluster key is the short class name and contains no '.'; its label is the method name |
| CallGraphProps.SimplifyShape | CallGraph.py:119-138 | `<pkg.Short: ret name(args)>` simplifies to `Short.name`, with cluster key `Short` and label `name` |
| CallGraphProps.SimplifyDocExample | CallGraph.py:119-124 | the docstring's signature simplifies to `Book.<init>` |
| CallGraphModel.CallGraph.GetClusters | CallGraph.py:45-53 | the keys are the class names of the nodes, and each maps to exactly the nodes with that class name |
| CallGraphProps.ClustersPartition | CallGraph.py:45-53 | every node is in the cluster of its own key and in no other; only nodes are in clusters; no cluster is empty |
| Grouping.GroupsPartition | CallGraph.py:48-51 | grouping by a key partitions the node set |
| Grouping.GroupSizesTotal | CallGraph.py:72-80 | the groups of all keys hold every node exactly once between them |
| Grouping.GroupsAddOne | CallGraph.py:51 | `setdefault(key, []).append(node)` keeps the map the grouping of the nodes seen so far |
| CallGraphProps.EdgeScoreIgnoresLabel | CallGraph.py:95-100 | `CallGraph.EdgeScore`: an edge's coverage score depends only on its endpoints, not its label |
| CallGraphProps.EdgeKeyInjective | CallGraph.py:141-149 | `CallGraph.GetEdgeKey`: for endpoints without '"', the edge key determines both endpoints |
| CallGraphProps.EdgeKeyValid | CallGraph.py:112-114 | `CallGraph.IsValidEdgeKey` (`EdgeKeyBody` for the pattern at CallGraph.py:30): the key of two one-line signatures in angle brackets satisfies `is_valid_edge_key` |
| CallGraphProps.ArrowJoin | CallGraph.py:30 | two quoted bracketed texts joined by `->` match the pattern, with the split at the arrow |
| CallGraphModel.SafeClusterId | CallGraph.py:73 | same length as the class name; each character outside `[A-Za-z0-9_]` becomes '_' and the rest stay |
| CallGraphProps.SafeClusterIdKeeps | CallGraph.py:73 | an identifier that is already safe is unchanged |
| CallGraphProps.SafeClusterIdIdempotent | CallGraph.py:73 | making an identifier safe is idempotent |
| CallGraphModel.CallGraph.ExportToDot | CallGraph.py:56-109 | the document is the newline join of exactly `DotLines()` |
| CallGraphModel.CallGraph.EmitCluster | CallGraph.py:72-92 | the lines of one cluster are `ClusterBlock` of its class and members |
| CallGraphModel.CallGraph.EmitNodes | CallGraph.py:80-91 | one node line per member, in the given order |
| CallGraphModel.CallGraph.EmitNode | CallGraph.py:81-91 | the line of one node is `NodeLine` |
| CallGraphModel.CallGraph.EmitEdge | CallGraph.py:96-106 | the line of one edge is `EdgeLine` |
| CallGraphModel.CallGraph.EmitEdges | CallGraph.py:95-106 | one edge line per edge, in list order |
| CallGraphProps.DotLineCount | CallGraph.py:56-109 | the document has 10 + 4·clusters + nodes + edges lines |
| CallGraphProps.DotLayout | CallGraph.py:56-109 | the document opens with the header and ends with '}', and just before the brace edge line t is the line of the t-th edge (duplicates kept) |
| CallGraphProps.ClustersAscending | CallGraph.py:72 | clusters are emitted in strictly ascending class order, each class once |
| CallGraphProps.ClusterBlockLayout | CallGraph.py:76-92 | a cluster's block is its three opening lines, then its members in strictly ascending order, each with its own line, then `    }` |
| CallGraphProps.ClusterGreenIff | CallGraph.py:74-78 | a cluster's label and style lines carry green iff every member's coverage is > 0 (a missing entry counts as 0) |
| CallGraphProps.NodeGreenIff | CallGraph.py:87-91 | a node line ends with the green attributes iff the node's coverage is > 0 |
| CallGraphProps.EdgeGreenIff | CallGraph.py:96-102 | an edge line ends with the green attributes iff the coverage at its edge key is > 0 (a missing key counts as 0) |
| CallGraphProps.EdgeLabelIff | CallGraph.py:103-106 | an edge line carries `label="…"` iff the label is present and non-empty |
| CallGraphProps.NodeLabelShape | CallGraph.py:81-85 | `MethodOnly` and `CallGraph.NodeLabel`: a node label is the text after the first '.', followed by `\n(score)` iff a ranking entry exists |
| ScoreFormat.FormatScoreShape | CallGraph.py:85 | `FormatScore`, `f"{x:.4f}"`: a '-' exactly for negative values, integer digits without a leading zero, '.', four digits; the digits denote abs(x) rounded half-to-even to 1/10000 |
| ScoreFormat.Fixed4RoundTrip | CallGraph.py:85 | the four-decimal text reads back as the number it prints |
| ScoreFormat.FormatScoreChars | CallGraph.py:85 | a formatted score holds only digits, '.' and '-' |
| ScoreFormat.RoundHalfEven | CallGraph.py:85 | nearest integer, ties to even |
| CleanGraphviz.SimplifyMethodLabel | main.py:13-26 | the label holds a '.'; before its first '.' is the short class name and after it the cleaned method name |
| CleanGraphviz.CleanMethodNameRenames | main.py:24 | `CleanMethodName`: the first `<init>` becomes `constructor`, the text before it (which holds no `<init>`, though it may hold `<`) is kept and the text after it is cleaned in turn; with `CleanMethodNameRemovesInit` this fixes the result on every name |
| CleanGraphviz.CleanMethodNameRemovesInit | main.py:24 | no `<init>` remains after the renaming, and a name without one is unchanged |
| CleanGraphvizProps.LabelParts | main.py:13-26 | the label is class, '.', method; the class holds no '.'; the method part holds no `<init>` and equals the raw method name when that had none |
| CleanGraphvizProps.VersionsAgree | main.py:5-26 | both versions accept the signature and agree on its class; the old method part is the cleaned new one; without `<init>` the two labels are equal |
| CleanGraphvizProps.SimplifyLabelExample | main.py:6-11 | the docstring's signature becomes `Book.constructor` |
| CleanGraphviz.ClassOf | main.py:48 | the class of a label is its '.'-free prefix |
| CleanGraphviz.MethodOf | main.py:69 | a label is its class, '.', and its method part |
| CleanGraphviz.PairOf | main.py:39-40 | both endpoints of a collected pair are labels with a '.' |
| CleanGraphviz.LineEdges | main.py:35-41 | a line adds one pair exactly when the pattern matches it, and none otherwise |
| CleanGraphviz.EdgesOf | main.py:34-41 | every collected endpoint is a label with a '.' |
| CleanGraphviz.MatchLine | main.py:35-40 | the search and two simplifications of one line give exactly what `LineEdges` adds |
| CleanGraphviz.CollectEdges | main.py:30-43 | after the loop the edge list is `EdgesOf` the input's lines and the node set is exactly their endpoints |
| CleanGraphvizProps.EdgesOfAppend | main.py:34-41 | the pairs of two runs of lines are those of the first run followed by those of the second, so pairs keep line order |
| CleanGraphvizProps.EdgesOfLine | main.py:35-41 | one line gives its pair if it matches and nothing if it does not |
| CleanGraphvizProps.NodesAreEndpoints | main.py:41-43 | a label is a node iff it is the source or destination of some pair |
| CleanGraphviz.GroupByClass | main.py:46-49 | the keys are the classes of the nodes, and each maps to exactly the nodes of that class |
| CleanGraphvizProps.ClustersPartition | main.py:46-49 | every node is in the cluster of its class and in no other; only nodes are in clusters; no cluster is empty |
| CleanGraphvizProps.EndpointCluster | main.py:39-48 | each endpoint is clustered under the short class name of its signature |
| CleanGraphviz.ConvertToCleanGraphviz | main.py:29-78 | the document is the newline join of exactly `CleanLines(input, search)` |
| CleanGraphviz.EmitDocument | main.py:45-77 | after the extraction loop, the lines are `CleanLinesFor` of the edges, the nodes and their classes |
| CleanGraphviz.EmitCluster | main.py:64-71 | the lines of one cluster are `ClusterBlock` of its class and members |
| CleanGraphviz.EmitNodes | main.py:68-70 | one node line per member, in the given order |
| CleanGraphviz.EmitEdges | main.py:74-75 | one edge line per pair, in list order |
| CleanGraphvizProps.CleanLineCount | main.py:51-77 | the document has 10 + 4·clusters + nodes + edges lines |
| CleanGraphvizProps.CleanLayout | main.py:51-77 | the document opens with the header and ends with '}', and just before the brace edge line t is `    "src" -> "dst";` of the t-th pair |
| CleanGraphvizProps.ClustersAscending | main.py:64 | clusters are emitted in strictly ascending class order, each class once |
| CleanGraphvizProps.ClusterBlockLayout | main.py:64-71 | a cluster's block is its three opening lines, then its members in strictly ascending order, labelled with the text after their first '.', then `    }` |
| CleanGraphvizProps.ConvertedDocument | main.py:29-78 | for the pairs and endpoints found in the input, the document has the stated line count, header and closing brace |

## Left out

- `main()` and the `__main__` block (main.py:81-98) are not modelled. They only read and write files, print and exit.
- The regular expression `pattern.search` (main.py:32, 35) is a parameter `Search`. It maps a line to the two groups of its first match, or to None.
  - Python's lazy, backtracking `re` search is not reproduced.
  - So nothing is proved about which lines match or what the groups are.
- `EDGE_KEY_PATTERN.match` (CallGraph.py:30, 114) is a hand-written predicate. It covers `.` not matching a newline, `\s` as `str.isspace`, and `$` also matching before a final newline.
  - `is_valid_edge_key` returns a boolean, not a match object.
- Iteration order of Python sets and dicts (CallGraph.py:48, main.py:47) is not modelled.
  - `get_clusters` and the clustering loop pick the next node arbitrarily.
  - Cluster member lists are modelled as sets: they are filled from a set, so they hold no duplicates, and only their sorted order is ever observed.
- Scores are exact reals, not IEEE doubles, so `f"{x:.4f}"` is modelled on exact reals.
- A `ValueError` or `IndexError` the code would raise is modelled as a precondition (`Simplifiable`, `Exportable`, `AllConvertible`). This covers:
  - a signature without ':' in main.py;
  - an empty method fragment;
  - a simplified label without '.'.
- Signature.ShortClassName: its contract states only that the result is a '.'-free suffix of the declaring type. That it is the whole type or starts right after its last '.' is `PyStrings.LastSegment`'s own contract, which the function's body returns.
- Node labels and edge labels are not proved free of quotes or newlines. The source does not escape them either.
- The `CallGraph` fields are immutable values. In Python the object keeps references to the caller's set, list and dicts (CallGraph.py:38-42), so a caller that mutates them later changes what `get_clusters` and `export_to_dot` see. That aliasing is not modelled.
