/**
 * The steps that both versions of the formatter take to cut a Java method signature
 * such as `<com.kuleuven.library.Book: void <init>(java.lang.String)>` into its short
 * class name (`Book`) and its method name (`<init>`):
 *
 *     inner = sig.strip("<>")
 *     cls, rest = inner.split(":", 1)
 *     cls_short = cls.split(".")[-1]
 *     method = rest.strip().split("(")[0].split()[-1]
 *
 * Each step is a function whose contract says what the piece is.
 */
module Signature {
  import opened PyStrings

  /** `sig.strip("<>")`: the signature without every leading and trailing angle bracket. */
  function Inner(sig: string): (inner: string)
    ensures inner == [] || (!IsAngle(inner[0]) && !IsAngle(inner[|inner| - 1]))
  {
    Strip(sig, IsAngle)
  }

  /** `cls` of `cls, rest = inner.split(":", 1)`: the declaring type, up to the first ':'. */
  function ClassPart(inner: string): (cls: string)
    requires ':' in inner
    ensures ':' !in cls && |cls| < |inner| && inner[..|cls|] == cls && inner[|cls|] == ':'
  {
    SplitOnce(inner, ':')[0]
  }

  /** `rest` of `cls, rest = inner.split(":", 1)`: everything after the first ':'. */
  function Remainder(inner: string): (rest: string)
    requires ':' in inner
    ensures inner == ClassPart(inner) + ":" + rest
  {
    SplitOnce(inner, ':')[1]
  }

  /** `cls.split(".")[-1]`: the last dot-separated segment of the declaring type, a
      suffix of it that holds no '.' (that it is all of the type or follows its last '.'
      is `LastSegment`'s own contract). */
  function ShortClassName(inner: string): (c: string)
    requires ':' in inner
    ensures '.' !in c && EndsWith(ClassPart(inner), c)
  {
    LastSegment(ClassPart(inner), '.')
  }

  /** `rest.strip().split("(")[0]`: return type and method name, everything of the trimmed
      remainder before its first '(' (all of it when it has none). */
  function MethodFragment(inner: string): (f: string)
    requires ':' in inner
    ensures '(' !in f && StartsWith(Strip(Remainder(inner), IsSpace), f)
    ensures var t := Strip(Remainder(inner), IsSpace); |f| == |t| || t[|f|] == '('
  {
    FirstPiece(Strip(Remainder(inner), IsSpace), '(');
    SplitAll(Strip(Remainder(inner), IsSpace), '(')[0]
  }

  /** Whether `.split()[-1]` of the fragment exists: Python raises IndexError otherwise. */
  predicate HasMethodName(inner: string)
    requires ':' in inner
  {
    Words(MethodFragment(inner)) != []
  }

  /** `fragment.split()[-1]`: the last whitespace-separated token of the fragment, a
      non-empty word without whitespace or '(' that ends the fragment without its trailing
      whitespace and is all of it or comes right after whitespace (which determines it,
      `PyStrings.LastWordUnique`). */
  function MethodName(inner: string): (m: string)
    requires ':' in inner && HasMethodName(inner)
    ensures m != [] && NoSpace(m) && '(' !in m
    ensures IsLastWord(RStrip(MethodFragment(inner), IsSpace), m)
  {
    var ws := Words(MethodFragment(inner));
    WordsAvoid(MethodFragment(inner), '(');
    WordsLast(MethodFragment(inner));
    ws[|ws| - 1]
  }

}

/** The nine fixed lines that open the DOT document in both versions. */
module DotHeader {

  function HeaderLines(): (h: seq<string>)
    ensures |h| == 9 && h[0] == "digraph ObjectGraph {"
  {
    [ "digraph ObjectGraph {",
      "    rankdir=LR;",
      "    graph [",
      "        ranksep=1.8,",
      "        nodesep=0.1,",
      "        overlap=false,",
      "        splines=true",
      "    ];",
      "    node [shape=box, fontsize=10];" ]
  }

}
