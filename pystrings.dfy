/**
 * The Python `str` operations that the call-graph formatter relies on, each given as a
 * function whose contract characterises it: `strip`, `split(sep)`, `split(sep, 1)`,
 * `split()`, `replace`, `splitlines`, `sep.join(...)`, `in` on strings and the
 * code-point order that `sorted` uses.
 */
module PyStrings {

  // ---------------------------------------------------------------------------
  // Character classes
  // ---------------------------------------------------------------------------

  /** The characters for which Python's `str.isspace()` holds: what `split()`, `strip()`
      and the regular-expression class `\s` treat as whitespace. */
  predicate IsSpace(c: char)
  {
    ('\t' <= c <= '\r') || ('\U{1C}' <= c <= '\U{1F}') || c == ' ' || c == '\U{85}' || c == '\U{A0}'
    || c == '\U{1680}' || ('\U{2000}' <= c <= '\U{200A}') || c == '\U{2028}' || c == '\U{2029}'
    || c == '\U{202F}' || c == '\U{205F}' || c == '\U{3000}'
  }

  /** The characters at which Python's `str.splitlines()` ends a line. */
  predicate IsLineBoundary(c: char)
  {
    c == '\n' || c == '\r' || c == '\U{0B}' || c == '\U{0C}' || c == '\U{1C}' || c == '\U{1D}'
    || c == '\U{1E}' || c == '\U{85}' || c == '\U{2028}' || c == '\U{2029}'
  }

  /** The argument "<>" of `strip("<>")`. */
  predicate IsAngle(c: char)
  {
    c == '<' || c == '>'
  }

  predicate NoSpace(w: string)
  {
    forall k :: 0 <= k < |w| ==> !IsSpace(w[k])
  }

  predicate AllSpace(w: string)
  {
    forall k :: 0 <= k < |w| ==> IsSpace(w[k])
  }

  // ---------------------------------------------------------------------------
  // strip
  // ---------------------------------------------------------------------------

  /** Python's `s.lstrip(...)`: drops the longest prefix whose characters `drop` accepts. */
  function LStrip(s: string, drop: char -> bool): (r: string)
    ensures |r| <= |s| && r == s[|s| - |r|..]
    ensures r == [] || !drop(r[0])
    ensures forall k :: 0 <= k < |s| - |r| ==> drop(s[k])
  {
    if s != [] && drop(s[0]) then LStrip(s[1..], drop) else s
  }

  /** Python's `s.rstrip(...)`: drops the longest suffix whose characters `drop` accepts. */
  function RStrip(s: string, drop: char -> bool): (r: string)
    ensures |r| <= |s| && r == s[..|r|]
    ensures r == [] || !drop(r[|r| - 1])
    ensures forall k :: |r| <= k < |s| ==> drop(s[k])
  {
    if s != [] && drop(s[|s| - 1]) then RStrip(s[..|s| - 1], drop) else s
  }

  /** Where the text kept by `Strip(s, drop)` starts in `s`. */
  function StripStart(s: string, drop: char -> bool): nat
  {
    |s| - |LStrip(s, drop)|
  }

  /** Python's `s.strip(chars)`: removes EVERY leading and EVERY trailing character that
      `drop` accepts, and nothing in between. */
  function Strip(s: string, drop: char -> bool): (r: string)
    ensures r == [] || (!drop(r[0]) && !drop(r[|r| - 1]))
    ensures StripStart(s, drop) + |r| <= |s|
    ensures r == s[StripStart(s, drop)..StripStart(s, drop) + |r|]
    ensures forall k :: 0 <= k < StripStart(s, drop) ==> drop(s[k])
    ensures forall k :: StripStart(s, drop) + |r| <= k < |s| ==> drop(s[k])
  {
    RStrip(LStrip(s, drop), drop)
  }

  /** Stripping a text that neither starts nor ends with a dropped character changes nothing. */
  lemma StripKeeps(s: string, drop: char -> bool)
    requires s == [] || (!drop(s[0]) && !drop(s[|s| - 1]))
    ensures Strip(s, drop) == s
  {
  }

  /** `lstrip` removes a leading run of dropped characters and stops at the first kept one. */
  lemma {:induction false} LStripPrefix(p: string, s: string, drop: char -> bool)
    requires forall k :: 0 <= k < |p| ==> drop(p[k])
    requires s == [] || !drop(s[0])
    ensures LStrip(p + s, drop) == s
  {
    if p != [] {
      assert (p + s)[1..] == p[1..] + s;
      LStripPrefix(p[1..], s, drop);
    }
  }

  /** `rstrip` removes a trailing run of dropped characters and stops at the last kept one. */
  lemma {:induction false} RStripSuffix(s: string, q: string, drop: char -> bool)
    requires forall k :: 0 <= k < |q| ==> drop(q[k])
    requires s == [] || !drop(s[|s| - 1])
    ensures RStrip(s + q, drop) == s
  {
    if q != [] {
      assert (s + q)[..|s + q| - 1] == s + q[..|q| - 1];
      RStripSuffix(s, q[..|q| - 1], drop);
    }
  }

  /** `strip` removes ALL the dropped characters around the text, however many there are
      on either side: `"<<a>>>".strip("<>") == "a"`. */
  lemma StripWrapped(p: string, s: string, q: string, drop: char -> bool)
    requires forall k :: 0 <= k < |p| ==> drop(p[k])
    requires forall k :: 0 <= k < |q| ==> drop(q[k])
    requires s == [] || (!drop(s[0]) && !drop(s[|s| - 1]))
    ensures Strip(p + s + q, drop) == s
  {
    if s == [] {
      assert p + s + q == (p + q) + [];
      LStripPrefix(p + q, [], drop);
    } else {
      assert p + s + q == p + (s + q);
      LStripPrefix(p, s + q, drop);
      RStripSuffix(s, q, drop);
    }
  }

  /** Stripping twice is stripping once. */
  lemma StripIdempotent(s: string, drop: char -> bool)
    ensures Strip(Strip(s, drop), drop) == Strip(s, drop)
  {
    StripKeeps(Strip(s, drop), drop);
  }

  // ---------------------------------------------------------------------------
  // Searching
  // ---------------------------------------------------------------------------

  /** Python's `s.index(c)`: the first position of `c` in `s`. */
  function IndexOf(s: string, c: char): (i: nat)
    requires c in s
    ensures i < |s| && s[i] == c && c !in s[..i]
  {
    if s[0] == c then 0
    else
      var j := IndexOf(s[1..], c);
      assert s[..j + 1] == [s[0]] + s[1..][..j];
      1 + j
  }

  /** The first occurrence is the only one with no `c` before it. */
  lemma IndexOfIs(s: string, c: char, j: nat)
    requires j < |s| && s[j] == c && c !in s[..j]
    ensures IndexOf(s, c) == j
  {
  }

  /** Python's `p in s` for strings: `p` occurs in `s` at some position. */
  predicate IsSubstring(p: string, s: string)
  {
    exists k :: 0 <= k <= |s| - |p| && OccursAt(p, s, k)
  }

  /** `p` occurs in `s` starting at position `k`. */
  predicate OccursAt(p: string, s: string, k: int)
  {
    0 <= k <= |s| - |p| && s[k..k + |p|] == p
  }

  predicate StartsWith(s: string, p: string)
  {
    |p| <= |s| && s[..|p|] == p
  }

  predicate EndsWith(s: string, p: string)
  {
    |p| <= |s| && s[|s| - |p|..] == p
  }

  // ---------------------------------------------------------------------------
  // join and split
  // ---------------------------------------------------------------------------

  /** Python's `sep.join(parts)`. */
  function JoinWith(parts: seq<string>, sep: string): string
  {
    if |parts| == 0 then ""
    else if |parts| == 1 then parts[0]
    else parts[0] + sep + JoinWith(parts[1..], sep)
  }

  /** Python's `s.split(c, 1)` for a one-character separator: one part when `c` does not
      occur, otherwise the text before the first `c` and the text after it. */
  function SplitOnce(s: string, c: char): (r: seq<string>)
    ensures |r| == (if c in s then 2 else 1)
    ensures c !in r[0]
    ensures s == if |r| == 2 then r[0] + [c] + r[1] else r[0]
  {
    if c !in s then [s]
    else
      var i := IndexOf(s, c);
      assert s == s[..i] + [c] + s[i + 1..];
      [s[..i], s[i + 1..]]
  }

  /** Splitting at the first `c` gives back the two sides when the left one holds no `c`. */
  lemma SplitOnceAt(a: string, c: char, b: string)
    requires c !in a
    ensures SplitOnce(a + [c] + b, c) == [a, b]
  {
    var s := a + [c] + b;
    assert s[|a|] == c && s[..|a|] == a;
    IndexOfIs(s, c, |a|);
    assert s[|a| + 1..] == b;
  }

  /** Python's `s.split(c)` for a one-character separator: the maximal pieces between
      occurrences of `c`, empty pieces kept. */
  function SplitAll(s: string, c: char): (r: seq<string>)
    ensures |r| >= 1
    ensures forall k :: 0 <= k < |r| ==> c !in r[k]
    decreases |s|
  {
    if c !in s then [s]
    else
      var i := IndexOf(s, c);
      var rest := SplitAll(s[i + 1..], c);
      [s[..i]] + rest
  }

  /** `join` undoes `split`: joining the pieces with the separator gives back the text. */
  lemma {:induction false} SplitAllJoinBack(s: string, c: char)
    ensures JoinWith(SplitAll(s, c), [c]) == s
    decreases |s|
  {
    if c in s {
      var i := IndexOf(s, c);
      var u := s[i + 1..];
      var rest := SplitAll(u, c);
      SplitAllJoinBack(u, c);
      assert SplitAll(s, c) == [s[..i]] + rest;
      assert ([s[..i]] + rest)[1..] == rest;
      assert s == s[..i] + [c] + u;
    }
  }

  /** `split` undoes `join`: cutting the joined text at every separator gives back
      exactly the parts, provided no part contains the separator. */
  lemma {:induction false} SplitAllJoin(parts: seq<string>, c: char)
    requires |parts| >= 1
    requires forall k :: 0 <= k < |parts| ==> c !in parts[k]
    ensures SplitAll(JoinWith(parts, [c]), c) == parts
  {
    if |parts| > 1 {
      var s := JoinWith(parts, [c]);
      var a := parts[0];
      var rest := JoinWith(parts[1..], [c]);
      assert s == a + [c] + rest;
      assert s[|a|] == c;
      assert s[..|a|] == a;
      IndexOfIs(s, c, |a|);
      assert s[|a| + 1..] == rest;
      SplitAllJoin(parts[1..], c);
    }
  }

  /** The first piece of `s.split(c)`: the text before the first `c`, or all of `s`. */
  lemma FirstPiece(s: string, c: char)
    ensures SplitAll(s, c)[0] == SplitOnce(s, c)[0]
    ensures StartsWith(s, SplitAll(s, c)[0])
    ensures |SplitAll(s, c)[0]| == |s| || s[|SplitAll(s, c)[0]|] == c
  {
  }

  /** The position of the last `c` in `s`. */
  function LastIndexOf(s: string, c: char): (i: nat)
    requires c in s
    ensures i < |s| && s[i] == c && c !in s[i + 1..]
  {
    if s[|s| - 1] == c then |s| - 1
    else
      var init := s[..|s| - 1];
      var j := LastIndexOf(init, c);
      assert s[j + 1..] == init[j + 1..] + [s[|s| - 1]];
      j
  }

  /** Python's `s.split(c)[-1]`: the text after the last `c`, a suffix of `s` without
      `c` that is either all of `s` or preceded by `c`. These three properties determine
      it (`LastSegmentUnique`). */
  function LastSegment(s: string, c: char): (t: string)
    ensures EndsWith(s, t) && c !in t && (|t| == |s| || s[|s| - |t| - 1] == c)
  {
    if c !in s then s
    else
      var i := LastIndexOf(s, c);
      assert |s| - |s[i + 1..]| - 1 == i;
      s[i + 1..]
  }

  /** A character of `s` at or after where its suffix `t` begins lies in `t`. */
  lemma SuffixHolds(s: string, t: string, i: int)
    requires EndsWith(s, t) && |s| - |t| <= i < |s|
    ensures s[i] in t
  {
    assert s[i] == t[i - (|s| - |t|)];
  }

  /** Two suffixes of `s` without `c`, each all of `s` or preceded by `c`, are equal. */
  lemma {:induction false} LastSegmentUnique(s: string, c: char, t: string)
    requires EndsWith(s, t) && c !in t && (|t| == |s| || s[|s| - |t| - 1] == c)
    ensures t == LastSegment(s, c)
  {
    var t0 := LastSegment(s, c);
    if |t| > |t0| {
      SuffixHolds(s, t, |s| - |t0| - 1);
      assert false;
    } else if |t| < |t0| {
      SuffixHolds(s, t0, |s| - |t| - 1);
      assert false;
    }
    assert t == s[|s| - |t|..] == t0;
  }

  /** The last segment of `a + c + b` is `b` when `b` holds no `c`. */
  lemma LastSegmentAfter(a: string, c: char, b: string)
    requires c !in b
    ensures LastSegment(a + [c] + b, c) == b
  {
    var s := a + [c] + b;
    assert s[|s| - |b|..] == b;
    assert s[|s| - |b| - 1] == c;
    LastSegmentUnique(s, c, b);
  }

  // ---------------------------------------------------------------------------
  // split() on whitespace
  // ---------------------------------------------------------------------------

  /** The longest prefix of `t` without whitespace. */
  function TakeWord(t: string): (w: string)
    ensures |w| <= |t| && w == t[..|w|] && NoSpace(w)
    ensures |w| == |t| || IsSpace(t[|w|])
  {
    if t == [] || IsSpace(t[0]) then []
    else
      var w := TakeWord(t[1..]);
      assert [t[0]] + w == t[..|w| + 1];
      [t[0]] + w
  }

  /** Python's `s.split()` without arguments: the maximal runs of non-whitespace characters,
      in order; leading, trailing and repeated whitespace yield no empty tokens. */
  function Words(s: string): (r: seq<string>)
    ensures forall k :: 0 <= k < |r| ==> r[k] != [] && NoSpace(r[k])
    ensures r == [] <==> AllSpace(s)
    decreases |s|
  {
    if s == [] then []
    else if IsSpace(s[0]) then Words(s[1..])
    else
      var w := TakeWord(s);
      [w] + Words(s[|w|..])
  }

  /** A character that does not occur in `s` occurs in none of its words. */
  lemma {:induction false} WordsAvoid(s: string, c: char)
    requires c !in s
    ensures forall k :: 0 <= k < |Words(s)| ==> c !in Words(s)[k]
    decreases |s|
  {
    if s != [] {
      if IsSpace(s[0]) {
        WordsAvoid(s[1..], c);
      } else {
        var w := TakeWord(s);
        assert c !in s[|w|..];
        WordsAvoid(s[|w|..], c);
      }
    }
  }

  /** A word followed by whitespace is the first token. */
  lemma WordsCons(w: string, rest: string)
    requires w != [] && NoSpace(w)
    ensures Words(w + " " + rest) == [w] + Words(rest)
  {
    var s := w + " " + rest;
    TakeWordStop(w, " " + rest);
    assert s == w + (" " + rest);
    assert s[|w|..] == " " + rest;
    assert (" " + rest)[1..] == rest;
  }

  /** `split()` undoes joining single-spaced words. */
  lemma {:induction false} WordsJoin(ws: seq<string>)
    requires forall k :: 0 <= k < |ws| ==> ws[k] != [] && NoSpace(ws[k])
    ensures Words(JoinWith(ws, " ")) == ws
  {
    if |ws| == 1 {
      var w := ws[0];
      TakeWordAll(w);
      assert w[|w|..] == [];
    } else if |ws| > 1 {
      var w, tail := ws[0], ws[1..];
      WordsJoin(tail);
      WordsCons(w, JoinWith(tail, " "));
      assert ws == [w] + tail;
    }
  }

  /** Leading whitespace yields no token. */
  lemma {:induction false} WordsSkipSpace(a: string, s: string)
    requires AllSpace(a)
    ensures Words(a + s) == Words(s)
    decreases |a|
  {
    if a == [] {
      assert a + s == s;
    } else {
      assert (a + s)[1..] == a[1..] + s;
      WordsSkipSpace(a[1..], s);
    }
  }

  /** After any whitespace, a maximal run of non-whitespace characters is the next token:
      together with `WordsSkipSpace` this fixes `split()` on every text. */
  lemma WordsStep(a: string, w: string, b: string)
    requires AllSpace(a) && w != [] && NoSpace(w) && (b == [] || IsSpace(b[0]))
    ensures Words(a + w + b) == [w] + Words(b)
  {
    assert a + w + b == a + (w + b);
    WordsSkipSpace(a, w + b);
    if b == [] {
      TakeWordAll(w);
      assert w + b == w && w[|w|..] == [];
    } else {
      TakeWordStop(w, b);
      assert (w + b)[|w|..] == b;
    }
  }

  /** `w` is the last token of a text `t` that ends with a non-whitespace character: a
      suffix of `t` that is all of `t` or comes right after whitespace. */
  predicate IsLastWord(t: string, w: string)
  {
    EndsWith(t, w) && (|w| == |t| || IsSpace(t[|t| - |w| - 1]))
  }

  /** `split()[-1]`: the last token is the last word of the text without its trailing
      whitespace. */
  lemma {:induction false} WordsLast(s: string)
    requires Words(s) != []
    ensures IsLastWord(RStrip(s, IsSpace), Words(s)[|Words(s)| - 1])
    decreases |s|
  {
    var u := WordsNext(s);
    if Words(u) != [] {
      WordsLast(u);
    }
    LastStep(s, u);
  }

  /** What `Words` reads after the first character or the first token of `s`. */
  predicate StepsTo(s: string, u: string)
  {
    s != [] && ((IsSpace(s[0]) && u == s[1..]) || (!IsSpace(s[0]) && u == s[|TakeWord(s)|..]))
  }

  lemma WordsNext(s: string) returns (u: string)
    requires s != []
    ensures StepsTo(s, u) && |u| < |s|
  {
    if IsSpace(s[0]) {
      u := s[1..];
    } else {
      var w0 := TakeWord(s);
      assert w0 != [];
      u := s[|w0|..];
    }
  }

  /** One step of `WordsLast`. */
  lemma LastStep(s: string, u: string)
    requires Words(s) != [] && StepsTo(s, u)
    requires Words(u) != [] ==> IsLastWord(RStrip(u, IsSpace), Words(u)[|Words(u)| - 1])
    ensures IsLastWord(RStrip(s, IsSpace), Words(s)[|Words(s)| - 1])
  {
    if IsSpace(s[0]) {
      assert s == [s[0]] + u;
      assert Words(s) == Words(u);
      LastAfterSpace(s[0], u);
    } else {
      LastStepWord(s, u);
    }
  }

  /** One step of `WordsLast` over a leading token. */
  lemma LastStepWord(s: string, u: string)
    requires s != [] && !IsSpace(s[0]) && u == s[|TakeWord(s)|..]
    requires Words(u) != [] ==> IsLastWord(RStrip(u, IsSpace), Words(u)[|Words(u)| - 1])
    ensures Words(s) != [] && IsLastWord(RStrip(s, IsSpace), Words(s)[|Words(s)| - 1])
  {
    var w0, rest := FirstWord(s);
    LastAfterFirst(w0, rest);
  }

  /** The last token of a text that starts with the token `w0`. */
  lemma LastAfterFirst(w0: string, rest: string)
    requires w0 != [] && NoSpace(w0) && (rest == [] || IsSpace(rest[0]))
    requires Words(rest) != [] ==> IsLastWord(RStrip(rest, IsSpace), Words(rest)[|Words(rest)| - 1])
    ensures IsLastWord(RStrip(w0 + rest, IsSpace), ([w0] + Words(rest))[|Words(rest)|])
  {
    var ws := Words(rest);
    if ws == [] {
      LastOnlyWord(w0, rest);
      assert ([w0] + ws)[|ws|] == w0;
    } else {
      LastAfterWord(w0, rest);
      assert ([w0] + ws)[|ws|] == ws[|ws| - 1];
    }
  }

  /** A text that starts with a non-whitespace character: its first token and the rest. */
  lemma FirstWord(s: string) returns (w0: string, rest: string)
    requires s != [] && !IsSpace(s[0])
    ensures s == w0 + rest && rest == s[|TakeWord(s)|..]
    ensures w0 != [] && NoSpace(w0) && (rest == [] || IsSpace(rest[0]))
    ensures Words(s) == [w0] + Words(rest)
  {
    w0 := TakeWord(s);
    assert w0 != [];
    rest := s[|w0|..];
    assert s == w0 + rest;
  }

  /** The last token after a leading whitespace character `x` is the last token of the rest. */
  lemma LastAfterSpace(x: char, u: string)
    requires IsSpace(x) && Words(u) != []
    requires IsLastWord(RStrip(u, IsSpace), Words(u)[|Words(u)| - 1])
    ensures IsLastWord(RStrip([x] + u, IsSpace), Words(u)[|Words(u)| - 1])
  {
    NotAllSpace(u);
    RStripAppend([x], u, IsSpace);
    LastWordPrefix([x], RStrip(u, IsSpace), Words(u)[|Words(u)| - 1]);
  }

  /** A token followed by whitespace only is the last token. */
  lemma LastOnlyWord(w0: string, rest: string)
    requires w0 != [] && NoSpace(w0) && Words(rest) == []
    ensures IsLastWord(RStrip(w0 + rest, IsSpace), w0)
  {
    assert AllSpace(rest);
    RStripDropsTail(w0, rest, IsSpace);
  }

  /** The last token after a leading token `w0` is the last token of the rest. */
  lemma LastAfterWord(w0: string, rest: string)
    requires w0 != [] && NoSpace(w0) && rest != [] && IsSpace(rest[0]) && Words(rest) != []
    requires IsLastWord(RStrip(rest, IsSpace), Words(rest)[|Words(rest)| - 1])
    ensures IsLastWord(RStrip(w0 + rest, IsSpace), Words(rest)[|Words(rest)| - 1])
  {
    NotAllSpace(rest);
    var t' := RStrip(rest, IsSpace);
    var w := Words(rest)[|Words(rest)| - 1];
    RStripAppend(w0, rest, IsSpace);
    assert t'[0] == rest[0];
    assert w[0] == t'[|t'| - |w|];
    LastWordPrefix(w0, t', w);
  }

  /** A text with a token keeps a character after `rstrip`. */
  lemma NotAllSpace(u: string)
    requires Words(u) != []
    ensures RStrip(u, IsSpace) != []
  {
    if RStrip(u, IsSpace) == [] {
      assert AllSpace(u);
      assert false;
    }
  }

  /** The last word of `t` stays the last word of `a + t` when it does not start `t`, or
      when `a` is empty or ends with whitespace. */
  lemma LastWordPrefix(a: string, t: string, w: string)
    requires IsLastWord(t, w)
    requires |w| < |t| || a == [] || IsSpace(a[|a| - 1])
    ensures IsLastWord(a + t, w)
  {
    var s := a + t;
    assert s[|s| - |w|..] == t[|t| - |w|..];
    if |w| < |t| {
      assert s[|s| - |w| - 1] == t[|t| - |w| - 1];
    } else if a != [] {
      assert s[|s| - |w| - 1] == a[|a| - 1];
    }
  }

  /** The last token is unique: two non-empty whitespace-free last words of `t` agree. */
  lemma LastWordUnique(t: string, v: string, w: string)
    requires v != [] && NoSpace(v) && IsLastWord(t, v)
    requires w != [] && NoSpace(w) && IsLastWord(t, w)
    ensures v == w
  {
  }

  /** `rstrip` keeps everything before a text whose own `rstrip` is not empty. */
  lemma {:induction false} RStripAppend(a: string, u: string, drop: char -> bool)
    requires RStrip(u, drop) != []
    ensures RStrip(a + u, drop) == a + RStrip(u, drop)
    decreases |u|
  {
    if drop(u[|u| - 1]) {
      assert (a + u)[..|a + u| - 1] == a + u[..|u| - 1];
      RStripAppend(a, u[..|u| - 1], drop);
    }
  }

  /** `rstrip` drops a tail of dropped characters after a kept one, and nothing more. */
  lemma {:induction false} RStripDropsTail(a: string, u: string, drop: char -> bool)
    requires a != [] && !drop(a[|a| - 1])
    requires forall k :: 0 <= k < |u| ==> drop(u[k])
    ensures RStrip(a + u, drop) == a
    decreases |u|
  {
    if u == [] {
      assert a + u == a;
    } else {
      assert (a + u)[..|a + u| - 1] == a + u[..|u| - 1];
      RStripDropsTail(a, u[..|u| - 1], drop);
    }
  }

  lemma {:induction false} TakeWordAll(w: string)
    requires NoSpace(w)
    ensures TakeWord(w) == w
  {
    if w != [] {
      TakeWordAll(w[1..]);
    }
  }

  lemma {:induction false} TakeWordStop(w: string, t: string)
    requires NoSpace(w) && t != [] && IsSpace(t[0])
    ensures TakeWord(w + t) == w
  {
    if w == [] {
      assert w + t == t;
    } else {
      assert (w + t)[1..] == w[1..] + t;
      TakeWordStop(w[1..], t);
    }
  }

  // ---------------------------------------------------------------------------
  // replace
  // ---------------------------------------------------------------------------

  /** Python's `s.replace(pat, rep)` for a non-empty pattern: every occurrence of `pat`,
      scanning left to right without overlaps, is replaced by `rep`. */
  function ReplaceAll(s: string, pat: string, rep: string): string
    requires pat != []
    decreases |s|
  {
    if StartsWith(s, pat) then rep + ReplaceAll(s[|pat|..], pat, rep)
    else if s == [] then []
    else [s[0]] + ReplaceAll(s[1..], pat, rep)
  }

  /** A text in which the pattern does not occur is left as it is. */
  lemma {:induction false} ReplaceAllAbsent(s: string, pat: string, rep: string)
    requires pat != [] && !IsSubstring(pat, s)
    ensures ReplaceAll(s, pat, rep) == s
    decreases |s|
  {
    if s != [] {
      assert StartsWith(s, pat) ==> OccursAt(pat, s, 0);
      AbsentInTail(pat, s);
      ReplaceAllAbsent(s[1..], pat, rep);
    }
  }

  /** `replace` rewrites an occurrence of the pattern that no earlier character can start
      into the replacement, keeps the text before it, and goes on after it. */
  lemma {:induction false} ReplaceAllStep(a: string, pat: string, b: string, rep: string)
    requires pat != [] && pat[0] !in a
    ensures ReplaceAll(a + pat + b, pat, rep) == a + rep + ReplaceAll(b, pat, rep)
    decreases |a|
  {
    var s := a + pat + b;
    if a == [] {
      assert s == pat + b;
      assert s[|pat|..] == b;
    } else {
      assert s[0] == a[0] && a[0] != pat[0];
      assert s[1..] == a[1..] + pat + b;
      ReplaceAllStep(a[1..], pat, b, rep);
      assert a == [a[0]] + a[1..];
    }
  }

  /** `replace` rewrites the first occurrence of a pattern whose first character does not
      recur in it: the text before it (which holds no occurrence) is kept, the occurrence
      becomes the replacement, and the text after it is processed in the same way. */
  lemma {:induction false} ReplaceAllFirst(a: string, pat: string, b: string, rep: string)
    requires pat != [] && pat[0] !in pat[1..] && !IsSubstring(pat, a)
    ensures ReplaceAll(a + pat + b, pat, rep) == a + rep + ReplaceAll(b, pat, rep)
    decreases |a|
  {
    if a == [] {
      ReplaceAllHere(pat, b, rep);
      assert a + pat + b == pat + b;
    } else {
      NoEarlierStart(a, pat, b);
      AbsentInTail(pat, a);
      ReplaceAllFirst(a[1..], pat, b, rep);
      ReplaceAllFirstStep(a, pat, b, rep);
    }
  }

  /** The step of `ReplaceAllFirst`: a first character that starts no occurrence is
      kept in front of what the rest becomes. */
  lemma ReplaceAllFirstStep(a: string, pat: string, b: string, rep: string)
    requires a != [] && pat != [] && !StartsWith(a + pat + b, pat)
    requires ReplaceAll(a[1..] + pat + b, pat, rep) == a[1..] + rep + ReplaceAll(b, pat, rep)
    ensures ReplaceAll(a + pat + b, pat, rep) == a + rep + ReplaceAll(b, pat, rep)
  {
    var t := a[1..] + pat + b;
    assert a + pat + b == [a[0]] + t;
    ReplaceAllSkip(a[0], t, pat, rep);
    assert [a[0]] + (a[1..] + rep + ReplaceAll(b, pat, rep)) == a + rep + ReplaceAll(b, pat, rep);
  }

  /** An occurrence at the start becomes the replacement. */
  lemma ReplaceAllHere(pat: string, b: string, rep: string)
    requires pat != []
    ensures ReplaceAll(pat + b, pat, rep) == rep + ReplaceAll(b, pat, rep)
  {
    assert (pat + b)[..|pat|] == pat;
    assert (pat + b)[|pat|..] == b;
  }

  /** A character that starts no occurrence is kept. */
  lemma ReplaceAllSkip(x: char, t: string, pat: string, rep: string)
    requires pat != [] && !StartsWith([x] + t, pat)
    ensures ReplaceAll([x] + t, pat, rep) == [x] + ReplaceAll(t, pat, rep)
  {
    assert ([x] + t)[1..] == t;
  }

  /** Before the first occurrence no other one starts, when the pattern's first character
      does not recur in it. */
  lemma NoEarlierStart(a: string, pat: string, b: string)
    requires a != [] && pat != [] && pat[0] !in pat[1..] && !IsSubstring(pat, a)
    ensures !StartsWith(a + pat + b, pat)
  {
    var s := a + pat + b;
    if |a| >= |pat| {
      assert !OccursAt(pat, a, 0);
      assert s[..|pat|] == a[..|pat|];
    } else {
      assert pat[1..][|a| - 1] == pat[|a|];
      assert s[|a|] == pat[0];
    }
  }

  /** No occurrence of the pattern is left after replacing, when the replacement cannot
      start one (it lacks the pattern's first character) and cannot complete one (the
      rest of the pattern lacks the replacement's first character). */
  lemma {:induction false} ReplaceAllRemoves(s: string, pat: string, rep: string)
    requires pat != [] && rep != [] && pat[0] !in rep && rep[0] !in pat[1..]
    ensures !IsSubstring(pat, ReplaceAll(s, pat, rep))
    decreases |s|
  {
    if StartsWith(s, pat) {
      ReplaceAllRemoves(s[|pat|..], pat, rep);
      NotAfterReplacement(rep, ReplaceAll(s[|pat|..], pat, rep), pat);
    } else if s != [] {
      ReplaceAllRemoves(s[1..], pat, rep);
      NoPrefixAfterReplace(s, pat, rep);
      NotAfterChar(s[0], ReplaceAll(s[1..], pat, rep), pat);
    }
  }

  /** A pattern absent from `t` whose first character is not in `rep` is absent from
      `rep + t`. */
  lemma NotAfterReplacement(rep: string, t: string, pat: string)
    requires pat != [] && pat[0] !in rep && !IsSubstring(pat, t)
    ensures !IsSubstring(pat, rep + t)
  {
    var r := rep + t;
    forall k | 0 <= k <= |r| - |pat| ensures !OccursAt(pat, r, k) {
      if k < |rep| {
        assert r[k] == rep[k];
      } else {
        assert r[k..k + |pat|] == t[k - |rep|..k - |rep| + |pat|];
        assert !OccursAt(pat, t, k - |rep|);
      }
    }
  }

  /** A pattern absent from `t` that `[x] + t` does not start with is absent from it. */
  lemma NotAfterChar(x: char, t: string, pat: string)
    requires !IsSubstring(pat, t) && !StartsWith([x] + t, pat)
    ensures !IsSubstring(pat, [x] + t)
  {
    var r := [x] + t;
    forall k | 1 <= k <= |r| - |pat| ensures !OccursAt(pat, r, k) {
      assert r[k..k + |pat|] == t[k - 1..k - 1 + |pat|];
      assert !OccursAt(pat, t, k - 1);
    }
  }

  /** Under the conditions of `ReplaceAllRemoves`, a text that does not start with the
      pattern does not start with it after replacing either. */
  lemma NoPrefixAfterReplace(s: string, pat: string, rep: string)
    requires pat != [] && rep != [] && rep[0] !in pat[1..]
    requires s != [] && !StartsWith(s, pat)
    ensures !StartsWith(ReplaceAll(s, pat, rep), pat)
  {
    var t := ReplaceAll(s[1..], pat, rep);
    assert ReplaceAll(s, pat, rep) == [s[0]] + t;
    PrefixFromSource(s[1..], pat, rep, pat[1..]);
    ConsPrefix(s[0], t, pat);
    ConsPrefix(s[0], s[1..], pat);
    assert s == [s[0]] + s[1..];
  }

  /** A prefix without the replacement's first character that the replaced text starts
      with was already a prefix of the text. */
  lemma {:induction false} PrefixFromSource(t: string, pat: string, rep: string, p: string)
    requires pat != [] && rep != [] && rep[0] !in p
    ensures StartsWith(ReplaceAll(t, pat, rep), p) ==> StartsWith(t, p)
    decreases |p|
  {
    if p != [] && t != [] {
      if StartsWith(t, pat) {
        assert ReplaceAll(t, pat, rep)[0] == rep[0];
      } else {
        var u := ReplaceAll(t[1..], pat, rep);
        assert ReplaceAll(t, pat, rep) == [t[0]] + u;
        PrefixFromSource(t[1..], pat, rep, p[1..]);
        ConsPrefix(t[0], u, p);
        ConsPrefix(t[0], t[1..], p);
        assert t == [t[0]] + t[1..];
      }
    }
  }

  /** A text with a first character starts with `p` when that character is `p`'s first
      and the rest starts with the rest of `p`. */
  lemma ConsPrefix(x: char, t: string, p: string)
    requires p != []
    ensures StartsWith([x] + t, p) <==> x == p[0] && StartsWith(t, p[1..])
  {
    var s := [x] + t;
    if |p| <= |s| {
      assert s[..|p|] == [x] + t[..|p| - 1];
    }
  }

  /** A pattern absent from a text is absent from its tail. */
  lemma AbsentInTail(pat: string, s: string)
    requires s != [] && !IsSubstring(pat, s)
    ensures !IsSubstring(pat, s[1..])
  {
    forall k | 0 <= k <= |s| - 1 - |pat| ensures !OccursAt(pat, s[1..], k) {
      assert s[k + 1..k + 1 + |pat|] == s[1..][k..k + |pat|];
      assert OccursAt(pat, s[1..], k) ==> OccursAt(pat, s, k + 1);
    }
  }

  // ---------------------------------------------------------------------------
  // splitlines
  // ---------------------------------------------------------------------------

  predicate NoLineBoundary(s: string)
  {
    forall k :: 0 <= k < |s| ==> !IsLineBoundary(s[k])
  }

  /** The position of the first line boundary in `s`. */
  function BoundaryIndex(s: string): (i: nat)
    requires !NoLineBoundary(s)
    ensures i < |s| && IsLineBoundary(s[i]) && NoLineBoundary(s[..i])
  {
    if IsLineBoundary(s[0]) then 0
    else
      var j := BoundaryIndex(s[1..]);
      assert s[..j + 1] == [s[0]] + s[1..][..j];
      1 + j
  }

  lemma BoundaryIndexIs(s: string, j: nat)
    requires j < |s| && IsLineBoundary(s[j]) && NoLineBoundary(s[..j])
    ensures BoundaryIndex(s) == j
  {
  }

  /** Python's `s.splitlines()`: the lines of `s` without their terminators, where
      "\r\n" ends one line; a final terminator does not start an empty last line. */
  function SplitLines(s: string): (r: seq<string>)
    ensures forall k :: 0 <= k < |r| ==> NoLineBoundary(r[k])
    ensures r == [] <==> s == []
    decreases |s|
  {
    if s == [] then []
    else if NoLineBoundary(s) then [s]
    else
      var i := BoundaryIndex(s);
      var skip := if s[i] == '\r' && i + 1 < |s| && s[i + 1] == '\n' then 2 else 1;
      [s[..i]] + SplitLines(s[i + skip..])
  }

  /** `splitlines` undoes joining lines with "\n" when no line holds a line boundary and the
      last line is not empty (an empty last line would be read as a final terminator). */
  lemma {:induction false} SplitLinesJoin(lines: seq<string>)
    requires |lines| >= 1 && lines[|lines| - 1] != []
    requires forall k :: 0 <= k < |lines| ==> NoLineBoundary(lines[k])
    ensures SplitLines(JoinWith(lines, "\n")) == lines
  {
    if |lines| > 1 {
      var a, tail := lines[0], lines[1..];
      SplitLinesJoin(tail);
      SplitLinesAt(a, JoinWith(tail, "\n"));
      assert lines == [a] + tail;
    }
  }

  /** `splitlines` undoes joining boundary-free lines with "\n" and ending the text with a
      final "\n", as a file of lines is written. */
  lemma {:induction false} SplitLinesTerminated(lines: seq<string>)
    requires |lines| >= 1
    requires forall k :: 0 <= k < |lines| ==> NoLineBoundary(lines[k])
    ensures SplitLines(JoinWith(lines, "\n") + "\n") == lines
  {
    var a := lines[0];
    if |lines| == 1 {
      SplitLinesAt(a, "");
      assert a + "\n" + "" == JoinWith(lines, "\n") + "\n";
    } else {
      var tail := lines[1..];
      SplitLinesTerminated(tail);
      SplitLinesAt(a, JoinWith(tail, "\n") + "\n");
      assert JoinWith(lines, "\n") + "\n" == a + "\n" + (JoinWith(tail, "\n") + "\n");
      assert lines == [a] + tail;
    }
  }

  /** A line without a boundary, then "\n", then more text: the line comes first. */
  lemma SplitLinesAt(a: string, rest: string)
    requires NoLineBoundary(a)
    ensures SplitLines(a + "\n" + rest) == [a] + SplitLines(rest)
  {
    var s := a + "\n" + rest;
    assert s[|a|] == '\n';
    assert s[..|a|] == a;
    BoundaryIndexIs(s, |a|);
    assert s[|a| + 1..] == rest;
  }

  // ---------------------------------------------------------------------------
  // The order of `sorted` on strings
  // ---------------------------------------------------------------------------

  /** Python's `a < b` on strings: lexicographic by code point, a proper prefix first. */
  predicate LexLess(a: string, b: string)
  {
    if a == [] then b != []
    else if b == [] then false
    else a[0] < b[0] || (a[0] == b[0] && LexLess(a[1..], b[1..]))
  }

  lemma {:induction false} LexLessIrreflexive(a: string)
    ensures !LexLess(a, a)
  {
    if a != [] {
      LexLessIrreflexive(a[1..]);
    }
  }

  lemma {:induction false} LexLessTransitive(a: string, b: string, c: string)
    requires LexLess(a, b) && LexLess(b, c)
    ensures LexLess(a, c)
  {
    if a != [] && a[0] == b[0] && b[0] == c[0] {
      LexLessTransitive(a[1..], b[1..], c[1..]);
    }
  }

  lemma {:induction false} LexLessTotal(a: string, b: string)
    ensures a == b || LexLess(a, b) || LexLess(b, a)
  {
    if a != [] && b != [] && a[0] == b[0] {
      LexLessTotal(a[1..], b[1..]);
      if a[1..] == b[1..] {
        assert a == [a[0]] + a[1..] && b == [b[0]] + b[1..];
      }
    }
  }

  lemma LexLessAsymmetric(a: string, b: string)
    ensures !(LexLess(a, b) && LexLess(b, a))
  {
    if LexLess(a, b) && LexLess(b, a) {
      LexLessTransitive(a, b, a);
      LexLessIrreflexive(a);
    }
  }

  predicate StrictlySorted(s: seq<string>)
  {
    forall i, j :: 0 <= i < j < |s| ==> LexLess(s[i], s[j])
  }

  predicate IsLeast(m: string, s: set<string>)
  {
    m in s && forall x :: x in s && x != m ==> LexLess(m, x)
  }

  lemma {:induction false} LeastExists(s: set<string>)
    requires s != {}
    ensures exists m :: IsLeast(m, s)
    decreases |s|
  {
    var x :| x in s;
    if s != {x} {
      LeastExists(s - {x});
      var m :| IsLeast(m, s - {x});
      LexLessTotal(m, x);
      if LexLess(m, x) {
        assert IsLeast(m, s);
      } else {
        forall y | y in s && y != x ensures LexLess(x, y) {
          if y != m {
            LexLessTransitive(x, m, y);
          }
        }
        assert IsLeast(x, s);
      }
    } else {
      assert IsLeast(x, s);
    }
  }

  lemma LeastUnique(m: string, n: string, s: set<string>)
    requires IsLeast(m, s) && IsLeast(n, s)
    ensures m == n
  {
    LexLessAsymmetric(m, n);
  }

  /** Python's `sorted(s)` for a set of strings: its elements, each once, in strictly
      ascending code-point order. */
  function SortedSet(s: set<string>): (r: seq<string>)
    ensures |r| == |s| && (forall x :: x in r <==> x in s) && StrictlySorted(r)
    decreases |s|
  {
    if s == {} then []
    else
      LeastExists(s);
      assert forall m, n :: IsLeast(m, s) && IsLeast(n, s) ==> m == n by {
        forall m, n | IsLeast(m, s) && IsLeast(n, s) ensures m == n {
          LeastUnique(m, n, s);
        }
      }
      var m :| IsLeast(m, s);
      var rest := SortedSet(s - {m});
      ConsLeast(m, rest, s);
      [m] + rest
  }

  /** The least element of `s` before an ascending listing of the others lists `s` in
      ascending order. */
  lemma ConsLeast(m: string, rest: seq<string>, s: set<string>)
    requires IsLeast(m, s)
    requires |rest| == |s - {m}| && (forall x :: x in rest <==> x in s - {m}) && StrictlySorted(rest)
    ensures var r := [m] + rest;
      |r| == |s| && (forall x :: x in r <==> x in s) && StrictlySorted(r)
  {
    var r := [m] + rest;
    forall i, j | 0 <= i < j < |r| ensures LexLess(r[i], r[j]) {
      if i > 0 {
        assert r[i] == rest[i - 1] && r[j] == rest[j - 1];
      } else {
        assert r[j] == rest[j - 1] && rest[j - 1] in rest;
        assert r[j] in s - {m};
      }
    }
  }

  /** The sorted order is unique: any strictly ascending listing of exactly the elements
      of `s` is `SortedSet(s)`. */
  lemma {:induction false} SortedUnique(r: seq<string>, s: set<string>)
    requires StrictlySorted(r) && (forall x :: x in r <==> x in s)
    ensures r == SortedSet(s)
    decreases |r|
  {
    if r == [] {
      assert s == {};
    } else {
      var m := r[0];
      HeadIsLeast(r, s);
      SortedSetCons(s, m);
      TailListing(r, s);
      SortedUnique(r[1..], s - {m});
      assert r == [m] + r[1..];
    }
  }

  /** The sorted listing of a non-empty set is its least element, then the sorted listing
      of the others. */
  lemma SortedSetCons(s: set<string>, m: string)
    requires IsLeast(m, s)
    ensures SortedSet(s) == [m] + SortedSet(s - {m})
  {
    var t := SortedSet(s);
    HeadIsLeast(t, s);
    LeastUnique(m, t[0], s);
  }

  /** The tail of a strictly ascending listing of `s` lists the rest of `s`. */
  lemma TailListing(r: seq<string>, s: set<string>)
    requires r != [] && StrictlySorted(r) && (forall x :: x in r <==> x in s)
    ensures StrictlySorted(r[1..]) && (forall x :: x in r[1..] <==> x in s - {r[0]})
  {
    HeadNotInTail(r);
    forall x ensures x in r[1..] <==> x in s - {r[0]} {
      assert x in r <==> x == r[0] || x in r[1..] by {
        assert r == [r[0]] + r[1..];
      }
    }
  }

  /** The first element of a strictly ascending listing of `s` is the least of `s`. */
  lemma HeadIsLeast(r: seq<string>, s: set<string>)
    requires r != [] && StrictlySorted(r) && (forall x :: x in r <==> x in s)
    ensures IsLeast(r[0], s)
  {
    forall x | x in s && x != r[0] ensures LexLess(r[0], x) {
      var j :| 0 <= j < |r| && r[j] == x;
    }
  }

  /** A strictly ascending sequence holds its first element only once. */
  lemma HeadNotInTail(r: seq<string>)
    requires r != [] && StrictlySorted(r)
    ensures r[0] !in r[1..]
  {
    LexLessIrreflexive(r[0]);
    forall j | 0 <= j < |r| - 1 ensures r[1..][j] != r[0] {
      assert LexLess(r[0], r[j + 1]);
    }
  }


  // ---------------------------------------------------------------------------
  // Sequences
  // ---------------------------------------------------------------------------

  /** A sequence is its own prefix of full length (the last step of a loop over it). */
  lemma TakeAll<T>(s: seq<T>)
    ensures s[..|s|] == s
  {
  }

  /** Concatenation regroups. */
  lemma AppendAssoc<T>(a: seq<T>, b: seq<T>, c: seq<T>)
    ensures (a + b) + c == a + (b + c)
  {
  }

  /** The first part of a three-part concatenation is its prefix. */
  lemma ConcatPrefix<T>(a: seq<T>, b: seq<T>, c: seq<T>)
    ensures (a + b + c)[..|a|] == a
  {
  }

  /** The last element of a three-part concatenation whose last part is one element. */
  lemma ConcatEnds<T>(a: seq<T>, b: seq<T>, c: seq<T>)
    requires |c| == 1
    ensures (a + b + c)[|a| + |b|] == c[0]
  {
  }

  /** Indexing into the middle part of a three-part concatenation. */
  lemma ConcatMiddle<T>(a: seq<T>, b: seq<T>, c: seq<T>, t: int)
    requires 0 <= t < |b|
    ensures (a + b + c)[|a| + t] == b[t]
  {
  }
}
