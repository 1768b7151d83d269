/**
 * Facts about how a signature of the usual shape `<pkg.Short: ret name(args)>` is cut into
 * its short class name and its method name, shared by both versions of the formatter,
 * and the docstring's example signature written in that shape.
 */
module SignatureShape {
  import opened PyStrings
  import opened Signature

  /** A signature `<pkg.Short: ret name(args)>` has a ':' and a method name once its
      brackets are stripped; its short class name is `Short` and its method name `name`. */
  lemma ShapeParts(sig: string, pkg: string, short: string, ret: string, name: string, args: string)
    requires sig == "<" + pkg + "." + short + ": " + ret + " " + name + "(" + args + ")>"
    requires pkg != [] && !IsAngle(pkg[0]) && ':' !in pkg
    requires ':' !in short && '.' !in short
    requires ret != [] && NoSpace(ret) && '(' !in ret
    requires name != [] && NoSpace(name) && '(' !in name
    ensures ':' in Inner(sig) && HasMethodName(Inner(sig))
    ensures ShortClassName(Inner(sig)) == short && MethodName(Inner(sig)) == name
  {
    var trimmed := ret + " " + name + "(" + args + ")";
    var rest := " " + trimmed;
    var cls := pkg + "." + short;
    var inner := cls + ":" + rest;
    assert sig == "<" + pkg + "." + short + ": " + trimmed + ">";
    ShapeInner(pkg, short, trimmed);
    ShapeClass(pkg, short, rest);
    ShapeMethod(inner, ret, name, args);
  }

  /** Stripping the brackets of the signature leaves its inner text. */
  lemma ShapeInner(pkg: string, short: string, trimmed: string)
    requires pkg != [] && !IsAngle(pkg[0])
    requires trimmed != [] && trimmed[|trimmed| - 1] == ')'
    ensures Inner("<" + pkg + "." + short + ": " + trimmed + ">") == pkg + "." + short + ":" + (" " + trimmed)
  {
    var inner := pkg + "." + short + ":" + (" " + trimmed);
    assert inner[0] == pkg[0];
    assert "<" + pkg + "." + short + ": " + trimmed + ">" == "<" + inner + ">";
    StripWrapped("<", inner, ">", IsAngle);
  }

  /** The class part and the short class name of the inner text. */
  lemma ShapeClass(pkg: string, short: string, rest: string)
    requires ':' !in pkg && ':' !in short && '.' !in short
    ensures var inner := pkg + "." + short + ":" + rest;
      ':' in inner && ClassPart(inner) == pkg + "." + short && Remainder(inner) == rest
      && ShortClassName(inner) == short
  {
    var cls := pkg + "." + short;
    var inner := cls + ":" + rest;
    assert ':' !in cls by {
      assert forall k :: 0 <= k < |cls| ==> cls[k] == if k < |pkg| then pkg[k] else if k == |pkg| then '.' else short[k - |pkg| - 1];
    }
    SplitOnceAt(cls, ':', rest);
    LastSegmentAfter(pkg, '.', short);
  }

  /** The method fragment of a text whose remainder is ` ret name(args)`. */
  lemma ShapeFragment(inner: string, ret: string, name: string, args: string)
    requires ':' in inner && Remainder(inner) == " " + (ret + " " + name + "(" + args + ")")
    requires ret != [] && NoSpace(ret) && '(' !in ret && '(' !in name
    ensures MethodFragment(inner) == ret + " " + name
  {
    var fragment := ret + " " + name;
    var trimmed := fragment + "(" + args + ")";
    assert trimmed[0] == ret[0];
    LeadingSpaceStripped(trimmed);
    assert Strip(Remainder(inner), IsSpace) == trimmed;
    NotInSpaced(ret, name, '(');
    AppendAssoc(fragment + "(", args, ")");
    assert trimmed == fragment + ['('] + (args + ")");
    FirstPieceBefore(fragment, '(', args + ")");
  }

  /** One leading space goes, and a text with no space at either end stays. */
  lemma LeadingSpaceStripped(t: string)
    requires t != [] && !IsSpace(t[0]) && !IsSpace(t[|t| - 1])
    ensures Strip(" " + t, IsSpace) == t
  {
    assert " " + t == " " + t + "";
    StripWrapped(" ", t, "", IsSpace);
  }

  /** A character in neither word, and not a space, is not in the two words joined by a
      space. */
  lemma NotInSpaced(a: string, b: string, c: char)
    requires c !in a && c !in b && c != ' '
    ensures c !in a + " " + b
  {
    var s := a + " " + b;
    forall k | 0 <= k < |s| ensures s[k] != c {
      if k < |a| {
        assert s[k] == a[k];
      } else if k > |a| {
        assert s[k] == b[k - |a| - 1];
      }
    }
  }

  /** `s.split(c)[0]`, where the first `c` of `s` follows `a`. */
  lemma FirstPieceBefore(a: string, c: char, b: string)
    requires c !in a
    ensures SplitAll(a + [c] + b, c)[0] == a
  {
    FirstPiece(a + [c] + b, c);
    SplitOnceAt(a, c, b);
  }

  /** The method name of a text whose remainder is ` ret name(args)`. */
  lemma ShapeMethod(inner: string, ret: string, name: string, args: string)
    requires ':' in inner && Remainder(inner) == " " + (ret + " " + name + "(" + args + ")")
    requires ret != [] && NoSpace(ret) && '(' !in ret
    requires name != [] && NoSpace(name) && '(' !in name
    ensures HasMethodName(inner) && MethodName(inner) == name
  {
    ShapeFragment(inner, ret, name, args);
    WordsPair(ret, name);
  }

  /** `split()` of two words joined by a space. */
  lemma WordsPair(a: string, b: string)
    requires a != [] && NoSpace(a) && b != [] && NoSpace(b)
    ensures Words(a + " " + b) == [a, b]
  {
    assert JoinWith([a, b], " ") == a + " " + b;
    WordsJoin([a, b]);
  }

  /** The docstring's signature in the shape `<pkg.Short: ret name(args)>`. */
  lemma DocSignature()
    ensures "<" + "com.kuleuven.library" + "." + "Book" + ": " + "void" + " " + "<init>" + "(" + "java.lang.String" + ")>"
      == "<com.kuleuven.library.Book: void <init>(java.lang.String)>"
  {
    var s1 := "<" + "com.kuleuven.library";
    assert s1 == "<com.kuleuven.library";
    var s2 := s1 + "." + "Book";
    assert s2 == "<com.kuleuven.library.Book";
    var s3 := s2 + ": " + "void";
    assert s3 == "<com.kuleuven.library.Book: void";
    var s4 := s3 + " " + "<init>";
    assert s4 == "<com.kuleuven.library.Book: void <init>";
    var s5 := s4 + "(" + "java.lang.String";
    assert s5 == "<com.kuleuven.library.Book: void <init>(java.lang.String";
  }

  /** The docstring's return type and method name hold no whitespace. */
  lemma DocWords()
    ensures NoSpace("void") && NoSpace("<init>")
  {
    var r, n := "void", "<init>";
    assert r == ['v', 'o', 'i', 'd'];
    assert n == ['<', 'i', 'n', 'i', 't', '>'];
  }

}
