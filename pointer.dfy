/**
 * JSON Pointer (RFC 6901) as the library uses it (pointer.go): a list of
 * already-escaped path segments plus a list of tags. Rendering joins the
 * segments with "/", parsing splits on "/", appending escapes "~" and then "/"
 * as section 3 of RFC 6901 requires, and Match is the wildcard matcher of the
 * ignore rules. Pointers are values: every operation returns a new pointer.
 */
module Pointer {

  const Separator: char := '/'
  const Tilde: char := '~'
  const Wildcard: string := "*"

  datatype JSONPointer = JSONPointer(path: seq<string>, tags: seq<string>)
  {
    /** The pointer's text: its segments joined by "/". */
    function String(): string
    {
      Join(path)
    }

    /**
     * A copy of this pointer with one more segment, the escaped `elem`.
     * The receiver is a value and is left as it was.
     */
    function Add(elem: string): JSONPointer
    {
      this.(path := path + [Escape(elem)])
    }

    /**
     * Wildcard match of an ignore-rule pattern: every pattern element other
     * than "*" must exist in the pointer at the same index and be equal to it;
     * then the pattern either ends with "*" or has as many elements as the
     * pointer has segments.
     */
    function Match(pattern: string): bool
    {
      var elements := Split(pattern);
      ElementsMatchFrom(elements, path, 0) && (HasSuffix(pattern, Wildcard) || |path| == |elements|)
    }

    /** A copy of this pointer whose tags are replaced by `tags'`. */
    function AddTags(tags': seq<string>): (r: JSONPointer)
      ensures r.path == path && r.tags == tags'
    {
      this.(tags := tags')
    }

    predicate ShouldOmite()
    {
      "omitempty" in tags
    }

    function Prefix(): seq<string>
    {
      path
    }
  }

  /** The pointer whose segments are exactly `prefix` (used for the walk's root). */
  function NewWithPrefix(prefix: seq<string>): (r: JSONPointer)
    ensures r.path == prefix && r.tags == []
    ensures r.String() == Join(prefix)
  {
    JSONPointer(prefix, [])
  }

  /** Any text is a pointer; rendering the parsed pointer gives the text back. */
  function ParseJSONPointer(s: string): (r: JSONPointer)
    ensures r.String() == s && r.tags == []
    ensures |r.path| >= 1 && NoSeparators(r.path)
  {
    JoinSplit(s);
    JSONPointer(Split(s), [])
  }

  // ---------------------------------------------------------------------------
  // strings.Split / strings.Join on the one-character separator "/"

  /** strings.Split(s, "/"): always at least one element, none containing "/". */
  function Split(s: string): (r: seq<string>)
    ensures |r| >= 1 && NoSeparators(r)
  {
    if |s| == 0 then [""]
    else
      var rest := Split(s[1..]);
      if s[0] == Separator then [""] + rest
      else [[s[0]] + rest[0]] + rest[1..]
  }

  /** strings.Join(segs, "/"). */
  function Join(segs: seq<string>): string
  {
    if |segs| == 0 then ""
    else if |segs| == 1 then segs[0]
    else segs[0] + [Separator] + Join(segs[1..])
  }

  predicate NoSeparators(segs: seq<string>)
  {
    forall i :: 0 <= i < |segs| ==> Separator !in segs[i]
  }

  predicate HasSuffix(s: string, suffix: string)
  {
    |suffix| <= |s| && s[|s| - |suffix|..] == suffix
  }

  predicate ElementMatches(element: string, path: seq<string>, i: nat)
  {
    element == Wildcard || (i < |path| && element == path[i])
  }

  /** The loop of Match: elements from index i on all match. */
  function ElementsMatchFrom(elements: seq<string>, path: seq<string>, i: nat): (r: bool)
    requires i <= |elements|
    ensures r <==> forall k :: i <= k < |elements| ==> ElementMatches(elements[k], path, k)
    decreases |elements| - i
  {
    if i == |elements| then true
    else if elements[i] == Wildcard then ElementsMatchFrom(elements, path, i + 1)
    else if i >= |path| || elements[i] != path[i] then false
    else ElementsMatchFrom(elements, path, i + 1)
  }

  // ---------------------------------------------------------------------------
  // Escaping (section 3 of RFC 6901) and its inverse (section 4)

  /** strings.ReplaceAll(s, [c], r) for a one-character pattern. */
  function ReplaceChar(s: string, c: char, r: string): string
  {
    if |s| == 0 then "" else (if s[0] == c then r else [s[0]]) + ReplaceChar(s[1..], c, r)
  }

  /** "~" becomes "~0" first, then "/" becomes "~1". */
  function Escape(elem: string): string
  {
    ReplaceChar(ReplaceChar(elem, Tilde, "~0"), Separator, "~1")
  }

  /** Decoding of section 4 of RFC 6901: "~1" is "/", "~0" is "~". */
  function Unescape(s: string): string
  {
    if |s| == 0 then ""
    else if |s| >= 2 && s[0] == Tilde && s[1] == '1' then [Separator] + Unescape(s[2..])
    else if |s| >= 2 && s[0] == Tilde && s[1] == '0' then [Tilde] + Unescape(s[2..])
    else [s[0]] + Unescape(s[1..])
  }

  /** What escaping does to one character. */
  function EscapeChar(c: char): string
  {
    if c == Tilde then "~0" else if c == Separator then "~1" else [c]
  }

  lemma {:induction false} ReplaceCharAppend(a: string, b: string, c: char, r: string)
    ensures ReplaceChar(a + b, c, r) == ReplaceChar(a, c, r) + ReplaceChar(b, c, r)
  {
    if |a| > 0 {
      assert (a + b)[1..] == a[1..] + b;
      ReplaceCharAppend(a[1..], b, c, r);
    } else {
      assert a + b == b;
    }
  }

  lemma EscapeCons(elem: string)
    requires |elem| > 0
    ensures Escape(elem) == EscapeChar(elem[0]) + Escape(elem[1..])
  {
    var head := if elem[0] == Tilde then "~0" else [elem[0]];
    assert ReplaceChar(elem, Tilde, "~0") == head + ReplaceChar(elem[1..], Tilde, "~0");
    ReplaceCharAppend(head, ReplaceChar(elem[1..], Tilde, "~0"), Separator, "~1");
    if elem[0] == Tilde {
      assert ReplaceChar(head, Separator, "~1") == "~0" by {
        assert head[1..][1..] == "";
      }
    } else {
      assert ReplaceChar(head, Separator, "~1") == EscapeChar(elem[0]) by {
        assert head[1..] == "";
      }
    }
  }

  /** An escaped segment never contains the separator. */
  lemma {:induction false} EscapeHasNoSeparator(elem: string)
    ensures Separator !in Escape(elem)
    decreases |elem|
  {
    if |elem| > 0 {
      EscapeCons(elem);
      EscapeHasNoSeparator(elem[1..]);
    }
  }

  /** Escaping is undone by RFC 6901 decoding, so distinct names give distinct segments. */
  lemma {:induction false} UnescapeEscape(elem: string)
    ensures Unescape(Escape(elem)) == elem
    decreases |elem|
  {
    if |elem| > 0 {
      EscapeCons(elem);
      UnescapeEscape(elem[1..]);
      var t := Escape(elem[1..]);
      var c := elem[0];
      if c == Tilde {
        assert ("~0" + t)[2..] == t;
      } else if c == Separator {
        assert ("~1" + t)[2..] == t;
      } else {
        assert ([c] + t)[1..] == t;
      }
      assert elem == [c] + elem[1..];
    }
  }

  /** A segment free of "~" and "/" (a slice index, an ordinary field tag) is its own escape. */
  lemma {:induction false} EscapePlain(elem: string)
    requires Tilde !in elem && Separator !in elem
    ensures Escape(elem) == elem
    decreases |elem|
  {
    if |elem| > 0 {
      EscapeCons(elem);
      EscapePlain(elem[1..]);
      assert elem == [elem[0]] + elem[1..];
    }
  }

  // ---------------------------------------------------------------------------
  // Parse / render round trips

  /** Rendering the split of any text gives the text back. */
  lemma {:induction false} JoinSplit(s: string)
    ensures Join(Split(s)) == s
    decreases |s|
  {
    if |s| > 0 {
      var rest := Split(s[1..]);
      JoinSplit(s[1..]);
      if s[0] == Separator {
        assert Join([""] + rest) == "" + [Separator] + Join(rest) by {
          assert ([""] + rest)[1..] == rest;
        }
      } else {
        var r := [[s[0]] + rest[0]] + rest[1..];
        if |rest| == 1 {
          assert Join(r) == [s[0]] + rest[0];
        } else {
          assert r[1..] == rest[1..];
          assert Join(rest) == rest[0] + [Separator] + Join(rest[1..]);
        }
      }
      assert s == [s[0]] + s[1..];
    }
  }

  /** Splitting a separator-free text yields that text alone. */
  lemma {:induction false} SplitPlain(x: string)
    requires Separator !in x
    ensures Split(x) == [x]
    decreases |x|
  {
    if |x| > 0 {
      SplitPlain(x[1..]);
      assert x == [x[0]] + x[1..];
    }
  }

  /** Splitting at the first separator. */
  lemma {:induction false} SplitAt(x: string, y: string)
    requires Separator !in x
    ensures Split(x + [Separator] + y) == [x] + Split(y)
    decreases |x|
  {
    if |x| == 0 {
      assert ([] + [Separator] + y)[1..] == y;
    } else {
      assert (x + [Separator] + y)[1..] == x[1..] + [Separator] + y;
      SplitAt(x[1..], y);
      assert x == [x[0]] + x[1..];
    }
  }

  /** Parsing the rendering of separator-free segments gives the segments back. */
  lemma {:induction false} SplitJoin(segs: seq<string>)
    requires |segs| >= 1 && NoSeparators(segs)
    ensures Split(Join(segs)) == segs
    decreases |segs|
  {
    if |segs| == 1 {
      SplitPlain(segs[0]);
    } else {
      SplitJoin(segs[1..]);
      SplitAt(segs[0], Join(segs[1..]));
      assert segs == [segs[0]] + segs[1..];
    }
  }

  /** Rendering one more segment appends "/" and the segment. */
  lemma {:induction false} JoinSnoc(segs: seq<string>, s: string)
    ensures Join(segs + [s]) == if |segs| == 0 then s else Join(segs) + [Separator] + s
    decreases |segs|
  {
    if |segs| == 1 {
      assert (segs + [s])[1..] == [s];
    } else if |segs| > 1 {
      assert (segs + [s])[1..] == segs[1..] + [s];
      JoinSnoc(segs[1..], s);
    }
  }

  /**
   * Add appends exactly one segment and keeps the tags; the segment holds no
   * separator and unescapes back to `elem`, and the rendering grows by "/"
   * and the escaped name.
   */
  lemma AddSegment(p: JSONPointer, elem: string)
    ensures p.Add(elem).path == p.path + [Escape(elem)] && p.Add(elem).tags == p.tags
    ensures Separator !in p.Add(elem).path[|p.path|] && Unescape(p.Add(elem).path[|p.path|]) == elem
    ensures |p.path| > 0 ==> p.Add(elem).String() == p.String() + "/" + Escape(elem)
  {
    EscapeHasNoSeparator(elem);
    UnescapeEscape(elem);
    JoinSnoc(p.path, Escape(elem));
  }

  /**
   * For a pointer whose segments came from parsing and appending, rendering and
   * parsing again returns the same segments: appended names cannot be
   * mis-split because they were escaped when appended.
   */
  lemma BuiltPointerRoundTrip(p: JSONPointer, elem: string)
    requires NoSeparators(p.path)
    ensures ParseJSONPointer(p.Add(elem).String()).path == p.Add(elem).path
  {
    AddSegment(p, elem);
    var q := p.Add(elem);
    assert NoSeparators(q.path);
    SplitJoin(q.path);
  }

  // ---------------------------------------------------------------------------
  // Match

  /**
   * What Match decides: every pattern element matches the pointer's segment
   * at its index ("*" matches anything there, even past the end), and either
   * the pattern ends with "*" or it has exactly as many elements as the
   * pointer has segments.
   */
  lemma MatchSpec(p: JSONPointer, pattern: string)
    ensures p.Match(pattern) <==> (
      && (forall i :: 0 <= i < |Split(pattern)| ==> ElementMatches(Split(pattern)[i], p.path, i))
      && (HasSuffix(pattern, Wildcard) || |p.path| == |Split(pattern)|))
  {
    var elements := Split(pattern);
    assert ElementsMatchFrom(elements, p.path, 0) <==>
      forall i :: 0 <= i < |elements| ==> ElementMatches(elements[i], p.path, i);
    assert forall i :: 0 <= i < |elements| ==>
      (ElementMatches(elements[i], p.path, i) <==> ElementMatches(Split(pattern)[i], p.path, i));
  }

  /** "*" matches every pointer, of any length. */
  lemma MatchAll(p: JSONPointer)
    ensures p.Match(Wildcard)
  {
    SplitsAs(Wildcard, [Wildcard]);
    MatchSpec(p, Wildcard);
  }

  /** Splitting after one more separator adds one more element at the end. */
  lemma {:induction false} SplitSnoc(s: string, x: string)
    requires Separator !in x
    ensures Split(s + [Separator] + x) == Split(s) + [x]
    decreases |s|
  {
    if |s| == 0 {
      SplitAt("", x);
      SplitPlain(x);
      assert s + [Separator] + x == "" + [Separator] + x;
    } else {
      assert (s + [Separator] + x)[1..] == s[1..] + [Separator] + x;
      SplitSnoc(s[1..], x);
    }
  }

  /** Splitting a text that is the rendering of separator-free segments. */
  lemma SplitsAs(s: string, segs: seq<string>)
    requires |segs| >= 1 && NoSeparators(segs) && Join(segs) == s
    ensures Split(s) == segs
  {
    SplitJoin(segs);
  }

  /** The pointer "/a/b/c" of the library's tests. */
  lemma ParseABC()
    ensures ParseJSONPointer("/a/b/c") == JSONPointer(["", "a", "b", "c"], [])
  {
    SplitsAs("/a/b/c", ["", "a", "b", "c"]);
  }

  /** A pattern that extends "/a/b/c" by one more element. */
  lemma SplitABCPlus(x: string)
    requires Separator !in x
    ensures Split("/a/b/c" + [Separator] + x) == ["", "a", "b", "c", x]
  {
    SplitsAs("/a/b/c", ["", "a", "b", "c"]);
    SplitSnoc("/a/b/c", x);
  }

  // The matching and non-matching examples of the library's tests, one
  // lemma each: "/a/b/c" matches "*", "/a/b/c", "/a/*/c", "/a/*", "/*/*" and
  // "/a/b/c/*", and does not match "*/d", "/a/c/b", "/a", "/a/b",
  // "/a/b/c/d/e" or "a/b/c"; the relative pointer "a/b/c" does not match
  // "/a/b/c". The Split lemmas give the elements of each pattern; each
  // pattern has its own, which keeps every proof's context small.

  lemma SplitStar()
    ensures Split("*") == ["*"]
  {
    SplitsAs("*", ["*"]);
  }

  lemma SplitAStarC()
    ensures Split("/a/*/c") == ["", "a", "*", "c"]
  {
    SplitsAs("/a/*/c", ["", "a", "*", "c"]);
  }

  lemma SplitAStar()
    ensures Split("/a/*") == ["", "a", "*"]
  {
    SplitsAs("/a/*", ["", "a", "*"]);
  }

  lemma SplitStarStar()
    ensures Split("/*/*") == ["", "*", "*"]
  {
    SplitsAs("/*/*", ["", "*", "*"]);
  }

  lemma SplitABCStar()
    ensures Split("/a/b/c/*") == ["", "a", "b", "c", "*"]
  {
    SplitABCPlus("*");
    assert "/a/b/c" + [Separator] + "*" == "/a/b/c/*";
  }

  lemma SplitStarD()
    ensures Split("*/d") == ["*", "d"]
  {
    SplitsAs("*/d", ["*", "d"]);
  }

  lemma SplitACB()
    ensures Split("/a/c/b") == ["", "a", "c", "b"]
  {
    SplitsAs("/a/c/b", ["", "a", "c", "b"]);
  }

  lemma SplitA()
    ensures Split("/a") == ["", "a"]
  {
    SplitsAs("/a", ["", "a"]);
  }

  lemma SplitAB()
    ensures Split("/a/b") == ["", "a", "b"]
  {
    SplitsAs("/a/b", ["", "a", "b"]);
  }

  lemma SplitABCDE()
    ensures Split("/a/b/c/d/e") == ["", "a", "b", "c", "d", "e"]
  {
    assert Split("/a/b/c/d") == ["", "a", "b", "c", "d"] by {
      SplitABCPlus("d");
      assert "/a/b/c" + [Separator] + "d" == "/a/b/c/d";
    }
    SplitSnoc("/a/b/c/d", "e");
    assert "/a/b/c/d" + [Separator] + "e" == "/a/b/c/d/e";
  }

  lemma SplitRelativeABC()
    ensures Split("a/b/c") == ["a", "b", "c"]
  {
    SplitsAs("a/b/c", ["a", "b", "c"]);
  }

  /** A pattern whose elements all match at their indices, and that ends with "*" or is as long as the pointer, matches it. */
  lemma MatchBy(p: JSONPointer, pattern: string, segs: seq<string>)
    requires Split(pattern) == segs
    requires forall i :: 0 <= i < |segs| ==> ElementMatches(segs[i], p.path, i)
    requires HasSuffix(pattern, Wildcard) || |p.path| == |segs|
    ensures p.Match(pattern)
  {
    MatchSpec(p, pattern);
  }

  lemma MatchWildcardOnly()
    ensures ParseJSONPointer("/a/b/c").Match("*")
  {
    ParseABC();
    SplitStar();
    MatchBy(ParseJSONPointer("/a/b/c"), "*", ["*"]);
  }

  lemma MatchExact()
    ensures ParseJSONPointer("/a/b/c").Match("/a/b/c")
  {
    ParseABC();
    MatchBy(ParseJSONPointer("/a/b/c"), "/a/b/c", ["", "a", "b", "c"]);
  }

  lemma MatchInnerWildcard()
    ensures ParseJSONPointer("/a/b/c").Match("/a/*/c")
  {
    ParseABC();
    SplitAStarC();
    MatchBy(ParseJSONPointer("/a/b/c"), "/a/*/c", ["", "a", "*", "c"]);
  }

  lemma MatchTrailingWildcard()
    ensures ParseJSONPointer("/a/b/c").Match("/a/*")
  {
    ParseABC();
    SplitAStar();
    MatchBy(ParseJSONPointer("/a/b/c"), "/a/*", ["", "a", "*"]);
  }

  lemma MatchWildcards()
    ensures ParseJSONPointer("/a/b/c").Match("/*/*")
  {
    ParseABC();
    SplitStarStar();
    MatchBy(ParseJSONPointer("/a/b/c"), "/*/*", ["", "*", "*"]);
  }

  lemma MatchLongerWildcard()
    ensures ParseJSONPointer("/a/b/c").Match("/a/b/c/*")
  {
    ParseABC();
    SplitABCStar();
    MatchBy(ParseJSONPointer("/a/b/c"), "/a/b/c/*", ["", "a", "b", "c", "*"]);
  }

  /** One pattern element that fails at its index is enough to reject the pointer. */
  lemma NoMatchAt(p: JSONPointer, pattern: string, i: nat)
    requires i < |Split(pattern)| && !ElementMatches(Split(pattern)[i], p.path, i)
    ensures !p.Match(pattern)
  {
    MatchSpec(p, pattern);
  }

  lemma NoMatchRelativeWildcard()
    ensures !ParseJSONPointer("/a/b/c").Match("*/d")
  {
    ParseABC();
    SplitStarD();
    NoMatchAt(ParseJSONPointer("/a/b/c"), "*/d", 1);
  }

  lemma NoMatchOrder()
    ensures !ParseJSONPointer("/a/b/c").Match("/a/c/b")
  {
    ParseABC();
    SplitACB();
    NoMatchAt(ParseJSONPointer("/a/b/c"), "/a/c/b", 2);
  }

  lemma NoMatchShorter()
    ensures !ParseJSONPointer("/a/b/c").Match("/a")
  {
    ParseABC();
    SplitA();
    MatchSpec(ParseJSONPointer("/a/b/c"), "/a");
  }

  lemma NoMatchPrefix()
    ensures !ParseJSONPointer("/a/b/c").Match("/a/b")
  {
    ParseABC();
    SplitAB();
    MatchSpec(ParseJSONPointer("/a/b/c"), "/a/b");
  }

  lemma NoMatchLonger()
    ensures !ParseJSONPointer("/a/b/c").Match("/a/b/c/d/e")
  {
    ParseABC();
    SplitABCDE();
    NoMatchAt(ParseJSONPointer("/a/b/c"), "/a/b/c/d/e", 4);
  }

  lemma NoMatchRelativePointer()
    ensures !ParseJSONPointer("a/b/c").Match("/a/b/c")
  {
    SplitRelativeABC();
    ParseABC();
    NoMatchAt(ParseJSONPointer("a/b/c"), "/a/b/c", 0);
  }

  lemma NoMatchRelativePattern()
    ensures !ParseJSONPointer("/a/b/c").Match("a/b/c")
  {
    ParseABC();
    SplitRelativeABC();
    NoMatchAt(ParseJSONPointer("/a/b/c"), "a/b/c", 0);
  }
}
