/**
 * The languages of the pattern shapes the stderr signatures use: a
 * literal run, a class head, and literal runs separated by `.*` gaps.
 */
module PatternShapes {
  import opened Patterns

  /** A literal head consumes exactly its own text. */
  lemma {:induction false} ExactText(w: string, q: Pattern, v: string)
    ensures MatchExact([Text(w)] + q, v) <==> w <= v && MatchExact(q, v[|w|..])
  {
    assert ([Text(w)] + q)[1..] == q;
  }

  /** A class head consumes one character of the class. */
  lemma {:induction false} ExactOneOf(cs: set<char>, q: Pattern, v: string)
    ensures MatchExact([OneOf(cs)] + q, v) <==> v != [] && v[0] in cs && MatchExact(q, v[1..])
  {
    assert ([OneOf(cs)] + q)[1..] == q;
  }

  /** A leading gap consumes some newline-free prefix. */
  lemma {:induction false} ExactDotStar(q: Pattern, v: string)
    ensures MatchExact([DotStar] + q, v) <==>
              exists k :: 0 <= k <= |v| && SingleLine(v[..k]) && MatchExact(q, v[k..])
  {
    assert ([DotStar] + q)[1..] == q;
  }

  /** A literal pattern's language is its own text alone. */
  lemma {:induction false} TextLanguage(w: string, v: string)
    ensures MatchExact([Text(w)], v) <==> v == w
  {
    assert [Text(w)] == [Text(w)] + [];
    ExactText(w, [], v);
    if w <= v {
      assert MatchExact([], v[|w|..]) <==> v[|w|..] == [];
    }
  }

  /** `re.search` of a literal pattern is substring search. */
  lemma {:induction false} SearchText(w: string, s: string)
    ensures Search([Text(w)], s) <==> Contains(s, w)
  {
    SearchIsOccurs([Text(w)], s);
    if Occurs([Text(w)], s) {
      var i, j :| 0 <= i <= j <= |s| && MatchExact([Text(w)], s[i..j]);
      TextLanguage(w, s[i..j]);
      assert w <= s[i..];
    }
    if Contains(s, w) {
      var i :| 0 <= i <= |s| && w <= s[i..];
      assert s[i..i + |w|] == w;
      TextLanguage(w, s[i..i + |w|]);
    }
  }

  /** `.*b` matches `u` exactly when `u` is a newline-free gap followed by `b`. */
  lemma {:induction false} TailGapLanguage(b: string, u: string)
    ensures MatchExact([DotStar, Text(b)], u) <==>
              |b| <= |u| && u[|u| - |b|..] == b && SingleLine(u[..|u| - |b|])
  {
    assert [DotStar, Text(b)] == [DotStar] + [Text(b)];
    ExactDotStar([Text(b)], u);
    if MatchExact([DotStar, Text(b)], u) {
      var k :| 0 <= k <= |u| && SingleLine(u[..k]) && MatchExact([Text(b)], u[k..]);
      TextLanguage(b, u[k..]);
    }
    if |b| <= |u| && u[|u| - |b|..] == b && SingleLine(u[..|u| - |b|]) {
      TextLanguage(b, u[|u| - |b|..]);
    }
  }

  /** `a.*b` matches `v` exactly when `v` is `a`, then a newline-free gap, then `b`. */
  lemma {:induction false} GapLanguage(a: string, b: string, v: string)
    ensures MatchExact([Text(a), DotStar, Text(b)], v) <==>
              |a| + |b| <= |v| && v[..|a|] == a && v[|v| - |b|..] == b
              && SingleLine(v[|a|..|v| - |b|])
  {
    assert [Text(a), DotStar, Text(b)] == [Text(a)] + [DotStar, Text(b)];
    ExactText(a, [DotStar, Text(b)], v);
    if |a| <= |v| {
      TailGapLanguage(b, v[|a|..]);
      SuffixShape(a, b, v);
    }
  }

  // Slices of the suffix after `a`, restated as slices of `v`.
  lemma {:induction false} SuffixShape(a: string, b: string, v: string)
    requires |a| <= |v|
    ensures (|b| <= |v[|a|..]| && v[|a|..][|v[|a|..]| - |b|..] == b
               && SingleLine(v[|a|..][..|v[|a|..]| - |b|]))
        <==> (|a| + |b| <= |v| && v[|v| - |b|..] == b && SingleLine(v[|a|..|v| - |b|]))
  {
    if |a| + |b| <= |v| {
      assert v[|a|..][|v[|a|..]| - |b|..] == v[|v| - |b|..];
      assert v[|a|..][..|v[|a|..]| - |b|] == v[|a|..|v| - |b|];
    }
  }

  /** Text placed between any two pieces is contained in the whole. */
  lemma {:induction false} ContainsMiddle(pre: string, w: string, post: string)
    ensures Contains(pre + w + post, w)
  {
    var s := pre + w + post;
    assert w <= s[|pre|..];
  }

  /** A substring in the language of `p` is found by `re.search`. */
  lemma {:induction false} FoundAt(p: Pattern, pre: string, v: string, post: string)
    requires MatchExact(p, v)
    ensures Search(p, pre + v + post)
  {
    var s := pre + v + post;
    assert s[|pre|..|pre| + |v|] == v;
    SearchIsOccurs(p, s);
  }
}
