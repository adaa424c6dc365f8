/**
 * The fragment of Python's `re` module that the stderr signatures of
 * aiida_bigdft_new/parsers.py use: runs of literal characters,
 * one-character classes such as `[oO]`, and the gap `.*`, where `.`
 * matches any character except a newline.
 *
 * `Search` is the operational reading of `re.search` (try every start
 * position, backtrack over the length of each gap); `Occurs` is the
 * declarative one (some substring belongs to the pattern's language,
 * given by `MatchExact`). `SearchIsOccurs` proves the two agree.
 */
module Patterns {

  datatype Atom =
    | Text(w: string)          // a run of literal characters
    | OneOf(chars: set<char>)  // a class such as `[oO]`
    | DotStar                  // `.*`

  type Pattern = seq<Atom>

  /** `w` holds no newline, so `.` matches each of its characters. */
  predicate SingleLine(w: string) {
    '\n' !in w
  }

  // ---------------------------------------------------------------------------
  // Operational semantics

  /** Whether `p` matches some prefix of `s`, backtracking over each `.*`. */
  predicate MatchPrefix(p: Pattern, s: string)
    decreases |s|, |p|
  {
    if p == [] then true
    else match p[0]
      case Text(w) => w <= s && MatchPrefix(p[1..], s[|w|..])
      case OneOf(cs) => s != [] && s[0] in cs && MatchPrefix(p[1..], s[1..])
      case DotStar => MatchPrefix(p[1..], s) || (s != [] && s[0] != '\n' && MatchPrefix(p, s[1..]))
  }

  /** `re.search(p, s)` succeeds: `p` matches a prefix of some suffix of `s`. */
  predicate Search(p: Pattern, s: string)
    decreases |s|
  {
    MatchPrefix(p, s) || (s != [] && Search(p, s[1..]))
  }

  // ---------------------------------------------------------------------------
  // Declarative semantics

  /** `v` belongs to the language of `p`: `p` matches the whole of `v`. */
  ghost predicate MatchExact(p: Pattern, v: string)
    decreases |p|
  {
    if p == [] then v == []
    else match p[0]
      case Text(w) => w <= v && MatchExact(p[1..], v[|w|..])
      case OneOf(cs) => v != [] && v[0] in cs && MatchExact(p[1..], v[1..])
      case DotStar => exists k :: 0 <= k <= |v| && SingleLine(v[..k]) && MatchExact(p[1..], v[k..])
  }

  /** Some substring of `s` belongs to the language of `p`. */
  ghost predicate Occurs(p: Pattern, s: string) {
    exists i, j :: 0 <= i <= j <= |s| && MatchExact(p, s[i..j])
  }

  /** `w` occurs in `s` as a contiguous piece. */
  ghost predicate Contains(s: string, w: string) {
    exists i :: 0 <= i <= |s| && w <= s[i..]
  }

  // ---------------------------------------------------------------------------
  // Agreement of the two semantics

  /** A prefix match ends somewhere: it names the prefix it matched. */
  lemma {:induction false} PrefixWitness(p: Pattern, s: string) returns (j: nat)
    requires MatchPrefix(p, s)
    ensures j <= |s| && MatchExact(p, s[..j])
    decreases |s|, |p|
  {
    if p == [] {
      j := 0;
    } else {
      match p[0]
      case Text(w) =>
        var j' := PrefixWitness(p[1..], s[|w|..]);
        j := |w| + j';
        assert s[..j][..|w|] == w;
        assert s[..j][|w|..] == s[|w|..][..j'];
      case OneOf(cs) =>
        var j' := PrefixWitness(p[1..], s[1..]);
        j := j' + 1;
        assert s[..j][1..] == s[1..][..j'];
      case DotStar =>
        if MatchPrefix(p[1..], s) {
          j := PrefixWitness(p[1..], s);
          assert s[..j][..0] == [] && s[..j][0..] == s[..j];
        } else {
          var j' := PrefixWitness(p, s[1..]);
          var v' := s[1..][..j'];
          var k' :| 0 <= k' <= |v'| && SingleLine(v'[..k']) && MatchExact(p[1..], v'[k'..]);
          j := j' + 1;
          var v := s[..j];
          assert v == [s[0]] + v';
          assert v[..k' + 1] == [s[0]] + v'[..k'];
          assert v[k' + 1..] == v'[k'..];
        }
    }
  }

  /** A prefix in the language of `p` is found by `MatchPrefix`. */
  lemma {:induction false} ExactPrefix(p: Pattern, s: string, j: nat)
    requires j <= |s| && MatchExact(p, s[..j])
    ensures MatchPrefix(p, s)
    decreases |s|, |p|
  {
    if p == [] {
    } else {
      match p[0]
      case Text(w) =>
        assert w <= s;
        assert s[..j][|w|..] == s[|w|..][..j - |w|];
        ExactPrefix(p[1..], s[|w|..], j - |w|);
      case OneOf(cs) =>
        assert s[..j][1..] == s[1..][..j - 1];
        ExactPrefix(p[1..], s[1..], j - 1);
      case DotStar =>
        var v := s[..j];
        var k :| 0 <= k <= |v| && SingleLine(v[..k]) && MatchExact(p[1..], v[k..]);
        if k == 0 {
          assert v[0..] == v;
          ExactPrefix(p[1..], s, j);
        } else {
          assert s[0] == v[..k][0];
          var v' := s[1..][..j - 1];
          assert v'[..k - 1] == v[..k][1..];
          assert v'[k - 1..] == v[k..];
          assert MatchExact(p, v');
          ExactPrefix(p, s[1..], j - 1);
        }
    }
  }

  /** A successful search names the start position it succeeded at. */
  lemma {:induction false} SearchWitness(p: Pattern, s: string) returns (i: nat)
    requires Search(p, s)
    ensures i <= |s| && MatchPrefix(p, s[i..])
    decreases |s|
  {
    if MatchPrefix(p, s) {
      i := 0;
      assert s[0..] == s;
    } else {
      var i' := SearchWitness(p, s[1..]);
      i := i' + 1;
      assert s[1..][i'..] == s[i..];
    }
  }

  /** A prefix match at any start position makes the search succeed. */
  lemma {:induction false} PrefixSearch(p: Pattern, s: string, i: nat)
    requires i <= |s| && MatchPrefix(p, s[i..])
    ensures Search(p, s)
    decreases i
  {
    if i == 0 {
      assert s[0..] == s;
    } else {
      assert s[1..][i - 1..] == s[i..];
      PrefixSearch(p, s[1..], i - 1);
    }
  }

  /** `re.search` succeeds exactly when some substring is in the pattern's language. */
  lemma {:induction false} SearchIsOccurs(p: Pattern, s: string)
    ensures Search(p, s) <==> Occurs(p, s)
  {
    if Search(p, s) {
      var i := SearchWitness(p, s);
      var j := PrefixWitness(p, s[i..]);
      assert s[i..][..j] == s[i..i + j];
    }
    if Occurs(p, s) {
      var i, j :| 0 <= i <= j <= |s| && MatchExact(p, s[i..j]);
      assert s[i..][..j - i] == s[i..j];
      ExactPrefix(p, s[i..], j - i);
      PrefixSearch(p, s, i);
    }
  }

  /** A pattern that starts with a non-empty run or a class needs input. */
  lemma {:induction false} NoSearchInEmpty(p: Pattern)
    requires p != [] && (p[0].OneOf? || (p[0].Text? && p[0].w != []))
    ensures !Search(p, "")
  {
  }
}
