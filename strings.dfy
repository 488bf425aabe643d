/**
 * String helpers shared by several core files: splitting on a one-character
 * separator (Python's `str.split(c)` and JavaScript's `String.split(c)` agree
 * on it), joining back, and trimming whitespace from both ends (Python's
 * `str.strip()`, jQuery's `trim`), each trim taking its own whitespace class.
 */
module Strings {

  /** The position of the first `c` in `s`. */
  function IndexOf(s: string, c: char): (i: nat)
    requires c in s
    ensures i < |s| && s[i] == c && c !in s[..i]
  {
    if s[0] == c then 0
    else
      assert s == [s[0]] + s[1..];
      var j := IndexOf(s[1..], c);
      assert s[..j + 1] == [s[0]] + s[1..][..j];
      j + 1
  }

  /** The pieces joined back together with `sep` between them. */
  function Join(pieces: seq<string>, sep: char): string
    requires |pieces| >= 1
  {
    if |pieces| == 1 then pieces[0] else pieces[0] + [sep] + Join(pieces[1..], sep)
  }

  /**
   * `s.split(sep)`: the maximal runs between occurrences of `sep`, empty runs
   * included, so there is always one piece more than there are separators.
   */
  function Split(s: string, sep: char): (pieces: seq<string>)
    ensures |pieces| >= 1
    ensures forall k :: 0 <= k < |pieces| ==> sep !in pieces[k]
    ensures Join(pieces, sep) == s
    ensures |pieces| == multiset(s)[sep] + 1
    decreases |s|
  {
    if sep !in s then
      assert multiset(s)[sep] == 0;
      [s]
    else
      var i := IndexOf(s, sep);
      var rest := Split(s[i + 1..], sep);
      assert s == s[..i] + [sep] + s[i + 1..];
      assert multiset(s) == multiset(s[..i]) + multiset{sep} + multiset(s[i + 1..]) by {
        calc {
          multiset(s);
          multiset(s[..i] + [sep] + s[i + 1..]);
          multiset(s[..i] + [sep]) + multiset(s[i + 1..]);
        }
      }
      assert multiset(s[..i])[sep] == 0;
      [s[..i]] + rest
  }

  /** Joining separator-free pieces loses nothing: such pieces are determined by their join. */
  lemma {:induction false} JoinInjective(p: seq<string>, q: seq<string>, sep: char)
    requires |p| >= 1 && forall k :: 0 <= k < |p| ==> sep !in p[k]
    requires |q| >= 1 && forall k :: 0 <= k < |q| ==> sep !in q[k]
    requires Join(p, sep) == Join(q, sep)
    ensures p == q
    decreases |p|
  {
    var j := Join(p, sep);
    if |p| > 1 && |q| > 1 {
      JoinHead(p, sep);
      JoinHead(q, sep);
      assert |p[0]| == |q[0]|;
      assert p[0] == j[..|p[0]|] == q[0];
      var tp, tq := Join(p[1..], sep), Join(q[1..], sep);
      assert tp == j[|p[0]| + 1..] == tq;
      JoinInjective(p[1..], q[1..], sep);
      assert p == [p[0]] + p[1..];
      assert q == [q[0]] + q[1..];
    }
  }

  lemma JoinHead(p: seq<string>, sep: char)
    requires |p| > 1
    ensures |p[0]| < |Join(p, sep)| && Join(p, sep)[|p[0]|] == sep
  {
  }

  /** `Split` inverts `Join`: separator-free pieces that join to `s` are `s.split(sep)`. */
  lemma SplitUnique(s: string, sep: char, pieces: seq<string>)
    requires |pieces| >= 1 && forall k :: 0 <= k < |pieces| ==> sep !in pieces[k]
    requires Join(pieces, sep) == s
    ensures Split(s, sep) == pieces
  {
    JoinInjective(Split(s, sep), pieces, sep);
  }

  /** The last piece of `s.split(sep)`, Python's `s.split(sep)[-1]`. */
  function LastPiece(s: string, sep: char): (last: string)
    ensures sep !in last
    ensures |last| <= |s| && s[|s| - |last|..] == last
    ensures |last| < |s| ==> s[|s| - |last| - 1] == sep
    ensures |last| == |s| <==> sep !in s
  {
    var pieces := Split(s, sep);
    JoinLast(pieces, sep);
    pieces[|pieces| - 1]
  }

  /** Joining ends with the last piece, preceded by a separator unless there is only one piece. */
  lemma {:induction false} JoinLast(pieces: seq<string>, sep: char)
    requires |pieces| >= 1
    ensures var j, last := Join(pieces, sep), pieces[|pieces| - 1];
      && |last| <= |j| && j[|j| - |last|..] == last
      && (|pieces| > 1 ==> |last| < |j| && j[|j| - |last| - 1] == sep)
  {
    if |pieces| > 1 {
      JoinLast(pieces[1..], sep);
      var tail := Join(pieces[1..], sep);
      var last := pieces[|pieces| - 1];
      assert pieces[1..][|pieces| - 2] == last;
      var j := pieces[0] + [sep] + tail;
      assert j[|j| - |tail|..] == tail;
      if |pieces| == 2 {
        assert tail == last;
      }
    }
  }

  /** `s` with every leading character in `space` removed. */
  function TrimStart(s: string, space: char -> bool): (r: string)
    ensures |r| <= |s| && r == s[|s| - |r|..]
    ensures forall k :: 0 <= k < |s| - |r| ==> space(s[k])
    ensures r != [] ==> !space(r[0])
  {
    if s != [] && space(s[0]) then TrimStart(s[1..], space) else s
  }

  /** `s` with every trailing character in `space` removed. */
  function TrimEnd(s: string, space: char -> bool): (r: string)
    ensures |r| <= |s| && r == s[..|r|]
    ensures forall k :: |r| <= k < |s| ==> space(s[k])
    ensures r != [] ==> !space(r[|r| - 1])
  {
    if s != [] && space(s[|s| - 1]) then TrimEnd(s[..|s| - 1], space) else s
  }

  /**
   * `s` with whitespace removed from both ends: a contiguous part of `s`
   * that neither starts nor ends with whitespace and outside of which there
   * is only whitespace.
   */
  function Trim(s: string, space: char -> bool): (r: string)
    ensures var a := |s| - |TrimStart(s, space)|;
      && a + |r| <= |s| && r == s[a..a + |r|]
      && (forall k :: 0 <= k < a ==> space(s[k]))
      && (forall k :: a + |r| <= k < |s| ==> space(s[k]))
    ensures r != [] ==> !space(r[0]) && !space(r[|r| - 1])
  {
    var t := TrimStart(s, space);
    var r := TrimEnd(t, space);
    TrimSlices(s, t, r, space);
    r
  }

  lemma TrimSlices(s: string, t: string, r: string, space: char -> bool)
    requires |t| <= |s| && t == s[|s| - |t|..]
    requires forall k :: 0 <= k < |s| - |t| ==> space(s[k])
    requires t != [] ==> !space(t[0])
    requires |r| <= |t| && r == t[..|r|]
    requires forall k :: |r| <= k < |t| ==> space(t[k])
    requires r != [] ==> !space(r[|r| - 1])
    ensures var a := |s| - |t|;
      && a + |r| <= |s| && r == s[a..a + |r|]
      && (forall k :: 0 <= k < a ==> space(s[k]))
      && (forall k :: a + |r| <= k < |s| ==> space(s[k]))
    ensures r != [] ==> !space(r[0]) && !space(r[|r| - 1])
  {
    var a := |s| - |t|;
    forall k | a + |r| <= k < |s| ensures space(s[k]) {
      assert s[k] == t[k - a];
    }
    if r != [] {
      assert r[0] == t[0];
    }
  }

  /** Trimming removes nothing more from a string that is already trimmed. */
  lemma {:induction false} TrimIdempotent(s: string, space: char -> bool)
    ensures Trim(Trim(s, space), space) == Trim(s, space)
  {
    var r := Trim(s, space);
    if r != [] {
      assert TrimStart(r, space) == r;
      assert TrimEnd(r, space) == r;
    }
  }

  /** The whitespace of Python 3's `str.strip()`, up to U+3000. */
  predicate IsPythonSpace(c: char)
  {
    c == ' ' || '\t' <= c <= '\r' || '\U{1c}' <= c <= '\U{1f}' || c == '\U{85}' || c == '\U{a0}'
    || c == '\U{1680}' || '\U{2000}' <= c <= '\U{200a}' || c == '\U{2028}' || c == '\U{2029}'
    || c == '\U{202f}' || c == '\U{205f}' || c == '\U{3000}'
  }

  /** JavaScript's white space and line terminators, trimmed by `jQuery.trim`. */
  predicate IsJsSpace(c: char)
  {
    c == ' ' || '\t' <= c <= '\r' || c == '\U{a0}' || c == '\U{feff}'
    || c == '\U{1680}' || '\U{2000}' <= c <= '\U{200a}' || c == '\U{2028}' || c == '\U{2029}'
    || c == '\U{202f}' || c == '\U{205f}' || c == '\U{3000}'
  }
}
