/**
 * The mention pattern `@(\w+)` (MENTION_REGEX in forum/utils.py, and the
 * renderer's `user_link_rule`), and what a left-to-right, non-overlapping
 * search for it yields. On a Python 3 `str`, `\w` is the Unicode word
 * class: `_` and every character for which `str.isalnum()` holds.
 */
module Mentions {
  import opened Wrappers

  /**
   * The word class, listed block by block: ASCII letters, digits and `_`;
   * the alphanumerics of Latin-1 (the letters, the superscripts and the
   * vulgar fractions); the Greek and Cyrillic letters; hiragana and
   * katakana; the CJK ideographs of the basic block and of extension A;
   * the Hangul syllables; and the full-width digits and letters. In each
   * listed range every character is alphanumeric.
   */
  predicate IsWordChar(c: char)
  {
    || 'a' <= c <= 'z' || 'A' <= c <= 'Z' || '0' <= c <= '9' || c == '_'
    || c == '\U{aa}' || c == '\U{b2}' || c == '\U{b3}' || c == '\U{b5}' || c == '\U{b9}' || c == '\U{ba}'
    || '\U{bc}' <= c <= '\U{be}' || '\U{c0}' <= c <= '\U{d6}' || '\U{d8}' <= c <= '\U{f6}' || '\U{f8}' <= c <= '\U{ff}'
    || '\U{391}' <= c <= '\U{3a1}' || '\U{3a3}' <= c <= '\U{3a9}' || '\U{3b1}' <= c <= '\U{3c9}'
    || '\U{400}' <= c <= '\U{45f}'
    || '\U{3041}' <= c <= '\U{3096}' || '\U{30a1}' <= c <= '\U{30fa}'
    || '\U{3400}' <= c <= '\U{4db5}' || '\U{4e00}' <= c <= '\U{9fa5}'
    || '\U{ac00}' <= c <= '\U{d7a3}'
    || '\U{ff10}' <= c <= '\U{ff19}' || '\U{ff21}' <= c <= '\U{ff3a}' || '\U{ff41}' <= c <= '\U{ff5a}'
  }

  /** A name in Chinese is a mention, as with any other letters. */
  lemma ChineseNameIsMentioned()
    ensures FindAll("@\U{5f20}\U{4e09} \U{4f60}\U{597d}") == ["\U{5f20}\U{4e09}"]
  {
    var s := "@\U{5f20}\U{4e09} \U{4f60}\U{597d}";
    assert MentionAt(s, 0) && WordEnd(s, 1) == 3;
    assert FirstMention(s) == Some(0);
    FindAllStep(s, 0);
    assert NameAt(s, 0) == s[1..3] == "\U{5f20}\U{4e09}";
    assert FindAll(s[3..]) == [] by {
      assert FirstMention(s[3..]).None? by {
        forall k | 0 <= k < |s[3..]| ensures !MentionAt(s[3..], k) {
          assert s[3..][k] != '@';
        }
      }
    }
  }

  /** True when the pattern matches starting at `i`: an `@` followed by a word character. */
  predicate MentionAt(s: string, i: int)
  {
    0 <= i && i + 1 < |s| && s[i] == '@' && IsWordChar(s[i + 1])
  }

  /** Where the greedy `\w+` that starts at `j` stops. */
  function WordEnd(s: string, j: nat): (k: nat)
    requires j <= |s|
    ensures j <= k <= |s|
    ensures forall m :: j <= m < k ==> IsWordChar(s[m])
    ensures k == |s| || !IsWordChar(s[k])
    decreases |s| - j
  {
    if j < |s| && IsWordChar(s[j]) then WordEnd(s, j + 1) else j
  }

  /** `regex.search(s[from:])`: the leftmost match start at or after `from`. */
  function FirstMentionFrom(s: string, from: nat): (r: Option<nat>)
    requires from <= |s|
    ensures r.Some? ==> from <= r.value && MentionAt(s, r.value)
    ensures r.Some? ==> forall k :: from <= k < r.value ==> !MentionAt(s, k)
    ensures r.None? ==> forall k :: from <= k < |s| ==> !MentionAt(s, k)
    decreases |s| - from
  {
    if from == |s| then None
    else if MentionAt(s, from) then Some(from)
    else FirstMentionFrom(s, from + 1)
  }

  function FirstMention(s: string): (r: Option<nat>)
    ensures r.Some? ==> MentionAt(s, r.value) && forall k :: 0 <= k < r.value ==> !MentionAt(s, k)
    ensures r.None? ==> forall k :: 0 <= k < |s| ==> !MentionAt(s, k)
  {
    FirstMentionFrom(s, 0)
  }

  /** The name a match at `i` captures: the whole word run after the `@`. */
  function NameAt(s: string, i: nat): (name: string)
    requires MentionAt(s, i)
    ensures |name| >= 1 && forall m :: 0 <= m < |name| ==> IsWordChar(name[m])
  {
    s[i + 1..WordEnd(s, i + 1)]
  }

  /** A piece of scanned text: literal text between matches, or a matched name. */
  datatype Token = Text(text: string) | Mention(name: string)

  /** The text a token stands for in the input. */
  function Source(t: Token): string
  {
    match t
    case Text(x) => x
    case Mention(n) => "@" + n
  }

  function Concat(ts: seq<Token>): string
  {
    if ts == [] then "" else Source(ts[0]) + Concat(ts[1..])
  }

  function Names(ts: seq<Token>): seq<string>
  {
    if ts == [] then []
    else if ts[0].Mention? then [ts[0].name] + Names(ts[1..])
    else Names(ts[1..])
  }

  /** Texts and mentions alternate, starting and ending with a text. */
  ghost predicate Alternating(ts: seq<Token>)
  {
    || (|ts| == 1 && ts[0].Text?)
    || (|ts| >= 3 && ts[0].Text? && ts[1].Mention? && Alternating(ts[2..]))
  }

  /**
   * The text split at each successive match: the text before the match, the
   * name, and then the same again on what follows the match. Joining the
   * tokens back gives the text.
   */
  function Tokens(s: string): (ts: seq<Token>)
    ensures |ts| >= 1
    ensures Concat(ts) == s
    decreases |s|
  {
    match FirstMention(s)
    case None => [Text(s)]
    case Some(i) =>
      var e := WordEnd(s, i + 1);
      var rest := Tokens(s[e..]);
      ConcatStep(s[..i], s[i + 1..e], rest);
      Reassemble(s, i, e);
      [Text(s[..i]), Mention(s[i + 1..e])] + rest
  }

  lemma Reassemble(s: string, i: nat, e: nat)
    requires i < e <= |s| && s[i] == '@'
    ensures s == s[..i] + ("@" + s[i + 1..e]) + s[e..]
  {
    assert s[..e] == s[..i] + ("@" + s[i + 1..e]);
  }

  lemma ConcatStep(x: string, n: string, rest: seq<Token>)
    ensures Concat([Text(x), Mention(n)] + rest) == x + ("@" + n) + Concat(rest)
  {
    var ts := [Text(x), Mention(n)] + rest;
    assert ts[1..] == [Mention(n)] + rest;
    assert ts[1..][1..] == rest;
  }

  /** A matched name: a non-empty run of word characters. */
  ghost predicate IsName(n: string)
  {
    |n| >= 1 && forall m :: 0 <= m < |n| ==> IsWordChar(n[m])
  }

  /** What each token is: a text holds no match of its own, a name is a word run. */
  ghost predicate TokenOk(t: Token)
  {
    match t
    case Text(x) => FirstMention(x).None?
    case Mention(n) => IsName(n)
  }

  /**
   * The tokens alternate text, mention, ..., text; no text token holds a
   * match of its own, and every name is a non-empty run of word characters.
   */
  lemma {:induction false} TokensShape(s: string)
    ensures Alternating(Tokens(s))
    ensures forall k :: 0 <= k < |Tokens(s)| ==> TokenOk(Tokens(s)[k])
    decreases |s|
  {
    match FirstMention(s)
    case None =>
    case Some(i) =>
      var e := WordEnd(s, i + 1);
      TokensShape(s[e..]);
      PrefixHasNoMention(s, i);
      var rest := Tokens(s[e..]);
      var ts := Tokens(s);
      var head := [Text(s[..i]), Mention(s[i + 1..e])];
      assert ts == head + rest;
      assert ts[2..] == rest;
      assert TokenOk(head[0]) && TokenOk(head[1]);
      forall k | 2 <= k < |ts| ensures TokenOk(ts[k]) {
        assert ts[k] == rest[k - 2];
      }
  }

  /** The text before the first match holds no match of its own. */
  lemma PrefixHasNoMention(s: string, i: nat)
    requires FirstMention(s) == Some(i)
    ensures FirstMention(s[..i]).None?
  {
    forall k | 0 <= k < i ensures !MentionAt(s[..i], k) {
      assert !MentionAt(s, k);
    }
  }

  /** `re.findall(MENTION_REGEX, s)`: the captured names, left to right. */
  function FindAll(s: string): seq<string>
    decreases |s|
  {
    match FirstMention(s)
    case None => []
    case Some(i) => [NameAt(s, i)] + FindAll(s[WordEnd(s, i + 1)..])
  }

  /** A search after a match's end sees the same word runs, shifted. */
  lemma {:induction false} WordEndShift(s: string, e: nat, j: nat)
    requires e <= j <= |s|
    ensures WordEnd(s, j) == e + WordEnd(s[e..], j - e)
    decreases |s| - j
  {
    if j < |s| && IsWordChar(s[j]) {
      WordEndShift(s, e, j + 1);
    }
  }

  /** Tokens and findall see the same names. */
  lemma {:induction false} TokenNames(s: string)
    ensures Names(Tokens(s)) == FindAll(s)
    decreases |s|
  {
    match FirstMention(s)
    case None =>
    case Some(i) =>
      var e := WordEnd(s, i + 1);
      TokenNames(s[e..]);
      NamesStep(s[..i], s[i + 1..e], Tokens(s[e..]));
  }

  lemma NamesStep(x: string, n: string, rest: seq<Token>)
    ensures Names([Text(x), Mention(n)] + rest) == [n] + Names(rest)
  {
    var ts := [Text(x), Mention(n)] + rest;
    assert ts[1..] == [Mention(n)] + rest;
    assert ts[1..][1..] == rest;
  }

  lemma FindAllStep(s: string, first: nat)
    requires FirstMention(s) == Some(first)
    ensures FindAll(s) == [NameAt(s, first)] + FindAll(s[WordEnd(s, first + 1)..])
  {
  }

  /** A match in the text after position `e` is a match of the whole text, with the same name. */
  lemma NameAtShift(s: string, e: nat, j: nat)
    requires e <= |s| && MentionAt(s[e..], j)
    ensures MentionAt(s, j + e) && NameAt(s, j + e) == NameAt(s[e..], j)
  {
    WordEndShift(s, e, j + e + 1);
    var rest := s[e..];
    var w := WordEnd(rest, j + 1);
    assert rest[j + 1..w] == s[j + e + 1..w + e];
  }

  lemma ShiftBack(s: string, e: nat, j: nat) returns (i: nat)
    requires e <= |s| && MentionAt(s[e..], j)
    ensures i == j + e && MentionAt(s, i) && NameAt(s, i) == NameAt(s[e..], j)
  {
    NameAtShift(s, e, j);
    i := j + e;
  }

  /** Every name findall returns is the word run after some `@` of the text. */
  lemma {:induction false} FindAllSound(s: string, name: string) returns (i: nat)
    requires name in FindAll(s)
    ensures MentionAt(s, i) && NameAt(s, i) == name
    decreases |s|
  {
    match FirstMention(s)
    case Some(first) =>
      var e := WordEnd(s, first + 1);
      FindAllStep(s, first);
      if name == NameAt(s, first) {
        i := first;
      } else {
        assert name in FindAll(s[e..]);
        var j := FindAllSound(s[e..], name);
        i := ShiftBack(s, e, j);
      }
  }

  /** A later match starts at or after the end of the first one: an `@` is not a word character. */
  lemma NextMatchAfterEnd(s: string, first: nat, i: nat)
    requires FirstMention(s) == Some(first) && MentionAt(s, i) && i != first
    ensures first < i && WordEnd(s, first + 1) <= i
  {
    var e := WordEnd(s, first + 1);
    assert !IsWordChar(s[i]);
  }

  /** Every `@` followed by a word character starts a match, whatever precedes it. */
  lemma {:induction false} FindAllComplete(s: string, i: nat)
    requires MentionAt(s, i)
    ensures NameAt(s, i) in FindAll(s)
    decreases |s|, 1
  {
    var first := FirstMention(s).value;
    if i != first {
      NextMatchAfterEnd(s, first, i);
      var e := WordEnd(s, first + 1);
      CompleteInRest(s, e, i);
      FindAllStep(s, first);
      InTail(NameAt(s, i), NameAt(s, first), FindAll(s), FindAll(s[e..]));
    }
  }

  /** A match at or after `e` is found by the search that resumes at `e`, with the same name. */
  lemma {:induction false} CompleteInRest(s: string, e: nat, i: nat)
    requires 0 < e <= i && MentionAt(s, i)
    ensures NameAt(s, i) in FindAll(s[e..])
    decreases |s|, 0
  {
    var rest := s[e..];
    MentionShift(s, e, i);
    NameAtShift(s, e, i - e);
    FindAllComplete(rest, i - e);
    SameIn(NameAt(s, i), NameAt(rest, i - e), FindAll(rest));
  }

  lemma MentionShift(s: string, e: nat, i: nat)
    requires e <= i && MentionAt(s, i)
    ensures MentionAt(s[e..], i - e)
  {
  }

  lemma SameIn(x: string, y: string, l: seq<string>)
    requires x == y && y in l
    ensures x in l
  {
  }

  lemma InTail(x: string, head: string, l: seq<string>, r: seq<string>)
    requires x in r && l == [head] + r
    ensures x in l
  {
  }

  /**
   * No match can contain an `@` after its first character, so a name is
   * found exactly when some `@` in the text is followed by it as a whole
   * word run.
   */
  lemma FindAllExactly(s: string, name: string)
    ensures name in FindAll(s) <==> exists i :: MentionAt(s, i) && NameAt(s, i) == name
  {
    if name in FindAll(s) {
      var i := FindAllSound(s, name);
    }
    if exists i :: MentionAt(s, i) && NameAt(s, i) == name {
      var i :| MentionAt(s, i) && NameAt(s, i) == name;
      FindAllComplete(s, i);
    }
  }
}
