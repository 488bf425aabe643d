/**
 * static/js/niutool.js: the cookie lookup the pages use to send the CSRF
 * token, and the text the reply button adds to the editor.
 */
module NiuTool {
  import opened Wrappers
  import opened Strings
  import opened Mentions

  /** `s.substring(0, n)`: JavaScript clamps an end past the string to its length. */
  function JsPrefix(s: string, n: nat): string
  {
    if n <= |s| then s[..n] else s
  }

  /** The test on a trimmed piece: its first `|name| + 1` characters are `name=`. */
  predicate HasKey(cookie: string, name: string)
  {
    JsPrefix(cookie, |name| + 1) == name + "="
  }

  /** The clamped comparison is exactly a prefix test: a longer name, as in `csrftokenX=`, never matches. */
  lemma HasKeyIsPrefix(cookie: string, name: string)
    ensures HasKey(cookie, name) <==> |name| + 1 <= |cookie| && cookie[..|name| + 1] == name + "="
  {
    if |cookie| < |name| + 1 {
      assert |JsPrefix(cookie, |name| + 1)| < |name + "="|;
    }
  }

  /** The pieces of `document.cookie.split(';')`, each passed through `jQuery.trim`. */
  function Trimmed(pieces: seq<string>): (r: seq<string>)
    ensures |r| == |pieces|
    ensures forall k :: 0 <= k < |pieces| ==> r[k] == Trim(pieces[k], IsJsSpace)
  {
    seq(|pieces|, k requires 0 <= k < |pieces| => Trim(pieces[k], IsJsSpace))
  }

  /** The first trimmed piece at or after `from` that starts with `name=`, if any. */
  function FirstKeyFrom(cookies: seq<string>, name: string, from: nat): (r: Option<nat>)
    requires from <= |cookies|
    ensures r.Some? ==> from <= r.value < |cookies| && HasKey(cookies[r.value], name)
    ensures r.Some? ==> forall k :: from <= k < r.value ==> !HasKey(cookies[k], name)
    ensures r.None? <==> forall k :: from <= k < |cookies| ==> !HasKey(cookies[k], name)
    decreases |cookies| - from
  {
    if from == |cookies| then None
    else if HasKey(cookies[from], name) then Some(from)
    else FirstKeyFrom(cookies, name, from + 1)
  }

  /** What `getCookie` yields: `null`, a decoded value, or the URIError `decodeURIComponent` throws. */
  datatype CookieLookup = Null | Found(value: string) | UriError

  function Decoded(d: Option<string>): CookieLookup
  {
    match d
    case None => UriError
    case Some(v) => Found(v)
  }

  /**
   * The value of cookie `name` in `document.cookie`: the first `;`-separated
   * piece that, trimmed, starts with `name=`, with the rest of it decoded;
   * `null` when the cookie string is missing or empty or nothing matches.
   */
  function CookieValue(documentCookie: Option<string>, name: string, decode: string -> Option<string>): CookieLookup
  {
    if documentCookie.None? || documentCookie.value == "" then Null
    else
      var cookies := Trimmed(Split(documentCookie.value, ';'));
      match FirstKeyFrom(cookies, name, 0)
      case None => Null
      case Some(k) => Decoded(decode(cookies[k][|name| + 1..]))
  }

  /** `getCookie(name)`: scans the pieces in order and stops at the first match. */
  method GetCookie(documentCookie: Option<string>, name: string, decode: string -> Option<string>)
    returns (r: CookieLookup)
    ensures r == CookieValue(documentCookie, name, decode)
  {
    r := Null;
    if documentCookie.Some? && documentCookie.value != "" {
      var cookies := Split(documentCookie.value, ';');
      ghost var trimmed := Trimmed(cookies);
      var i := 0;
      while i < |cookies|
        invariant 0 <= i <= |cookies|
        invariant FirstKeyFrom(trimmed, name, i) == FirstKeyFrom(trimmed, name, 0)
        invariant r == Null
      {
        var cookie := Trim(cookies[i], IsJsSpace);
        assert cookie == trimmed[i];
        if HasKey(cookie, name) {
          r := Decoded(decode(cookie[|name| + 1..]));
          break;
        }
        i := i + 1;
      }
    }
  }

  /** A piece with the key and none before it, from `from` on, is the first match from `from`. */
  lemma {:induction false} FirstKeyIs(cookies: seq<string>, name: string, from: nat, i: nat)
    requires from <= i < |cookies| && HasKey(cookies[i], name)
    requires forall k :: from <= k < i ==> !HasKey(cookies[k], name)
    ensures FirstKeyFrom(cookies, name, from) == Some(i)
    decreases i - from
  {
    if from < i {
      FirstKeyIs(cookies, name, from + 1, i);
    }
  }

  /** No cookie string, or an empty one, gives `null` whatever the name. */
  lemma NoCookiesIsNull(documentCookie: Option<string>, name: string, decode: string -> Option<string>)
    requires documentCookie.None? || documentCookie.value == ""
    ensures CookieValue(documentCookie, name, decode) == Null
  {
  }

  lemma FoundIffFirstKey(cookie: string, name: string, decode: string -> Option<string>)
    requires cookie != ""
    ensures CookieValue(Some(cookie), name, decode) != Null <==>
      FirstKeyFrom(Trimmed(Split(cookie, ';')), name, 0).Some?
  {
  }

  /** A value is found exactly when some trimmed piece starts with `name=`. */
  lemma FoundIffSomePieceMatches(cookie: string, name: string, decode: string -> Option<string>)
    requires cookie != ""
    ensures var cookies := Trimmed(Split(cookie, ';'));
      CookieValue(Some(cookie), name, decode) != Null <==> exists k :: 0 <= k < |cookies| && HasKey(cookies[k], name)
  {
    var cookies := Trimmed(Split(cookie, ';'));
    FoundIffFirstKey(cookie, name, decode);
    var m := FirstKeyFrom(cookies, name, 0);
    if m.Some? {
      assert HasKey(cookies[m.value], name);
    }
  }

  /** A longer cookie name that starts with the wanted one, as `csrftokenX` for `csrftoken`, never matches. */
  lemma LongerNameSkipped(name: string, c: char, rest: string)
    requires c != '='
    ensures !HasKey(name + [c] + rest, name)
  {
    assert (name + [c] + rest)[|name|] == c;
    assert (name + "=")[|name|] == '=';
  }

  /** A piece `name=value` matches, and what `getCookie` decodes is `value`. */
  lemma ExactNameRead(name: string, value: string)
    ensures HasKey(name + "=" + value, name)
    ensures (name + "=" + value)[|name| + 1..] == value
  {
    assert (name + "=" + value)[..|name| + 1] == name + "=";
  }

  /** `replySomeone`: appends `@user ` to the editor text, on a new line when the text is not empty. */
  function ReplySomeone(content: string, user: string): (r: string)
  {
    if content != "" then content + "\n@" + user + " " else content + "@" + user + " "
  }

  /** Where the name starts in the reply text, just after the `@`. */
  function MentionStart(content: string): nat
  {
    if content != "" then |content| + 2 else 1
  }

  /** The reply text keeps the editor text and ends with `@user ` on a line of its own or alone. */
  lemma ReplyShape(content: string, user: string)
    ensures var r, i := ReplySomeone(content, user), MentionStart(content);
      && r[..|content|] == content
      && i + |user| + 1 == |r| && r[i - 1] == '@' && r[i..i + |user|] == user && r[|r| - 1] == ' '
      && (content != "" ==> r[|content|] == '\n')
  {
  }

  /** The text the button adds mentions the user: a word-character name is among the names found in it. */
  lemma ReplyMentionsUser(content: string, user: string)
    requires IsName(user)
    ensures user in FindAll(ReplySomeone(content, user))
  {
    var r, i := ReplySomeone(content, user), MentionStart(content);
    ReplyShape(content, user);
    var e := i + |user|;
    assert r[i..e] == user;
    assert IsWordChar(r[i]) by { assert r[i] == user[0]; }
    assert MentionAt(r, i - 1);
    var w := WordEnd(r, i);
    forall m | i <= m < e ensures IsWordChar(r[m]) {
      assert r[m] == user[m - i];
    }
    assert r[e] == ' ';
    assert w == e;
    FindAllComplete(r, i - 1);
  }
}
