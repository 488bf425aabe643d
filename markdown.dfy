/**
 * forum/mismd.py: code blocks, mention links and the renderer's text hook.
 *
 * The markdown grammar, pygments and `mistune.escape` are outside the
 * model: the highlighter, the escape function and the base renderer's
 * `text` transform are parameters, and so is `reverse` for the profile URL.
 */
module Markdown {
  import opened Wrappers
  import opened Strings
  import opened Mentions

  /**
   * pygments, given the code, the language name and the `noclasses` and
   * `linenos` options: the highlighted HTML, or None where the lexer lookup
   * or the formatter raises.
   */
  type Highlighter = (string, string, Option<bool>, Option<bool>) -> Option<string>

  /** Python truthiness of an option that may be absent. */
  predicate Truthy(b: Option<bool>)
  {
    b == Some(true)
  }

  function Wrapped(code: string): string
  {
    "<div class=\"highlight-wrapper\">" + code + "</div>\n"
  }

  /** The fallback markup, for a language the highlighter rejects. */
  function Fallback(lang: string, escaped: string): string
  {
    "<pre class=\"" + lang + "\"><code>" + escaped + "</code></pre>\n"
  }

  /** The markup for a block without a language. */
  function Plain(escaped: string): string
  {
    "<pre><code>" + escaped + "</code></pre>\n"
  }

  /**
   * `block_code`: a block without a language (`lang` is "" for both None
   * and the empty string) is stripped and escaped; otherwise the
   * highlighter's output, wrapped when `linenos` is truthy; when the
   * highlighter raises, the escaped text, not stripped, under a class named
   * after the language.
   */
  function BlockCode(text: string, lang: string, inlinestyles: Option<bool>, linenos: Option<bool>,
                     highlight: Highlighter, escape: string -> string): (html: string)
    ensures lang == "" ==> html == Plain(escape(Trim(text, IsPythonSpace)))
    ensures lang != "" && highlight(text, lang, inlinestyles, linenos).None? ==>
      html == Fallback(lang, escape(text))
    ensures lang != "" && highlight(text, lang, inlinestyles, linenos).Some? ==>
      var code := highlight(text, lang, inlinestyles, linenos).value;
      html == if Truthy(linenos) then Wrapped(code) else code
  {
    if lang == "" then Plain(escape(Trim(text, IsPythonSpace)))
    else
      match highlight(text, lang, inlinestyles, linenos)
      case Some(code) => if Truthy(linenos) then Wrapped(code) else code
      case None => Fallback(lang, escape(text))
  }

  /** A block without a language does not depend on the whitespace around its text. */
  lemma PlainBlockIgnoresOuterSpace(text: string, i: Option<bool>, l: Option<bool>, h: Highlighter, escape: string -> string)
    ensures BlockCode(text, "", i, l, h, escape) == BlockCode(Trim(text, IsPythonSpace), "", i, l, h, escape)
  {
    TrimIdempotent(text, IsPythonSpace);
  }

  /** The renderer's options, as `NiuRenderer(linenos=False, inlinestyles=False)` sets them. */
  const RENDERER_OPTIONS: map<string, bool> := map["linenos" := false, "inlinestyles" := false]

  /** `self.options.get(key)`. */
  function OptionGet(options: map<string, bool>, key: string): (r: Option<bool>)
    ensures r.Some? <==> key in options
    ensures r.Some? ==> r.value == options[key]
  {
    if key in options then Some(options[key]) else None
  }

  /**
   * `HighlightMixin.block_code`: `block_code` with the renderer's two
   * options, None where unset. The highlighter is asked with exactly those
   * options; its output is wrapped only when `linenos` is set and true.
   */
  function RendererBlockCode(options: map<string, bool>, text: string, lang: string,
                             highlight: Highlighter, escape: string -> string): (html: string)
    ensures lang == "" ==> html == Plain(escape(Trim(text, IsPythonSpace)))
    ensures lang != "" ==>
      var inl := if "inlinestyles" in options then Some(options["inlinestyles"]) else None;
      var lin := if "linenos" in options then Some(options["linenos"]) else None;
      var out := highlight(text, lang, inl, lin);
      && (out.None? ==> html == Fallback(lang, escape(text)))
      && (out.Some? && "linenos" in options && options["linenos"] ==> html == Wrapped(out.value))
      && (out.Some? && !("linenos" in options && options["linenos"]) ==> html == out.value)
  {
    BlockCode(text, lang, OptionGet(options, "inlinestyles"), OptionGet(options, "linenos"), highlight, escape)
  }

  /**
   * The forum's renderer asks for class-based markup without line numbers,
   * so highlighted code is never wrapped.
   */
  lemma ForumRendererNeverWraps(text: string, lang: string, highlight: Highlighter, escape: string -> string)
    requires lang != ""
    ensures var out := highlight(text, lang, Some(false), Some(false));
      RendererBlockCode(RENDERER_OPTIONS, text, lang, highlight, escape) ==
        if out.Some? then out.value else Fallback(lang, escape(text))
  {
    assert OptionGet(RENDERER_OPTIONS, "inlinestyles") == Some(false);
    assert OptionGet(RENDERER_OPTIONS, "linenos") == Some(false);
  }

  /**
   * `user_link`: a link to the profile of an existing user, the literal
   * mention otherwise. `profileUrl` stands for `reverse('user_profile', ...)`.
   */
  function UserLink(user: string, known: set<string>, profileUrl: string -> string): (html: string)
    ensures user in known ==> html == "<a class='user niu-link' href='" + profileUrl(user) + "'>@" + user + "</a>"
    ensures user !in known ==> html == Source(Mention(user))
  {
    if user in known then "<a class='user niu-link' href='" + profileUrl(user) + "'>@" + user + "</a>"
    else "@" + user
  }

  /** A scanned token rendered: text through the base transform, a mention through `user_link`. */
  function RenderToken(t: Token, base: string -> string, known: set<string>, profileUrl: string -> string): string
  {
    match t
    case Text(x) => base(x)
    case Mention(n) => UserLink(n, known, profileUrl)
  }

  function RenderTokens(ts: seq<Token>, base: string -> string, known: set<string>, profileUrl: string -> string): string
  {
    if ts == [] then "" else RenderToken(ts[0], base, known, profileUrl) + RenderTokens(ts[1..], base, known, profileUrl)
  }

  /** What `NiuRenderer.text` produces: every segment of the text rendered in order. */
  function RenderText(s: string, base: string -> string, known: set<string>, profileUrl: string -> string): string
  {
    RenderTokens(Tokens(s), base, known, profileUrl)
  }

  /** Text without a match goes through the base transform whole. */
  lemma NoMentionIsBaseText(s: string, base: string -> string, known: set<string>, profileUrl: string -> string)
    requires FirstMention(s).None?
    ensures RenderText(s, base, known, profileUrl) == base(s)
  {
    assert Tokens(s) == [Text(s)];
    assert RenderTokens([Text(s)], base, known, profileUrl) == base(s) + RenderTokens([], base, known, profileUrl);
  }

  /**
   * At the first match: the base transform of the text before it, the link
   * for its name, then the rendering of what follows the match, which starts
   * at least two characters further on.
   */
  lemma FirstMatchSplits(s: string, i: nat, base: string -> string, known: set<string>, profileUrl: string -> string)
    requires FirstMention(s) == Some(i)
    ensures WordEnd(s, i + 1) >= i + 2
    ensures RenderText(s, base, known, profileUrl) ==
      base(s[..i]) + UserLink(NameAt(s, i), known, profileUrl) + RenderText(s[WordEnd(s, i + 1)..], base, known, profileUrl)
  {
    var e := WordEnd(s, i + 1);
    TokensStep(s, i);
    RenderStep(s[..i], NameAt(s, i), Tokens(s[e..]), base, known, profileUrl);
  }

  lemma TokensStep(s: string, i: nat)
    requires FirstMention(s) == Some(i)
    ensures Tokens(s) == [Text(s[..i]), Mention(NameAt(s, i))] + Tokens(s[WordEnd(s, i + 1)..])
  {
  }

  lemma RenderStep(x: string, n: string, rest: seq<Token>, base: string -> string, known: set<string>, profileUrl: string -> string)
    ensures RenderTokens([Text(x), Mention(n)] + rest, base, known, profileUrl) ==
      base(x) + UserLink(n, known, profileUrl) + RenderTokens(rest, base, known, profileUrl)
  {
    var ts := [Text(x), Mention(n)] + rest;
    assert ts[1..] == [Mention(n)] + rest;
    assert ts[1..][1..] == rest;
  }

  /**
   * `NiuRenderer.text`: repeatedly searches the rest of the text for a
   * mention, renders the text before it and the link, and continues after
   * the match; the rest shrinks by at least the two characters of `@x` each
   * time.
   */
  method NiuText(text: string, base: string -> string, known: set<string>, profileUrl: string -> string)
    returns (newText: string)
    ensures newText == RenderText(text, base, known, profileUrl)
  {
    newText := "";
    var rest := text;
    while true
      invariant newText + RenderText(rest, base, known, profileUrl) == RenderText(text, base, known, profileUrl)
      decreases |rest|
    {
      var m := FirstMention(rest);
      if m.None? {
        NoMentionIsBaseText(rest, base, known, profileUrl);
        newText := newText + base(rest);
        break;
      }
      var i := m.value;
      var e := WordEnd(rest, i + 1);
      var before, link := base(rest[..i]), UserLink(rest[i + 1..e], known, profileUrl);
      ghost var after := RenderText(rest[e..], base, known, profileUrl);
      FirstMatchSplits(rest, i, base, known, profileUrl);
      Associate(newText, before, link, after);
      newText := newText + before;
      newText := newText + link;
      rest := rest[e..];
    }
  }

  lemma Associate(a: string, b: string, c: string, d: string)
    ensures a + (b + c + d) == a + b + c + d
  {
  }

  /**
   * With no known users, the text transform leaves mentions as they were:
   * rendering through the identity gives back the text itself.
   */
  lemma {:induction false} UnknownMentionsStayLiteral(ts: seq<Token>, profileUrl: string -> string)
    ensures RenderTokens(ts, x => x, {}, profileUrl) == Concat(ts)
    decreases |ts|
  {
    if ts != [] {
      UnknownMentionsStayLiteral(ts[1..], profileUrl);
    }
  }

  lemma IdentityRenderIsText(s: string, profileUrl: string -> string)
    ensures RenderText(s, x => x, {}, profileUrl) == s
  {
    UnknownMentionsStayLiteral(Tokens(s), profileUrl);
  }
}
