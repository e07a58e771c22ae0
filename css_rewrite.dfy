/**
 * `rewriteCssInOutput` (src/cloner/core.ts): every `.css` file under `<outputDir>/assets` is
 * read, every manifest URL occurring literally in it is replaced by its local path, then
 * every `url(...)` token and every `@import` target is resolved and redirected through the
 * manifest, and the file is written back.
 */
module CssRewrite {
  import opened Wrappers
  import opened Text
  import Paths
  import opened Files
  import opened Web
  import opened Manifests

  predicate IsQuote(c: char) {
    c == '"' || c == '\''
  }

  // ---------------------------------------------------------------------------
  // `rewriteCssUrl`.

  /** `.replace(/^['"]|['"]$/g, "")`: one leading and one trailing quote of either kind dropped. */
  function StripQuotes(t: string): (r: string)
    ensures |r| <= |t|
  {
    var a := if |t| >= 1 && IsQuote(t[0]) then t[1..] else t;
    if |a| >= 1 && IsQuote(a[|a| - 1]) then a[..|a| - 1] else a
  }

  /** The quote a token opens with, after trimming: `"`, `'` or nothing. */
  function LeadingQuote(raw: string): string {
    var t := Trim(raw);
    if t != [] && IsQuote(t[0]) then [t[0]] else []
  }

  /**
   * `rewriteCssUrl(raw)` with the `baseUrl` the enclosing call received, which may be absent.
   * An empty or `data:` target, one `new URL` rejects, and one the manifest lacks leave the
   * token as it was; a hit becomes the local path in the token's opening quote.
   */
  function RewriteCssUrl(raw: string, mapping: Manifest, baseUrl: Option<string>, resolve: Resolver): string {
    var target := StripQuotes(Trim(raw));
    if target == "" || StartsWith(target, "data:") then raw
    else
      match resolve(target, baseUrl)
      case None => raw
      case Some(abs) =>
        var mapped := Get(mapping, abs.href);
        if Truthy(mapped) then LeadingQuote(raw) + mapped.value + LeadingQuote(raw) else raw
  }

  /**
   * A token changes only into a manifest path for its own absolute URL, wrapped in the
   * quote it opened with (none when it opened with neither quote).
   */
  lemma CssUrlChangesOnlyOnHit(raw: string, mapping: Manifest, baseUrl: Option<string>, resolve: Resolver)
    ensures var target := StripQuotes(Trim(raw));
      var r := RewriteCssUrl(raw, mapping, baseUrl, resolve);
      r != raw ==>
        && target != "" && !StartsWith(target, "data:")
        && resolve(target, baseUrl).Some?
        && exists i :: (0 <= i < |mapping|
             && mapping[i].url == resolve(target, baseUrl).value.href
             && mapping[i].local != ""
             && r == LeadingQuote(raw) + mapping[i].local + LeadingQuote(raw))
  {
  }

  /**
   * A token whose target resolves to a URL the manifest records with a non-empty path becomes
   * that path in the token's opening quote.
   */
  lemma CssUrlRewritten(raw: string, mapping: Manifest, baseUrl: Option<string>, resolve: Resolver)
    requires var target := StripQuotes(Trim(raw));
      && target != "" && !StartsWith(target, "data:") && resolve(target, baseUrl).Some?
      && Truthy(Get(mapping, resolve(target, baseUrl).value.href))
    ensures var href := resolve(StripQuotes(Trim(raw)), baseUrl).value.href;
      RewriteCssUrl(raw, mapping, baseUrl, resolve) == LeadingQuote(raw) + Get(mapping, href).value + LeadingQuote(raw)
  {
  }

  /** A manifest hit is always taken: the token becomes that entry's path in its opening quote. */
  lemma CssUrlHit(raw: string, mapping: Manifest, baseUrl: Option<string>, resolve: Resolver, i: nat)
    requires DistinctUrls(mapping) && i < |mapping| && mapping[i].local != ""
    requires StripQuotes(Trim(raw)) != "" && !StartsWith(StripQuotes(Trim(raw)), "data:")
    requires resolve(StripQuotes(Trim(raw)), baseUrl).Some?
    requires resolve(StripQuotes(Trim(raw)), baseUrl).value.href == mapping[i].url
    ensures RewriteCssUrl(raw, mapping, baseUrl, resolve) == LeadingQuote(raw) + mapping[i].local + LeadingQuote(raw)
  {
    GetEntry(mapping, i);
  }

  /** `data:` URIs are never touched, whatever the manifest and the base. */
  lemma DataUriKept(raw: string, mapping: Manifest, baseUrl: Option<string>, resolve: Resolver)
    requires StartsWith(StripQuotes(Trim(raw)), "data:")
    ensures RewriteCssUrl(raw, mapping, baseUrl, resolve) == raw
  {
  }

  /** Without a base, a token `new URL` cannot resolve on its own (a relative one) is left as it was. */
  lemma RelativeTokenKeptWithoutBase(raw: string, mapping: Manifest, resolve: Resolver)
    requires resolve(StripQuotes(Trim(raw)), None).None?
    ensures RewriteCssUrl(raw, mapping, None, resolve) == raw
  {
  }

  // ---------------------------------------------------------------------------
  // The `url(...)` pass: `css.replace(/url\(([^)]+)\)/g, ...)`.

  /** The index of the first `c` in `t`, or `|t|`. */
  function IndexOf(t: string, c: char): (k: nat)
    ensures k <= |t|
    ensures c !in t[..k]
    ensures k < |t| ==> t[k] == c
  {
    if t == [] || t[0] == c then 0
    else
      var k := 1 + IndexOf(t[1..], c);
      assert t[..k] == [t[0]] + t[1..][..k - 1];
      k
  }

  /** The first `c` in `t` is the one at `k` when none comes before it. */
  lemma IndexOfIs(t: string, c: char, k: nat)
    requires k < |t| && t[k] == c && c !in t[..k]
    ensures IndexOf(t, c) == k
  {
    var j := IndexOf(t, c);
    assert j >= k ==> t[..j + 1][k] == c;
  }

  /** `s` starts with `url(`, checked character by character. */
  predicate OpensCall(s: string) {
    |s| >= 4 && s[0] == 'u' && s[1] == 'r' && s[2] == 'l' && s[3] == '('
  }

  /** The length of the `url(<token>)` match at the start of `s`, if one starts there. */
  function UrlCallAt(s: string): (n: Option<nat>)
    ensures n.Some? ==> 6 <= n.value <= |s| && OpensCall(s) && s[n.value - 1] == ')'
  {
    if !OpensCall(s) then None
    else
      var j := IndexOf(s[4..], ')');
      if j == 0 || j == |s| - 4 then None else Some(j + 5)
  }

  /**
   * A call starts exactly where `url(` is followed by a non-empty token and a `)`; the match
   * ends at the first `)`, so the token holds none.
   */
  lemma UrlCallAtExactly(s: string)
    ensures UrlCallAt(s).Some? <==> OpensCall(s) && |s| >= 6 && s[4] != ')' && ')' in s[5..]
    ensures UrlCallAt(s).Some? ==> ')' !in s[4..UrlCallAt(s).value - 1]
  {
    if OpensCall(s) && |s| >= 5 {
      var t := s[4..];
      var j := IndexOf(t, ')');
      assert s[5..] == t[1..];
      if j > 0 && j < |t| {
        assert s[4..j + 4] == t[..j];
        assert t[j] in t[1..];
      }
      if j == |t| && |t| >= 2 {
        assert t[..j] == t;
        assert ')' !in t[1..];
      }
    }
  }

  /** Conversely, `url(`, a non-empty token without `)`, then `)` is the match, with exactly that length. */
  lemma UrlCallAtIs(s: string, m: nat)
    requires OpensCall(s) && 6 <= m <= |s| && s[m - 1] == ')' && ')' !in s[4..m - 1]
    ensures UrlCallAt(s) == Some(m)
  {
    var t := s[4..];
    assert t[..m - 5] == s[4..m - 1];
    IndexOfIs(t, ')', m - 5);
  }

  /** The `url(...)` call around a token. */
  function UrlCall(token: string): string {
    "url(" + token + ")"
  }

  /** The `url(...)` pass with the callback `f` applied to each captured token. */
  function ReplaceUrlCalls(s: string, f: string -> string): string
    decreases |s|
  {
    if s == [] then []
    else
      match UrlCallAt(s)
      case Some(n) => UrlCall(f(s[4..n - 1])) + ReplaceUrlCalls(s[n..], f)
      case None => [s[0]] + ReplaceUrlCalls(s[1..], f)
  }

  /** The tokens the `url(...)` pass captures, in order. */
  function UrlTokens(s: string): seq<string>
    decreases |s|
  {
    if s == [] then []
    else
      match UrlCallAt(s)
      case Some(n) => [s[4..n - 1]] + UrlTokens(s[n..])
      case None => UrlTokens(s[1..])
  }

  /** A callback that gives every captured token back unchanged leaves the text unchanged. */
  lemma {:induction false} UrlCallsFixed(s: string, f: string -> string)
    requires forall t :: t in UrlTokens(s) ==> f(t) == t
    ensures ReplaceUrlCalls(s, f) == s
    decreases |s|
  {
    if s != [] {
      match UrlCallAt(s)
      case Some(n) =>
        var token := s[4..n - 1];
        UrlCutAt(s, n);
        UrlCallsFixed(s[n..], f);
        assert f(token) == token;
        CallReplacedAt(s, f, n, UrlCall(token));
        UrlCallParts(s, n);
      case None =>
        assert UrlTokens(s) == UrlTokens(s[1..]);
        UrlCallsFixed(s[1..], f);
        assert s == [s[0]] + s[1..];
    }
  }

  // ----- a text cut at its matches -----

  /** `gaps[0] + pieces[0] + gaps[1] + ... + pieces[k - 1] + gaps[k]`. */
  function Weave(gaps: seq<string>, pieces: seq<string>): string
    requires |gaps| == |pieces| + 1
    decreases |pieces|
  {
    if pieces == [] then gaps[0]
    else gaps[0] + pieces[0] + Weave(gaps[1..], pieces[1..])
  }

  /** A character put in front of the first gap comes first in the woven text. */
  lemma WeaveCons(c: char, gaps: seq<string>, pieces: seq<string>)
    requires |gaps| == |pieces| + 1
    ensures Weave([[c] + gaps[0]] + gaps[1..], pieces) == [c] + Weave(gaps, pieces)
  {
    var g := [[c] + gaps[0]] + gaps[1..];
    assert g[0] == [c] + gaps[0] && g[1..] == gaps[1..];
    if pieces != [] {
      var w := Weave(gaps[1..], pieces[1..]);
      assert Weave(g, pieces) == ([c] + gaps[0]) + pieces[0] + w;
      AppendAssoc3(c, gaps[0], pieces[0], w);
    }
  }

  /** A match at the very start: an empty first gap, then the piece, then the rest woven. */
  lemma WeaveFront(piece: string, gaps: seq<string>, pieces: seq<string>)
    requires |gaps| == |pieces| + 1
    ensures Weave([[]] + gaps, [piece] + pieces) == piece + Weave(gaps, pieces)
  {
    var g, p := [[]] + gaps, [piece] + pieces;
    assert g[0] == [] && g[1..] == gaps;
    assert p[0] == piece && p[1..] == pieces;
    assert [] + piece == piece;
  }

  lemma AppendAssoc3(c: char, x: string, y: string, z: string)
    ensures ([c] + x) + y + z == [c] + (x + y + z)
  {
  }

  /** The text between the `url(...)` calls the pass matches: one more gap than calls. */
  function UrlGaps(s: string): (gaps: seq<string>)
    ensures |gaps| == |UrlTokens(s)| + 1
    decreases |s|
  {
    if s == [] then [[]]
    else
      match UrlCallAt(s)
      case Some(n) => [[]] + UrlGaps(s[n..])
      case None =>
        var g := UrlGaps(s[1..]);
        [[s[0]] + g[0]] + g[1..]
  }

  /** The `url(...)` calls of the pass's output, one per captured token. */
  function RewrittenCalls(tokens: seq<string>, f: string -> string): seq<string> {
    seq(|tokens|, i requires 0 <= i < |tokens| => UrlCall(f(tokens[i])))
  }

  /** The `url(...)` pass replaces each matched call by `url(f(token))` and keeps every gap between them. */
  lemma {:induction false} UrlPassWoven(s: string, f: string -> string)
    ensures ReplaceUrlCalls(s, f) == Weave(UrlGaps(s), RewrittenCalls(UrlTokens(s), f))
    decreases |s|
  {
    if s != [] {
      match UrlCallAt(s)
      case Some(n) =>
        var token, rest := s[4..n - 1], s[n..];
        UrlPassWoven(rest, f);
        CallReplacedAt(s, f, n, UrlCall(f(token)));
        UrlCutAt(s, n);
        RewrittenCallsCons(token, UrlTokens(rest), f);
        WeaveFront(UrlCall(f(token)), UrlGaps(rest), RewrittenCalls(UrlTokens(rest), f));
      case None =>
        UrlPassWoven(s[1..], f);
        assert UrlTokens(s) == UrlTokens(s[1..]);
        WeaveCons(s[0], UrlGaps(s[1..]), RewrittenCalls(UrlTokens(s), f));
    }
  }

  lemma UrlCutAt(s: string, n: nat)
    requires UrlCallAt(s) == Some(n)
    ensures UrlTokens(s) == [s[4..n - 1]] + UrlTokens(s[n..])
    ensures UrlGaps(s) == [[]] + UrlGaps(s[n..])
  {
    assert s != [];
    TokensCutAt(s, n);
  }

  lemma TokensCutAt(s: string, n: nat)
    requires s != [] && UrlCallAt(s) == Some(n)
    ensures UrlTokens(s) == [s[4..n - 1]] + UrlTokens(s[n..])
  {
  }

  lemma RewrittenCallsCons(token: string, tokens: seq<string>, f: string -> string)
    ensures RewrittenCalls([token] + tokens, f) == [UrlCall(f(token))] + RewrittenCalls(tokens, f)
  {
  }

  /** Cut at its `url(...)` calls and woven back together, a text is itself. */
  lemma UrlTextWoven(s: string)
    ensures s == Weave(UrlGaps(s), RewrittenCalls(UrlTokens(s), t => t))
  {
    UrlCallsFixed(s, t => t);
    UrlPassWoven(s, t => t);
  }

  /** A matched call is `url(`, its token, `)`, followed by the rest of the text. */
  lemma UrlCallParts(s: string, n: nat)
    requires UrlCallAt(s) == Some(n)
    ensures s == UrlCall(s[4..n - 1]) + s[n..]
  {
    assert s[..4] == "url(";
    assert s == s[..4] + s[4..n - 1] + [s[n - 1]] + s[n..];
  }

  /** A stylesheet whose `url(...)` tokens are all `data:` URIs comes through the `url(...)` pass unchanged. */
  lemma DataOnlyUrlPass(css: string, mapping: Manifest, baseUrl: Option<string>, resolve: Resolver)
    requires forall t :: t in UrlTokens(css) ==> StartsWith(StripQuotes(Trim(t)), "data:")
    ensures ReplaceUrlCalls(css, t => RewriteCssUrl(t, mapping, baseUrl, resolve)) == css
  {
    var f := t => RewriteCssUrl(t, mapping, baseUrl, resolve);
    forall t | t in UrlTokens(css) ensures f(t) == t {
      DataUriKept(t, mapping, baseUrl, resolve);
    }
    UrlCallsFixed(css, f);
  }

  /**
   * Where a `url(...)` call starts in `s`, and its length: the leftmost match that
   * `m.match(/url\(([^)]+)\)/)` finds, and none when no position starts a call.
   */
  function FindUrlCall(s: string): (r: Option<(nat, nat)>)
    ensures r.Some? ==> r.value.0 + r.value.1 <= |s| && UrlCallAt(s[r.value.0..]) == Some(r.value.1)
    ensures r.Some? ==> forall j {:trigger UrlCallAt(s[j..])} :: 0 <= j < r.value.0 ==> UrlCallAt(s[j..]).None?
    ensures r.None? ==> forall j {:trigger UrlCallAt(s[j..])} :: 0 <= j <= |s| ==> UrlCallAt(s[j..]).None?
    decreases |s|
  {
    match UrlCallAt(s)
    case Some(n) => Some((0, n))
    case None =>
      if s == [] then None
      else
        var rest := FindUrlCall(s[1..]);
        UrlCallsAfterFirst(s);
        match rest
        case None => None
        case Some(found) => Some((found.0 + 1, found.1))
  }

  lemma UrlCallsAfterFirst(s: string)
    requires s != []
    ensures forall j {:trigger UrlCallAt(s[j..])} :: 1 <= j <= |s| ==> UrlCallAt(s[j..]) == UrlCallAt(s[1..][j - 1..])
  {
    forall j | 1 <= j <= |s| ensures UrlCallAt(s[j..]) == UrlCallAt(s[1..][j - 1..]) {
      assert s[j..] == s[1..][j - 1..];
    }
  }

  /** Text without an opening parenthesis holds no `url(...)` call. */
  lemma {:induction false} NoParenNoUrlCall(s: string)
    requires '(' !in s
    ensures FindUrlCall(s).None?
    decreases |s|
  {
    if |s| >= 4 {
      assert s[3] != '(';
    }
    if s != [] {
      NoParenNoUrlCall(s[1..]);
    }
  }

  // ---------------------------------------------------------------------------
  // The `@import` pass: `css.replace(/@import\s+(url\(([^)]+)\)|["']([^"']+)["'])/g, ...)`.

  /** The index of the first quote of either kind in `t`, or `|t|`. */
  function QuoteIndex(t: string): (k: nat)
    ensures k <= |t|
    ensures forall i :: 0 <= i < k ==> !IsQuote(t[i])
    ensures k < |t| ==> IsQuote(t[k])
  {
    if t == [] || IsQuote(t[0]) then 0 else 1 + QuoteIndex(t[1..])
  }

  /** A quoted `@import` target: a quote, a non-empty run without quotes, then a quote of either kind. */
  predicate QuotedTarget(t: string) {
    |t| >= 3 && IsQuote(t[0]) && IsQuote(t[|t| - 1]) && forall i :: 1 <= i < |t| - 1 ==> !IsQuote(t[i])
  }

  /**
   * `s[..m]` is `@import`, a run of `w` white-space characters and then either a whole
   * `url(...)` call or a quoted target.
   */
  predicate ImportShape(s: string, w: nat, m: nat) {
    && 0 < w && 7 + w < m <= |s| && s[..7] == "@import"
    && (forall i :: 7 <= i < 7 + w ==> IsSpace(s[i]))
    && (UrlCallAt(s[7 + w..]) == Some(m - 7 - w) || QuotedTarget(s[7 + w..m]))
  }

  /**
   * The length of the `@import` match at the start of `s`, if one starts there: the white
   * space after `@import` is the whole run, and the `url(...)` alternative is tried first.
   */
  function ImportAt(s: string): (n: Option<nat>)
    ensures n.Some? ==> 7 < n.value <= |s| && s[..7] == "@import"
  {
    if |s| < 7 || s[..7] != "@import" then None
    else
      var w := SpaceRun(s[7..]);
      var rest := s[7 + w..];
      if w == 0 then None
      else
        match UrlCallAt(rest)
        case Some(n) => Some(7 + w + n)
        case None =>
          if rest == [] || !IsQuote(rest[0]) then None
          else
            var k := QuoteIndex(rest[1..]);
            if k == 0 || k == |rest| - 1 then None else Some(7 + w + k + 2)
  }

  /** A match is `@import`, the whole run of white space after it, then a `url(...)` call or a quoted target. */
  lemma ImportAtShape(s: string)
    requires ImportAt(s).Some?
    ensures ImportShape(s, SpaceRun(s[7..]), ImportAt(s).value)
  {
    var w := SpaceRun(s[7..]);
    var rest := s[7 + w..];
    SpacesFrom(s, 7);
    if UrlCallAt(rest).None? {
      var k := QuoteIndex(rest[1..]);
      assert ImportAt(s) == Some(7 + w + k + 2);
      QuotedPrefix(rest);
      SliceOfSuffix(s, 7 + w, k + 2);
    }
  }

  /** The white-space run found from `a` covers exactly white space in `s` itself. */
  lemma SpacesFrom(s: string, a: nat)
    requires a <= |s|
    ensures a + SpaceRun(s[a..]) <= |s|
    ensures forall i :: a <= i < a + SpaceRun(s[a..]) ==> IsSpace(s[i])
  {
    forall i | a <= i < a + SpaceRun(s[a..]) ensures IsSpace(s[i]) {
      assert s[i] == s[a..][i - a];
    }
  }

  lemma SliceOfSuffix(s: string, a: nat, n: nat)
    requires a + n <= |s|
    ensures s[a..a + n] == s[a..][..n]
  {
  }

  /** From an opening quote up to the first quote after a non-empty run: a quoted target. */
  lemma QuotedPrefix(rest: string)
    requires rest != [] && IsQuote(rest[0])
    requires QuoteIndex(rest[1..]) != 0 && QuoteIndex(rest[1..]) != |rest| - 1
    ensures QuotedTarget(rest[..QuoteIndex(rest[1..]) + 2])
  {
    var k := QuoteIndex(rest[1..]);
    var q := rest[..k + 2];
    forall i | 1 <= i < |q| - 1 ensures !IsQuote(q[i]) {
      assert q[i] == rest[1..][i - 1];
    }
    assert q[|q| - 1] == rest[1..][k];
  }

  /** Every text of the shape of an `@import` match is matched, with the length of that shape. */
  lemma ImportShapeMatched(s: string, w: nat, m: nat)
    requires ImportShape(s, w, m)
    ensures ImportAt(s) == Some(m)
  {
    ShapeSpacing(s, w, m);
    var rest := s[7 + w..];
    if UrlCallAt(rest).None? {
      QuotedRest(rest, s[7 + w..m]);
    }
  }

  /** In the shape of an `@import` match, the white space after `@import` is the whole run. */
  lemma ShapeSpacing(s: string, w: nat, m: nat)
    requires ImportShape(s, w, m)
    ensures SpaceRun(s[7..]) == w
  {
    var t := s[7..];
    var rest := s[7 + w..];
    assert rest == t[w..];
    assert rest[0] == 'u' || IsQuote(rest[0]) by {
      if UrlCallAt(rest).None? {
        assert s[7 + w..m][0] == rest[0];
      }
    }
    forall i | 0 <= i < w ensures IsSpace(t[i]) {
      assert t[i] == s[7 + i];
    }
    SpaceRunIs(t, w);
  }

  /** A run of `w` spaces followed by a non-space is what `SpaceRun` measures. */
  lemma SpaceRunIs(t: string, w: nat)
    requires w < |t| && !IsSpace(t[w])
    requires forall i :: 0 <= i < w ==> IsSpace(t[i])
    ensures SpaceRun(t) == w
  {
  }

  /** After a quoted target's opening quote, the first quote is its closing one. */
  lemma QuotedRest(rest: string, q: string)
    requires QuotedTarget(q) && |q| <= |rest| && q == rest[..|q|]
    ensures QuoteIndex(rest[1..]) == |q| - 2
  {
    var u := rest[1..];
    forall i | 0 <= i < |q| - 2 ensures !IsQuote(u[i]) {
      assert u[i] == q[i + 1];
    }
    assert u[|q| - 2] == q[|q| - 1];
    QuoteIndexIs(u, |q| - 2);
  }

  /** A quote at `k` after `k` characters that are not quotes is what `QuoteIndex` finds. */
  lemma QuoteIndexIs(t: string, k: nat)
    requires k < |t| && IsQuote(t[k])
    requires forall i :: 0 <= i < k ==> !IsQuote(t[i])
    ensures QuoteIndex(t) == k
  {
  }

  /** `m.match(/@import\s+(["'])([^"']+)\1/)` at the start of `s`: the quote and the quoted text. */
  function QuotedImportAt(s: string): Option<(char, string)> {
    if |s| < 7 || s[..7] != "@import" then None
    else
      var w := SpaceRun(s[7..]);
      var rest := s[7 + w..];
      if w == 0 || rest == [] || !IsQuote(rest[0]) then None
      else
        var k := QuoteIndex(rest[1..]);
        if k == 0 || k == |rest| - 1 || rest[k + 1] != rest[0] then None
        else Some((rest[0], rest[1..k + 1]))
  }

  /** The first match of `/@import\s+(["'])([^"']+)\1/` anywhere in `s`. */
  function FindQuotedImport(s: string): Option<(char, string)>
    decreases |s|
  {
    if QuotedImportAt(s).Some? then QuotedImportAt(s)
    else if s == [] then None
    else FindQuotedImport(s[1..])
  }

  /** The callback of the `@import` pass, for the matched text `m`. */
  function ImportReplacement(m: string, f: string -> string): string {
    match FindUrlCall(m)
    case Some(found) => "@import url(" + f(m[found.0 + 4..found.0 + found.1 - 1]) + ")"
    case None =>
      match FindQuotedImport(m)
      case Some(quoted) => "@import " + [quoted.0] + f(quoted.1) + [quoted.0]
      case None => m
  }

  function ReplaceImports(s: string, f: string -> string): string
    decreases |s|
  {
    if s == [] then []
    else
      match ImportAt(s)
      case Some(n) => ImportReplacement(s[..n], f) + ReplaceImports(s[n..], f)
      case None => [s[0]] + ReplaceImports(s[1..], f)
  }

  /** The texts the `@import` pass matches, in order. */
  function ImportMatches(s: string): seq<string>
    decreases |s|
  {
    if s == [] then []
    else
      match ImportAt(s)
      case Some(n) => [s[..n]] + ImportMatches(s[n..])
      case None => ImportMatches(s[1..])
  }

  /** The text between the `@import` matches: one more gap than matches. */
  function ImportGaps(s: string): (gaps: seq<string>)
    ensures |gaps| == |ImportMatches(s)| + 1
    decreases |s|
  {
    if s == [] then [[]]
    else
      match ImportAt(s)
      case Some(n) => [[]] + ImportGaps(s[n..])
      case None =>
        var g := ImportGaps(s[1..]);
        [[s[0]] + g[0]] + g[1..]
  }

  /** What the callback gives for each match. */
  function Replacements(matches: seq<string>, f: string -> string): seq<string> {
    seq(|matches|, i requires 0 <= i < |matches| => ImportReplacement(matches[i], f))
  }

  lemma ImportCutAt(s: string, n: nat, f: string -> string)
    requires ImportAt(s) == Some(n)
    ensures ReplaceImports(s, f) == ImportReplacement(s[..n], f) + ReplaceImports(s[n..], f)
    ensures ImportMatches(s) == [s[..n]] + ImportMatches(s[n..])
    ensures ImportGaps(s) == [[]] + ImportGaps(s[n..])
  {
  }

  lemma ReplacementsCons(m: string, matches: seq<string>, f: string -> string)
    ensures Replacements([m] + matches, f) == [ImportReplacement(m, f)] + Replacements(matches, f)
  {
  }

  /** Cut at its `@import` matches and woven back together, a text is itself. */
  lemma {:induction false} ImportTextWoven(s: string)
    ensures s == Weave(ImportGaps(s), ImportMatches(s))
    decreases |s|
  {
    if s != [] {
      match ImportAt(s)
      case Some(n) =>
        ImportTextWoven(s[n..]);
        assert ImportMatches(s)[1..] == ImportMatches(s[n..]);
        assert ImportGaps(s)[1..] == ImportGaps(s[n..]);
        assert s == [] + s[..n] + s[n..];
      case None =>
        ImportTextWoven(s[1..]);
        WeaveCons(s[0], ImportGaps(s[1..]), ImportMatches(s));
        assert s == [s[0]] + s[1..];
    }
  }

  /** The `@import` pass replaces each match by the callback's text and keeps every gap between them. */
  lemma {:induction false} ImportPassWoven(s: string, f: string -> string)
    ensures ReplaceImports(s, f) == Weave(ImportGaps(s), Replacements(ImportMatches(s), f))
    decreases |s|
  {
    if s != [] {
      match ImportAt(s)
      case Some(n) =>
        var m, rest := s[..n], s[n..];
        ImportPassWoven(rest, f);
        ImportCutAt(s, n, f);
        ReplacementsCons(m, ImportMatches(rest), f);
        WeaveFront(ImportReplacement(m, f), ImportGaps(rest), Replacements(ImportMatches(rest), f));
      case None =>
        ImportPassWoven(s[1..], f);
        assert ImportMatches(s) == ImportMatches(s[1..]);
        WeaveCons(s[0], ImportGaps(s[1..]), Replacements(ImportMatches(s), f));
    }
  }

  /** Text without `@import` comes through the `@import` pass unchanged. */
  lemma {:induction false} NoImportsKept(s: string, f: string -> string)
    requires !Contains(s, "@import")
    ensures ReplaceImports(s, f) == s
    decreases |s|
  {
    if s != [] {
      if |s| >= 7 {
        assert !OccursAt(s, "@import", 0);
      }
      assert !Contains(s[1..], "@import") by {
        forall i | 0 <= i <= |s[1..]| ensures !OccursAt(s[1..], "@import", i) {
          assert !OccursAt(s, "@import", i + 1);
          if i + 7 <= |s[1..]| {
            assert s[1..][i..i + 7] == s[i + 1..i + 1 + 7];
          }
        }
      }
      NoImportsKept(s[1..], f);
      assert s == [s[0]] + s[1..];
    }
  }

  /**
   * A quoted `@import` keeps its quote character and its target is rewritten through the
   * callback; the whitespace after `@import` becomes a single space.
   */
  lemma QuotedImportRewritten(gap: string, q: char, target: string, f: string -> string)
    requires gap != [] && AllSpace(gap)
    requires IsQuote(q)
    requires target != [] && forall i :: 0 <= i < |target| ==> !IsQuote(target[i])
    requires '(' !in target
    ensures var m := "@import" + gap + ([q] + target + [q]);
      && ImportAt(m) == Some(|m|)
      && ImportReplacement(m, f) == "@import " + [q] + f(target) + [q]
  {
    var quoted := [q] + target + [q];
    QuotedImportMatched(gap, q, target);
    assert '(' !in quoted;
    NoParenInImportPrefix(gap);
    assert '(' !in "@import" + gap + quoted;
    NoParenNoUrlCall("@import" + gap + quoted);
  }

  /** Both `@import` matchers accept a quoted target closed by its own quote. */
  lemma QuotedImportMatched(gap: string, q: char, target: string)
    requires gap != [] && AllSpace(gap)
    requires IsQuote(q)
    requires target != [] && forall i :: 0 <= i < |target| ==> !IsQuote(target[i])
    ensures var m := "@import" + gap + ([q] + target + [q]);
      && ImportAt(m) == Some(|m|)
      && QuotedImportAt(m) == Some((q, target))
  {
    var rest := [q] + target + [q];
    ImportParts(gap, rest);
    assert rest[1..] == target + [q];
    QuoteIndexOf(target, q);
    if |rest| >= 4 {
      assert rest[..4][0] == q;
    }
    ImportAtQuoted(gap, rest);
    assert rest[1..|target| + 1] == target;
    QuotedImportAtOf(gap, rest);
  }

  /** `@import`, white space, then a text that does not start with white space. */
  lemma ImportParts(gap: string, rest: string)
    requires AllSpace(gap)
    requires rest != [] && !IsSpace(rest[0])
    ensures var m := "@import" + gap + rest;
      |m| >= 7 && m[..7] == "@import" && SpaceRun(m[7..]) == |gap| && m[7 + |gap|..] == rest
  {
    var m := "@import" + gap + rest;
    assert m[..7] == "@import";
    assert m[7..] == gap + rest;
    SpaceRunOf(gap, rest);
  }

  lemma ImportAtQuoted(gap: string, rest: string)
    requires gap != [] && |rest| >= 3 && IsQuote(rest[0]) && UrlCallAt(rest).None?
    requires var m := "@import" + gap + rest;
      |m| >= 7 && m[..7] == "@import" && SpaceRun(m[7..]) == |gap| && m[7 + |gap|..] == rest
    requires QuoteIndex(rest[1..]) == |rest| - 2
    ensures ImportAt("@import" + gap + rest) == Some(|"@import" + gap + rest|)
  {
  }

  lemma QuotedImportAtOf(gap: string, rest: string)
    requires gap != [] && |rest| >= 3 && IsQuote(rest[0]) && rest[|rest| - 1] == rest[0]
    requires var m := "@import" + gap + rest;
      |m| >= 7 && m[..7] == "@import" && SpaceRun(m[7..]) == |gap| && m[7 + |gap|..] == rest
    requires QuoteIndex(rest[1..]) == |rest| - 2
    ensures QuotedImportAt("@import" + gap + rest) == Some((rest[0], rest[1..|rest| - 1]))
  {
  }

  /** The `url(...)` form of `@import` is rewritten through the callback, its spacing normalised. */
  lemma UrlImportRewritten(gap: string, token: string, f: string -> string)
    requires gap != [] && AllSpace(gap)
    requires token != [] && ')' !in token
    ensures var m := "@import" + gap + UrlCall(token);
      && ImportAt(m) == Some(|m|)
      && ImportReplacement(m, f) == "@import url(" + f(token) + ")"
  {
    UrlCallOf(token);
    UrlImportAt(gap, UrlCall(token));
    UrlImportReplaced(gap, token, f);
  }

  lemma UrlImportReplaced(gap: string, token: string, f: string -> string)
    requires gap != [] && AllSpace(gap)
    requires token != [] && ')' !in token
    ensures ImportReplacement("@import" + gap + UrlCall(token), f) == "@import url(" + f(token) + ")"
  {
    ImportCallLocated(gap, token);
    var m := "@import" + gap + UrlCall(token);
    TokenOfCall(m, "@import" + gap, token, 7 + |gap|, |token| + 5);
    ReplacementOfToken(m, 7 + |gap|, |token| + 5, token, f);
  }

  lemma TokenOfCall(m: string, p: string, token: string, at: nat, n: nat)
    requires m == p + UrlCall(token) && at == |p| && n == |token| + 5
    ensures m[at + 4..at + n - 1] == token
  {
    CallTokenSlice(p, token);
  }

  lemma ReplacementOfToken(m: string, at: nat, n: nat, token: string, f: string -> string)
    requires FindUrlCall(m) == Some((at, n))
    requires m[at + 4..at + n - 1] == token
    ensures ImportReplacement(m, f) == "@import url(" + f(token) + ")"
  {
    ReplacementAt(m, at, n, f);
  }

  lemma ImportCallLocated(gap: string, token: string)
    requires AllSpace(gap)
    requires token != [] && ')' !in token
    ensures FindUrlCall("@import" + gap + UrlCall(token)) == Some((7 + |gap|, |token| + 5))
  {
    UrlCallOf(token);
    UrlCallAfterImport(gap, UrlCall(token));
  }

  lemma CallTokenSlice(prefix: string, token: string)
    ensures (prefix + UrlCall(token))[|prefix| + 4..|prefix| + |token| + 4] == token
  {
    assert |"url("| == 4;
    SliceOfMiddle(prefix, "url(", token, ")");
  }

  /** The callback of the `@import` pass on a match holding a `url(...)` call: the call's token is rewritten. */
  lemma ReplacementAt(m: string, at: nat, n: nat, f: string -> string)
    requires FindUrlCall(m) == Some((at, n))
    ensures ImportReplacement(m, f) == "@import url(" + f(m[at + 4..at + n - 1]) + ")"
  {
  }

  /** In `p + (u + t + r)`, the part `t` starts right after `p + u`. */
  lemma SliceOfMiddle(p: string, u: string, t: string, r: string)
    ensures (p + (u + t + r))[|p| + |u|..|p| + |u| + |t|] == t
  {
    var m := p + (u + t + r);
    forall k | 0 <= k < |t| ensures m[|p| + |u| + k] == t[k] {
      assert m[|p| + |u| + k] == (u + t + r)[|u| + k];
    }
  }

  lemma UrlCallAfterImport(gap: string, call: string)
    requires AllSpace(gap)
    requires UrlCallAt(call) == Some(|call|)
    ensures FindUrlCall("@import" + gap + call) == Some((|"@import" + gap|, |call|))
  {
    NoParenInImportPrefix(gap);
    UrlCallFoundAfter("@import" + gap, call);
  }

  lemma NoParenInImportPrefix(gap: string)
    requires AllSpace(gap)
    ensures '(' !in "@import" + gap
  {
    assert !IsSpace('(');
    assert '(' !in gap;
    assert "@import" == ['@', 'i', 'm', 'p', 'o', 'r', 't'];
  }

  /** `url(<token>)` is matched whole when the token is non-empty and holds no `)`. */
  lemma UrlCallOf(token: string)
    requires token != [] && ')' !in token
    ensures UrlCallAt(UrlCall(token)) == Some(|token| + 5)
  {
    var call := UrlCall(token);
    assert call[..4] == "url(";
    assert OpensCall(call);
    assert call[4..] == token + ")";
    QuoteIndexFree(token, ')');
  }

  lemma UrlImportAt(gap: string, call: string)
    requires gap != [] && AllSpace(gap)
    requires UrlCallAt(call) == Some(|call|)
    ensures ImportAt("@import" + gap + call) == Some(|"@import" + gap + call|)
  {
    assert call[0] == 'u';
    ImportParts(gap, call);
  }

  /** The first `url(...)` call in a prefix without `(` followed by a call is that call. */
  lemma {:induction false} UrlCallFoundAfter(prefix: string, call: string)
    requires '(' !in prefix
    requires UrlCallAt(call).Some?
    ensures FindUrlCall(prefix + call) == Some((|prefix|, UrlCallAt(call).value))
    decreases |prefix|
  {
    var s := prefix + call;
    if prefix == [] {
      assert s == call;
    } else {
      if |s| >= 4 {
        if |prefix| >= 4 {
          assert s[3] == prefix[3];
        } else {
          assert s[3] == call[3 - |prefix|];
        }
        assert s[3] != '(';
      }
      assert UrlCallAt(s).None?;
      assert s[1..] == prefix[1..] + call;
      UrlCallFoundAfter(prefix[1..], call);
    }
  }

  /** Text without `(` comes through the `url(...)` pass unchanged up to the call that follows it. */
  lemma {:induction false} PlainPrefixKept(prefix: string, rest: string, f: string -> string)
    requires '(' !in prefix
    requires UrlCallAt(rest).Some?
    ensures ReplaceUrlCalls(prefix + rest, f) == prefix + ReplaceUrlCalls(rest, f)
    decreases |prefix|
  {
    var s := prefix + rest;
    if prefix == [] {
      assert s == rest;
    } else {
      NoCallInPlainText(prefix, rest);
      assert s[1..] == prefix[1..] + rest;
      PlainPrefixKept(prefix[1..], rest, f);
      assert ReplaceUrlCalls(s, f) == [prefix[0]] + (prefix[1..] + ReplaceUrlCalls(rest, f));
      ConsAppend(prefix[0], prefix[1..], ReplaceUrlCalls(rest, f));
      assert [prefix[0]] + prefix[1..] == prefix;
    }
  }

  /** A call whose token holds no `)` ends at the token's end, whatever follows it. */
  lemma UrlCallBefore(token: string, suffix: string)
    requires token != [] && ')' !in token
    ensures UrlCallAt(UrlCall(token) + suffix) == Some(|token| + 5)
  {
    var s := UrlCall(token) + suffix;
    var t := token + [')'] + suffix;
    assert s[..4] == "url(" && s[4..] == t;
    assert OpensCall(s);
    assert t[..|token|] == token;
    IndexOfIs(t, ')', |token|);
  }

  /** Text without `(` comes through the `url(...)` pass unchanged. */
  lemma {:induction false} NoParenKept(s: string, f: string -> string)
    requires '(' !in s
    ensures ReplaceUrlCalls(s, f) == s
    decreases |s|
  {
    if s != [] {
      if |s| >= 4 {
        assert s[3] != '(';
      }
      NoParenKept(s[1..], f);
      assert s == [s[0]] + s[1..];
    }
  }

  /** A `url(...)` call followed by text without `(`: the call is rewritten and the text after it kept. */
  lemma CallThenPlainText(token: string, suffix: string, f: string -> string)
    requires token != [] && ')' !in token && '(' !in suffix
    ensures ReplaceUrlCalls(UrlCall(token) + suffix, f) == UrlCall(f(token)) + suffix
  {
    var s := UrlCall(token) + suffix;
    var n := |token| + 5;
    UrlCallBefore(token, suffix);
    assert s[4..n - 1] == token;
    CallReplacedAt(s, f, n, UrlCall(f(token)));
    assert s[n..] == suffix;
    NoParenKept(suffix, f);
  }

  /** No call starts inside text without `(` that runs up to a `url(...)` call. */
  lemma NoCallInPlainText(prefix: string, rest: string)
    requires prefix != [] && '(' !in prefix
    requires UrlCallAt(rest).Some?
    ensures UrlCallAt(prefix + rest).None?
  {
    UrlCallFoundAfter(prefix, rest);
  }

  /** A text that is one whole `url(...)` call becomes that call with its token rewritten. */
  lemma WholeUrlCall(call: string, f: string -> string)
    requires UrlCallAt(call) == Some(|call|)
    ensures ReplaceUrlCalls(call, f) == UrlCall(f(call[4..|call| - 1]))
  {
    var token := call[4..|call| - 1];
    UrlCallAtExactly(call);
    UrlCallParts(call, |call|);
    assert call == UrlCall(token) + [];
    CallThenPlainText(token, [], f);
    assert UrlCall(f(token)) + [] == UrlCall(f(token));
  }

  /** At a `url(...)` call of length `n`, the pass emits the rewritten call and continues after it. */
  lemma CallReplacedAt(s: string, f: string -> string, n: nat, head: string)
    requires UrlCallAt(s) == Some(n)
    requires head == UrlCall(f(s[4..n - 1]))
    ensures ReplaceUrlCalls(s, f) == head + ReplaceUrlCalls(s[n..], f)
  {
  }

  lemma ConsAppend(c: char, p: string, r: string)
    ensures [c] + (p + r) == ([c] + p) + r
  {
  }

  lemma {:induction false} SpaceRunOf(gap: string, after: string)
    requires AllSpace(gap)
    requires after == [] || !IsSpace(after[0])
    ensures SpaceRun(gap + after) == |gap|
    decreases |gap|
  {
    var s := gap + after;
    if gap == [] {
      assert s == after;
    } else {
      assert s[0] == gap[0] && IsSpace(gap[0]);
      assert s[1..] == gap[1..] + after;
      assert AllSpace(gap[1..]) by {
        forall k | 0 <= k < |gap| - 1 ensures IsSpace(gap[1..][k]) {
          assert gap[1..][k] == gap[k + 1];
        }
      }
      SpaceRunOf(gap[1..], after);
    }
  }

  lemma {:induction false} QuoteIndexOf(target: string, q: char)
    requires IsQuote(q)
    requires forall i :: 0 <= i < |target| ==> !IsQuote(target[i])
    ensures QuoteIndex(target + [q]) == |target|
    decreases |target|
  {
    if target != [] {
      assert (target + [q])[1..] == target[1..] + [q];
      QuoteIndexOf(target[1..], q);
    }
  }

  lemma {:induction false} QuoteIndexFree(token: string, c: char)
    requires c !in token
    ensures IndexOf(token + [c], c) == |token|
    decreases |token|
  {
    if token != [] {
      assert (token + [c])[1..] == token[1..] + [c];
      QuoteIndexFree(token[1..], c);
    }
  }

  // ---------------------------------------------------------------------------
  // The literal pass and the whole text transformation.

  /** `if (css.includes(orig)) css = css.split(orig).join(local);` */
  function ReplaceIfPresent(css: string, e: Entry): string {
    if Contains(css, e.url) then ReplaceAll(css, e.url, e.local) else css
  }

  /** The literal pass: each manifest entry in insertion order. */
  function LiteralPass(css: string, mapping: Manifest): string
    decreases |mapping|
  {
    if mapping == [] then css else LiteralPass(ReplaceIfPresent(css, mapping[0]), mapping[1..])
  }

  /** A stylesheet in which no manifest URL occurs comes through the literal pass unchanged. */
  lemma {:induction false} LiteralPassAbsent(css: string, mapping: Manifest)
    requires forall i :: 0 <= i < |mapping| ==> !Contains(css, mapping[i].url)
    ensures LiteralPass(css, mapping) == css
    decreases |mapping|
  {
    if mapping != [] {
      assert forall i :: 0 <= i < |mapping[1..]| ==> mapping[1..][i] == mapping[i + 1];
      LiteralPassAbsent(css, mapping[1..]);
    }
  }

  /**
   * One step of the literal pass: a URL that occurs is replaced everywhere, the text being
   * cut at its occurrences and glued back with the local path.
   */
  lemma LiteralStep(css: string, e: Entry)
    requires e.url != []
    ensures var r := ReplaceIfPresent(css, e);
      var pieces := Split(css, e.url);
      && Join(pieces, e.url) == css
      && (forall p :: p in pieces ==> !Contains(p, e.url))
      && r == Join(pieces, e.local)
  {
    ReplaceAllPieces(css, e.url, e.local);
    if !Contains(css, e.url) {
      SplitWithoutSeparator(css, e.url);
    }
  }

  /** The loop over `mapping.entries()`. */
  method ReplaceManifestUrls(css: string, mapping: Manifest) returns (out: string)
    ensures out == LiteralPass(css, mapping)
  {
    out := css;
    for i := 0 to |mapping|
      invariant LiteralPass(css, mapping) == LiteralPass(out, mapping[i..])
    {
      assert mapping[i..][1..] == mapping[i + 1..];
      if Contains(out, mapping[i].url) {
        out := ReplaceAll(out, mapping[i].url, mapping[i].local);
      }
    }
    assert mapping[|mapping|..] == [];
  }

  /** The new text of one stylesheet: the literal pass, then the `url(...)` pass, then the `@import` pass. */
  function RewriteCssText(css: string, mapping: Manifest, baseUrl: Option<string>, resolve: Resolver): string {
    var f := t => RewriteCssUrl(t, mapping, baseUrl, resolve);
    ReplaceImports(ReplaceUrlCalls(LiteralPass(css, mapping), f), f)
  }

  /**
   * A stylesheet that holds no manifest URL, no `@import` and only `data:` URIs in its
   * `url(...)` tokens is left exactly as it was.
   */
  lemma UntouchedStylesheet(css: string, mapping: Manifest, baseUrl: Option<string>, resolve: Resolver)
    requires forall i :: 0 <= i < |mapping| ==> !Contains(css, mapping[i].url)
    requires !Contains(css, "@import")
    requires forall t :: t in UrlTokens(css) ==> StartsWith(StripQuotes(Trim(t)), "data:")
    ensures RewriteCssText(css, mapping, baseUrl, resolve) == css
  {
    LiteralPassAbsent(css, mapping);
    DataOnlyUrlPass(css, mapping, baseUrl, resolve);
    NoImportsKept(css, t => RewriteCssUrl(t, mapping, baseUrl, resolve));
  }

  // ---------------------------------------------------------------------------
  // The walk over `<outputDir>/assets`.

  /** `full.toLowerCase().endsWith(".css")`, decided by the last segment of the path. */
  predicate IsCssName(name: string) {
    EndsWith(ToLowerAscii(name), ".css")
  }

  /** `p` lies strictly below `dir` and every directory between them exists. */
  predicate Reachable(d: Disk, dir: Paths.Path, p: Paths.Path) {
    && |p| > |dir| && p[..|dir|] == dir
    && forall k :: |dir| <= k < |p| ==> d.IsDir(p[..k])
  }

  /** The files the walk reads and writes back. */
  function CssFiles(d: Disk, dir: Paths.Path): set<Paths.Path> {
    set p | p in d.files.Keys && Reachable(d, dir, p) && IsCssName(p[|p| - 1])
  }

  /** The new text of one file, through the UTF-8 round trip of `readFileSync` and `writeFileSync`. */
  function RewriteFile(content: Bytes, mapping: Manifest, baseUrl: Option<string>, resolve: Resolver, utf8: Utf8): Bytes {
    utf8.encode(RewriteCssText(utf8.decode(content), mapping, baseUrl, resolve))
  }

  /** The disk after the walk over `dir`: its CSS files rewritten, nothing else changed. */
  function CssRewritten(d: Disk, dir: Paths.Path, mapping: Manifest, baseUrl: Option<string>, resolve: Resolver, utf8: Utf8): Disk {
    RewrittenSoFar(d, CssFiles(d, dir), mapping, baseUrl, resolve, utf8)
  }

  /**
   * The walk changes the bytes of CSS files below the directory and nothing else: every
   * other file, the set of files and the set of directories stay as they were.
   */
  lemma CssRewriteFrame(d: Disk, dir: Paths.Path, mapping: Manifest, baseUrl: Option<string>, resolve: Resolver, utf8: Utf8)
    ensures var after := CssRewritten(d, dir, mapping, baseUrl, resolve, utf8);
      && after.dirs == d.dirs
      && after.files.Keys == d.files.Keys
      && (forall p :: p in d.files && p !in CssFiles(d, dir) ==> after.files[p] == d.files[p])
      && (forall p :: p in CssFiles(d, dir) ==>
            after.files[p] == utf8.encode(RewriteCssText(utf8.decode(d.files[p]), mapping, baseUrl, resolve)))
  {
    RewrittenSoFarFrame(d, CssFiles(d, dir), mapping, baseUrl, resolve, utf8);
  }

  /** Rewriting the files in `done` keeps the keys and directories and changes only those files. */
  lemma RewrittenSoFarFrame(d: Disk, done: set<Paths.Path>, mapping: Manifest, baseUrl: Option<string>,
                            resolve: Resolver, utf8: Utf8)
    ensures var after := RewrittenSoFar(d, done, mapping, baseUrl, resolve, utf8);
      && after.dirs == d.dirs
      && after.files.Keys == d.files.Keys
      && (forall p :: p in d.files && p !in done ==> after.files[p] == d.files[p])
      && (forall p :: p in d.files && p in done ==> after.files[p] == RewriteFile(d.files[p], mapping, baseUrl, resolve, utf8))
  {
  }

  /** One stylesheet: `readFileSync`, the three passes, `writeFileSync`. */
  method RewriteStylesheet(fs: FileSystem, p: Paths.Path, mapping: Manifest, baseUrl: Option<string>,
                           resolve: Resolver, utf8: Utf8)
    requires fs.disk.IsFile(p)
    modifies fs
    ensures fs.disk == old(fs.disk).Write(p, RewriteFile(old(fs.disk).files[p], mapping, baseUrl, resolve, utf8))
  {
    var css := utf8.decode(fs.disk.files[p]);
    css := ReplaceManifestUrls(css, mapping);
    var f := t => RewriteCssUrl(t, mapping, baseUrl, resolve);
    css := ReplaceUrlCalls(css, f);
    css := ReplaceImports(css, f);
    fs.Overwrite(p, utf8.encode(css));
  }

  /** The disk once the stylesheets in `done` have been rewritten and no other. */
  function RewrittenSoFar(d: Disk, done: set<Paths.Path>, mapping: Manifest, baseUrl: Option<string>,
                          resolve: Resolver, utf8: Utf8): Disk {
    Disk(map p | p in d.files :: if p in done then RewriteFile(d.files[p], mapping, baseUrl, resolve, utf8) else d.files[p], d.dirs)
  }

  lemma RewrittenOneMore(d: Disk, done: set<Paths.Path>, p: Paths.Path, mapping: Manifest, baseUrl: Option<string>,
                         resolve: Resolver, utf8: Utf8)
    requires p in d.files && p !in done
    ensures RewrittenSoFar(d, done + {p}, mapping, baseUrl, resolve, utf8)
         == RewrittenSoFar(d, done, mapping, baseUrl, resolve, utf8).Write(p, RewriteFile(d.files[p], mapping, baseUrl, resolve, utf8))
  {
    var before := RewrittenSoFar(d, done, mapping, baseUrl, resolve, utf8);
    var after := RewrittenSoFar(d, done + {p}, mapping, baseUrl, resolve, utf8);
    var written := before.Write(p, RewriteFile(d.files[p], mapping, baseUrl, resolve, utf8));
    assert after.files.Keys == written.files.Keys;
    assert after.files == written.files;
  }

  lemma RewrittenNone(d: Disk, mapping: Manifest, baseUrl: Option<string>, resolve: Resolver, utf8: Utf8)
    ensures RewrittenSoFar(d, {}, mapping, baseUrl, resolve, utf8) == d
  {
    assert RewrittenSoFar(d, {}, mapping, baseUrl, resolve, utf8).files == d.files;
  }

  /** `walk(dir)`: every CSS file below `dir` rewritten, one at a time. */
  method Walk(fs: FileSystem, dir: Paths.Path, mapping: Manifest, baseUrl: Option<string>, resolve: Resolver, utf8: Utf8)
    modifies fs
    ensures fs.disk == CssRewritten(old(fs.disk), dir, mapping, baseUrl, resolve, utf8)
  {
    var targets := CssFiles(fs.disk, dir);
    RewriteEach(fs, targets, mapping, baseUrl, resolve, utf8);
  }

  /** The stylesheets `targets` rewritten in some order; each is rewritten once, from its original bytes. */
  method RewriteEach(fs: FileSystem, targets: set<Paths.Path>, mapping: Manifest, baseUrl: Option<string>,
                     resolve: Resolver, utf8: Utf8)
    requires targets <= fs.disk.files.Keys
    modifies fs
    ensures fs.disk == RewrittenSoFar(old(fs.disk), targets, mapping, baseUrl, resolve, utf8)
  {
    ghost var d0 := fs.disk;
    var todo := targets;
    RewrittenNone(d0, mapping, baseUrl, resolve, utf8);
    assert targets - todo == {};
    while todo != {}
      invariant todo <= targets
      invariant fs.disk == RewrittenSoFar(d0, targets - todo, mapping, baseUrl, resolve, utf8)
      decreases |todo|
    {
      var p :| p in todo;
      RewrittenOneMore(d0, targets - todo, p, mapping, baseUrl, resolve, utf8);
      RewriteStylesheet(fs, p, mapping, baseUrl, resolve, utf8);
      assert targets - todo + {p} == targets - (todo - {p});
      todo := todo - {p};
    }
    assert targets - todo == targets;
  }

  /**
   * `rewriteCssInOutput(outputDir, mapping, baseUrl)`. With no `assets` it returns at once;
   * when `assets` is a file, `readdirSync` throws (`false`) before anything is written.
   */
  method RewriteCssInOutput(fs: FileSystem, outputDir: Paths.Path, mapping: Manifest, baseUrl: Option<string>,
                            resolve: Resolver, utf8: Utf8)
    returns (ok: bool)
    modifies fs
    ensures var assets := Paths.Resolve(outputDir, ["assets"]);
      && ok == (old(fs.disk).IsDir(assets) || !old(fs.disk).Exists(assets))
      && fs.disk == if old(fs.disk).IsDir(assets) then CssRewritten(old(fs.disk), assets, mapping, baseUrl, resolve, utf8)
                    else old(fs.disk)
  {
    var assets := Paths.Resolve(outputDir, ["assets"]);
    if !fs.disk.Exists(assets) {
      return true;
    }
    if !fs.disk.IsDir(assets) {
      return false;
    }
    Walk(fs, assets, mapping, baseUrl, resolve, utf8);
    ok := true;
  }
}
