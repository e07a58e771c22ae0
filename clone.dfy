/**
 * `cloneWebsite` (src/agent/tools/cloneWebsite.ts) once the page has been captured: the
 * output directory is created, the captured resources are saved, the page is rewritten and
 * written as `index.html`, the saved stylesheets are rewritten, and when any step of that
 * sequence throws the captured markup is written as `index.html` instead.
 */
module Clone {
  import opened Wrappers
  import opened Text
  import opened Paths
  import opened Files
  import opened Web
  import opened Manifests
  import opened Persist
  import HtmlRewrite
  import CssRewrite

  /** What the browser session hands over: `page.content()` and the `resources` map. */
  datatype Capture = Capture(html: string, resources: seq<Resource>)

  /** The collaborators: `new URL`, cheerio, and the UTF-8 conversion of `fs` on strings. */
  datatype Collaborators = Collaborators(resolve: Resolver, codec: HtmlCodec, utf8: Utf8)

  const FallbackStatus := "Clone completed" + " with fallback HTML (assets may be missing)."

  /** The status of a clone whose manifest holds `count` entries. */
  function CompleteStatus(count: nat): string {
    "Clone complete: " + NatToString(count) + " resources saved."
  }

  /** `path.join(outputDir, "index.html")` */
  function IndexPath(outputDir: Path): Path {
    Paths.Join(outputDir, "index.html")
  }

  /** The page as the `try` block writes it: `rewritePaths(html, mapping, url)`. */
  function RewrittenPage(cap: Capture, mapping: Manifest, url: string, env: Collaborators): string {
    env.codec.serialize(HtmlRewrite.Rewritten(env.codec.parse(cap.html), mapping, url, env.resolve))
  }

  /**
   * The `try` block on a disk where the output directory exists, with `cssBase` the base
   * handed to `rewriteCssInOutput`: the disk afterwards, and the manifest unless a step threw.
   */
  function Attempt(d: Disk, url: string, outputDir: Path, cap: Capture, env: Collaborators, cssBase: Option<string>)
    : (Disk, Option<Manifest>)
  {
    var saved := Saved(d, cap.resources, outputDir, url, env.resolve);
    if saved.1.None? then saved
    else
      var mapping := saved.1.value;
      var index := IndexPath(outputDir);
      if !saved.0.CanWrite(index) then (saved.0, None)
      else
        var written := saved.0.Write(index, env.utf8.encode(RewrittenPage(cap, mapping, url, env)));
        var assets := Resolve(outputDir, ["assets"]);
        if written.IsDir(assets) then (CssRewrite.CssRewritten(written, assets, mapping, cssBase, env.resolve, env.utf8), Some(mapping))
        else if written.Exists(assets) then (written, None)
        else (written, Some(mapping))
  }

  /** The `catch` block: the captured markup written as `index.html`; `None` where that write throws too. */
  function Fallback(d: Disk, outputDir: Path, cap: Capture, env: Collaborators): (Disk, Option<string>) {
    var index := IndexPath(outputDir);
    if d.CanWrite(index) then (d.Write(index, env.utf8.encode(cap.html)), Some(FallbackStatus)) else (d, None)
  }

  /**
   * Everything after the capture: the disk afterwards and the returned status, `None` where
   * the tool throws (`mkdirSync` before the `try`, or the write in the `catch`).
   */
  function PostCapture(d: Disk, url: string, outputDir: Path, cap: Capture, env: Collaborators, cssBase: Option<string>)
    : (Disk, Option<string>)
  {
    if !d.CanMakeDirs(outputDir) then (d, None)
    else
      var attempt := Attempt(d.MakeDirs(outputDir), url, outputDir, cap, env, cssBase);
      if attempt.1.Some? then (attempt.0, Some(CompleteStatus(|attempt.1.value|)))
      else Fallback(attempt.0, outputDir, cap, env)
  }

  /**
   * The composition with the base of the CSS pass as a parameter. A capture of `None` is a
   * browser launch or navigation that threw, and the tool throws with it before touching the disk.
   */
  method FinishClone(fs: FileSystem, url: string, outputDir: Path, capture: Option<Capture>, env: Collaborators,
                     cssBase: Option<string>)
    returns (status: Option<string>)
    requires capture.Some? ==> DistinctResources(capture.value.resources)
    modifies fs
    ensures (fs.disk, status)
         == if capture.None? then (old(fs.disk), None) else PostCapture(old(fs.disk), url, outputDir, capture.value, env, cssBase)
  {
    if capture.None? {
      return None;
    }
    var cap := capture.value;
    var ok := fs.MakeDirs(outputDir);
    if !ok {
      return None;
    }
    var index := Paths.Join(outputDir, "index.html");
    var saved := SaveResources(fs, cap.resources, outputDir, url, env.resolve);
    if saved.Some? {
      var rewritten := HtmlRewrite.RewritePaths(cap.html, saved.value, url, env.resolve, env.codec);
      ok := fs.WriteFile(index, env.utf8.encode(rewritten));
      if ok {
        ok := CssRewrite.RewriteCssInOutput(fs, outputDir, saved.value, cssBase, env.resolve, env.utf8);
        if ok {
          return Some(CompleteStatus(|saved.value|));
        }
      }
    }
    ok := fs.WriteFile(index, env.utf8.encode(cap.html));
    if !ok {
      return None;
    }
    status := Some(FallbackStatus);
  }

  /** `cloneWebsite({ url, outputDir })` as written: `rewriteCssInOutput(outputDir, mapping)` gets no base. */
  method CloneWebsite(fs: FileSystem, url: string, outputDir: Path, capture: Option<Capture>, env: Collaborators)
    returns (status: Option<string>)
    requires capture.Some? ==> DistinctResources(capture.value.resources)
    modifies fs
    ensures (fs.disk, status)
         == if capture.None? then (old(fs.disk), None) else PostCapture(old(fs.disk), url, outputDir, capture.value, env, None)
  {
    status := FinishClone(fs, url, outputDir, capture, env, None);
  }

  /** `cloneWebsite` with the page URL handed on as the base of the CSS pass. */
  method CloneWebsiteWithCssBase(fs: FileSystem, url: string, outputDir: Path, capture: Option<Capture>, env: Collaborators)
    returns (status: Option<string>)
    requires capture.Some? ==> DistinctResources(capture.value.resources)
    modifies fs
    ensures (fs.disk, status)
         == if capture.None? then (old(fs.disk), None) else PostCapture(old(fs.disk), url, outputDir, capture.value, env, Some(url))
  {
    status := FinishClone(fs, url, outputDir, capture, env, Some(url));
  }

  // ---------------------------------------------------------------------------
  // What the composition promises.

  lemma StatusesDistinct(count: nat)
    ensures CompleteStatus(count) != FallbackStatus
  {
    var c := CompleteStatus(count);
    assert "Clone complete: " == ['C', 'l', 'o', 'n', 'e', ' ', 'c', 'o', 'm', 'p', 'l', 'e', 't', 'e', ':', ' '];
    assert c[14] == ':';
    assert "Clone completed" == ['C', 'l', 'o', 'n', 'e', ' ', 'c', 'o', 'm', 'p', 'l', 'e', 't', 'e', 'd'];
    assert FallbackStatus[14] == 'd';
  }

  lemma IndexPathIsChild(outputDir: Path)
    ensures IndexPath(outputDir) == outputDir + ["index.html"]
  {
    IndexHtmlIsName();
    JoinName(outputDir, "index.html");
  }

  /** The CSS pass over `assets` leaves `index.html`, a sibling of `assets`, as it was. */
  lemma CssPassKeepsIndex(d: Disk, outputDir: Path, mapping: Manifest, cssBase: Option<string>, env: Collaborators)
    requires outputDir + ["index.html"] in d.files
    ensures var after := CssRewrite.CssRewritten(d, Resolve(outputDir, ["assets"]), mapping, cssBase, env.resolve, env.utf8);
      outputDir + ["index.html"] in after.files && after.files[outputDir + ["index.html"]] == d.files[outputDir + ["index.html"]]
  {
    var assets := Resolve(outputDir, ["assets"]);
    assert Step(outputDir, "assets") == outputDir + ["assets"];
    assert assets == outputDir + ["assets"];
    CssRewrite.CssRewriteFrame(d, assets, mapping, cssBase, env.resolve, env.utf8);
  }

  /**
   * A successful `try` block reports the size of a manifest with one entry per captured
   * resource and leaves the rewritten page in `index.html`.
   */
  lemma AttemptOutcome(d: Disk, url: string, outputDir: Path, cap: Capture, env: Collaborators, cssBase: Option<string>)
    requires Attempt(d, url, outputDir, cap, env, cssBase).1.Some?
    ensures var attempt := Attempt(d, url, outputDir, cap, env, cssBase);
      var index := outputDir + ["index.html"];
      && |attempt.1.value| == |cap.resources|
      && attempt.1 == Saved(d, cap.resources, outputDir, url, env.resolve).1
      && index in attempt.0.files
      && attempt.0.files[index] == env.utf8.encode(RewrittenPage(cap, attempt.1.value, url, env))
  {
    IndexPathIsChild(outputDir);
    var saved := Saved(d, cap.resources, outputDir, url, env.resolve);
    ManifestMirrorsResources(d, cap.resources, outputDir, url, env.resolve);
    var written := saved.0.Write(outputDir + ["index.html"], env.utf8.encode(RewrittenPage(cap, saved.1.value, url, env)));
    if written.IsDir(Resolve(outputDir, ["assets"])) {
      CssPassKeepsIndex(written, outputDir, saved.1.value, cssBase, env);
    }
  }

  /**
   * The tool reports one of its two statuses or throws. "Clone complete" counts every
   * captured resource and leaves the rewritten page in `index.html`; the fallback leaves
   * the captured markup there, so the preview is never blank.
   */
  lemma CloneOutcome(d: Disk, url: string, outputDir: Path, cap: Capture, env: Collaborators, cssBase: Option<string>)
    ensures var (after, status) := PostCapture(d, url, outputDir, cap, env, cssBase);
      var index := outputDir + ["index.html"];
      && (status.Some? ==> status.value == CompleteStatus(|cap.resources|) || status.value == FallbackStatus)
      && (status == Some(FallbackStatus) ==> index in after.files && after.files[index] == env.utf8.encode(cap.html))
      && (status == Some(CompleteStatus(|cap.resources|)) ==>
            var mapping := Saved(d.MakeDirs(outputDir), cap.resources, outputDir, url, env.resolve).1;
            && mapping.Some?
            && index in after.files
            && after.files[index] == env.utf8.encode(RewrittenPage(cap, mapping.value, url, env)))
  {
    IndexPathIsChild(outputDir);
    StatusesDistinct(|cap.resources|);
    if d.CanMakeDirs(outputDir) {
      var d1 := d.MakeDirs(outputDir);
      if Attempt(d1, url, outputDir, cap, env, cssBase).1.Some? {
        AttemptOutcome(d1, url, outputDir, cap, env, cssBase);
      }
    }
  }

  /** Where `mkdirSync(outputDir)` throws, the tool throws and nothing is written. */
  lemma UnwritableOutputThrows(d: Disk, url: string, outputDir: Path, cap: Capture, env: Collaborators, cssBase: Option<string>)
    requires !d.CanMakeDirs(outputDir)
    ensures PostCapture(d, url, outputDir, cap, env, cssBase) == (d, None)
  {
  }

  // ---------------------------------------------------------------------------
  // The base of the CSS pass.

  /** The stylesheet of the examples below: text, one `url(...)` call, text. */
  function OneCallText(prefix: string, token: string, suffix: string): string {
    prefix + CssRewrite.UrlCall(token) + suffix
  }

  lemma NoAtInSheet(prefix: string, token: string, suffix: string)
    requires '@' !in prefix && '@' !in token && '@' !in suffix
    ensures '@' !in OneCallText(prefix, token, suffix)
  {
    assert "url(" == ['u', 'r', 'l', '('];
    assert ")" == [')'];
    assert '@' !in CssRewrite.UrlCall(token);
  }

  /**
   * A stylesheet made of one `url(...)` call between runs of text without `(` or `@`, in which
   * no manifest URL occurs literally, comes out with just that call's token rewritten.
   */
  lemma OneCallSheet(prefix: string, token: string, suffix: string, mapping: Manifest, baseUrl: Option<string>,
                     resolve: Resolver)
    requires '(' !in prefix && '@' !in prefix && '(' !in suffix && '@' !in suffix
    requires token != [] && ')' !in token
    requires forall i :: 0 <= i < |mapping| ==> !Contains(OneCallText(prefix, token, suffix), mapping[i].url)
    requires '@' !in CssRewrite.RewriteCssUrl(token, mapping, baseUrl, resolve)
    ensures CssRewrite.RewriteCssText(OneCallText(prefix, token, suffix), mapping, baseUrl, resolve)
         == OneCallText(prefix, CssRewrite.RewriteCssUrl(token, mapping, baseUrl, resolve), suffix)
  {
    var f := t => CssRewrite.RewriteCssUrl(t, mapping, baseUrl, resolve);
    var sheet := OneCallText(prefix, token, suffix);
    CssRewrite.LiteralPassAbsent(sheet, mapping);
    UrlPassOnSheet(prefix, token, suffix, f);
    var out := OneCallText(prefix, f(token), suffix);
    NoAtInSheet(prefix, f(token), suffix);
    FirstCharAbsent(out, "@import");
    CssRewrite.NoImportsKept(out, f);
  }

  lemma UrlPassOnSheet(prefix: string, token: string, suffix: string, f: string -> string)
    requires '(' !in prefix && '(' !in suffix
    requires token != [] && ')' !in token
    ensures CssRewrite.ReplaceUrlCalls(OneCallText(prefix, token, suffix), f) == OneCallText(prefix, f(token), suffix)
  {
    var rest := CssRewrite.UrlCall(token) + suffix;
    assert OneCallText(prefix, token, suffix) == prefix + rest;
    CssRewrite.UrlCallBefore(token, suffix);
    CssRewrite.PlainPrefixKept(prefix, rest, f);
    CssRewrite.CallThenPlainText(token, suffix, f);
    assert OneCallText(prefix, f(token), suffix) == prefix + (CssRewrite.UrlCall(f(token)) + suffix);
  }

  /**
   * As written, the CSS pass has no base, so a token that `new URL` accepts only against a
   * base (such as `/img/b.png`) is kept as it was, whatever the manifest holds for it.
   */
  lemma RelativeCssTokenKeptAsWritten(prefix: string, token: string, suffix: string, mapping: Manifest,
                                      resolve: Resolver)
    requires '(' !in prefix && '@' !in prefix && '(' !in suffix && '@' !in suffix && '@' !in token
    requires token != [] && ')' !in token
    requires forall i :: 0 <= i < |mapping| ==> !Contains(OneCallText(prefix, token, suffix), mapping[i].url)
    requires resolve(CssRewrite.StripQuotes(Trim(token)), None).None?
    ensures CssRewrite.RewriteCssText(OneCallText(prefix, token, suffix), mapping, None, resolve)
         == OneCallText(prefix, token, suffix)
  {
    CssRewrite.RelativeTokenKeptWithoutBase(token, mapping, resolve);
    OneCallSheet(prefix, token, suffix, mapping, None, resolve);
  }

  /**
   * With the page URL as base, the same token is redirected to its saved copy, in the quote
   * it opened with, whenever the manifest holds the URL it resolves to.
   */
  lemma RelativeCssTokenRewrittenWithBase(prefix: string, token: string, suffix: string, mapping: Manifest,
                                          url: string, resolve: Resolver, abs: Url, local: string)
    requires '(' !in prefix && '@' !in prefix && '(' !in suffix && '@' !in suffix
    requires token != [] && ')' !in token
    requires forall i :: 0 <= i < |mapping| ==> !Contains(OneCallText(prefix, token, suffix), mapping[i].url)
    requires var target := CssRewrite.StripQuotes(Trim(token));
      target != "" && !StartsWith(target, "data:") && resolve(target, Some(url)) == Some(abs)
    requires Get(mapping, abs.href) == Some(local) && local != "" && '@' !in local
    ensures var q := CssRewrite.LeadingQuote(token);
      CssRewrite.RewriteCssText(OneCallText(prefix, token, suffix), mapping, Some(url), resolve)
        == OneCallText(prefix, q + local + q, suffix)
  {
    CssRewrite.CssUrlRewritten(token, mapping, Some(url), resolve);
    QuotedNoAt(token, local);
    OneCallSheet(prefix, token, suffix, mapping, Some(url), resolve);
  }

  lemma QuotedNoAt(token: string, local: string)
    requires '@' !in local
    ensures var q := CssRewrite.LeadingQuote(token);
      '@' !in q + local + q
  {
  }
}
