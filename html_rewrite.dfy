/**
 * `rewritePaths` (src/cloner/core.ts): the captured page is parsed, every `<base>` is
 * removed, and asset references in `href`, `src`, `srcset` and `<use>` are redirected
 * through the manifest to the local copies `saveResources` wrote.
 */
module HtmlRewrite {
  import opened Wrappers
  import opened Text
  import opened Web
  import opened Manifests

  /**
   * `mapUrl(u)`: the local path recorded for the absolute form of `u`; nothing for an absent
   * or empty reference, for one `new URL(u, baseUrl)` rejects, or for one not in the manifest.
   */
  function MapUrl(u: Option<string>, mapping: Manifest, baseUrl: string, resolve: Resolver): (r: Option<string>)
    ensures u.None? || u.value == "" || resolve(u.value, Some(baseUrl)).None? ==> r.None?
    ensures r.Some? ==> exists i :: (0 <= i < |mapping|
      && mapping[i].url == resolve(u.value, Some(baseUrl)).value.href
      && mapping[i].local == r.value)
  {
    if u.None? || u.value == "" then None
    else
      match resolve(u.value, Some(baseUrl))
      case None => None
      case Some(abs) => Get(mapping, abs.href)
  }

  /** A manifest without repeated URLs sends a reference that resolves to a recorded URL to that URL's local path. */
  lemma MapUrlFindsEntry(ref: string, mapping: Manifest, baseUrl: string, resolve: Resolver, i: nat)
    requires DistinctUrls(mapping) && i < |mapping|
    requires ref != ""
    requires resolve(ref, Some(baseUrl)).Some? && resolve(ref, Some(baseUrl)).value.href == mapping[i].url
    ensures MapUrl(Some(ref), mapping, baseUrl, resolve) == Some(mapping[i].local)
  {
    GetEntry(mapping, i);
  }

  // ---------------------------------------------------------------------------
  // Selecting elements. The parser gives tag names in lower case; HTML selectors compare
  // `rel` values ASCII case-insensitively.

  function Rel(e: Element): Option<string> {
    if "rel" in e.attrs then Some(ToLowerAscii(e.attrs["rel"])) else None
  }

  /** `link[rel='stylesheet'], script[src], img[src], link[rel*='icon'], link[rel='apple-touch-icon'], link[rel='mask-icon']` */
  predicate IsAssetElement(e: Element) {
    || (e.tag == "link" && Rel(e).Some?
        && (Rel(e).value == "stylesheet" || Contains(Rel(e).value, "icon")
            || Rel(e).value == "apple-touch-icon" || Rel(e).value == "mask-icon"))
    || (e.tag == "script" && "src" in e.attrs)
    || (e.tag == "img" && "src" in e.attrs)
  }

  /** `const mapped = mapUrl($(el).attr(name)); if (mapped) $(el).attr(name, mapped);` */
  function RewriteAttr(e: Element, name: string, mapping: Manifest, baseUrl: string, resolve: Resolver): Element {
    var mapped := MapUrl(e.Attr(name), mapping, baseUrl, resolve);
    if Truthy(mapped) then e.SetAttr(name, mapped.value) else e
  }

  /** The first `.each`: `href`, then `src`, of a selected element. */
  function RewriteAssetRefs(e: Element, mapping: Manifest, baseUrl: string, resolve: Resolver): Element {
    if IsAssetElement(e) then
      RewriteAttr(RewriteAttr(e, "href", mapping, baseUrl, resolve), "src", mapping, baseUrl, resolve)
    else e
  }

  /**
   * A selected element's `href` and `src` change only to the local path the manifest records
   * for the reference's absolute URL, and they do change to it whenever that path is not
   * empty; its tag and every other attribute stay as they were. An element the selector
   * does not match is untouched.
   */
  lemma AssetRefsRewritten(e: Element, mapping: Manifest, baseUrl: string, resolve: Resolver)
    ensures var r := RewriteAssetRefs(e, mapping, baseUrl, resolve);
      && r.tag == e.tag
      && (forall a :: a != "href" && a != "src" ==> r.Attr(a) == e.Attr(a))
      && (!IsAssetElement(e) ==> r == e)
      && (IsAssetElement(e) ==> forall a :: a == "href" || a == "src" ==>
            && (r.Attr(a) != e.Attr(a) ==>
                  && e.Attr(a).Some? && e.Attr(a).value != ""
                  && resolve(e.Attr(a).value, Some(baseUrl)).Some?
                  && r.Attr(a).Some?
                  && exists i :: (0 <= i < |mapping|
                       && mapping[i].url == resolve(e.Attr(a).value, Some(baseUrl)).value.href
                       && mapping[i].local == r.Attr(a).value))
            && (Truthy(MapUrl(e.Attr(a), mapping, baseUrl, resolve)) ==>
                  r.Attr(a) == MapUrl(e.Attr(a), mapping, baseUrl, resolve)))
  {
    if IsAssetElement(e) {
      var h := RewriteAttr(e, "href", mapping, baseUrl, resolve);
      assert h.Attr("src") == e.Attr("src");
    }
  }

  // ---------------------------------------------------------------------------
  // `srcset`.

  /** The index of the first whitespace character of `s`, or `|s|`. */
  function FirstSpace(s: string): (i: nat)
    ensures i <= |s|
    ensures forall j :: 0 <= j < i ==> !IsSpace(s[j])
    ensures i < |s| ==> IsSpace(s[i])
  {
    if s == [] || IsSpace(s[0]) then 0 else 1 + FirstSpace(s[1..])
  }

  /** The end of the run of whitespace that starts at `i`. */
  function SpaceRunEnd(s: string, i: nat): (j: nat)
    requires i < |s| && IsSpace(s[i])
    ensures i < j <= |s|
    ensures forall k :: i <= k < j ==> IsSpace(s[k])
    ensures j < |s| ==> !IsSpace(s[j])
  {
    i + SpaceRun(s[i..])
  }

  /** `s.split(/\s+/)`: the pieces between maximal runs of whitespace. */
  function SplitWs(s: string): (pieces: seq<string>)
    ensures |pieces| >= 1
    decreases |s|
  {
    var i := FirstSpace(s);
    if i == |s| then [s] else [s[..i]] + SplitWs(s[SpaceRunEnd(s, i)..])
  }

  /** The pieces of a whitespace split hold no whitespace and no character the input lacks. */
  lemma {:induction false} SplitWsPieces(s: string)
    ensures forall p :: p in SplitWs(s) ==> forall k :: 0 <= k < |p| ==> !IsSpace(p[k]) && p[k] in s
    decreases |s|
  {
    var i := FirstSpace(s);
    if i < |s| {
      var j := SpaceRunEnd(s, i);
      SplitWsPieces(s[j..]);
      forall p | p in SplitWs(s[j..]) ensures forall k :: 0 <= k < |p| ==> p[k] in s {
        forall k | 0 <= k < |p| ensures p[k] in s {
          var m :| 0 <= m < |s[j..]| && s[j..][m] == p[k];
          assert s[j + m] == p[k];
        }
      }
    }
  }

  /** `[mapped || url, descriptor].filter(Boolean).join(" ")` for one trimmed `srcset` candidate. */
  function RewriteCandidate(part: string, mapping: Manifest, baseUrl: string, resolve: Resolver): string {
    var words := SplitWs(part);
    var url := words[0];
    var mapped := MapUrl(Some(url), mapping, baseUrl, resolve);
    var first := if Truthy(mapped) then mapped.value else url;
    var kept := (if first != "" then [first] else [])
      + (if |words| >= 2 && words[1] != "" then [words[1]] else []);
    Join(kept, " ")
  }

  /** The candidates of a `srcset` value: its comma-separated parts, trimmed. */
  function Candidates(srcset: string): (cs: seq<string>)
    ensures |cs| == |Split(srcset, ",")|
  {
    var parts := Split(srcset, ",");
    seq(|parts|, i requires 0 <= i < |parts| => Trim(parts[i]))
  }

  function RewrittenCandidates(srcset: string, mapping: Manifest, baseUrl: string, resolve: Resolver): (out: seq<string>)
    ensures |out| == |Split(srcset, ",")|
  {
    var cs := Candidates(srcset);
    seq(|cs|, i requires 0 <= i < |cs| => RewriteCandidate(cs[i], mapping, baseUrl, resolve))
  }

  /** The second `.each`'s new `srcset` value. */
  function RewriteSrcset(srcset: string, mapping: Manifest, baseUrl: string, resolve: Resolver): string {
    Join(RewrittenCandidates(srcset, mapping, baseUrl, resolve), ", ")
  }

  /** `img[srcset]` with a non-empty value gets the rewritten value. */
  function RewriteImgSrcset(e: Element, mapping: Manifest, baseUrl: string, resolve: Resolver): Element {
    if e.tag == "img" && Truthy(e.Attr("srcset")) then
      e.SetAttr("srcset", RewriteSrcset(e.attrs["srcset"], mapping, baseUrl, resolve))
    else e
  }

  /**
   * A candidate `url descriptor ...` becomes the local path of `url` (or `url` itself when
   * it does not map) followed by its first descriptor; any further descriptor is dropped.
   */
  lemma CandidateWithDescriptor(url: string, gap: string, descriptor: string, tail: string,
                                mapping: Manifest, baseUrl: string, resolve: Resolver)
    requires url != "" && descriptor != ""
    requires forall k :: 0 <= k < |url| ==> !IsSpace(url[k])
    requires forall k :: 0 <= k < |descriptor| ==> !IsSpace(descriptor[k])
    requires gap != [] && AllSpace(gap)
    requires tail == [] || IsSpace(tail[0])
    ensures var mapped := MapUrl(Some(url), mapping, baseUrl, resolve);
      RewriteCandidate(url + gap + descriptor + tail, mapping, baseUrl, resolve)
      == (if Truthy(mapped) then mapped.value else url) + " " + descriptor
  {
    var part := url + gap + descriptor + tail;
    FirstTwoWords(url, gap, descriptor, tail);
    CandidateOfWords(part, url, descriptor, mapping, baseUrl, resolve);
  }

  lemma FirstTwoWords(url: string, gap: string, descriptor: string, tail: string)
    requires url != "" && descriptor != ""
    requires forall k :: 0 <= k < |url| ==> !IsSpace(url[k])
    requires forall k :: 0 <= k < |descriptor| ==> !IsSpace(descriptor[k])
    requires gap != [] && AllSpace(gap)
    requires tail == [] || IsSpace(tail[0])
    ensures var words := SplitWs(url + gap + descriptor + tail);
      |words| >= 2 && words[0] == url && words[1] == descriptor
  {
    assert url + gap + descriptor + tail == url + gap + (descriptor + tail);
    SplitWsAfterWord(url, gap, descriptor + tail);
    SplitWsHead(descriptor, tail);
  }

  /** A candidate whose first two words are a non-empty URL and a non-empty descriptor. */
  lemma CandidateOfWords(part: string, url: string, descriptor: string, mapping: Manifest, baseUrl: string,
                         resolve: Resolver)
    requires url != "" && descriptor != ""
    requires |SplitWs(part)| >= 2 && SplitWs(part)[0] == url && SplitWs(part)[1] == descriptor
    ensures var mapped := MapUrl(Some(url), mapping, baseUrl, resolve);
      RewriteCandidate(part, mapping, baseUrl, resolve) == (if Truthy(mapped) then mapped.value else url) + " " + descriptor
  {
    var mapped := MapUrl(Some(url), mapping, baseUrl, resolve);
    JoinPair(if Truthy(mapped) then mapped.value else url, descriptor);
  }

  lemma JoinPair(first: string, second: string)
    ensures Join([first] + [second], " ") == first + " " + second
  {
    var kept := [first] + [second];
    assert kept[1..] == [second];
  }

  /** A word followed by the end or by whitespace is the first piece of the split. */
  lemma SplitWsHead(word: string, after: string)
    requires word != []
    requires forall k :: 0 <= k < |word| ==> !IsSpace(word[k])
    requires after == [] || IsSpace(after[0])
    ensures SplitWs(word + after)[0] == word
  {
    FirstSpaceOfWord(word, after);
    assert (word + after)[..|word|] == word;
  }

  /** After a word and the whole run of whitespace that follows it, the split resumes. */
  lemma SplitWsAfterWord(word: string, gap: string, rest: string)
    requires forall k :: 0 <= k < |word| ==> !IsSpace(word[k])
    requires gap != [] && AllSpace(gap)
    requires rest == [] || !IsSpace(rest[0])
    ensures SplitWs(word + gap + rest) == [word] + SplitWs(rest)
  {
    var s := word + gap + rest;
    assert s == word + (gap + rest);
    FirstSpaceOfWord(word, gap + rest);
    assert s[|word|] == gap[0];
    assert forall k :: |word| <= k < |word| + |gap| ==> s[k] == gap[k - |word|];
    if |word| + |gap| < |s| {
      assert s[|word| + |gap|] == rest[0];
    }
    SpaceRunCovers(s, |word|, |word| + |gap|);
    assert s[|word| + |gap|..] == rest;
    assert s[..|word|] == word;
  }

  lemma {:induction false} FirstSpaceOfWord(word: string, after: string)
    requires forall k :: 0 <= k < |word| ==> !IsSpace(word[k])
    requires after == [] || IsSpace(after[0])
    ensures FirstSpace(word + after) == |word|
    decreases |word|
  {
    if word != [] {
      assert (word + after)[1..] == word[1..] + after;
      FirstSpaceOfWord(word[1..], after);
    } else {
      assert word + after == after;
    }
  }

  /** A run of whitespace from `i` to `j`, followed by a non-space or the end, is where `SpaceRunEnd` stops. */
  lemma SpaceRunCovers(s: string, i: nat, j: nat)
    requires i < j <= |s|
    requires forall k :: i <= k < j ==> IsSpace(s[k])
    requires j < |s| ==> !IsSpace(s[j])
    ensures SpaceRunEnd(s, i) == j
  {
  }

  /**
   * The `srcset` rewrite keeps the number of comma-separated candidates, provided no local
   * path in the manifest contains a comma.
   */
  lemma SrcsetKeepsCandidateCount(srcset: string, mapping: Manifest, baseUrl: string, resolve: Resolver)
    requires forall i :: 0 <= i < |mapping| ==> ',' !in mapping[i].local
    ensures |Split(RewriteSrcset(srcset, mapping, baseUrl, resolve), ",")| == |Split(srcset, ",")|
  {
    var out := RewrittenCandidates(srcset, mapping, baseUrl, resolve);
    RewrittenCandidatesFree(srcset, mapping, baseUrl, resolve);
    CommaSpaceHasOneComma();
    JoinSplitCount(out, ", ", ',');
  }

  /** No rewritten candidate holds a comma when no local path does. */
  lemma RewrittenCandidatesFree(srcset: string, mapping: Manifest, baseUrl: string, resolve: Resolver)
    requires forall i :: 0 <= i < |mapping| ==> ',' !in mapping[i].local
    ensures var out := RewrittenCandidates(srcset, mapping, baseUrl, resolve);
      forall i :: 0 <= i < |out| ==> ',' !in out[i]
  {
    var parts := Split(srcset, ",");
    var cs := Candidates(srcset);
    var out := RewrittenCandidates(srcset, mapping, baseUrl, resolve);
    Text.SplitPiecesFree(srcset, ",");
    forall i | 0 <= i < |out| ensures ',' !in out[i] {
      assert parts[i] in parts;
      NotContainsChar(parts[i], ',');
      TrimFree(parts[i], ',');
      CandidateFree(cs[i], ',', mapping, baseUrl, resolve);
    }
  }

  /** A candidate rewritten from text without `c`, through a manifest without `c` in its paths, holds no `c`. */
  lemma CandidateFree(part: string, c: char, mapping: Manifest, baseUrl: string, resolve: Resolver)
    requires c !in part && c != ' '
    requires forall i :: 0 <= i < |mapping| ==> c !in mapping[i].local
    ensures c !in RewriteCandidate(part, mapping, baseUrl, resolve)
  {
    var words := SplitWs(part);
    SplitWsPieces(part);
    assert words[0] in words;
    assert c !in words[0];
    if |words| >= 2 {
      assert words[1] in words;
      assert c !in words[1];
    }
    var url := words[0];
    var mapped := MapUrl(Some(url), mapping, baseUrl, resolve);
    var first := if Truthy(mapped) then mapped.value else url;
    assert c !in first;
    var kept := (if first != "" then [first] else [])
      + (if |words| >= 2 && words[1] != "" then [words[1]] else []);
    assert forall p :: p in kept ==> c !in p;
    JoinFree(kept, " ", c);
  }

  // ---------------------------------------------------------------------------
  // `<use>`.

  /** The third `.each`: `href || xlink:href`, and on a hit both attributes get the local path. */
  function RewriteUse(e: Element, mapping: Manifest, baseUrl: string, resolve: Resolver): Element {
    if e.tag != "use" then e
    else
      var ref := if Truthy(e.Attr("href")) then e.Attr("href") else e.Attr("xlink:href");
      var mapped := MapUrl(ref, mapping, baseUrl, resolve);
      if Truthy(mapped) then e.SetAttr("href", mapped.value).SetAttr("xlink:href", mapped.value)
      else e
  }

  /**
   * A `<use>` either stays as it was, or both its `href` and `xlink:href` become the one local
   * path the manifest records for its reference, which is `href` when that is non-empty and
   * `xlink:href` otherwise; nothing else about it changes.
   */
  lemma UseRewritten(e: Element, mapping: Manifest, baseUrl: string, resolve: Resolver)
    ensures var r := RewriteUse(e, mapping, baseUrl, resolve);
      var ref := if Truthy(e.Attr("href")) then e.Attr("href") else e.Attr("xlink:href");
      && r.tag == e.tag
      && (forall a :: a != "href" && a != "xlink:href" ==> r.Attr(a) == e.Attr(a))
      && (r == e || (e.tag == "use" && r.Attr("href") == r.Attr("xlink:href") == MapUrl(ref, mapping, baseUrl, resolve)))
      && (e.tag == "use" && Truthy(MapUrl(ref, mapping, baseUrl, resolve)) ==>
            r.Attr("href") == r.Attr("xlink:href") == MapUrl(ref, mapping, baseUrl, resolve))
      && (r != e ==> exists i :: (0 <= i < |mapping|
            && mapping[i].url == resolve(ref.value, Some(baseUrl)).value.href
            && Some(mapping[i].local) == r.Attr("href")))
  {
  }

  // ---------------------------------------------------------------------------
  // The document.

  /** `$('base').remove()` */
  function WithoutBase(doc: seq<Element>): seq<Element> {
    if doc == [] then []
    else WithoutBase(doc[..|doc| - 1]) + (if doc[|doc| - 1].tag == "base" then [] else [doc[|doc| - 1]])
  }

  /** Removing `<base>` keeps exactly the other elements. */
  lemma {:induction false} WithoutBaseKeepsOthers(doc: seq<Element>)
    ensures forall e :: e in WithoutBase(doc) <==> e in doc && e.tag != "base"
  {
    if doc != [] {
      var init := doc[..|doc| - 1];
      WithoutBaseKeepsOthers(init);
      assert doc == init + [doc[|doc| - 1]];
    }
  }

  /** The elementwise passes, one per `.each`. */
  function AssetPass(doc: seq<Element>, mapping: Manifest, baseUrl: string, resolve: Resolver): seq<Element> {
    seq(|doc|, i requires 0 <= i < |doc| => RewriteAssetRefs(doc[i], mapping, baseUrl, resolve))
  }

  function SrcsetPass(doc: seq<Element>, mapping: Manifest, baseUrl: string, resolve: Resolver): seq<Element> {
    seq(|doc|, i requires 0 <= i < |doc| => RewriteImgSrcset(doc[i], mapping, baseUrl, resolve))
  }

  function UsePass(doc: seq<Element>, mapping: Manifest, baseUrl: string, resolve: Resolver): seq<Element> {
    seq(|doc|, i requires 0 <= i < |doc| => RewriteUse(doc[i], mapping, baseUrl, resolve))
  }

  /** The document `rewritePaths` serialises. */
  function Rewritten(doc: seq<Element>, mapping: Manifest, baseUrl: string, resolve: Resolver): seq<Element> {
    var d := WithoutBase(doc);
    UsePass(SrcsetPass(AssetPass(d, mapping, baseUrl, resolve), mapping, baseUrl, resolve), mapping, baseUrl, resolve)
  }

  /**
   * The rewritten document has no `<base>`, and it is the other elements in their order with
   * their tags kept.
   */
  lemma RewrittenHasNoBase(doc: seq<Element>, mapping: Manifest, baseUrl: string, resolve: Resolver)
    ensures var r := Rewritten(doc, mapping, baseUrl, resolve);
      && |r| == |WithoutBase(doc)|
      && (forall i :: 0 <= i < |r| ==> r[i].tag == WithoutBase(doc)[i].tag)
      && (forall e :: e in r ==> e.tag != "base")
  {
    WithoutBaseKeepsOthers(doc);
    var d := WithoutBase(doc);
    var r := Rewritten(doc, mapping, baseUrl, resolve);
    forall i | 0 <= i < |r| ensures r[i].tag == d[i].tag {
      assert d[i] in d;
      AssetRefsRewritten(d[i], mapping, baseUrl, resolve);
      UseRewritten(RewriteImgSrcset(RewriteAssetRefs(d[i], mapping, baseUrl, resolve), mapping, baseUrl, resolve), mapping, baseUrl, resolve);
    }
    forall e | e in r ensures e.tag != "base" {
      var i :| 0 <= i < |r| && r[i] == e;
      assert d[i] in d;
    }
  }

  /**
   * Element `i` of the rewritten document, against element `i` once `<base>` is gone: the
   * first `.each` decides `src`, and `href` outside `<use>`; the second gives a non-empty
   * `srcset` of an `<img>` its rewritten value; the third rewrites `<use>` and nothing else;
   * no other attribute changes.
   */
  lemma ElementRewritten(doc: seq<Element>, mapping: Manifest, baseUrl: string, resolve: Resolver, i: nat)
    requires i < |WithoutBase(doc)|
    ensures |Rewritten(doc, mapping, baseUrl, resolve)| == |WithoutBase(doc)|
    ensures PassesOutcome(WithoutBase(doc)[i], Rewritten(doc, mapping, baseUrl, resolve)[i], mapping, baseUrl, resolve)
  {
    var e := WithoutBase(doc)[i];
    assert Rewritten(doc, mapping, baseUrl, resolve)[i] == ThreePasses(e, mapping, baseUrl, resolve);
    ThreePassesOutcome(e, mapping, baseUrl, resolve);
  }

  /** The three `.each` passes on one element. */
  function ThreePasses(e: Element, mapping: Manifest, baseUrl: string, resolve: Resolver): Element {
    RewriteUse(RewriteImgSrcset(RewriteAssetRefs(e, mapping, baseUrl, resolve), mapping, baseUrl, resolve),
               mapping, baseUrl, resolve)
  }

  /** What the three passes make of `e`, attribute by attribute. */
  ghost predicate PassesOutcome(e: Element, r: Element, mapping: Manifest, baseUrl: string, resolve: Resolver) {
    var refs := RewriteAssetRefs(e, mapping, baseUrl, resolve);
    && r.tag == e.tag
    && r.Attr("src") == refs.Attr("src")
    && (e.tag != "use" ==> r.Attr("href") == refs.Attr("href") && r.Attr("xlink:href") == e.Attr("xlink:href"))
    && (e.tag == "use" ==> r == RewriteUse(e, mapping, baseUrl, resolve))
    && r.Attr("srcset") == (if e.tag == "img" && Truthy(e.Attr("srcset"))
                            then Some(RewriteSrcset(e.attrs["srcset"], mapping, baseUrl, resolve))
                            else e.Attr("srcset"))
    && forall a :: a != "href" && a != "src" && a != "srcset" && a != "xlink:href" ==> r.Attr(a) == e.Attr(a)
  }

  lemma ThreePassesOutcome(e: Element, mapping: Manifest, baseUrl: string, resolve: Resolver)
    ensures PassesOutcome(e, ThreePasses(e, mapping, baseUrl, resolve), mapping, baseUrl, resolve)
  {
    var refs := RewriteAssetRefs(e, mapping, baseUrl, resolve);
    var sized := RewriteImgSrcset(refs, mapping, baseUrl, resolve);
    AssetRefsRewritten(e, mapping, baseUrl, resolve);
    UseRewritten(sized, mapping, baseUrl, resolve);
    assert e.tag == "use" ==> !IsAssetElement(e);
  }

  /** `$('base').remove()` on the parsed document. */
  method RemoveBase(doc: seq<Element>) returns (kept: seq<Element>)
    ensures kept == WithoutBase(doc)
  {
    kept := [];
    for i := 0 to |doc|
      invariant kept == WithoutBase(doc[..i])
    {
      assert doc[..i + 1][..i] == doc[..i];
      if doc[i].tag != "base" {
        kept := kept + [doc[i]];
      }
    }
    assert doc[..|doc|] == doc;
  }

  /** The first `.each`, attribute by attribute. */
  method RewriteAssetElements(doc: seq<Element>, mapping: Manifest, baseUrl: string, resolve: Resolver)
    returns (dom: seq<Element>)
    ensures dom == AssetPass(doc, mapping, baseUrl, resolve)
  {
    dom := doc;
    for i := 0 to |dom|
      invariant |dom| == |doc|
      invariant forall j :: 0 <= j < i ==> dom[j] == RewriteAssetRefs(doc[j], mapping, baseUrl, resolve)
      invariant forall j :: i <= j < |dom| ==> dom[j] == doc[j]
    {
      if IsAssetElement(dom[i]) {
        dom := dom[i := RewriteAttr(dom[i], "href", mapping, baseUrl, resolve)];
        dom := dom[i := RewriteAttr(dom[i], "src", mapping, baseUrl, resolve)];
      }
    }
  }

  /** The second `.each`. */
  method RewriteSrcsets(doc: seq<Element>, mapping: Manifest, baseUrl: string, resolve: Resolver)
    returns (dom: seq<Element>)
    ensures dom == SrcsetPass(doc, mapping, baseUrl, resolve)
  {
    dom := doc;
    for i := 0 to |dom|
      invariant |dom| == |doc|
      invariant forall j :: 0 <= j < i ==> dom[j] == RewriteImgSrcset(doc[j], mapping, baseUrl, resolve)
      invariant forall j :: i <= j < |dom| ==> dom[j] == doc[j]
    {
      var el := dom[i];
      var srcset := el.Attr("srcset");
      if el.tag == "img" && Truthy(srcset) {
        el := el.SetAttr("srcset", RewriteSrcset(srcset.value, mapping, baseUrl, resolve));
      }
      assert el == RewriteImgSrcset(doc[i], mapping, baseUrl, resolve);
      dom := dom[i := el];
    }
  }

  /** The third `.each`. */
  method RewriteUses(doc: seq<Element>, mapping: Manifest, baseUrl: string, resolve: Resolver)
    returns (dom: seq<Element>)
    ensures dom == UsePass(doc, mapping, baseUrl, resolve)
  {
    dom := doc;
    for i := 0 to |dom|
      invariant |dom| == |doc|
      invariant forall j :: 0 <= j < i ==> dom[j] == RewriteUse(doc[j], mapping, baseUrl, resolve)
      invariant forall j :: i <= j < |dom| ==> dom[j] == doc[j]
    {
      if dom[i].tag == "use" {
        var ref := if Truthy(dom[i].Attr("href")) then dom[i].Attr("href") else dom[i].Attr("xlink:href");
        var mapped := MapUrl(ref, mapping, baseUrl, resolve);
        if Truthy(mapped) {
          dom := dom[i := dom[i].SetAttr("href", mapped.value)];
          dom := dom[i := dom[i].SetAttr("xlink:href", mapped.value)];
        }
      }
    }
  }

  /** `rewritePaths(html, mapping, baseUrl)` */
  method RewritePaths(html: string, mapping: Manifest, baseUrl: string, resolve: Resolver, codec: HtmlCodec)
    returns (out: string)
    ensures out == codec.serialize(Rewritten(codec.parse(html), mapping, baseUrl, resolve))
  {
    var dom := codec.parse(html);
    dom := RemoveBase(dom);
    dom := RewriteAssetElements(dom, mapping, baseUrl, resolve);
    dom := RewriteSrcsets(dom, mapping, baseUrl, resolve);
    dom := RewriteUses(dom, mapping, baseUrl, resolve);
    out := codec.serialize(dom);
  }
}
