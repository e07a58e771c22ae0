/**
 * `validateClone` (src/agent/tools/validateClone.ts): the clone's `index.html` is read and
 * every local reference of its stylesheet links, scripts and images is looked up on disk.
 */
module Validate {
  import opened Wrappers
  import opened Text
  import Paths
  import opened Files
  import opened Web
  import opened Manifests

  const IndexMissing := "Validation failed: index.html missing"
  const Validated := "Clone validated successfully."

  function Unresolved(count: nat): string {
    "Validation warning: " + NatToString(count) + " local assets unresolved."
  }

  /** `link[href], script[src], img[src]` */
  predicate IsChecked(e: Element) {
    || (e.tag == "link" && "href" in e.attrs)
    || (e.tag == "script" && "src" in e.attrs)
    || (e.tag == "img" && "src" in e.attrs)
  }

  /** `$(el).attr("href") || $(el).attr("src")` */
  function Reference(e: Element): Option<string> {
    if Truthy(e.Attr("href")) then e.Attr("href") else e.Attr("src")
  }

  /** A reference that is looked up on disk: present, non-empty, and not starting with "http". */
  predicate IsLocal(ref: Option<string>) {
    Truthy(ref) && !StartsWith(ref.value, "http")
  }

  /**
   * `fs.existsSync(path.join(clonePath, ref))`. A reference ending in "/" keeps that slash
   * through `path.join`, so only a directory satisfies it.
   */
  predicate Found(d: Disk, clonePath: Paths.Path, ref: string) {
    var full := Paths.Join(clonePath, ref);
    if EndsWith(ref, "/") then d.IsDir(full) else d.Exists(full)
  }

  /** The element's reference is local and not on disk. */
  predicate IsMissing(d: Disk, clonePath: Paths.Path, e: Element) {
    IsChecked(e) && IsLocal(Reference(e)) && !Found(d, clonePath, Reference(e).value)
  }

  /** The `missing` array after the `.each` over the document's elements. */
  function MissingRefs(d: Disk, clonePath: Paths.Path, doc: seq<Element>): seq<string> {
    if doc == [] then []
    else
      var last := doc[|doc| - 1];
      MissingRefs(d, clonePath, doc[..|doc| - 1]) + (if IsMissing(d, clonePath, last) then [Reference(last).value] else [])
  }

  /**
   * Every missing reference is the reference of a checked element, local and not on disk; and
   * every such element contributes its reference.
   */
  lemma {:induction false} MissingRefsExactly(d: Disk, clonePath: Paths.Path, doc: seq<Element>)
    ensures var missing := MissingRefs(d, clonePath, doc);
      && (forall r :: r in missing ==> exists e :: e in doc && IsMissing(d, clonePath, e) && Reference(e) == Some(r))
      && (forall e :: e in doc && IsMissing(d, clonePath, e) ==> Reference(e).value in missing)
  {
    if doc != [] {
      var init := doc[..|doc| - 1];
      var last := doc[|doc| - 1];
      MissingRefsExactly(d, clonePath, init);
      assert doc == init + [last];
      var missing := MissingRefs(d, clonePath, doc);
      forall r | r in missing
        ensures exists e :: e in doc && IsMissing(d, clonePath, e) && Reference(e) == Some(r)
      {
        if r in MissingRefs(d, clonePath, init) {
          var e :| e in init && IsMissing(d, clonePath, e) && Reference(e) == Some(r);
          assert e in doc;
        } else {
          assert IsMissing(d, clonePath, last) && Reference(last) == Some(r);
        }
      }
    }
  }

  /** The array is filled element by element: a document split in two contributes both halves, duplicates counted. */
  lemma {:induction false} MissingRefsAppend(d: Disk, clonePath: Paths.Path, a: seq<Element>, b: seq<Element>)
    ensures MissingRefs(d, clonePath, a + b) == MissingRefs(d, clonePath, a) + MissingRefs(d, clonePath, b)
    decreases |b|
  {
    if b == [] {
      assert a + b == a;
    } else {
      var init := b[..|b| - 1];
      MissingRefsAppend(d, clonePath, a, init);
      assert (a + b)[..|a + b| - 1] == a + init;
    }
  }

  /**
   * `validateClone({ originalUrl, clonePath })`, with the result `None` where `readFileSync`
   * throws because `index.html` is a directory. `originalUrl` is accepted and never read.
   */
  method ValidateClone(fs: FileSystem, originalUrl: string, clonePath: Paths.Path, utf8: Utf8, codec: HtmlCodec)
    returns (r: Option<string>)
    ensures var index := clonePath + ["index.html"];
      && (!fs.disk.Exists(index) ==> r == Some(IndexMissing))
      && (fs.disk.IsDir(index) && !fs.disk.IsFile(index) ==> r == None)
      && (fs.disk.IsFile(index) ==>
            var missing := MissingRefs(fs.disk, clonePath, codec.parse(utf8.decode(fs.disk.files[index])));
            r == Some(if |missing| > 0 then Unresolved(|missing|) else Validated))
  {
    var indexPath := Paths.Join(clonePath, "index.html");
    Paths.IndexHtmlIsName();
    Paths.JoinName(clonePath, "index.html");
    if !fs.disk.Exists(indexPath) {
      return Some(IndexMissing);
    }
    if !fs.disk.IsFile(indexPath) {
      return None;
    }
    var d := fs.disk;
    var html := utf8.decode(d.files[indexPath]);
    var doc := codec.parse(html);
    var missing := CollectMissing(d, clonePath, doc);
    if |missing| > 0 {
      return Some(Unresolved(|missing|));
    }
    return Some(Validated);
  }

  /** `$("link[href], script[src], img[src]").each(...)`: the `missing` array it fills. */
  method CollectMissing(d: Disk, clonePath: Paths.Path, doc: seq<Element>) returns (missing: seq<string>)
    ensures missing == MissingRefs(d, clonePath, doc)
  {
    missing := [];
    for i := 0 to |doc|
      invariant missing == MissingRefs(d, clonePath, doc[..i])
    {
      assert doc[..i + 1][..i] == doc[..i] && doc[..i + 1][i] == doc[i];
      var pushed := CheckElement(d, clonePath, doc[i]);
      missing := missing + pushed;
    }
    assert doc[..|doc|] == doc;
  }

  /** The `.each` callback: what it pushes onto `missing` for one element. */
  method CheckElement(d: Disk, clonePath: Paths.Path, el: Element) returns (pushed: seq<string>)
    ensures pushed == if IsMissing(d, clonePath, el) then [Reference(el).value] else []
  {
    pushed := [];
    var ref := if Truthy(el.Attr("href")) then el.Attr("href") else el.Attr("src");
    if IsChecked(el) && ref.Some? && ref.value != "" && !StartsWith(ref.value, "http") {
      var full := Paths.Join(clonePath, ref.value);
      var found := if EndsWith(ref.value, "/") then d.IsDir(full) else d.Exists(full);
      if !found {
        pushed := [ref.value];
      }
    }
  }

  /**
   * The clone validates exactly when `index.html` is a readable file and no checked element
   * has a local reference missing from disk.
   */
  lemma ValidatedIff(d: Disk, clonePath: Paths.Path, doc: seq<Element>)
    ensures |MissingRefs(d, clonePath, doc)| == 0
        <==> forall e :: e in doc && IsChecked(e) && IsLocal(Reference(e)) ==> Found(d, clonePath, Reference(e).value)
  {
    MissingRefsExactly(d, clonePath, doc);
    var missing := MissingRefs(d, clonePath, doc);
    if |missing| > 0 {
      assert missing[0] in missing;
    }
  }

  /** The three results are distinct, so the message alone tells which case occurred. */
  lemma OutcomesDistinct(count: nat)
    requires count > 0
    ensures Unresolved(count) != Validated && Unresolved(count) != IndexMissing && Validated != IndexMissing
  {
    assert Unresolved(count)[0] == 'V' && Validated[0] == 'C';
    assert Unresolved(count)[11] == 'w' && IndexMissing[11] == 'f';
  }
}
