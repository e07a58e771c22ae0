/**
 * `saveResources` (src/cloner/core.ts): every captured resource is written to
 * `<outputDir>/assets/<filename>` and recorded in the manifest as `./assets/<filename>`,
 * where the filename is the basename of the resource's resolved pathname.
 */
module Persist {
  import opened Wrappers
  import opened Paths
  import opened Files
  import opened Web
  import opened Manifests

  /** A captured response: its URL and its body. */
  datatype Resource = Resource(url: string, content: Bytes)

  /** The capture is a JavaScript `Map`, so no URL occurs twice. */
  predicate DistinctResources(rs: seq<Resource>) {
    forall i, j :: 0 <= i < j < |rs| ==> rs[i].url != rs[j].url
  }

  /** `path.basename(pathname) || "index.html"` */
  function FileName(pathname: string): (f: string)
    ensures f != ""
    ensures Basename(pathname) != "" ==> f == Basename(pathname)
    ensures Basename(pathname) == "" ==> f == "index.html"
  {
    var b := Basename(pathname);
    if b == "" then "index.html" else b
  }

  /** `path.join(outputDir, "assets", filename)` */
  function AssetPath(outputDir: Path, filename: string): Path {
    Resolve(outputDir, ["assets", filename])
  }

  /** The path `saveResources` writes a resource to, or `None` where `new URL` throws. */
  function Target(r: Resource, outputDir: Path, baseUrl: string, resolve: Resolver): Option<Path> {
    match resolve(r.url, Some(baseUrl))
    case None => None
    case Some(u) => Some(AssetPath(outputDir, FileName(u.pathname)))
  }

  /** One iteration of the loop: the disk afterwards, and the manifest entry unless a step threw. */
  function SaveOne(d: Disk, r: Resource, outputDir: Path, baseUrl: string, resolve: Resolver): (Disk, Option<Entry>) {
    match resolve(r.url, Some(baseUrl))
    case None => (d, None)
    case Some(u) =>
      var f := FileName(u.pathname);
      var target := AssetPath(outputDir, f);
      if !d.CanMakeDirs(Parent(target)) then (d, None)
      else
        var d1 := d.MakeDirs(Parent(target));
        if !d1.CanWrite(target) then (d1, None)
        else (d1.Write(target, r.content), Some(Entry(r.url, "./assets/" + f)))
  }

  /**
   * The whole of `saveResources`: the disk afterwards, and the returned manifest, or `None`
   * where a step threw (the files written before the throw stay written).
   */
  function Saved(d: Disk, rs: seq<Resource>, outputDir: Path, baseUrl: string, resolve: Resolver): (Disk, Option<Manifest>)
    decreases |rs|
  {
    if rs == [] then (d, Some([]))
    else
      var first := SaveOne(d, rs[0], outputDir, baseUrl, resolve);
      if first.1.None? then (first.0, None)
      else
        var rest := Saved(first.0, rs[1..], outputDir, baseUrl, resolve);
        (rest.0, if rest.1.Some? then Some([first.1.value] + rest.1.value) else None)
  }

  /** `saved` put in front of the manifest a later part of the loop returns. */
  function Prepend(saved: Manifest, outcome: (Disk, Option<Manifest>)): (Disk, Option<Manifest>) {
    (outcome.0, if outcome.1.Some? then Some(saved + outcome.1.value) else None)
  }

  /** `Saved` unfolded once: the first resource, then the rest from the disk it left. */
  lemma SavedStep(d: Disk, rs: seq<Resource>, outputDir: Path, baseUrl: string, resolve: Resolver)
    requires rs != []
    ensures var first := SaveOne(d, rs[0], outputDir, baseUrl, resolve);
      Saved(d, rs, outputDir, baseUrl, resolve)
      == if first.1.None? then (first.0, None)
         else Prepend([first.1.value], Saved(first.0, rs[1..], outputDir, baseUrl, resolve))
  {
  }

  lemma PrependNothing(outcome: (Disk, Option<Manifest>))
    ensures Prepend([], outcome) == outcome
  {
    if outcome.1.Some? {
      assert [] + outcome.1.value == outcome.1.value;
    }
  }

  lemma PrependTwice(saved: Manifest, e: Entry, outcome: (Disk, Option<Manifest>))
    ensures Prepend(saved, Prepend([e], outcome)) == Prepend(saved + [e], outcome)
  {
    if outcome.1.Some? {
      assert saved + ([e] + outcome.1.value) == saved + [e] + outcome.1.value;
    }
  }

  /** `saveResources(resources, outputDir, baseUrl)`; `None` where it throws. */
  method SaveResources(fs: FileSystem, resources: seq<Resource>, outputDir: Path, baseUrl: string, resolve: Resolver)
    returns (saved: Option<Manifest>)
    requires DistinctResources(resources)
    modifies fs
    ensures (fs.disk, saved) == Saved(old(fs.disk), resources, outputDir, baseUrl, resolve)
  {
    var m: Manifest := [];
    var i := 0;
    assert resources[0..] == resources;
    PrependNothing(Saved(fs.disk, resources, outputDir, baseUrl, resolve));
    while i < |resources|
      invariant 0 <= i <= |resources|
      invariant Saved(old(fs.disk), resources, outputDir, baseUrl, resolve)
                == Prepend(m, Saved(fs.disk, resources[i..], outputDir, baseUrl, resolve))
    {
      ghost var before := fs.disk;
      ghost var outcome := SaveOne(before, resources[i], outputDir, baseUrl, resolve);
      SavedStep(before, resources[i..], outputDir, baseUrl, resolve);
      assert resources[i..][1..] == resources[i + 1..];
      var url := resolve(resources[i].url, Some(baseUrl));
      if url.None? {
        assert outcome == (before, None);
        return None;
      }
      var filename := FileName(url.value.pathname);
      var target := AssetPath(outputDir, filename);
      var ok := fs.MakeDirs(Parent(target));
      if !ok {
        assert outcome == (before, None);
        return None;
      }
      ok := fs.WriteFile(target, resources[i].content);
      if !ok {
        assert outcome == (fs.disk, None);
        return None;
      }
      var entry := Entry(resources[i].url, "./assets/" + filename);
      assert outcome == (fs.disk, Some(entry));
      PrependTwice(m, entry, Saved(fs.disk, resources[i + 1..], outputDir, baseUrl, resolve));
      m := m + [entry];
      i := i + 1;
    }
    assert resources[i..] == [];
    assert m + [] == m;
    saved := Some(m);
  }

  // ---------------------------------------------------------------------------
  // The manifest.

  /** `e` is what the loop records for `r`: its own URL, and `./assets/` plus the file name of its resolved pathname. */
  predicate EntryFor(e: Entry, r: Resource, baseUrl: string, resolve: Resolver) {
    && e.url == r.url
    && resolve(r.url, Some(baseUrl)).Some?
    && e.local == "./assets/" + FileName(resolve(r.url, Some(baseUrl)).value.pathname)
  }

  /** One entry per resource, in capture order. */
  predicate Mirrors(m: Manifest, rs: seq<Resource>, baseUrl: string, resolve: Resolver) {
    |m| == |rs| && forall i :: 0 <= i < |rs| ==> EntryFor(m[i], rs[i], baseUrl, resolve)
  }

  /**
   * A successful run returns one entry per resource, in capture order, keyed by the
   * resource's own URL (not re-normalised), valued `./assets/` plus the file name of the
   * resolved pathname.
   */
  lemma {:induction false} ManifestMirrorsResources(d: Disk, rs: seq<Resource>, outputDir: Path, baseUrl: string, resolve: Resolver)
    requires Saved(d, rs, outputDir, baseUrl, resolve).1.Some?
    ensures Mirrors(Saved(d, rs, outputDir, baseUrl, resolve).1.value, rs, baseUrl, resolve)
    decreases |rs|
  {
    if rs != [] {
      var first := SaveOne(d, rs[0], outputDir, baseUrl, resolve);
      SavedCons(d, rs, outputDir, baseUrl, resolve);
      ManifestMirrorsResources(first.0, rs[1..], outputDir, baseUrl, resolve);
      MirrorsCons(first.1.value, Saved(first.0, rs[1..], outputDir, baseUrl, resolve).1.value, rs, baseUrl, resolve);
    }
  }

  /** A successful run over a non-empty capture is the first entry followed by the run over the rest. */
  lemma SavedCons(d: Disk, rs: seq<Resource>, outputDir: Path, baseUrl: string, resolve: Resolver)
    requires rs != [] && Saved(d, rs, outputDir, baseUrl, resolve).1.Some?
    ensures var first := SaveOne(d, rs[0], outputDir, baseUrl, resolve);
      && first.1.Some?
      && EntryFor(first.1.value, rs[0], baseUrl, resolve)
      && Saved(first.0, rs[1..], outputDir, baseUrl, resolve).1.Some?
      && Saved(d, rs, outputDir, baseUrl, resolve).1.value
         == [first.1.value] + Saved(first.0, rs[1..], outputDir, baseUrl, resolve).1.value
  {
  }

  lemma MirrorsCons(e: Entry, tail: Manifest, rs: seq<Resource>, baseUrl: string, resolve: Resolver)
    requires rs != [] && EntryFor(e, rs[0], baseUrl, resolve) && Mirrors(tail, rs[1..], baseUrl, resolve)
    ensures Mirrors([e] + tail, rs, baseUrl, resolve)
  {
    var m := [e] + tail;
    forall i | 1 <= i < |rs|
      ensures m[i] == tail[i - 1] && rs[i] == rs[1..][i - 1]
    {
    }
  }

  /** Two resources whose pathnames share a basename are recorded under the same local path. */
  lemma SameFileNameSameLocalPath(d: Disk, rs: seq<Resource>, outputDir: Path, baseUrl: string, resolve: Resolver, i: nat, j: nat)
    requires Saved(d, rs, outputDir, baseUrl, resolve).1.Some?
    requires i < |rs| && j < |rs|
    requires resolve(rs[i].url, Some(baseUrl)).Some? && resolve(rs[j].url, Some(baseUrl)).Some?
    requires FileName(resolve(rs[i].url, Some(baseUrl)).value.pathname)
          == FileName(resolve(rs[j].url, Some(baseUrl)).value.pathname)
    ensures var m := Saved(d, rs, outputDir, baseUrl, resolve).1.value;
      |m| == |rs| && m[i].local == m[j].local
  {
    ManifestMirrorsResources(d, rs, outputDir, baseUrl, resolve);
  }

  /** The returned manifest has no repeated URL, and looking up a resource's URL finds its local path. */
  lemma ManifestLookup(d: Disk, rs: seq<Resource>, outputDir: Path, baseUrl: string, resolve: Resolver, i: nat)
    requires DistinctResources(rs)
    requires Saved(d, rs, outputDir, baseUrl, resolve).1.Some?
    requires i < |rs|
    ensures var m := Saved(d, rs, outputDir, baseUrl, resolve).1.value;
      && DistinctUrls(m)
      && resolve(rs[i].url, Some(baseUrl)).Some?
      && Get(m, rs[i].url) == Some("./assets/" + FileName(resolve(rs[i].url, Some(baseUrl)).value.pathname))
  {
    ManifestMirrorsResources(d, rs, outputDir, baseUrl, resolve);
    var m := Saved(d, rs, outputDir, baseUrl, resolve).1.value;
    GetEntry(m, i);
  }

  // ---------------------------------------------------------------------------
  // The files written.

  /** The writes of the loop as one map, built in capture order so that a later write replaces an earlier one. */
  function Writes(rs: seq<Resource>, outputDir: Path, baseUrl: string, resolve: Resolver): map<Path, Bytes>
    decreases |rs|
  {
    if rs == [] then map[]
    else
      WriteOf(rs[0], outputDir, baseUrl, resolve) + Writes(rs[1..], outputDir, baseUrl, resolve)
  }

  /** The file one resource writes, as a one-entry map, or none where its URL does not resolve. */
  function WriteOf(r: Resource, outputDir: Path, baseUrl: string, resolve: Resolver): map<Path, Bytes> {
    match Target(r, outputDir, baseUrl, resolve)
    case None => map[]
    case Some(p) => map[p := r.content]
  }

  /** The content of the last resource that targets `p`, read backwards from the end of the capture. */
  function LastWrite(rs: seq<Resource>, p: Path, outputDir: Path, baseUrl: string, resolve: Resolver): Option<Bytes>
    decreases |rs|
  {
    if rs == [] then None
    else if Target(rs[|rs| - 1], outputDir, baseUrl, resolve) == Some(p) then Some(rs[|rs| - 1].content)
    else LastWrite(rs[..|rs| - 1], p, outputDir, baseUrl, resolve)
  }

  /** A successful run leaves every other file as it was and adds exactly the writes of the loop. */
  lemma SavedOneFiles(d: Disk, r: Resource, outputDir: Path, baseUrl: string, resolve: Resolver)
    requires SaveOne(d, r, outputDir, baseUrl, resolve).1.Some?
    ensures SaveOne(d, r, outputDir, baseUrl, resolve).0.files == d.files + WriteOf(r, outputDir, baseUrl, resolve)
  {
    var p := Target(r, outputDir, baseUrl, resolve).value;
    assert d.files[p := r.content] == d.files + map[p := r.content];
  }

  lemma {:induction false} SavedFiles(d: Disk, rs: seq<Resource>, outputDir: Path, baseUrl: string, resolve: Resolver)
    requires Saved(d, rs, outputDir, baseUrl, resolve).1.Some?
    ensures Saved(d, rs, outputDir, baseUrl, resolve).0.files == d.files + Writes(rs, outputDir, baseUrl, resolve)
    decreases |rs|
  {
    if rs != [] {
      var first := SaveOne(d, rs[0], outputDir, baseUrl, resolve);
      SavedStep(d, rs, outputDir, baseUrl, resolve);
      SavedOneFiles(d, rs[0], outputDir, baseUrl, resolve);
      SavedFiles(first.0, rs[1..], outputDir, baseUrl, resolve);
      var w := Writes(rs[1..], outputDir, baseUrl, resolve);
      MergeAssociative(d.files, WriteOf(rs[0], outputDir, baseUrl, resolve), w);
    }
  }

  lemma MergeAssociative<K, V>(a: map<K, V>, b: map<K, V>, c: map<K, V>)
    ensures a + (b + c) == (a + b) + c
  {
  }

  lemma {:induction false} WritesAppend(rs: seq<Resource>, r: Resource, outputDir: Path, baseUrl: string, resolve: Resolver)
    ensures Writes(rs + [r], outputDir, baseUrl, resolve)
         == Writes(rs, outputDir, baseUrl, resolve) + Writes([r], outputDir, baseUrl, resolve)
    decreases |rs|
  {
    var last := Writes([r], outputDir, baseUrl, resolve);
    assert [r][1..] == [];
    if rs == [] {
      assert [] + [r] == [r];
    } else {
      assert (rs + [r])[0] == rs[0];
      assert (rs + [r])[1..] == rs[1..] + [r];
      WritesAppend(rs[1..], r, outputDir, baseUrl, resolve);
      var first := WriteOf(rs[0], outputDir, baseUrl, resolve);
      var rest := Writes(rs[1..], outputDir, baseUrl, resolve);
      calc {
        Writes(rs + [r], outputDir, baseUrl, resolve);
        first + Writes(rs[1..] + [r], outputDir, baseUrl, resolve);
        first + (rest + last);
        { MergeAssociative(first, rest, last); }
        (first + rest) + last;
      }
    }
  }

  /**
   * Last write wins: the file at a path holds the bytes of the last resource in capture
   * order whose target is that path, and a path no resource targets is not written.
   */
  lemma {:induction false} LastWriteWins(rs: seq<Resource>, p: Path, outputDir: Path, baseUrl: string, resolve: Resolver)
    ensures var w := Writes(rs, outputDir, baseUrl, resolve);
      && (p in w <==> LastWrite(rs, p, outputDir, baseUrl, resolve).Some?)
      && (p in w ==> w[p] == LastWrite(rs, p, outputDir, baseUrl, resolve).value)
    decreases |rs|
  {
    if rs != [] {
      var init := rs[..|rs| - 1];
      var last := rs[|rs| - 1];
      assert init + [last] == rs;
      WritesAppend(init, last, outputDir, baseUrl, resolve);
      LastWriteWins(init, p, outputDir, baseUrl, resolve);
      assert [last][1..] == [];
    }
  }

  /**
   * Two resources with the same file name collapse onto one file: after a successful run
   * it holds the bytes of the later one, unless a still later resource targets it too.
   */
  lemma CollisionKeepsLater(d: Disk, rs: seq<Resource>, outputDir: Path, baseUrl: string, resolve: Resolver, i: nat, j: nat)
    requires Saved(d, rs, outputDir, baseUrl, resolve).1.Some?
    requires i < j < |rs|
    requires Target(rs[i], outputDir, baseUrl, resolve).Some?
    requires Target(rs[j], outputDir, baseUrl, resolve) == Target(rs[i], outputDir, baseUrl, resolve)
    requires forall k :: j < k < |rs| ==> Target(rs[k], outputDir, baseUrl, resolve) != Target(rs[i], outputDir, baseUrl, resolve)
    ensures var p := Target(rs[i], outputDir, baseUrl, resolve).value;
      var files := Saved(d, rs, outputDir, baseUrl, resolve).0.files;
      p in files && files[p] == rs[j].content
  {
    var p := Target(rs[i], outputDir, baseUrl, resolve).value;
    SavedFiles(d, rs, outputDir, baseUrl, resolve);
    LastWriteWins(rs, p, outputDir, baseUrl, resolve);
    LastWriteFrom(rs, p, j, outputDir, baseUrl, resolve);
  }

  lemma {:induction false} LastWriteFrom(rs: seq<Resource>, p: Path, j: nat, outputDir: Path, baseUrl: string, resolve: Resolver)
    requires j < |rs| && Target(rs[j], outputDir, baseUrl, resolve) == Some(p)
    requires forall k :: j < k < |rs| ==> Target(rs[k], outputDir, baseUrl, resolve) != Some(p)
    ensures LastWrite(rs, p, outputDir, baseUrl, resolve) == Some(rs[j].content)
    decreases |rs|
  {
    if j < |rs| - 1 {
      var init := rs[..|rs| - 1];
      assert init[j] == rs[j];
      LastWriteFrom(init, p, j, outputDir, baseUrl, resolve);
    }
  }

  // ---------------------------------------------------------------------------
  // The directories created.

  lemma AncestorsOfPrefix(p: Path, q: Path)
    requires |q| <= |p| && q == p[..|q|]
    ensures Ancestors(q) <= Ancestors(p)
  {
    AncestorsArePrefixes(p);
    AncestorsArePrefixes(q);
    forall a | a in Ancestors(q) ensures a in Ancestors(p) {
      assert a == q[..|a|];
      assert p[..|a|] == a;
    }
  }

  /** Every directory `AssetPath` needs lies on the way to `<outputDir>/assets`. */
  lemma AssetParentOnAssetsPath(outputDir: Path, f: string)
    requires f != ""
    ensures Ancestors(Parent(AssetPath(outputDir, f))) <= Ancestors(outputDir + ["assets"])
  {
    var assets := outputDir + ["assets"];
    assert Step(outputDir, "assets") == assets;
    assert ["assets", f][1..] == [f];
    assert [f][1..] == [];
    assert AssetPath(outputDir, f) == Resolve(assets, [f]) == Resolve(Step(assets, f), []);
    var parent := Parent(Step(assets, f));
    if f == "." {
      assert parent == outputDir;
    } else if f == ".." {
      assert parent == Parent(outputDir);
    } else {
      assert parent == assets;
    }
    assert |parent| <= |assets| && parent == assets[..|parent|];
    AncestorsOfPrefix(assets, parent);
  }

  /**
   * Whatever the outcome, `saveResources` keeps every directory and creates new ones only
   * on the way to `<outputDir>/assets`.
   */
  lemma {:induction false} SavedDirs(d: Disk, rs: seq<Resource>, outputDir: Path, baseUrl: string, resolve: Resolver)
    ensures var after := Saved(d, rs, outputDir, baseUrl, resolve).0;
      d.dirs <= after.dirs <= d.dirs + Ancestors(outputDir + ["assets"])
    decreases |rs|
  {
    if rs != [] {
      var first := SaveOne(d, rs[0], outputDir, baseUrl, resolve);
      match resolve(rs[0].url, Some(baseUrl))
      case None =>
      case Some(u) =>
        AssetParentOnAssetsPath(outputDir, FileName(u.pathname));
      if first.1.Some? {
        SavedDirs(first.0, rs[1..], outputDir, baseUrl, resolve);
      }
    }
  }
}
