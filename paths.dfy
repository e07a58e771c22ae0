/**
 * POSIX paths as Node's `path` module builds them: `path.join`, `path.dirname` and
 * `path.basename`. A directory path is modelled as the list of its segments below the
 * root, already normalised.
 */
module Paths {
  import Text

  /** An absolute path: its segments below the root. */
  type Path = seq<string>

  /** A segment `path.join` keeps as it is. */
  predicate IsName(segment: string) {
    segment != "" && segment != "." && segment != ".."
  }

  /** A normalised absolute path: no empty, "." or ".." segment. */
  predicate Normal(p: Path) {
    forall i :: 0 <= i < |p| ==> IsName(p[i])
  }

  /** `path.dirname`; the root is its own parent. */
  function Parent(p: Path): Path {
    if p == [] then [] else p[..|p| - 1]
  }

  /** One segment of `path.join`'s normalisation: "" and "." are dropped, ".." goes up. */
  function Step(p: Path, segment: string): Path {
    if segment == "" || segment == "." then p
    else if segment == ".." then Parent(p)
    else p + [segment]
  }

  /** `path.join(base, s1, s2, ...)` for an absolute `base`: the segments applied left to right. */
  function Resolve(base: Path, segments: seq<string>): (r: Path)
    ensures Normal(base) ==> Normal(r)
    decreases |segments|
  {
    if segments == [] then base else Resolve(Step(base, segments[0]), segments[1..])
  }

  /** `path.join(base, rel)`: `rel` cut at every "/" and applied to `base`. */
  function Join(base: Path, rel: string): Path {
    Resolve(base, Text.Split(rel, "/"))
  }

  function LastNonEmpty(pieces: seq<string>): string {
    if pieces == [] then ""
    else if pieces[|pieces| - 1] != "" then pieces[|pieces| - 1]
    else LastNonEmpty(pieces[..|pieces| - 1])
  }

  /** `path.basename(p)`: the last non-empty "/"-separated segment, or "" when there is none. */
  function Basename(p: string): string {
    LastNonEmpty(Text.Split(p, "/"))
  }

  /** A single-character separator cuts a concatenation exactly where it was glued. */
  lemma {:induction false} SplitCharConcat(a: string, c: char, b: string)
    ensures Text.Split(a + [c] + b, [c]) == Text.Split(a, [c]) + Text.Split(b, [c])
    decreases |a|
  {
    var s := a + [c] + b;
    if a == [] {
      assert s[..1] == [c];
      assert s[1..] == b;
    } else if a[0] == c {
      assert s[..1] == [c];
      assert s[1..] == a[1..] + [c] + b;
      assert a[..1] == [c];
      SplitCharConcat(a[1..], c, b);
    } else {
      assert s[0] == a[0];
      assert s[..1] != [c];
      assert s[1..] == a[1..] + [c] + b;
      SplitCharConcat(a[1..], c, b);
      var ra := Text.Split(a[1..], [c]);
      if |a| == 1 {
        assert a[1..] == [];
      } else {
        assert a[..1] != [c];
      }
      assert (ra + Text.Split(b, [c]))[0] == ra[0];
      assert (ra + Text.Split(b, [c]))[1..] == ra[1..] + Text.Split(b, [c]);
    }
  }

  /** The basename of a path that ends in "/name" is that name. */
  lemma BasenameOfChild(dir: string, name: string)
    requires name != [] && '/' !in name
    ensures Basename(dir + "/" + name) == name
  {
    SplitCharConcat(dir, '/', name);
    assert !Text.Contains(name, "/") by {
      forall i | 0 <= i <= |name| ensures !Text.OccursAt(name, "/", i) {
        if i < |name| {
          assert name[i] != '/';
          assert name[i..i + 1] != "/";
        }
      }
    }
    Text.SplitWithoutSeparator(name, "/");
    var pieces := Text.Split(dir + "/" + name, "/");
    assert pieces[|pieces| - 1] == name;
  }

  /** "index.html" is a plain file name. */
  lemma IndexHtmlIsName()
    ensures IsName("index.html") && '/' !in "index.html"
  {
    assert "index.html" == ['i', 'n', 'd', 'e', 'x', '.', 'h', 't', 'm', 'l'];
  }

  /** Joining a plain name adds exactly that segment. */
  lemma JoinName(base: Path, name: string)
    requires IsName(name) && '/' !in name
    ensures Join(base, name) == base + [name]
  {
    assert !Text.Contains(name, "/") by {
      forall i | 0 <= i <= |name| ensures !Text.OccursAt(name, "/", i) {
        if i < |name| {
          assert name[i] != '/';
          assert name[i..i + 1] != "/";
        }
      }
    }
    Text.SplitWithoutSeparator(name, "/");
    assert Resolve(base + [name], []) == base + [name];
  }
}
