/**
 * The part of Node's `fs` module the cloner touches: `existsSync`, `statSync().isDirectory()`,
 * `mkdirSync(_, { recursive: true })`, `readFileSync` and `writeFileSync`, over a disk
 * modelled as a map from file paths to bytes and a set of directories.
 */
module Files {
  import opened Paths

  type Bytes = seq<bv8>

  /** The bytes to text decoding and text to bytes encoding Node applies for "utf-8". */
  datatype Utf8 = Utf8(decode: Bytes -> string, encode: string -> Bytes)

  /** `p` and every non-root prefix of `p`: what `mkdirSync(p, { recursive: true })` creates. */
  function Ancestors(p: Path): set<Path>
    decreases |p|
  {
    if p == [] then {} else Ancestors(p[..|p| - 1]) + {p}
  }

  /** The directories `mkdirSync(p, { recursive: true })` creates are exactly the non-empty prefixes of `p`. */
  lemma {:induction false} AncestorsArePrefixes(p: Path)
    ensures forall q :: q in Ancestors(p) <==> 1 <= |q| <= |p| && q == p[..|q|]
    decreases |p|
  {
    if p != [] {
      var up := p[..|p| - 1];
      AncestorsArePrefixes(up);
      forall q ensures q in Ancestors(p) <==> 1 <= |q| <= |p| && q == p[..|q|] {
        if 1 <= |q| < |p| {
          assert up[..|q|] == p[..|q|];
        } else if |q| == |p| {
          assert p[..|p|] == p;
        }
      }
    }
  }

  datatype Disk = Disk(files: map<Path, Bytes>, dirs: set<Path>) {

    predicate IsFile(p: Path) {
      p in files
    }

    /** The root always exists as a directory. */
    predicate IsDir(p: Path) {
      p == [] || p in dirs
    }

    /** `fs.existsSync(p)` */
    predicate Exists(p: Path) {
      IsFile(p) || IsDir(p)
    }

    /** `mkdirSync(p, { recursive: true })` throws when `p` or one of its ancestors is a file. */
    predicate CanMakeDirs(p: Path) {
      Ancestors(p) !! files.Keys
    }

    function MakeDirs(p: Path): Disk {
      Disk(files, dirs + Ancestors(p))
    }

    /** `writeFileSync(p, _)` throws when `p` is a directory or its parent is not one. */
    predicate CanWrite(p: Path) {
      p != [] && IsDir(Parent(p)) && !IsDir(p)
    }

    function Write(p: Path, content: Bytes): Disk {
      Disk(files[p := content], dirs)
    }
  }

  /** The process's view of the disk, changed in place by the cloner. */
  class FileSystem {
    var disk: Disk

    constructor (initial: Disk)
      ensures disk == initial
    {
      disk := initial;
    }

    /** `fs.mkdirSync(p, { recursive: true })`; `false` where it throws. */
    method MakeDirs(p: Path) returns (ok: bool)
      modifies this
      ensures ok == old(disk).CanMakeDirs(p)
      ensures disk == if ok then old(disk).MakeDirs(p) else old(disk)
    {
      ok := disk.CanMakeDirs(p);
      if ok {
        disk := disk.MakeDirs(p);
      }
    }

    /** `fs.writeFileSync(p, content)`; `false` where it throws. */
    method WriteFile(p: Path, content: Bytes) returns (ok: bool)
      modifies this
      ensures ok == old(disk).CanWrite(p)
      ensures disk == if ok then old(disk).Write(p, content) else old(disk)
    {
      ok := disk.CanWrite(p);
      if ok {
        disk := disk.Write(p, content);
      }
    }

    /** `fs.writeFileSync(p, content)` on a file that was just read, which cannot fail. */
    method Overwrite(p: Path, content: Bytes)
      requires disk.IsFile(p)
      modifies this
      ensures disk == old(disk).Write(p, content)
    {
      disk := disk.Write(p, content);
    }
  }
}
