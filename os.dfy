/**
 * The part of the filesystem the workers touch: `os.makedirs(p, exist_ok=True)`,
 * `shutil.rmtree(p)`, `Image.save` / ffmpeg writing files into a directory,
 * and `Image.open` / `os.path.exists` reading them back.
 */
module Os {
  import opened Wrappers

  /** The bytes of one file (an image or the final video). */
  type Blob = seq<bv8>
  /** A directory, as the list of its path components below the working directory. */
  type Path = seq<string>
  /** The files directly inside one directory, by name. */
  type Files = map<string, Blob>
  /** Every directory that exists, with the files directly inside it. */
  type FileSystem = map<Path, Files>

  /** Every non-empty prefix of `p`: `p` and all of its ancestors. */
  function Ancestry(p: Path): (r: set<Path>)
    ensures forall q :: q in r <==> q != [] && q <= p
  {
    var r := set i | 1 <= i <= |p| :: p[..i];
    assert forall q :: q != [] && q <= p ==> q in r by {
      forall q | q != [] && q <= p ensures q in r {
        assert q == p[..|q|];
      }
    }
    r
  }

  /** `os.makedirs(p, exist_ok=True)`: `p` and its missing ancestors appear empty; nothing else changes. */
  function WithDirs(fs: FileSystem, p: Path): (r: FileSystem)
    ensures forall q :: q in r <==> q in fs || (q != [] && q <= p)
    ensures forall q :: q in fs ==> r[q] == fs[q]
    ensures forall q :: q in r && q !in fs ==> r[q] == map[]
  {
    map q | q in fs.Keys + Ancestry(p) :: if q in fs then fs[q] else map[]
  }

  /** `for p in ps: os.makedirs(p, exist_ok=True)`. */
  function WithAllDirs(fs: FileSystem, ps: seq<Path>): (r: FileSystem)
    ensures forall q :: q in fs ==> q in r && r[q] == fs[q]
    ensures forall k :: 0 <= k < |ps| ==> Ancestry(ps[k]) <= r.Keys
    ensures forall q :: q in r && q !in fs ==> r[q] == map[]
    decreases |ps|
  {
    if ps == [] then fs else WithDirs(WithAllDirs(fs, ps[..|ps| - 1]), ps[|ps| - 1])
  }

  /** `shutil.rmtree(p)`: `p` and every directory below it disappear; nothing else changes. */
  function WithoutTree(fs: FileSystem, p: Path): (r: FileSystem)
    ensures forall q :: q in r <==> q in fs && !(p <= q)
    ensures forall q :: q in r ==> r[q] == fs[q]
  {
    map q | q in fs && !(p <= q) :: fs[q]
  }

  /** Writing one file `name` into the existing directory `dir`, replacing any file of that name. */
  function WithFile(fs: FileSystem, dir: Path, name: string, data: Blob): (r: FileSystem)
    requires dir in fs
    ensures r.Keys == fs.Keys
    ensures r[dir] == fs[dir][name := data]
    ensures forall q :: q in fs && q != dir ==> r[q] == fs[q]
  {
    fs[dir := fs[dir][name := data]]
  }

  /** Writing a batch of files into the existing directory `dir` (ffmpeg run with `-y`). */
  function WithFiles(fs: FileSystem, dir: Path, files: Files): (r: FileSystem)
    requires dir in fs
    ensures r.Keys == fs.Keys
    ensures r[dir].Keys == fs[dir].Keys + files.Keys
    ensures forall n :: n in files ==> r[dir][n] == files[n]
    ensures forall n :: n in fs[dir] && n !in files ==> r[dir][n] == fs[dir][n]
    ensures forall q :: q in fs && q != dir ==> r[q] == fs[q]
  {
    fs[dir := fs[dir] + files]
  }

  /** `Image.open(os.path.join(dir, name))`: the file's bytes, or nothing when it does not exist. */
  function Lookup(fs: FileSystem, dir: Path, name: string): (r: Option<Blob>)
    ensures r.Some? <==> dir in fs && name in fs[dir]
    ensures r.Some? ==> r.value == fs[dir][name]
  {
    if dir in fs && name in fs[dir] then Some(fs[dir][name]) else None
  }

  /** A real directory tree: every directory's ancestors exist too. */
  predicate Rooted(fs: FileSystem)
  {
    forall q, p :: q in fs && p in Ancestry(q) ==> p in fs
  }

  lemma WithDirsKeepsRooted(fs: FileSystem, p: Path)
    requires Rooted(fs)
    ensures Rooted(WithDirs(fs, p))
  {
    var r := WithDirs(fs, p);
    forall q, a | q in r && a in Ancestry(q) ensures a in r {
      if q !in fs {
        assert a <= q <= p;
      }
    }
  }

  lemma WithoutTreeKeepsRooted(fs: FileSystem, p: Path)
    requires Rooted(fs)
    ensures Rooted(WithoutTree(fs, p))
  {
    var r := WithoutTree(fs, p);
    forall q, a | q in r && a in Ancestry(q) ensures a in r {
      assert a in fs && a <= q;
    }
  }

  lemma WithFilesKeepsRooted(fs: FileSystem, dir: Path, files: Files)
    requires Rooted(fs) && dir in fs
    ensures Rooted(WithFiles(fs, dir, files))
    ensures forall n, data :: Rooted(WithFile(fs, dir, n, data))
  {
  }

  /** Nothing was deleted between `fs` and `fs'`: every directory and every file name survives. */
  predicate Retains(fs: FileSystem, fs': FileSystem)
  {
    (forall q :: q in fs ==> q in fs') &&
    (forall q, n :: q in fs && n in fs[q] ==> q in fs' && n in fs'[q])
  }

  /** Creating directories and writing files delete nothing. */
  lemma WritesRetain(fs: FileSystem, p: Path, dir: Path, files: Files)
    ensures Retains(fs, WithDirs(fs, p))
    ensures dir in fs ==> Retains(fs, WithFiles(fs, dir, files))
    ensures dir in fs ==> forall n, data :: Retains(fs, WithFile(fs, dir, n, data))
  {
  }

  lemma RetainsTransitive(a: FileSystem, b: FileSystem, c: FileSystem)
    requires Retains(a, b) && Retains(b, c)
    ensures Retains(a, c)
  {
  }

  /** The filesystem, updated in place by the operations above. */
  class Disk {
    var dirs: FileSystem

    constructor (dirs: FileSystem)
      ensures this.dirs == dirs
    {
      this.dirs := dirs;
    }

    method MakeDirs(p: Path)
      modifies this
      ensures dirs == WithDirs(old(dirs), p)
    {
      dirs := WithDirs(dirs, p);
    }

    method MakeAllDirs(ps: seq<Path>)
      modifies this
      ensures dirs == WithAllDirs(old(dirs), ps)
    {
      ghost var fs0 := dirs;
      for k := 0 to |ps|
        invariant dirs == WithAllDirs(fs0, ps[..k])
      {
        assert ps[..k + 1][..k] == ps[..k];
        MakeDirs(ps[k]);
      }
      assert ps[..|ps|] == ps;
    }

    method RemoveTree(p: Path)
      modifies this
      ensures dirs == WithoutTree(old(dirs), p)
    {
      dirs := WithoutTree(dirs, p);
    }

    method Save(dir: Path, name: string, data: Blob)
      requires dir in dirs
      modifies this
      ensures dirs == WithFile(old(dirs), dir, name, data)
    {
      dirs := WithFile(dirs, dir, name, data);
    }

    method SaveAll(dir: Path, files: Files)
      requires dir in dirs
      modifies this
      ensures dirs == WithFiles(old(dirs), dir, files)
    {
      dirs := WithFiles(dirs, dir, files);
    }
  }
}
