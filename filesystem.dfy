/** The part of the filesystem the program touches: a set of existing
    directories and a map from file paths to their contents. Paths are plain
    strings joined with `/`; nothing is normalised. The pure functions say
    what each primitive does; the class `Disk` performs them in place. */
module FileSystem {
  import opened Text
  import opened Config

  datatype Fs = Fs(dirs: set<string>, files: map<string, Content>)

  /** `Path::exists`: true for a directory and for a file alike. */
  predicate Exists(fs: Fs, p: string)
  {
    p in fs.dirs || p in fs.files
  }

  /** The directories a path runs through: each non-empty prefix that stops just before a `/`. */
  function Ancestors(p: string): set<string>
  {
    set i | 0 < i < |p| && p[i] == '/' :: p[..i]
  }

  /** A path together with the directories it runs through. */
  function Lineage(p: string): set<string>
  {
    Ancestors(p) + {p}
  }

  /** The shape every real directory tree has: nothing is both a file and a
      directory, and every directory a path runs through exists as a directory. */
  predicate Valid(fs: Fs)
  {
    fs.dirs !! fs.files.Keys &&
    (forall d :: d in fs.dirs ==> Ancestors(d) <= fs.dirs) &&
    (forall f :: f in fs.files ==> Ancestors(f) <= fs.dirs)
  }

  /** `create_dir_all(p)`: creates `p` and every missing directory on the way;
      it fails, changing nothing, when `p` or a directory on the way is a file. */
  function MakeDirs(fs: Fs, p: string): (r: (Fs, bool))
    ensures r.0.files == fs.files && fs.dirs <= r.0.dirs
    ensures r.1 <==> forall q :: q in Lineage(p) ==> q !in fs.files
    ensures r.1 ==> Lineage(p) <= r.0.dirs && r.0.dirs - fs.dirs <= Lineage(p)
    ensures !r.1 ==> r.0 == fs
  {
    if Lineage(p) !! fs.files.Keys then (Fs(fs.dirs + Lineage(p), fs.files), true) else (fs, false)
  }

  /** `OpenOptions::new().write(true).create_new(true).open(dir/name)` followed by
      the write: it fails, changing nothing, when the path exists (as a file or as
      a directory) or a directory on the way is missing; otherwise exactly one file
      is added and nothing already there is touched. */
  function CreateNew(fs: Fs, dir: string, name: string, c: Content): (r: (Fs, bool))
    ensures r.0.dirs == fs.dirs
    ensures forall q :: q in fs.files ==> q in r.0.files && r.0.files[q] == fs.files[q]
    ensures r.1 <==> !Exists(fs, Join(dir, name)) && Ancestors(Join(dir, name)) <= fs.dirs
    ensures r.1 ==> Join(dir, name) !in fs.files && r.0.files == fs.files[Join(dir, name) := c]
    ensures !r.1 ==> r.0 == fs
  {
    var path := Join(dir, name);
    if Exists(fs, path) || !(Ancestors(path) <= fs.dirs) then (fs, false)
    else (Fs(fs.dirs, fs.files[path := c]), true)
  }

  /** What opening a path for reading and reading it to the end yields. */
  datatype ReadResult = NotFound | IsDirectory | Contents(content: Content)

  function ReadFile(fs: Fs, p: string): (r: ReadResult)
    ensures r == NotFound <==> !Exists(fs, p)
    ensures r.Contents? <==> p in fs.files
    ensures r.Contents? ==> r.content == fs.files[p]
  {
    if p in fs.files then Contents(fs.files[p])
    else if p in fs.dirs then IsDirectory
    else NotFound
  }

  // ---------------------------------------------------------------------
  // Lemmas about paths

  /** The directories on the way to a directory on the way are on the way too. */
  lemma AncestorsOfAncestor(p: string, q: string)
    requires q in Lineage(p)
    ensures Ancestors(q) <= Ancestors(p)
  {
    if q != p {
      var i :| 0 < i < |p| && p[i] == '/' && q == p[..i];
      forall x | x in Ancestors(q) ensures x in Ancestors(p) {
        var j :| 0 < j < |q| && q[j] == '/' && x == q[..j];
        assert p[j] == q[j];
        assert x == p[..j];
      }
    }
  }

  /** A path runs through the whole lineage of its directory part. */
  lemma JoinAncestors(dir: string, name: string)
    requires |dir| > 0
    ensures Lineage(dir) <= Ancestors(Join(dir, name))
  {
    var p := Join(dir, name);
    forall x | x in Lineage(dir) ensures x in Ancestors(p) {
      if x == dir {
        assert p[|dir|] == '/' && p[..|dir|] == dir;
      } else {
        var i :| 0 < i < |dir| && dir[i] == '/' && x == dir[..i];
        assert p[i] == '/' && p[..i] == x;
      }
    }
  }

  /** When the name has no `/`, a path runs exactly through its directory's lineage. */
  lemma AncestorsOfJoin(dir: string, name: string)
    requires |dir| > 0 && '/' !in name
    ensures Ancestors(Join(dir, name)) == Lineage(dir)
  {
    var p := Join(dir, name);
    JoinAncestors(dir, name);
    forall x | x in Ancestors(p) ensures x in Lineage(dir) {
      var i :| 0 < i < |p| && p[i] == '/' && x == p[..i];
      if i > |dir| {
        assert false;
      } else if i < |dir| {
        assert dir[i] == '/' && dir[..i] == x;
      } else {
        assert x == dir;
      }
    }
  }

  /** Every path a path runs through is shorter than it. */
  lemma AncestorsShorter(p: string, q: string)
    requires q in Ancestors(p)
    ensures |q| < |p|
  {
  }

  /** Two names without `/` under two directories give one path only when
      directory and name both agree. */
  lemma JoinInjective(dir1: string, name1: string, dir2: string, name2: string)
    requires Join(dir1, name1) == Join(dir2, name2)
    requires '/' !in name1 && '/' !in name2
    ensures dir1 == dir2 && name1 == name2
  {
    assert Join(dir1, name1) == dir1 + ['/'] + name1;
    assert Join(dir2, name2) == dir2 + ['/'] + name2;
    SplitAtLast(dir1, name1, dir2, name2, '/');
  }

  // ---------------------------------------------------------------------
  // Lemmas about the primitives

  /** Nothing exists beneath a directory that does not exist. */
  lemma NothingBeneathAbsentDir(fs: Fs, dir: string, p: string)
    requires Valid(fs) && dir !in fs.dirs && dir in Ancestors(p)
    ensures !Exists(fs, p)
  {
  }

  /** `create_dir_all` keeps the tree well formed. */
  lemma MakeDirsValid(fs: Fs, p: string)
    requires Valid(fs)
    ensures Valid(MakeDirs(fs, p).0)
  {
    var r := MakeDirs(fs, p).0;
    if MakeDirs(fs, p).1 {
      forall d | d in r.dirs ensures Ancestors(d) <= r.dirs {
        if d !in fs.dirs {
          AncestorsOfAncestor(p, d);
        }
      }
    }
  }

  /** `create_dir_all` on an existing directory succeeds and changes nothing. */
  lemma MakeDirsExisting(fs: Fs, p: string)
    requires Valid(fs) && p in fs.dirs
    ensures MakeDirs(fs, p) == (fs, true)
  {
    assert Lineage(p) <= fs.dirs;
    assert fs.dirs + Lineage(p) == fs.dirs;
  }

  /** Running `create_dir_all` again after it succeeded changes nothing. */
  lemma MakeDirsIdempotent(fs: Fs, p: string)
    requires MakeDirs(fs, p).1
    ensures MakeDirs(MakeDirs(fs, p).0, p) == MakeDirs(fs, p)
  {
    var r := MakeDirs(fs, p).0;
    assert r.dirs + Lineage(p) == r.dirs;
  }

  /** An exclusive create keeps the tree well formed. */
  lemma CreateNewValid(fs: Fs, dir: string, name: string, c: Content)
    requires Valid(fs)
    ensures Valid(CreateNew(fs, dir, name, c).0)
  {
  }

  /** A second exclusive create of the same path fails and changes nothing. */
  lemma CreateNewTwice(fs: Fs, dir: string, name: string, c: Content, c': Content)
    requires CreateNew(fs, dir, name, c).1
    ensures CreateNew(CreateNew(fs, dir, name, c).0, dir, name, c') == (CreateNew(fs, dir, name, c).0, false)
  {
  }

  // ---------------------------------------------------------------------
  // The disk as the program sees it, changed in place

  class Disk {
    var dirs: set<string>
    var files: map<string, Content>

    function State(): Fs
      reads this
    {
      Fs(dirs, files)
    }

    constructor (fs: Fs)
      ensures State() == fs
    {
      dirs := fs.dirs;
      files := fs.files;
    }

    /** `Path::new(p).exists()`. */
    method PathExists(p: string) returns (b: bool)
      ensures b <==> p in dirs || p in files
    {
      b := p in dirs || p in files;
    }

    /** Open `p` for reading and read it to a string. */
    method Read(p: string) returns (r: ReadResult)
      ensures r == ReadFile(State(), p)
    {
      if p in files {
        r := Contents(files[p]);
      } else if p in dirs {
        r := IsDirectory;
      } else {
        r := NotFound;
      }
    }

    /** `create_dir_all(p)`. */
    method CreateDirAll(p: string) returns (ok: bool)
      modifies this
      ensures (State(), ok) == MakeDirs(old(State()), p)
    {
      ok := Lineage(p) !! files.Keys;
      if ok {
        dirs := dirs + Lineage(p);
      }
    }

    /** `write_file(dir, name, content)`: an exclusive create, then the write. */
    method WriteFile(dir: string, name: string, c: Content) returns (ok: bool)
      modifies this
      ensures (State(), ok) == CreateNew(old(State()), dir, name, c)
    {
      var path := Join(dir, name);
      var taken := PathExists(path);
      ok := !taken && Ancestors(path) <= dirs;
      if ok {
        files := files[path := c];
      }
    }
  }
}
