/** The two commands of the journal tool as transitions of the filesystem:
    `new <name>` lays out a journal root, `add entry` files today's page and
    `add article` does nothing. Each function returns the state after the
    run and how the run ended; the lemmas below state the safety properties
    (nothing is ever overwritten, refused runs change nothing) and the exact
    effect of a successful run. */
module Journal {
  import opened Text
  import opened Naming
  import opened Config
  import opened FileSystem

  datatype PageKind = Entry | Article

  /** The subcommands: `new <name>` and `add entry` / `add article`. */
  datatype Command = New(name: string) | Add(kind: PageKind)

  /** How a run can end early. Some are reported and the run returns; the
      others are an `unwrap` on an error, which aborts the run. */
  datatype Failure =
    | JournalExists                        // reported: root or setting already there
    | SettingNotFound                      // reported: journal-cli.yaml cannot be opened
    | SettingUnreadable                    // aborts: it opens but does not read or parse
    | DirectoryNotCreated(path: string)    // reported: create_dir_all failed
    | FileNotCreated(path: string)         // aborts: the exclusive create failed

  datatype Outcome = Done | Failed(failure: Failure)

  datatype Loaded = Loaded(setting: Setting) | NotLoaded(failure: Failure)

  const Readme: string := "# README \n"
  const Todo: string := "# TODO (やるべきこと)\n"
  const Changelog: string := "# CHANGELOG (実績)\n"
  const Contributing: string := "# CONTRIBUTING (ガイドライン)\n"

  /** The entry template a new journal is given: a dated heading and the four
      stages of the reflective cycle. */
  const JournalTemplate: string :=
    "# {}\n\n## Concrete Experience (具体的経験)\n\n## Reflective Observation (省察)\n\n" +
    "## Abstract Conceptualization (概念化):\n\n## Active Experimentation (試行):\n\n"

  /** Where the setting is looked for: `journal-cli.yaml` in the working directory. */
  function SettingPath(cwd: string): string
  {
    Join(cwd, SettingFileName)
  }

  /** The setting a new journal rooted at `root` is given. */
  function InitialSetting(root: string): Setting
  {
    Setting(Join(root, "entries"), Join(root, "articles"), JournalTemplate)
  }

  /** The files `new` writes under the root, in order. */
  function RootFiles(root: string): seq<(string, Content)>
  {
    [("README.md", Plain(Readme)), ("TODO.md", Plain(Todo)), ("CHANGELOG.md", Plain(Changelog)),
     ("CONTRIBUTING.md", Plain(Contributing)), (SettingFileName, ToYaml(InitialSetting(root)))]
  }

  /** A run of `write_file` calls into one directory; the first that fails aborts the rest. */
  function WriteAll(fs: Fs, dir: string, items: seq<(string, Content)>): (r: (Fs, Outcome))
    ensures r.0.dirs == fs.dirs
    ensures forall q :: q in fs.files ==> q in r.0.files && r.0.files[q] == fs.files[q]
    decreases |items|
  {
    if items == [] then (fs, Done)
    else
      var step := CreateNew(fs, dir, items[0].0, items[0].1);
      if !step.1 then (step.0, Failed(FileNotCreated(Join(dir, items[0].0))))
      else WriteAll(step.0, dir, items[1..])
  }

  /** A run of writes starts with its first exclusive create: when that fails
      the run stops there, and otherwise it goes on with the rest. */
  lemma WriteAllFirst(fs: Fs, dir: string, items: seq<(string, Content)>, name: string, c: Content)
    requires items != [] && items[0] == (name, c)
    ensures var step := CreateNew(fs, dir, name, c);
      WriteAll(fs, dir, items) ==
        if step.1 then WriteAll(step.0, dir, items[1..]) else (step.0, Failed(FileNotCreated(Join(dir, name))))
  {
  }

  /** `new <name>` run in `cwd`. */
  function NewJournal(fs: Fs, cwd: string, name: string): (r: (Fs, Outcome))
    ensures fs.dirs <= r.0.dirs
    ensures forall q :: q in fs.files ==> q in r.0.files && r.0.files[q] == fs.files[q]
  {
    var root := Join(cwd, name);
    if Exists(fs, root) || Exists(fs, SettingPath(cwd)) then (fs, Failed(JournalExists))
    else
      var made := MakeDirs(fs, root);
      if !made.1 then (made.0, Failed(DirectoryNotCreated(root)))
      else WriteAll(made.0, root, RootFiles(root))
  }

  /** Opening, reading and parsing `journal-cli.yaml` in `cwd`. */
  function LoadSetting(fs: Fs, cwd: string): Loaded
  {
    match ReadFile(fs, SettingPath(cwd))
    case NotFound => NotLoaded(SettingNotFound)
    case IsDirectory => NotLoaded(SettingUnreadable)
    case Contents(c) =>
      match FromYaml(c)
      case Some(s) => Loaded(s)
      case None => NotLoaded(SettingUnreadable)
  }

  /** `add entry` run in `cwd` on the UTC date `today`. */
  function AddEntry(fs: Fs, cwd: string, today: Date): (r: (Fs, Outcome))
    requires ValidDate(today)
    ensures fs.dirs <= r.0.dirs
    ensures forall q :: q in fs.files ==> q in r.0.files && r.0.files[q] == fs.files[q]
  {
    match LoadSetting(fs, cwd)
    case NotLoaded(e) => (fs, Failed(e))
    case Loaded(s) =>
      var dir := EntryDir(s.entryPath, today);
      var made := if Exists(fs, dir) then (fs, true) else MakeDirs(fs, dir);
      if !made.1 then (made.0, Failed(DirectoryNotCreated(dir)))
      else
        var name := EntryFileName(today);
        var created := CreateNew(made.0, dir, name, Plain(Render(s.journalTemplate, today)));
        (created.0, if created.1 then Done else Failed(FileNotCreated(Join(dir, name))))
  }

  /** `add article` run in `cwd`: the setting is read and parsed as for an
      entry, and then nothing is done. */
  function AddArticle(fs: Fs, cwd: string): (r: (Fs, Outcome))
  {
    match LoadSetting(fs, cwd)
    case NotLoaded(e) => (fs, Failed(e))
    case Loaded(_) => (fs, Done)
  }

  /** One run of the program. */
  function Run(fs: Fs, cwd: string, today: Date, cmd: Command): (r: (Fs, Outcome))
    requires ValidDate(today)
    ensures fs.dirs <= r.0.dirs
    ensures forall q :: q in fs.files ==> q in r.0.files && r.0.files[q] == fs.files[q]
  {
    match cmd
    case New(name) => NewJournal(fs, cwd, name)
    case Add(Entry) => AddEntry(fs, cwd, today)
    case Add(Article) => AddArticle(fs, cwd)
  }

  // ---------------------------------------------------------------------
  // `new`

  /** `new` refuses, changing nothing, when the root or the setting in the
      working directory already exists (both checks come before any change). */
  lemma NewRefusesExisting(fs: Fs, cwd: string, name: string)
    requires Exists(fs, Join(cwd, name)) || Exists(fs, SettingPath(cwd))
    ensures NewJournal(fs, cwd, name) == (fs, Failed(JournalExists))
  {
  }

  /** When the root cannot be created (a file stands on its way), `new` changes nothing. */
  lemma NewRootBlocked(fs: Fs, cwd: string, name: string)
    requires !Exists(fs, Join(cwd, name)) && !Exists(fs, SettingPath(cwd))
    requires !(Lineage(Join(cwd, name)) !! fs.files.Keys)
    ensures NewJournal(fs, cwd, name) == (fs, Failed(DirectoryNotCreated(Join(cwd, name))))
  {
  }

  /** The five paths `new` writes under the root. */
  function RootPaths(root: string): (r: set<string>)
    ensures r == {Join(root, "README.md"), Join(root, "TODO.md"), Join(root, "CHANGELOG.md"),
      Join(root, "CONTRIBUTING.md"), Join(root, SettingFileName)}
  {
    RootPathsListed(root);
    Paths(root, RootFiles(root))
  }

  /** A successful `new`: the root and the directories on its way are created,
      the five files are added under the root with their fixed contents, the
      setting points `entries` and `articles` into the root, and nothing else
      changes; in particular neither `entries` nor `articles` is created. */
  lemma NewCreatesJournal(fs: Fs, cwd: string, name: string)
    requires Valid(fs)
    requires !Exists(fs, Join(cwd, name)) && !Exists(fs, SettingPath(cwd))
    requires Lineage(Join(cwd, name)) !! fs.files.Keys
    ensures var root := Join(cwd, name);
      var r := NewJournal(fs, cwd, name);
      r.1 == Done && Valid(r.0) &&
      r.0.dirs == fs.dirs + Lineage(root) &&
      r.0.files.Keys == fs.files.Keys + RootPaths(root) &&
      r.0.files[Join(root, "README.md")] == Plain(Readme) &&
      r.0.files[Join(root, "TODO.md")] == Plain(Todo) &&
      r.0.files[Join(root, "CHANGELOG.md")] == Plain(Changelog) &&
      r.0.files[Join(root, "CONTRIBUTING.md")] == Plain(Contributing) &&
      r.0.files[Join(root, SettingFileName)] ==
        Yaml(Setting(Join(root, "entries"), Join(root, "articles"), JournalTemplate)) &&
      !Exists(r.0, Join(root, "entries")) && !Exists(r.0, Join(root, "articles"))
  {
    var root := Join(cwd, name);
    var fs1 := MakeDirs(fs, root).0;
    MakeDirsValid(fs, root);
    var items := RootFiles(root);
    forall k | 0 <= k < |items|
      ensures '/' !in items[k].0 && !Exists(fs1, Join(root, items[k].0))
    {
      FreshUnderNewRoot(fs, root, items[k].0);
    }
    assert ReadyToWrite(fs1, root, items);
    assert NewJournal(fs, cwd, name) == WriteAll(fs1, root, items);
    WriteRootFiles(fs1, root);
    FreshUnderNewRoot(fs, root, "entries");
    FreshUnderNewRoot(fs, root, "articles");
    NotARootFile(root, Join(root, "entries"));
    NotARootFile(root, Join(root, "articles"));
  }

  /** The five writes of `new` into a ready root all succeed, with their contents. */
  lemma WriteRootFiles(fs: Fs, root: string)
    requires ReadyToWrite(fs, root, RootFiles(root))
    ensures var r := WriteAll(fs, root, RootFiles(root));
      r.1 == Done && Valid(r.0) && r.0.dirs == fs.dirs &&
      r.0.files.Keys == fs.files.Keys + RootPaths(root) &&
      r.0.files[Join(root, "README.md")] == Plain(Readme) &&
      r.0.files[Join(root, "TODO.md")] == Plain(Todo) &&
      r.0.files[Join(root, "CHANGELOG.md")] == Plain(Changelog) &&
      r.0.files[Join(root, "CONTRIBUTING.md")] == Plain(Contributing) &&
      r.0.files[Join(root, SettingFileName)] == ToYaml(InitialSetting(root))
  {
    var items := RootFiles(root);
    WriteAllSucceeds(fs, root, items);
    var r := WriteAll(fs, root, items);
    assert r.0.files[Join(root, items[0].0)] == items[0].1;
    assert r.0.files[Join(root, items[1].0)] == items[1].1;
    assert r.0.files[Join(root, items[2].0)] == items[2].1;
    assert r.0.files[Join(root, items[3].0)] == items[3].1;
    assert r.0.files[Join(root, items[4].0)] == items[4].1;
  }

  /** Right after the root is created, nothing exists at a path directly beneath it. */
  lemma FreshUnderNewRoot(fs: Fs, root: string, name: string)
    requires Valid(fs) && |root| > 0 && !Exists(fs, root) && Lineage(root) !! fs.files.Keys
    ensures !Exists(MakeDirs(fs, root).0, Join(root, name))
  {
    var p := Join(root, name);
    JoinAncestors(root, name);
    NothingBeneathAbsentDir(fs, root, p);
    if p in Lineage(root) {
      if p != root {
        AncestorsShorter(root, p);
      }
      assert false;
    }
  }

  /** A path under the root whose first step starts with `e` or `a` (as
      `entries` and `articles` do) is none of the files `new` writes. */
  lemma NotARootFile(root: string, q: string)
    requires |q| > |root| + 1 && (q[|root| + 1] == 'e' || q[|root| + 1] == 'a')
    ensures q !in RootPaths(root)
  {
  }

  /** The paths a list of writes into `dir` creates. */
  function Paths(dir: string, items: seq<(string, Content)>): set<string>
  {
    set k | 0 <= k < |items| :: Join(dir, items[k].0)
  }

  /** The root files are exactly the five named ones. */
  lemma RootPathsListed(root: string)
    ensures Paths(root, RootFiles(root)) == {Join(root, "README.md"), Join(root, "TODO.md"), Join(root, "CHANGELOG.md"),
      Join(root, "CONTRIBUTING.md"), Join(root, SettingFileName)}
  {
    var items := RootFiles(root);
    var listed := {Join(root, "README.md"), Join(root, "TODO.md"), Join(root, "CHANGELOG.md"),
      Join(root, "CONTRIBUTING.md"), Join(root, SettingFileName)};
    forall x | x in listed ensures x in Paths(root, items) {
      if x == Join(root, "README.md") {
        assert x == Join(root, items[0].0);
      } else if x == Join(root, "TODO.md") {
        assert x == Join(root, items[1].0);
      } else if x == Join(root, "CHANGELOG.md") {
        assert x == Join(root, items[2].0);
      } else if x == Join(root, "CONTRIBUTING.md") {
        assert x == Join(root, items[3].0);
      } else {
        assert x == Join(root, items[4].0);
      }
    }
    forall x | x in Paths(root, items) ensures x in listed {
      var k :| 0 <= k < |items| && x == Join(root, items[k].0);
      assert k == 0 || k == 1 || k == 2 || k == 3 || k == 4;
    }
  }

  lemma PathsCons(dir: string, items: seq<(string, Content)>)
    requires items != []
    ensures Paths(dir, items) == {Join(dir, items[0].0)} + Paths(dir, items[1..])
  {
    var rest := items[1..];
    forall x | x in Paths(dir, items) ensures x in {Join(dir, items[0].0)} + Paths(dir, rest) {
      var k :| 0 <= k < |items| && x == Join(dir, items[k].0);
      if k > 0 {
        assert x == Join(dir, rest[k - 1].0);
      }
    }
    forall x | x in Paths(dir, rest) ensures x in Paths(dir, items) {
      var k :| 0 <= k < |rest| && x == Join(dir, rest[k].0);
      assert x == Join(dir, items[k + 1].0);
    }
  }

  /** What a run of writes needs to succeed throughout: a well-formed tree, an
      existing directory, and distinct plain names none of which exists there yet. */
  predicate ReadyToWrite(fs: Fs, dir: string, items: seq<(string, Content)>)
  {
    Valid(fs) && |dir| > 0 && dir in fs.dirs &&
    (forall k :: 0 <= k < |items| ==> '/' !in items[k].0 && !Exists(fs, Join(dir, items[k].0))) &&
    (forall j, k :: 0 <= j < k < |items| ==> items[j].0 != items[k].0)
  }

  /** The first write of a ready run succeeds and leaves the rest ready. */
  lemma FirstWriteSucceeds(fs: Fs, dir: string, items: seq<(string, Content)>)
    requires ReadyToWrite(fs, dir, items) && items != []
    ensures var step := CreateNew(fs, dir, items[0].0, items[0].1);
      step.1 && step.0.files == fs.files[Join(dir, items[0].0) := items[0].1] &&
      ReadyToWrite(step.0, dir, items[1..])
  {
    var p := Join(dir, items[0].0);
    AncestorsOfJoin(dir, items[0].0);
    var step := CreateNew(fs, dir, items[0].0, items[0].1);
    CreateNewValid(fs, dir, items[0].0, items[0].1);
    var rest := items[1..];
    forall k | 0 <= k < |rest| ensures '/' !in rest[k].0 && !Exists(step.0, Join(dir, rest[k].0)) {
      assert rest[k] == items[k + 1];
      if Join(dir, rest[k].0) == p {
        JoinInjective(dir, rest[k].0, dir, items[0].0);
      }
    }
  }

  /** Writes of distinct plain names into an existing directory, where none of
      them exists yet, all succeed: each file gets its content and nothing else changes. */
  lemma {:induction false} WriteAllSucceeds(fs: Fs, dir: string, items: seq<(string, Content)>)
    requires ReadyToWrite(fs, dir, items)
    ensures var r := WriteAll(fs, dir, items);
      r.1 == Done && Valid(r.0) &&
      r.0.files.Keys == fs.files.Keys + Paths(dir, items) &&
      forall k :: 0 <= k < |items| ==> r.0.files[Join(dir, items[k].0)] == items[k].1
    decreases |items|
  {
    if items != [] {
      FirstWriteSucceeds(fs, dir, items);
      var step := CreateNew(fs, dir, items[0].0, items[0].1);
      var rest := items[1..];
      WriteAllSucceeds(step.0, dir, rest);
      PathsCons(dir, items);
      var r := WriteAll(fs, dir, items);
      assert r == WriteAll(step.0, dir, rest);
      assert step.0.files[Join(dir, items[0].0)] == items[0].1;
      forall k | 0 <= k < |items| ensures r.0.files[Join(dir, items[k].0)] == items[k].1 {
        if k > 0 {
          assert items[k] == rest[k - 1];
        }
      }
    }
  }

  /** The state after a successful `new` is well formed. */
  lemma NewJournalValid(fs: Fs, cwd: string, name: string)
    requires Valid(fs) && NewJournal(fs, cwd, name).1 == Done
    ensures Valid(NewJournal(fs, cwd, name).0)
  {
    NewCreatesJournal(fs, cwd, name);
  }

  // ---------------------------------------------------------------------
  // `new` followed by `add entry`

  /** The setting path of the working directory lies outside any root made under it. */
  lemma SettingNotUnder(cwd: string, root: string, x: string)
    requires |root| > |cwd| && '/' !in x
    ensures SettingPath(cwd) != Join(root, x)
  {
    if SettingPath(cwd) == Join(root, x) {
      JoinInjective(cwd, SettingFileName, root, x);
      assert false;
    }
  }

  lemma SettingOutsideRoot(cwd: string, root: string)
    requires |root| > |cwd|
    ensures SettingPath(cwd) !in RootPaths(root)
  {
    SettingNotUnder(cwd, root, "README.md");
    SettingNotUnder(cwd, root, "TODO.md");
    SettingNotUnder(cwd, root, "CHANGELOG.md");
    SettingNotUnder(cwd, root, "CONTRIBUTING.md");
    SettingNotUnder(cwd, root, SettingFileName);
  }

  /** `new` writes the setting inside the new root, while `add` looks for it in
      the working directory: right after a successful `new`, `add entry` from
      the same directory finds no usable setting and changes nothing. */
  lemma AddAfterNewInSameDirectory(fs: Fs, cwd: string, name: string, today: Date)
    requires Valid(fs) && ValidDate(today)
    requires NewJournal(fs, cwd, name).1 == Done
    ensures var fs1 := NewJournal(fs, cwd, name).0;
      LoadSetting(fs1, cwd).NotLoaded? &&
      AddEntry(fs1, cwd, today) == (fs1, Failed(LoadSetting(fs1, cwd).failure))
  {
    var root := Join(cwd, name);
    var fs1 := NewJournal(fs, cwd, name).0;
    assert !Exists(fs, root) && !Exists(fs, SettingPath(cwd)) && Lineage(root) !! fs.files.Keys;
    NewCreatesJournal(fs, cwd, name);
    SettingOutsideRoot(cwd, root);
    assert SettingPath(cwd) !in fs1.files;
    AddEntryWithoutSettingFile(fs1, cwd, today);
  }

  /** `q` lies under `root` and its first step below the root starts with `e`. */
  predicate UnderEntries(root: string, q: string)
  {
    |q| > |root| + 1 && q[..|root| + 2] == root + "/e"
  }

  lemma UnderEntriesStep(root: string, q: string, x: string)
    requires UnderEntries(root, q)
    ensures UnderEntries(root, Join(q, x))
  {
    assert Join(q, x)[..|q|] == q;
    assert Join(q, x)[..|root| + 2] == q[..|root| + 2];
  }

  /** `<root>/entries`, the year and month directories below it and the
      entry's path all lie under `<root>/e…`; and the directories on the way to
      the month directory are those of the root plus the three new ones. */
  lemma EntryTreeUnderRoot(root: string, today: Date)
    requires |root| > 0
    ensures var entries := Join(root, "entries");
      var ys := Join(entries, Decimal(today.year));
      var dir := EntryDir(entries, today);
      UnderEntries(root, entries) && UnderEntries(root, ys) && UnderEntries(root, dir) &&
      UnderEntries(root, Join(dir, EntryFileName(today))) &&
      Lineage(dir) <= Lineage(root) + {entries, ys, dir}
  {
    var entries := Join(root, "entries");
    var ys := Join(entries, Decimal(today.year));
    var dir := EntryDir(entries, today);
    assert entries[..|root| + 2] == root + "/e";
    UnderEntriesStep(root, entries, Decimal(today.year));
    UnderEntriesStep(root, ys, Decimal(today.month));
    UnderEntriesStep(root, dir, EntryFileName(today));
    NotInDigits(Decimal(today.year), '/');
    NotInDigits(Decimal(today.month), '/');
    forall x | x in Lineage(dir) ensures x in Lineage(root) + {entries, ys, dir} {
      LineageOfJoin(ys, Decimal(today.month), x);
      if x in Lineage(ys) {
        LineageOfJoin(entries, Decimal(today.year), x);
        if x in Lineage(entries) {
          LineageOfJoin(root, "entries", x);
        }
      }
    }
  }

  /** Nothing exists under `<root>/e…` after `new`, as the root did not exist before. */
  lemma UnderEntriesFresh(fs: Fs, fs1: Fs, root: string, q: string)
    requires Valid(fs) && |root| > 0 && !Exists(fs, root)
    requires fs1.dirs == fs.dirs + Lineage(root) && fs1.files.Keys == fs.files.Keys + RootPaths(root)
    requires UnderEntries(root, q)
    ensures !Exists(fs1, q)
  {
    assert q[..|root|] == q[..|root| + 2][..|root|];
    assert q[|root|] == q[..|root| + 2][|root|] && q[|root| + 1] == q[..|root| + 2][|root| + 1];
    assert 0 < |root| < |q| && q[|root|] == '/' && q[..|root|] == root;
    assert root in Ancestors(q);
    NothingBeneathAbsentDir(fs, root, q);
    NotARootFile(root, q);
    if q in Lineage(root) {
      if q != root {
        AncestorsShorter(root, q);
      }
      assert false;
    }
  }

  /** Run from inside the root, `add entry` after a successful `new` files the
      day's page under `<root>/entries/<year>/<month>`, filled from the template
      `new` wrote, creating the missing directories on the way. */
  lemma AddAfterNewInRoot(fs: Fs, cwd: string, name: string, today: Date)
    requires Valid(fs) && ValidDate(today)
    requires NewJournal(fs, cwd, name).1 == Done
    ensures var root := Join(cwd, name);
      var fs1 := NewJournal(fs, cwd, name).0;
      var dir := EntryDir(Join(root, "entries"), today);
      AddEntry(fs1, root, today) ==
        (Fs(fs1.dirs + Lineage(dir), fs1.files[Join(dir, EntryFileName(today)) := Plain(Render(JournalTemplate, today))]), Done)
  {
    var root := Join(cwd, name);
    assert !Exists(fs, root) && !Exists(fs, SettingPath(cwd)) && Lineage(root) !! fs.files.Keys;
    NewCreatesJournal(fs, cwd, name);
    AddInNewRoot(fs, NewJournal(fs, cwd, name).0, root, today, InitialSetting(root));
  }

  /** `add entry` from a root that `new` has just laid out over `fs`, with a
      setting whose entry path is `<root>/entries`. */
  lemma AddInNewRoot(fs: Fs, fs1: Fs, root: string, today: Date, s: Setting)
    requires Valid(fs) && Valid(fs1) && ValidDate(today) && |root| > 0 && !Exists(fs, root)
    requires fs1.dirs == fs.dirs + Lineage(root) && fs1.files.Keys == fs.files.Keys + RootPaths(root)
    requires fs1.files[SettingPath(root)] == Yaml(s) && s.entryPath == Join(root, "entries")
    ensures var dir := EntryDir(Join(root, "entries"), today);
      AddEntry(fs1, root, today) ==
        (Fs(fs1.dirs + Lineage(dir), fs1.files[Join(dir, EntryFileName(today)) := Plain(Render(s.journalTemplate, today))]), Done)
  {
    assert LoadSetting(fs1, root) == Loaded(s);
    EntryPathsFresh(fs, fs1, root, today);
    AddEntrySucceeds(fs1, root, today, s);
  }

  /** After `new`, no file stands on the way to `<root>/entries/<year>/<month>`
      and nothing exists at the day's entry. */
  lemma EntryPathsFresh(fs: Fs, fs1: Fs, root: string, today: Date)
    requires Valid(fs) && Valid(fs1) && |root| > 0 && !Exists(fs, root)
    requires fs1.dirs == fs.dirs + Lineage(root) && fs1.files.Keys == fs.files.Keys + RootPaths(root)
    ensures var dir := EntryDir(Join(root, "entries"), today);
      Lineage(dir) !! fs1.files.Keys && !Exists(fs1, Join(dir, EntryFileName(today)))
  {
    var entries := Join(root, "entries");
    var ys := Join(entries, Decimal(today.year));
    var dir := EntryDir(entries, today);
    EntryTreeUnderRoot(root, today);
    UnderEntriesFresh(fs, fs1, root, entries);
    UnderEntriesFresh(fs, fs1, root, ys);
    UnderEntriesFresh(fs, fs1, root, dir);
    UnderEntriesFresh(fs, fs1, root, Join(dir, EntryFileName(today)));
  }

  /** A path reached by one more plain step from `dir` is in `dir`'s lineage or is the step itself. */
  lemma LineageOfJoin(dir: string, name: string, x: string)
    requires |dir| > 0 && '/' !in name && x in Lineage(Join(dir, name))
    ensures x in Lineage(dir) || x == Join(dir, name)
  {
    AncestorsOfJoin(dir, name);
  }

  // ---------------------------------------------------------------------
  // `add`

  /** Without a `journal-cli.yaml` in the working directory, `add entry` changes nothing. */
  lemma AddEntryWithoutSetting(fs: Fs, cwd: string, today: Date)
    requires ValidDate(today) && !Exists(fs, SettingPath(cwd))
    ensures AddEntry(fs, cwd, today) == (fs, Failed(SettingNotFound))
  {
  }

  /** Without a setting FILE in the working directory (nothing there, or a
      directory), `add entry` fails before touching anything. */
  lemma AddEntryWithoutSettingFile(fs: Fs, cwd: string, today: Date)
    requires ValidDate(today) && SettingPath(cwd) !in fs.files
    ensures LoadSetting(fs, cwd).NotLoaded?
    ensures AddEntry(fs, cwd, today) == (fs, Failed(LoadSetting(fs, cwd).failure))
  {
  }

  /** `add article` never changes the filesystem; it reports the same failure
      as `add entry` when the setting cannot be read, and succeeds otherwise. */
  lemma AddArticleChangesNothing(fs: Fs, cwd: string, today: Date)
    requires ValidDate(today)
    ensures Run(fs, cwd, today, Add(Article)).0 == fs
    ensures Run(fs, cwd, today, Add(Article)).1 == Done <==> LoadSetting(fs, cwd).Loaded?
    ensures LoadSetting(fs, cwd).NotLoaded? ==>
      Run(fs, cwd, today, Add(Article)) == AddEntry(fs, cwd, today)
  {
  }

  /** The month directory is created only when it is absent: when anything
      already exists at its path, the directory set stays as it was. */
  lemma AddEntryKeepsExistingDir(fs: Fs, cwd: string, today: Date, s: Setting)
    requires ValidDate(today) && LoadSetting(fs, cwd) == Loaded(s)
    requires Exists(fs, EntryDir(s.entryPath, today))
    ensures AddEntry(fs, cwd, today).0.dirs == fs.dirs
  {
  }

  /** The exact effect of `add entry` once the setting is read: it succeeds
      exactly when no file stands on the month directory's way and nothing
      exists at the entry's path; it then adds the month directory (with the
      ones on its way) and the rendered entry, and otherwise changes nothing. */
  lemma AddEntryEffect(fs: Fs, cwd: string, today: Date, s: Setting)
    requires Valid(fs) && ValidDate(today) && LoadSetting(fs, cwd) == Loaded(s)
    ensures var dir := EntryDir(s.entryPath, today);
      var path := Join(dir, EntryFileName(today));
      var r := AddEntry(fs, cwd, today);
      (r.1 == Done <==> Lineage(dir) !! fs.files.Keys && !Exists(fs, path)) &&
      (r.1 == Done ==> r.0 == Fs(fs.dirs + Lineage(dir), fs.files[path := Plain(Render(s.journalTemplate, today))])) &&
      (r.1 != Done ==> r.0 == fs)
  {
    var dir := EntryDir(s.entryPath, today);
    var name := EntryFileName(today);
    var path := Join(dir, name);
    EntryFileNameIsPlain(today);
    AncestorsOfJoin(dir, name);
    if dir in fs.dirs {
      MakeDirsExisting(fs, dir);
    } else if !Exists(fs, dir) && Lineage(dir) !! fs.files.Keys {
      JoinAncestors(dir, name);
      NothingBeneathAbsentDir(fs, dir, path);
    }
  }

  /** When no file stands on the month directory's way and nothing is at the
      entry's path, `add entry` succeeds with exactly that effect. */
  lemma AddEntrySucceeds(fs: Fs, cwd: string, today: Date, s: Setting)
    requires Valid(fs) && ValidDate(today) && LoadSetting(fs, cwd) == Loaded(s)
    requires Lineage(EntryDir(s.entryPath, today)) !! fs.files.Keys
    requires !Exists(fs, Join(EntryDir(s.entryPath, today), EntryFileName(today)))
    ensures var dir := EntryDir(s.entryPath, today);
      AddEntry(fs, cwd, today) ==
        (Fs(fs.dirs + Lineage(dir), fs.files[Join(dir, EntryFileName(today)) := Plain(Render(s.journalTemplate, today))]), Done)
  {
    AddEntryEffect(fs, cwd, today, s);
  }

  /** `add entry` twice on one day: the second run fails at the exclusive
      create and leaves everything, the first entry included, as it was. */
  lemma AddEntryTwiceSameDay(fs: Fs, cwd: string, today: Date)
    requires Valid(fs) && ValidDate(today)
    requires AddEntry(fs, cwd, today).1 == Done
    ensures var fs1 := AddEntry(fs, cwd, today).0;
      var s := LoadSetting(fs, cwd).setting;
      var path := Join(EntryDir(s.entryPath, today), EntryFileName(today));
      AddEntry(fs1, cwd, today) == (fs1, Failed(FileNotCreated(path))) &&
      fs1.files[path] == Plain(Render(s.journalTemplate, today))
  {
    var s := LoadSetting(fs, cwd).setting;
    var fs1 := AddEntry(fs, cwd, today).0;
    AddEntryEffect(fs, cwd, today, s);
    assert LoadSetting(fs1, cwd) == Loaded(s);
    var dir := EntryDir(s.entryPath, today);
    assert dir in fs1.dirs;
  }

  /** `add entry` keeps the tree well formed. */
  lemma AddEntryValid(fs: Fs, cwd: string, today: Date)
    requires Valid(fs) && ValidDate(today)
    ensures Valid(AddEntry(fs, cwd, today).0)
  {
    match LoadSetting(fs, cwd)
    case NotLoaded(_) =>
    case Loaded(s) =>
      var dir := EntryDir(s.entryPath, today);
      MakeDirsValid(fs, dir);
      var made := if Exists(fs, dir) then (fs, true) else MakeDirs(fs, dir);
      CreateNewValid(made.0, dir, EntryFileName(today), Plain(Render(s.journalTemplate, today)));
  }

  /** Every run keeps the tree well formed, whatever the command. */
  lemma RunValid(fs: Fs, cwd: string, today: Date, cmd: Command)
    requires Valid(fs) && ValidDate(today)
    ensures Valid(Run(fs, cwd, today, cmd).0)
  {
    match cmd
    case New(name) =>
      var root := Join(cwd, name);
      if !Exists(fs, root) && !Exists(fs, SettingPath(cwd)) && Lineage(root) !! fs.files.Keys {
        NewCreatesJournal(fs, cwd, name);
      }
    case Add(Entry) => AddEntryValid(fs, cwd, today);
    case Add(Article) => AddArticleChangesNothing(fs, cwd, today);
  }
}
