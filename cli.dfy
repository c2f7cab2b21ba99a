/** The program's commands as it performs them: one step at a time against a
    `Disk` that changes in place. Each method ends in exactly the state, and
    with exactly the outcome, that the matching function of `Journal` gives
    for the state it started from, so every lemma proved there holds of a run. */
module Cli {
  import opened Text
  import opened Naming
  import opened Config
  import opened FileSystem
  import J = Journal

  /** Open `journal-cli.yaml` in `cwd`, read it and parse it; nothing changes. */
  method ReadSetting(disk: Disk, cwd: string) returns (l: J.Loaded)
    ensures l == J.LoadSetting(disk.State(), cwd)
    ensures l.Loaded? <==> J.SettingPath(cwd) in disk.files && disk.files[J.SettingPath(cwd)].Yaml?
  {
    var read := disk.Read(J.SettingPath(cwd));
    match read
    case NotFound =>
      l := J.NotLoaded(J.SettingNotFound);
    case IsDirectory =>
      l := J.NotLoaded(J.SettingUnreadable);
    case Contents(c) =>
      var parsed := FromYaml(c);
      if parsed.Some? {
        l := J.Loaded(parsed.value);
      } else {
        l := J.NotLoaded(J.SettingUnreadable);
      }
  }

  /** `new <name>`: both existence checks, the root directory, then the five
      files in order; the first write that fails aborts the rest. */
  method New(disk: Disk, cwd: string, name: string) returns (o: J.Outcome)
    modifies disk
    ensures (disk.State(), o) == J.NewJournal(old(disk.State()), cwd, name)
  {
    var root := Join(cwd, name);
    var rootTaken := disk.PathExists(root);
    var settingTaken := disk.PathExists(J.SettingPath(cwd));
    if rootTaken || settingTaken {
      return J.Failed(J.JournalExists);
    }
    var made := disk.CreateDirAll(root);
    if !made {
      return J.Failed(J.DirectoryNotCreated(root));
    }
    o := WriteRootFiles(disk, root);
  }

  /** The five `write_file` calls of `new`, in order; the first that fails
      aborts the rest. */
  method WriteRootFiles(disk: Disk, root: string) returns (o: J.Outcome)
    modifies disk
    ensures (disk.State(), o) == J.WriteAll(old(disk.State()), root, J.RootFiles(root))
  {
    ghost var rest := J.RootFiles(root);

    J.WriteAllFirst(disk.State(), root, rest, "README.md", Plain(J.Readme));
    var ok := disk.WriteFile(root, "README.md", Plain(J.Readme));
    if !ok {
      return J.Failed(J.FileNotCreated(Join(root, "README.md")));
    }
    rest := rest[1..];

    J.WriteAllFirst(disk.State(), root, rest, "TODO.md", Plain(J.Todo));
    ok := disk.WriteFile(root, "TODO.md", Plain(J.Todo));
    if !ok {
      return J.Failed(J.FileNotCreated(Join(root, "TODO.md")));
    }
    rest := rest[1..];

    J.WriteAllFirst(disk.State(), root, rest, "CHANGELOG.md", Plain(J.Changelog));
    ok := disk.WriteFile(root, "CHANGELOG.md", Plain(J.Changelog));
    if !ok {
      return J.Failed(J.FileNotCreated(Join(root, "CHANGELOG.md")));
    }
    rest := rest[1..];

    J.WriteAllFirst(disk.State(), root, rest, "CONTRIBUTING.md", Plain(J.Contributing));
    ok := disk.WriteFile(root, "CONTRIBUTING.md", Plain(J.Contributing));
    if !ok {
      return J.Failed(J.FileNotCreated(Join(root, "CONTRIBUTING.md")));
    }
    rest := rest[1..];

    var setting := Setting(Join(root, "entries"), Join(root, "articles"), J.JournalTemplate);
    J.WriteAllFirst(disk.State(), root, rest, SettingFileName, ToYaml(setting));
    ok := disk.WriteFile(root, SettingFileName, ToYaml(setting));
    if !ok {
      return J.Failed(J.FileNotCreated(Join(root, SettingFileName)));
    }
    rest := rest[1..];
    assert rest == [];
    o := J.Done;
  }

  /** `add entry` on the date `today`: read the setting, make the month
      directory when nothing is at its path, then create the day's page. */
  method AddEntry(disk: Disk, cwd: string, today: Date) returns (o: J.Outcome)
    requires ValidDate(today)
    modifies disk
    ensures (disk.State(), o) == J.AddEntry(old(disk.State()), cwd, today)
  {
    var loaded := ReadSetting(disk, cwd);
    if loaded.NotLoaded? {
      return J.Failed(loaded.failure);
    }
    var setting := loaded.setting;
    var dir := EntryDir(setting.entryPath, today);
    var present := disk.PathExists(dir);
    if !present {
      var made := disk.CreateDirAll(dir);
      if !made {
        return J.Failed(J.DirectoryNotCreated(dir));
      }
    }
    var fileName := EntryFileName(today);
    var content := Render(setting.journalTemplate, today);
    var ok := disk.WriteFile(dir, fileName, Plain(content));
    o := if ok then J.Done else J.Failed(J.FileNotCreated(Join(dir, fileName)));
  }

  /** `add article`: the setting is read and nothing else happens. */
  method AddArticle(disk: Disk, cwd: string) returns (o: J.Outcome)
    ensures o == J.AddArticle(disk.State(), cwd).1
    ensures o.Done? <==> J.LoadSetting(disk.State(), cwd).Loaded?
  {
    var loaded := ReadSetting(disk, cwd);
    if loaded.NotLoaded? {
      return J.Failed(loaded.failure);
    }
    o := J.Done;
  }

  /** One run of the program on the parsed command line. */
  method Run(disk: Disk, cwd: string, today: Date, cmd: J.Command) returns (o: J.Outcome)
    requires ValidDate(today)
    modifies disk
    ensures (disk.State(), o) == J.Run(old(disk.State()), cwd, today, cmd)
  {
    match cmd
    case New(name) =>
      o := New(disk, cwd, name);
    case Add(kind) =>
      if kind == J.Entry {
        o := AddEntry(disk, cwd, today);
      } else {
        o := AddArticle(disk, cwd);
      }
  }
}
