# journal-cli, modelled in Dafny

`journal-cli` is a small command-line tool for keeping a reflective journal in
Markdown. It has two commands:

- `journal-cli new <name>` lays out a journal directory `<cwd>/<name>`. The
  directory holds `README.md`, `TODO.md`, `CHANGELOG.md`, `CONTRIBUTING.md`
  and the setting file `journal-cli.yaml`. The setting's `entry_path` is
  `<root>/entries`, its `article_path` is `<root>/articles`, and its
  `journal_template` has one `{}` placeholder for the date.
- `journal-cli add entry` reads `journal-cli.yaml` from the working directory.
  It creates the directory `<entry_path>/<year>/<month>` when nothing exists at
  that path, and exclusively creates `<year>_<month>_<day>.md` there. The file
  holds the template with every `{}` replaced by the date as `YYYY/MM/DD`.
- `journal-cli add article` reads the setting the same way and does nothing
  else.

The project has six modules:

- `Text` (`text.dfy`) holds the string tools the rules are built from:
  - decimal rendering of a number, and reading it back;
  - zero padding;
  - Rust's `str::replace`;
  - `format!("{}/{}", ..)` path joining;
  - lemmas that splitting at a separator character is unique.
- `Naming` (`naming.dfy`) holds the naming rules of an entry: its month
  directory, its file name, the `%Y/%m/%d` date text and the rendering of the
  template. Around them are proofs of:
  - the exact layout of the date text;
  - the injectivity of names;
  - "every `{}` is replaced, and none is left";
  - concrete examples.
- `Config` (`config.dfy`) holds the `JournalSetting` record and what a file
  can hold. YAML is abstract: a file written from a setting reads back as that
  setting, and any other contents fail to parse.
- `FileSystem` (`filesystem.dfy`) models the filesystem as a set of directory
  paths plus a map from file paths to contents:
  - `create_dir_all` and the exclusive create of `write_file` are pure steps,
    and lemmas say they keep the tree well formed;
  - the class `Disk` performs the same steps in place.
- `Journal` (`journal.dfy`) gives each command as a pure transition
  `(state, cwd, date, command) -> (state, outcome)`. Its lemmas state the
  safety properties and the exact effect of each run:
  - nothing is ever overwritten;
  - a refused run changes nothing;
  - a second entry on the same day fails and keeps the first.
- `Cli` (`cli.dfy`) performs the commands step by step against a `Disk`, the
  way `main` does. Each method is proved to end in the state, with the
  outcome, that the matching `Journal` function gives. Every `Journal` lemma
  therefore holds of a run.

The setting path differs between the commands. `new` writes
`journal-cli.yaml` inside the new root (`src/main.rs:142-146`). The existence
check in `new` (`src/main.rs:95`) and the read in `add` (`src/main.rs:56`)
both use `journal-cli.yaml` relative to the working directory. The model
follows the code, and two lemmas state the consequence:

- `Journal.AddAfterNewInSameDirectory`: `add entry` run in the same directory
  right after `new` finds no usable setting and changes nothing.
- `Journal.AddAfterNewInRoot`: run from inside the new root, it creates the
  entry.

## Model

| member | source | states |
|---|---|---|
| Text.Decimal | src/main.rs:70-71 | a year, month or day is written as a non-empty string of decimal digits whose first digit is `0` only for zero |
| Text.ValueOfDecimal | src/main.rs:79-80 | reading the decimal digits back gives the number, so the written form loses nothing |
| Text.DecimalInjective | src/main.rs:79-80 | distinct numbers are written differently |
| Text.ZeroPad | src/main.rs:83 | a padded field is exactly `width` long when the text was shorter, and keeps its length otherwise |
| Text.ZeroPadShape | src/main.rs:83 | the padded field is the text behind just enough `0`s; a text already wide enough comes back unchanged |
| Text.ZeroPadValue | src/main.rs:83 | zero padding keeps a digit string a digit string and keeps its value |
| Text.ReplaceAbsent | src/main.rs:81-83 | `replace` leaves a string without the pattern unchanged |
| FileSystem.JoinInjective | src/main.rs:155 | a path `dir/name` with a slash-free name determines both its directory and its name |
| Naming.DateTextLayout | src/main.rs:83 | for a date with a year of at most four digits, `%Y/%m/%d` is 10 characters long: 4 digits with the value of the year, `/`, 2 digits with the value of the month, `/`, 2 digits with the value of the day |
| Naming.DateTextBraceFree | src/main.rs:83 | the date text is non-empty and contains no brace |
| Naming.DateTextExample | src/main.rs:83 | 2024-03-07 is written `2024/03/07` |
| Naming.EntryNameExample | src/main.rs:70-80 | for 2024-03-07 the file name is `2024_3_7.md` and the directory under `/home/me/demo/entries` is `.../2024/3`, without padding |
| Naming.EntryFileNameIsPlain | src/main.rs:79-80 | the entry's file name contains no `/` and starts with a digit |
| Naming.EntryFileNameInjective | src/main.rs:79-80 | two days get the same file name only if they are the same date |
| Naming.EntryDirSameMonth | src/main.rs:70-71 | two days share a month directory if and only if they have the same year and month |
| Naming.EntryFilePathInjective | src/main.rs:70-84 | an entry's path determines its date and its month directory, whatever the two entry paths |
| Naming.RenderWithoutToken | src/main.rs:81-83 | a template with no `{}` is written unchanged |
| Naming.RenderLeavesNoToken | src/main.rs:81-83 | no `{}` is left in a rendered entry |
| Naming.RenderConcat | src/main.rs:81-83 | rendering works piece by piece: unless a `{` ends the first part and a `}` starts the second, rendering a concatenation is the concatenation of the renderings |
| Naming.ReplaceSingleToken | src/main.rs:81-83 | a template made of brace-free text around one `{}` becomes that text around the date |
| Naming.RenderExample | src/main.rs:81-83 | `# {}\n\nbody` on 2024-03-07 becomes `# 2024/03/07\n\nbody` |
| Config.FromYaml | src/main.rs:65 | parsing succeeds exactly on a serialised setting, and gives back the setting that serialises to it |
| Config.YamlRoundTrip | src/main.rs:145 | a setting written out reads back field for field |
| FileSystem.MakeDirs | src/main.rs:100 | `create_dir_all` succeeds exactly when no file stands on the path or on the way; it then adds exactly the missing directories on the way, and otherwise changes nothing; files are never touched |
| FileSystem.CreateNew | src/main.rs:151-156 | the exclusive create succeeds exactly when nothing exists at the path and its directories exist; it then adds exactly that one file with the given content, and otherwise changes nothing; no existing file is changed |
| FileSystem.ReadFile | src/main.rs:56-64 | opening and reading yields "not found" exactly when nothing is at the path, and the content exactly when a file is there |
| FileSystem.MakeDirsValid | src/main.rs:100 | `create_dir_all` keeps the tree well formed |
| FileSystem.MakeDirsExisting | src/main.rs:72-77 | `create_dir_all` on an existing directory succeeds and changes nothing |
| FileSystem.MakeDirsIdempotent | src/main.rs:100 | running `create_dir_all` again after it succeeded changes nothing |
| FileSystem.CreateNewValid | src/main.rs:151-156 | an exclusive create keeps the tree well formed |
| FileSystem.CreateNewTwice | src/main.rs:151-156 | a second exclusive create of the same path fails and leaves the first file's content |
| FileSystem.Disk.PathExists | src/main.rs:95 | `Path::exists` holds for a directory and for a file alike |
| FileSystem.Disk.Read | src/main.rs:56-64 | reading the disk yields what `ReadFile` gives for its state |
| FileSystem.Disk.CreateDirAll | src/main.rs:73 | the disk changes exactly as `MakeDirs` says, and reports its success |
| FileSystem.Disk.WriteFile | src/main.rs:151-164 | the disk changes exactly as `CreateNew` says, and reports its success |
| Journal.WriteAll | src/main.rs:108-146 | a sequence of writes into one directory never removes or changes an existing file and creates no directory |
| Journal.NewJournal | src/main.rs:91-147 | `new` never removes a directory or changes an existing file |
| Journal.AddEntry | src/main.rs:54-85 | `add entry` never removes a directory or changes an existing file |
| Journal.Run | src/main.rs:52-148 | no command removes a directory or changes an existing file |
| Journal.NewRefusesExisting | src/main.rs:92-98 | when the root or `journal-cli.yaml` in the working directory exists, `new` reports it and changes nothing |
| Journal.NewRootBlocked | src/main.rs:100-102 | when the root cannot be created, `new` reports it and changes nothing |
| Journal.NewCreatesJournal | src/main.rs:100-146 | a successful `new` adds the root and its missing ancestors, and the five files under the root with their exact contents; the setting's entry and article paths are inside the root, with the fixed template; nothing else changes, and neither `entries` nor `articles` exists |
| Journal.WriteAllSucceeds | src/main.rs:108-146 | writes of distinct plain names into an existing directory where none of them exists all succeed; exactly those paths are added, each with its content, and the tree stays well formed |
| Journal.WriteRootFiles | src/main.rs:107-146 | in a fresh root the five writes of `new` all succeed; they add exactly the five paths, with the four fixed Markdown texts and the serialised initial setting, and keep the tree well formed |
| Journal.NewJournalValid | src/main.rs:91-147 | the state after a successful `new` is well formed |
| Journal.SettingOutsideRoot | src/main.rs:95 | the setting path of the working directory is none of the files `new` writes under a root below it |
| Journal.AddAfterNewInSameDirectory | src/main.rs:142-146 | since the setting is written inside the root, `add entry` run in the same working directory right after `new` finds no usable setting and changes nothing |
| Journal.AddAfterNewInRoot | src/main.rs:69-84 | run from inside the new root, `add entry` adds `<root>/entries/<year>/<month>` with its missing ancestors, and the entry rendered from the template `new` wrote, and nothing else |
| Journal.AddInNewRoot | src/main.rs:69-84 | in any state shaped like the one `new` leaves (a fresh root, the root files under it, and a setting at `<root>/journal-cli.yaml` whose entry path is `<root>/entries`), `add entry` run from the root succeeds, adding the month directory under `<root>/entries` with its missing ancestors and the entry rendered from that setting's template, and nothing else |
| Journal.AddEntryWithoutSetting | src/main.rs:56-60 | without `journal-cli.yaml` in the working directory, `add entry` reports it and changes nothing |
| Journal.AddEntryWithoutSettingFile | src/main.rs:56-65 | when no file is at the setting path, `add entry` fails and changes nothing |
| Journal.AddArticleChangesNothing | src/main.rs:87 | `add article` never changes the filesystem; it succeeds exactly when the setting can be read, and otherwise fails as `add entry` does |
| Journal.AddEntryKeepsExistingDir | src/main.rs:72-77 | when something already exists at the month directory's path, `add entry` creates no directory |
| Journal.AddEntryEffect | src/main.rs:69-85 | once the setting is read, `add entry` succeeds exactly when no file stands on the month directory's way and nothing exists at the entry's path; it then adds the month directory and its missing ancestors, and the rendered entry; otherwise nothing changes |
| Journal.AddEntryTwiceSameDay | src/main.rs:72-84 | a second `add entry` on the same day fails at the exclusive create, changes nothing, and the first entry keeps its content |
| Journal.AddEntryValid | src/main.rs:54-85 | `add entry` keeps the tree well formed |
| Journal.RunValid | src/main.rs:52-148 | every command keeps the tree well formed |
| Cli.ReadSetting | src/main.rs:56-65 | reading the setting from the disk gives what `LoadSetting` gives; it succeeds exactly when a serialised setting is at the path, and changes nothing |
| Cli.New | src/main.rs:91-147 | the step-by-step `new` ends in the state and outcome `NewJournal` gives |
| Cli.WriteRootFiles | src/main.rs:107-146 | the five `write_file` calls of `new`, one at a time on the disk, end in the state and outcome `WriteAll` gives for the five root files |
| Cli.AddEntry | src/main.rs:54-85 | the step-by-step `add entry` ends in the state and outcome `AddEntry` gives |
| Cli.AddArticle | src/main.rs:87 | `add article` changes nothing and succeeds exactly when the setting can be read |
| Cli.Run | src/main.rs:52-148 | one run ends in the state and outcome `Run` gives |

## Left out

- Command-line parsing with `structopt` (`src/main.rs:9-38, 48`): the command is
  the datatype `Journal.Command`.
- The clock `Utc::today()` (`src/main.rs:49`): the date is a parameter.
  Dates with a month in 1..12 and a day in 1..31 are accepted; calendar
  validity (30-day months, leap years) is not checked, because chrono only
  hands out real dates.
- Years above 9999: `%Y` would then write more than four digits, with a leading `+`.
  `Naming.ValidDate` bounds the year to at most 9999.
- `env::current_dir()` (`src/main.rs:92`): the working directory is a parameter
  and is taken to be an absolute path.
- Path resolution: paths are plain strings joined with `/`. A relative path is
  not resolved against the working directory, and `.`, `..`, repeated slashes
  and symbolic links are not normalised. A setting whose `entry_path` is
  relative is used as the string it is.
- YAML with `serde_yaml` (`src/main.rs:65, 145`): a setting is stored as an
  abstract record. Hand-written YAML text that the program could parse is not
  modelled: a text file always fails to parse.
- File system errors other than those that follow from the state: permission
  errors, a full disk, and a `create_dir_all` that fails half-way. A failed or
  partial `BufWriter::write` (`src/main.rs:159`) and the flush on drop are not
  modelled either: a created file always receives its whole content.
- Console output from `println!` and `eprintln!`. A panic through `unwrap`
  (reading the setting, parsing it, the exclusive create) is modelled as a
  failed outcome with the state reached so far, like the reported errors.
- Journal.NewJournal, Journal.AddEntry, Journal.WriteAll: their own `ensures` state only
  that nothing is removed or changed. Their exact effect is stated by
  `NewCreatesJournal`, `WriteAllSucceeds` and `AddEntryEffect`, which require
  the well-formed tree those effects depend on.
