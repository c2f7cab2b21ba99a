/** The persisted configuration (`JournalSetting`) and the contents a file can
    hold. YAML is kept abstract: a file written from a setting holds that
    setting as a record, and reading it back yields the same record. */
module Config {

  datatype Option<T> = None | Some(value: T)

  /** The three fields of `journal-cli.yaml`. */
  datatype Setting = Setting(entryPath: string, articlePath: string, journalTemplate: string)

  /** What a file holds: plain text, or a serialised setting. */
  datatype Content = Plain(text: string) | Yaml(setting: Setting)

  /** The configuration file's name, looked up relative to the working directory. */
  const SettingFileName: string := "journal-cli.yaml"

  /** `serde_yaml::to_string` of a setting. */
  function ToYaml(s: Setting): Content
  {
    Yaml(s)
  }

  /** `serde_yaml::from_str` on a file's contents: `None` when it is not a setting. */
  function FromYaml(c: Content): (r: Option<Setting>)
    ensures r.Some? <==> c.Yaml?
    ensures r.Some? ==> ToYaml(r.value) == c
  {
    match c
    case Yaml(s) => Some(s)
    case Plain(_) => None
  }

  /** A setting written out reads back field for field. */
  lemma YamlRoundTrip(s: Setting)
    ensures FromYaml(ToYaml(s)) == Some(s)
  {
  }
}
