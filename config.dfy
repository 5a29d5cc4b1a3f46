/** The configuration types of `src/config/mod.rs`: what the display, the
    field collection and the logo resolver read. Field names follow the
    Rust structs; the maps stand for `HashMap<String, String>`. */
module Config {
  import opened Base

  /** Where the logo comes from. */
  datatype AsciiArtSource = Auto | Builtin | File | Image | None

  /** The name serde reads and writes for each variant (`#[serde(rename)]`). */
  function SourceName(s: AsciiArtSource): string {
    match s
    case Auto => "auto"
    case Builtin => "builtin"
    case File => "file"
    case Image => "image"
    case None => "none"
  }

  /** Deserialising a source name; any other string is an "unknown variant"
      error, here `Option.None`. */
  function SourceNamed(name: string): (r: Option<AsciiArtSource>)
    ensures r.Some? ==> SourceName(r.value) == name
  {
    if name == "auto" then Some(Auto)
    else if name == "builtin" then Some(Builtin)
    else if name == "file" then Some(File)
    else if name == "image" then Some(Image)
    else if name == "none" then Some(AsciiArtSource.None)
    else Option.None
  }

  /** Every variant is read back from its own name, so the five names are
      distinct and name and variant determine each other. */
  lemma SourceNamesRoundTrip(s: AsciiArtSource)
    ensures SourceNamed(SourceName(s)) == Some(s)
  {
  }

  lemma SourceNamesDistinct(s: AsciiArtSource, t: AsciiArtSource)
    ensures SourceName(s) == SourceName(t) <==> s == t
  {
    SourceNamesRoundTrip(s);
    SourceNamesRoundTrip(t);
  }

  /** `impl Default for AsciiArtSource`. */
  function DefaultSource(): (s: AsciiArtSource)
    ensures SourceName(s) == "auto"
  {
    Auto
  }

  datatype DisplayConfig = DisplayConfig(
    showLogo: bool,
    colorValues: bool,
    showColorsLabel: bool,
    disableStartupMessage: bool,
    fieldColors: map<string, string>)

  datatype InfoConfig = InfoConfig(fields: seq<string>, customCommands: map<string, string>)

  datatype AsciiArtConfig = AsciiArtConfig(
    source: AsciiArtSource,
    path: Option<string>,
    builtin: Option<string>,
    autoDetect: bool)

  datatype Config = Config(display: DisplayConfig, info: InfoConfig, asciiArt: AsciiArtConfig)

  /** Deserialising an `[info]` table whose `custom_commands` key may be
      missing (`#[serde(default)]`): a missing table is an empty map. */
  function InfoFromTable(fields: seq<string>, customCommands: Option<map<string, string>>): (c: InfoConfig)
    ensures c.fields == fields
    ensures customCommands.None? ==> c.customCommands == map[]
    ensures customCommands.Some? ==> c.customCommands == customCommands.value
  {
    InfoConfig(fields, customCommands.GetOr(map[]))
  }
}
