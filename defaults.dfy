/** The defaults of `src/config/defaults.rs` and `Config::default()`, and the
    two tables of the configuration file the program writes on first run. */
module Defaults {
  import opened Base
  import opened Config

  /** The colour of each field's value, as `DisplayConfig::default` inserts them. */
  const DefaultFieldColors: map<string, string> := map[
    "userhost" := "bright_green", "os" := "green", "hostname" := "bright_cyan",
    "kernel" := "magenta", "uptime" := "bright_yellow", "packages" := "bright_blue",
    "shell" := "green", "resolution" := "bright_magenta", "de" := "cyan",
    "wm" := "bright_green", "terminal" := "yellow", "terminal_font" := "bright_yellow",
    "cpu" := "bright_green", "memory" := "bright_blue", "disk" := "bright_red"]

  /** The field order of `InfoConfig::default`. */
  const DefaultFields: seq<string> := [
    "userhost", "os", "hostname", "kernel", "uptime", "packages", "shell",
    "resolution", "de", "wm", "terminal", "terminal_font", "cpu", "memory",
    "disk", "colors"]

  function DefaultDisplay(): (d: DisplayConfig)
    ensures d.showLogo && d.colorValues && !d.showColorsLabel && d.disableStartupMessage
    ensures d.fieldColors == DefaultFieldColors
  {
    DisplayConfig(true, true, false, true, DefaultFieldColors)
  }

  function DefaultInfo(): (c: InfoConfig)
    ensures c.fields == DefaultFields && c.customCommands == map[]
  {
    InfoConfig(DefaultFields, map[])
  }

  function DefaultAsciiArt(): (c: AsciiArtConfig)
    ensures SourceName(c.source) == "auto"
    ensures c.path.None? && c.builtin.None? && !c.autoDetect
  {
    AsciiArtConfig(DefaultSource(), Option.None, Option.None, false)
  }

  /** `#[derive(Default)]` on `Config`: each part at its own default. */
  function DefaultConfig(): (c: Config)
    ensures c.display == DefaultDisplay() && c.info == DefaultInfo() && c.asciiArt == DefaultAsciiArt()
  {
    Config(DefaultDisplay(), DefaultInfo(), DefaultAsciiArt())
  }

  /** The default field list names sixteen distinct fields. */
  lemma DefaultFieldsDistinct()
    ensures |DefaultFields| == 16
    ensures forall i, j :: 0 <= i < j < |DefaultFields| ==> DefaultFields[i] != DefaultFields[j]
  {
  }

  /** Every field with a default colour is a default field; of the default
      fields only "colors", which is never recoloured, has none. */
  lemma DefaultColorsCoverFields()
    ensures forall f :: f in DefaultFieldColors <==> f in DefaultFields && f != "colors"
  {
  }

  // ---------------------------------------------------------------------
  // The tables of the configuration file written by `default_config_toml`

  /** `[display.field_colors]` of the default file. */
  const TomlFieldColors: map<string, string> := map[
    "userhost" := "bright_green", "os" := "green", "hostname" := "bright_cyan",
    "kernel" := "magenta", "uptime" := "bright_yellow", "packages" := "bright_blue",
    "shell" := "green", "resolution" := "bright_magenta", "de" := "cyan",
    "wm" := "bright_green", "terminal" := "yellow", "cpu" := "bright_green",
    "memory" := "bright_blue", "disk" := "bright_red"]

  /** `fields` of the `[info]` table of the default file. */
  const TomlFields: seq<string> := [
    "userhost", "os", "hostname", "kernel", "uptime", "packages", "shell",
    "resolution", "de", "wm", "terminal", "cpu", "memory", "disk", "colors"]

  /** `s` without the entries equal to `x`, the others kept in order. */
  function Without(s: seq<string>, x: string): (r: seq<string>)
    ensures x !in r
    ensures forall y :: y in r <==> y in s && y != x
  {
    if s == [] then []
    else (if s[0] == x then [] else [s[0]]) + Without(s[1..], x)
  }

  /** The file's settings are the built-in defaults, except that the file
      leaves out "terminal_font" from both the field list and the colour
      table. */
  lemma TomlMatchesDefaults()
    ensures TomlFields == Without(DefaultFields, "terminal_font")
    ensures TomlFieldColors == DefaultFieldColors - {"terminal_font"}
  {
    TomlFieldsMatch();
    TomlColorsMatch();
  }

  lemma TomlFieldsMatch()
    ensures TomlFields == Without(DefaultFields, "terminal_font")
  {
    var x := "terminal_font";
    var a, b := DefaultFields[..11], DefaultFields[12..];
    DefaultFieldsSplit();
    WithoutOne(a, x, b);
  }

  /** The default list around its "terminal_font" entry. */
  lemma DefaultFieldsSplit()
    ensures DefaultFields == DefaultFields[..11] + ["terminal_font"] + DefaultFields[12..]
    ensures TomlFields == DefaultFields[..11] + DefaultFields[12..]
    ensures "terminal_font" !in DefaultFields[..11] && "terminal_font" !in DefaultFields[12..]
  {
  }

  lemma WithoutOne(a: seq<string>, x: string, b: seq<string>)
    requires x !in a && x !in b
    ensures Without(a + [x] + b, x) == a + b
  {
    var ax := a + [x];
    WithoutAbsent(a, x);
    WithoutAbsent(b, x);
    WithoutAppend(a, [x], x);
    assert Without([x], x) == [];
    assert Without(ax, x) == a;
    WithoutAppend(ax, b, x);
  }

  lemma TomlColorsMatch()
    ensures TomlFieldColors == DefaultFieldColors - {"terminal_font"}
  {
    var m := DefaultFieldColors - {"terminal_font"};
    assert m.Keys == TomlFieldColors.Keys;
  }

  lemma {:induction false} WithoutAppend(a: seq<string>, b: seq<string>, x: string)
    ensures Without(a + b, x) == Without(a, x) + Without(b, x)
  {
    if a == [] {
      assert a + b == b;
    } else {
      assert (a + b)[1..] == a[1..] + b;
      WithoutAppend(a[1..], b, x);
    }
  }

  lemma {:induction false} WithoutAbsent(s: seq<string>, x: string)
    requires x !in s
    ensures Without(s, x) == s
  {
    if s != [] {
      WithoutAbsent(s[1..], x);
    }
  }
}
