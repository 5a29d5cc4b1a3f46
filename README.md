# rice: a Dafny model of the rendering core

rice is a command-line system-information tool written in Rust, in the style
of neofetch. It works in three steps:

1. It reads a configuration: which fields to show, custom shell commands,
   colours, and where the logo comes from.
2. It collects one value per configured field. A value may come from a
   built-in getter, from a custom command's output, or from the row of
   colour blocks.
3. It prints the logo and the "Label: value" lines beside each other.

The logo has three possible forms:
- a text logo: a built-in art, a user file, or a raster of coloured block
  characters drawn from an image;
- an inline terminal image using the iTerm2 protocol, optionally wrapped
  for tmux;
- an inline terminal image using the Kitty graphics protocol.

A text logo is laid out line by line, one logo row beside one info row. An
inline image is printed first; cursor-movement sequences then put the info
lines to its right.

This project models that core in Dafny:

- **configuration**: the configuration types, their defaults, and the
  default configuration file (`Config`, `Defaults`);
- **field collection**: collecting the fields, the colour blocks, and
  custom-command output with its 100-byte limit (`Info`, `Custom`);
- **logo resolution** (`AsciiArt`):
  - built-in arts and OS auto-detection;
  - art files;
  - the iTerm2 and Kitty escape sequences, with the base64 they carry
    (`Base64`);
  - the block raster;
- **output** (`Display`): the info block and both layouts;
- **formatting helpers**: `format_uptime` and `format_bytes` (`Units`).

Supporting modules model what the Rust standard library and crates provide:
- `Text`: `str::lines`, `trim`, `contains`, decimal numerals;
- `Utf8`: UTF-8 byte length, encoding and lossy decoding;
- `Style`: what the `colored` crate adds, as ANSI SGR ("Select Graphic
  Rendition") sequences, and the text a terminal shows once those are
  removed;
- `Terminal`: a cursor model that gives the cursor-movement escapes a
  meaning.

Everything outside the process is an input value:
- an `Environment.Host` holds:
  - the OS name;
  - the `TERM_PROGRAM`, `TERM` and `TMUX` variables;
  - the readable files;
  - the decoded images;
  - the `images` build feature;
  - whether output is styled;
- an `Info.Probes` holds the built-in getters and what running a shell
  command gives;
- an `AsciiArt.Assets` holds the built-in art texts.

Each operation that the Rust code writes as a loop over a buffer is a
`method` with loop invariants, proved equal to a function that states the
result. These are:
- `Units.FormatBytes`;
- `Info.CollectAll`;
- `AsciiArt.RenderImageAsAsciiBlocks`;
- `Display.GetFieldLabel`;
- `Display.RenderInfoWithColors`;
- `Display.TextOutput`;
- `Display.ImageOutput`;
- `Display.RenderWithAscii`.

`Display.Render`, a plain dispatch on `show_logo`, is a method too, proved
equal to its function.

The properties that the program relies on are lemmas about those functions.

## Model

| member | source | states |
|---|---|---|
| Config.SourceNamed | src/config/mod.rs:38-50 | reading a source name gives a variant whose serde name is that text |
| Config.SourceNamesRoundTrip | src/config/mod.rs:38-50 | every variant is read back from its own serde name ("auto", "builtin", "file", "image", "none") |
| Config.SourceNamesDistinct | src/config/mod.rs:38-50 | two variants have the same serde name exactly when they are the same variant |
| Config.DefaultSource | src/config/mod.rs:52-56 | the default logo source is the one named "auto" |
| Config.InfoFromTable | src/config/mod.rs:23-28 | an `[info]` table without `custom_commands` gets an empty map; otherwise the given fields and commands are kept |
| Defaults.DefaultDisplay | src/config/defaults.rs:4-31 | the logo is shown, values are coloured, the colours label is off and the startup message is disabled; the field colours are the fifteen listed |
| Defaults.DefaultInfo | src/config/defaults.rs:33-61 | the default fields are the sixteen listed, in order; there are no custom commands |
| Defaults.DefaultAsciiArt | src/config/defaults.rs:63-72 | the default source is "auto", with no path, no builtin name, and auto-detection off |
| Defaults.DefaultConfig | src/config/mod.rs:7-12 | the default configuration is made of the three section defaults |
| Defaults.DefaultFieldsDistinct | src/config/defaults.rs:35-52 | the default field list has 16 entries and no repeats |
| Defaults.DefaultColorsCoverFields | src/config/defaults.rs:6-21 | a field has a default colour exactly when it is a default field other than "colors" |
| Defaults.Without | src/config/defaults.rs:111-127 | the list without one name keeps every other entry and drops that name |
| Defaults.TomlMatchesDefaults | src/config/defaults.rs:93-127 | the default file's field list and colour table are the built-in defaults without "terminal_font" |
| Defaults.WithoutAppend | src/config/defaults.rs:111-127 | removing a name from a concatenation removes it from each part |
| Defaults.WithoutAbsent | src/config/defaults.rs:111-127 | removing a name that is absent changes nothing |
| Text.Lines | src/display/mod.rs:76 | no line that `str::lines` yields holds a line feed |
| Text.LinesOfTerminated | src/display/mod.rs:76 | splitting rows that each end in a line feed gives the rows back, each without one trailing carriage return |
| Text.LinesCount | src/display/mod.rs:76 | a text that is empty or ends in a line feed has one line per line feed |
| Text.TerminatedLineCount | src/display/mod.rs:107-112 | rows without line feeds, each terminated, split into as many lines as there were rows |
| Text.Trim | src/info/custom.rs:13 | the trimmed text is a slice of the input, only whitespace lies outside it, and it neither starts nor ends with whitespace |
| Text.TrimOfTrimmed | src/info/custom.rs:13 | trimming a text that is already trimmed changes nothing |
| Text.NatStrValue | src/lib.rs:34-38 | the decimal numeral of n reads back as n |
| Text.NatStrInjective | src/lib.rs:34-38 | different numbers have different numerals |
| Text.ReadNatStr | src/lib.rs:34-38 | reading a numeral followed by a non-digit gives the number and the rest |
| Utf8.ByteLen | src/display/mod.rs:128 | a text's length in bytes is between its character count and four times that |
| Utf8.ByteLenAppend | src/display/mod.rs:128 | byte length adds up over concatenation |
| Utf8.ByteLenAscii | src/info/custom.rs:16 | an ASCII text has one byte per character |
| Utf8.Encode | src/display/ascii_art.rs:68 | the encoding of a text is as long as its byte length |
| Utf8.DecodeEncode | src/display/ascii_art.rs:68 | decoding the UTF-8 encoding of a text gives the text back |
| Utf8.EncodeDecode | src/display/ascii_art.rs:68 | bytes that decode are the encoding of what they decode to |
| Utf8.LossyOfValid | src/info/custom.rs:12 | on valid UTF-8, the lossy decoding is the strict decoding |
| Utf8.LossyEncode | src/info/custom.rs:12 | lossy decoding of an encoded text gives the text back |
| Units.UptimeParts | src/lib.rs:29-32 | minutes are below 60 and hours below 24; the days, hours and minutes account for the seconds down to the last whole minute |
| Units.UptimeRoundTrip | src/lib.rs:29-39 | the uptime text is read back as its days, hours and minutes |
| Units.FormatUptimeInjective | src/lib.rs:29-39 | two uptimes print the same exactly when they have the same whole minutes |
| Units.UptimeUnderHour | src/lib.rs:34-35 | below an hour only minutes are shown |
| Units.UptimeUnderDay | src/lib.rs:34-36 | below a day, hours and minutes are shown |
| Units.UptimeDays | src/lib.rs:34-38 | from a day on, the text starts with the days |
| Units.UptimeFull | src/lib.rs:30-38 | from a day on, the full days, hours and minutes are shown |
| Units.MinuteExamples | src/lib.rs:56-85 | 0, 30 and 59 seconds print as "0m", 60 as "1m" and 3599 as "59m" |
| Units.HourExamples | src/lib.rs:56-65 | 3600 prints as "1h 0m" and 3660 as "1h 1m" |
| Units.DayExamples | src/lib.rs:56-85 | 86400 prints as "1d 0h 0m", 90061 as "1d 1h 1m" and 31536000 as "365d 0h 0m" |
| Units.UnitIndex | src/lib.rs:16-19 | the unit chosen is the largest power of 1024 not above the byte count, stopping at TB |
| Units.UnitIndexUnique | src/lib.rs:16-19 | that unit is the only one satisfying the bounds |
| Units.RoundTenths | src/lib.rs:23-25 | the scaled value is rounded to the nearest tenth, ties to even |
| Units.OneDecimalReads | src/lib.rs:23-25 | the one-decimal text reads back as the rounded number of tenths |
| Units.FormatBytes | src/lib.rs:7-26 | the loop's result equals the byte text: "0 B" for zero, whole bytes below 1 KB, otherwise one decimal and the unit |
| Units.ScaledValueRange | src/lib.rs:16-19 | after scaling, the value lies in [1, 1024); only TB may go higher |
| Units.BytesOfWhole | src/lib.rs:7-26 | exactly n units of 1024^k print as "n.0" and that unit |
| Units.BytesExamples | src/lib.rs:45-75 | 0 prints as "0 B", 512 as "512 B", 1023 as "1023 B" and 1536 as "1.5 KB" |
| Units.KilobyteExamples | src/lib.rs:45-75 | 1024 prints as "1.0 KB" and 1047552 as "1023.0 KB" |
| Units.MegabyteExamples | src/lib.rs:45-54 | 1048576 prints as "1.0 MB" |
| Units.GigabyteExamples | src/lib.rs:45-54 | 1073741824 prints as "1.0 GB" |
| Units.TwoGigabytesExample | src/lib.rs:45-54 | 2147483648 prints as "2.0 GB" |
| Units.TerabyteExamples | src/lib.rs:67-75 | 1099511627776 prints as "1.0 TB" |
| Style.Paint | src/display/mod.rs:124-154 | styling leaves the text alone when colours are off or the style is plain; otherwise the text is wrapped in the SGR sequence of the look's codes and a reset |
| Style.PaintFgInjective | src/display/mod.rs:208-230 | the same text styled in two foreground colours is the same string only when the colours are the same |
| Style.VisibleSgr | src/display/mod.rs:124-154 | an SGR sequence shows nothing |
| Style.PaintVisible | src/display/mod.rs:124-154 | a styled text without escapes shows exactly itself |
| Style.PaintNoNewline | src/display/mod.rs:124-154 | styling adds no line feed |
| Terminal.EmitAppend | src/display/mod.rs:54-71 | the escapes of a command sequence are the concatenated escapes of its parts |
| Terminal.RunAppend | src/display/mod.rs:54-71 | running two command sequences one after the other puts each text where running them in turn would |
| Base64.ValueOf | src/display/ascii_art.rs:117 | only the 64 alphabet characters have a value; each value maps back to its character |
| Base64.Group | src/display/ascii_art.rs:117 | three bytes give four base64 characters |
| Base64.Encode | src/display/ascii_art.rs:117 | the encoding has 4 characters per started group of 3 bytes, all from the alphabet or `=` |
| Base64.DecodeEncode | src/display/ascii_art.rs:117 | decoding the encoding gives the bytes back |
| Custom.CharsInBytes | src/info/custom.rs:17 | the number of characters in a byte prefix when the cut lies on a character boundary; none when no prefix has that byte length |
| Custom.Truncate | src/info/custom.rs:16-20 | output of up to 100 bytes is kept; longer output is cut to 97 bytes plus "...", for exactly 100 bytes; it panics exactly when byte 97 is not a character boundary |
| Custom.ExecuteCustomCommand | src/info/custom.rs:4-25 | a failed spawn is an error; a failed exit gives an error holding the trimmed stderr; success gives the decoded, trimmed and truncated stdout, or the panic |
| Custom.CustomValueShape | src/info/custom.rs:11-20 | a command value has at most 100 bytes, and is trimmed unless it was cut |
| Custom.ValidOutputKept | src/info/custom.rs:11-19 | trimmed UTF-8 output of up to 100 bytes comes back unchanged |
| Custom.AsciiNeverPanics | src/info/custom.rs:16-17 | ASCII output never panics when cut |
| Custom.SplitCharacterPanics | src/info/custom.rs:16-17 | a multibyte character straddling byte 97 makes the cut panic |
| Custom.SplitCharacterExample | src/info/custom.rs:16-17 | 96 letters, "é" and ten more letters panic |
| Info.BlocksShow | src/info/mod.rs:35-64 | a row of colour blocks shows three block characters per colour |
| Info.ColorBlocksShape | src/info/mod.rs:35-64 | the colour blocks show two rows of 24 block characters and hold exactly one line feed |
| Info.CollectField | src/info/mod.rs:66-91 | only a custom command can panic |
| Info.CustomTakesPrecedence | src/info/mod.rs:68-70 | a custom command overrides a built-in field of the same name |
| Info.UnknownField | src/info/mod.rs:89 | a name with neither a command nor a built-in case is "Unknown" |
| Info.CollectAll | src/info/mod.rs:23-33 | the loop's result is the collected map of the configured fields |
| Info.CollectedStep | src/info/mod.rs:26-31 | one more field: a panic ends the collection, a value is inserted, an error leaves the map unchanged |
| Info.CollectedPanics | src/info/mod.rs:23-33 | once a prefix panics, the whole collection panics |
| Info.CollectedMap | src/info/mod.rs:23-33 | the collection panics exactly when some field panics; otherwise the map holds exactly the fields that returned a value, each bound to its value |
| Info.NoCustomNoPanic | src/info/mod.rs:23-33 | without custom commands the collection always returns a map |
| AsciiArt.BuiltinArtMap | src/display/ascii_art.rs:72-84 | the art map has exactly the seven built-in names; "default" is the default art |
| AsciiArt.GetBuiltinArt | src/display/ascii_art.rs:58-65 | a built-in name gives its art; any other name gives the default art; it never fails |
| AsciiArt.UnknownBuiltinIsDefault | src/display/ascii_art.rs:61-63 | an unknown name gives the same as "default" |
| AsciiArt.DetectedArtName | src/display/ascii_art.rs:37-56 | auto-detection always names a built-in art |
| AsciiArt.GetAutoDetectedArt | src/display/ascii_art.rs:37-56 | auto-detection gives the art named after the lower-cased OS name, or after "" when the name is unknown |
| AsciiArt.DetectedArtExamples | src/display/ascii_art.rs:41-55 | "Ubuntu 22.04", "Debian GNU/Linux", "Arch Linux", "Darwin", "Fedora Linux" and "Linux" pick ubuntu, debian, arch, macos, fedora and linux (the distributions before the generic "linux"); "Windows" and "" get the default |
| AsciiArt.LoadAsciiArtFile | src/display/ascii_art.rs:67-70 | the file loads exactly when it exists and is valid UTF-8; its text encodes back to the file's bytes; any other case is an error for that path |
| AsciiArt.RenderIterm2Image | src/display/ascii_art.rs:108-140 | the result is ok exactly when the file is readable, and is then the iTerm2 sequence for its bytes (tmux-wrapped under tmux); otherwise an error for that path |
| AsciiArt.DoubleEsc | src/display/ascii_art.rs:127-131 | a text without escapes is left unchanged |
| AsciiArt.TmuxPassThrough | src/display/ascii_art.rs:127-131 | the tmux form is the plain sequence with its escapes doubled, inside the tmux DCS (Device Control String) wrapper |
| AsciiArt.ParseItermPlain | src/display/ascii_art.rs:133-136 | the image bytes can be read back from the plain iTerm2 sequence |
| AsciiArt.RenderKittyImage | src/display/ascii_art.rs:142-160 | the result is ok exactly when the file is readable, and is then the Kitty command for its bytes; otherwise an error for that path |
| AsciiArt.ParseKittyCommand | src/display/ascii_art.rs:153-157 | the byte count and the image bytes can be read back from the Kitty command |
| AsciiArt.BlockRows | src/display/ascii_art.rs:180-192 | one text row per pixel row |
| AsciiArt.RenderImageAsAsciiBlocks | src/display/ascii_art.rs:177-194 | the nested loops produce the block raster: each pixel is a 24-bit-colour "▓" followed by a reset; each row ends with a line feed |
| AsciiArt.BlockRasterLines | src/display/ascii_art.rs:180-192 | the raster splits back into exactly its rows |
| AsciiArt.RowShowsGlyphs | src/display/ascii_art.rs:181-190 | a raster row shows one "▓" per pixel |
| AsciiArt.RenderImageAsBlocks | src/display/ascii_art.rs:162-195 | the result is ok exactly when the image loads, and is then the raster of the resized image; otherwise an error for that path |
| AsciiArt.ChosenEncoder | src/display/ascii_art.rs:90-105 | iTerm2 exactly when `TERM_PROGRAM` is "iTerm.app"; otherwise Kitty exactly when `TERM` contains "kitty"; otherwise blocks |
| AsciiArt.RenderImageAsTerminal | src/display/ascii_art.rs:86-106 | without the `images` feature the result is an error; otherwise it is the chosen encoder's result |
| AsciiArt.GetAsciiArt | src/display/ascii_art.rs:6-35 | one case per source: none gives ""; auto gives the default art or the detected one; builtin gives the named art or the default; file and image without a path give the default art; with a path, the file or image result |
| AsciiArt.GetAsciiArtFailsOnlyOnPaths | src/display/ascii_art.rs:6-35 | resolving the logo fails only for a file or image source with a path |
| Display.CustomLabel | src/display/mod.rs:179-185 | a custom label has the field's length; its first character is upper-cased, every `_` becomes a space, and no `_` remains |
| Display.GetFieldLabel | src/display/mod.rs:162-187 | the fixed labels for the known fields; the custom label for any other field |
| Display.LabelExamples | src/display/mod.rs:162-187 | "terminal_font" gives "Terminal font", "git_branch" gives "Git branch", and "os" gives "OS" |
| Display.ColourOf | src/display/mod.rs:208-230 | a known colour name gives the colour of that name; any other name gives white |
| Display.ColourNamesRoundTrip | src/display/mod.rs:208-230 | each colour is found again from its name |
| Display.ApplyColorByName | src/display/mod.rs:208-230 | without colours the text is unchanged; with them it is wrapped in the SGR sequence of the named colour's code (white for an unknown name) and a reset |
| Display.ApplyColorShows | src/display/mod.rs:208-230 | a styled text without escapes still shows exactly the text |
| Display.ApplyColorDistinguishes | src/display/mod.rs:211-228 | styled, two colour names give the same text exactly when they select the same colour |
| Display.UnknownColourIsWhite | src/display/mod.rs:228 | an unknown colour name styles like "white" |
| Display.ColorizeValue | src/display/mod.rs:189-206 | the colour-blocks field, or colouring turned off, leaves the value alone; otherwise the field's colour is applied, white when it has none |
| Display.ColorizeShows | src/display/mod.rs:189-206 | a colourised value without escapes shows as the value itself |
| Display.HeaderRows | src/display/mod.rs:124-131 | with a userhost there are two header rows, without one none; unstyled they are the userhost and one dash per byte of it |
| Display.HeaderShows | src/display/mod.rs:124-131 | styled or not, the header shows the userhost and, under it, one dash per byte of the userhost |
| Display.FieldRow | src/display/mod.rs:134-157 | the userhost and missing fields give no row; the colour blocks give a bare row unless their label is enabled; every other field gives one labelled row |
| Display.FieldRowsAppend | src/display/mod.rs:134-157 | the rows of a field list are the rows of its parts |
| Display.PlainLabelledRow | src/display/mod.rs:146-154 | unstyled, a labelled row is "Label: value" |
| Display.LabelledRowVisible | src/display/mod.rs:146-154 | styled, a labelled row still shows "Label: value" |
| Display.RenderInfoWithColors | src/display/mod.rs:120-160 | the loop produces the info block: header rows, then field rows, each ended by a line feed |
| Display.LogoWidth | src/display/mod.rs:86-89 | the widest logo line, in characters; 0 without logo lines |
| Display.PaddingAligns | src/display/mod.rs:100-104 | a logo line plus its padding is always the logo width plus two |
| Display.TextRows | src/display/mod.rs:83-113 | one row per line of the longer of the logo and the info |
| Display.TextOutput | src/display/mod.rs:74-116 | the loop produces the text layout of the logo lines and the info lines |
| Display.TextLayoutRows | src/display/mod.rs:83-113 | the text layout has one line feed per row |
| Display.TextRowShape | src/display/mod.rs:91-113 | row i is the blue logo line; when the info line i is not empty, it follows after padding to the common column |
| Display.ImageOutput | src/display/mod.rs:36-73 | the loop produces the image layout |
| Display.ImageLayoutShape | src/display/mod.rs:45-71 | trailing whitespace is trimmed from the image; the cursor goes 15 rows up; the info lines follow, each moved 35 columns right; fewer than 15 lines get a line feed and a move down; a final line feed ends it |
| Display.EmitPlacedJoined | src/display/mod.rs:57-64 | the placed lines are the info lines, each after a 35-column move, joined by line feeds |
| Display.PlacedPositions | src/display/mod.rs:57-64 | info line i is printed on row i after the start, 35 columns right |
| Display.ImagePlacements | src/display/mod.rs:50-71 | beside an image, info line i lands on row i of the image's 15 rows, 35 columns right; the cursor ends below both |
| Display.RenderedWithAscii | src/display/mod.rs:28-117 | rendering with the logo fails exactly when resolving the logo fails, with the same error |
| Display.Rendered | src/display/mod.rs:20-26 | without the logo the result is the info block alone; it can fail only when the logo is shown and cannot be resolved |
| Display.RenderWithAscii | src/display/mod.rs:28-117 | the method computes the image or text layout chosen by the logo's prefix |
| Display.Render | src/display/mod.rs:20-26 | the method computes the render function |
| Display.NoLogoIgnoresHost | src/display/mod.rs:20-26 | without the logo the output depends only on whether colours are on, and rendering always succeeds |
| Display.EncodersChooseMode | src/display/mod.rs:32-34 | the iTerm2 and Kitty outputs are recognised as images; the block raster never is |
| Scenarios.SampleCollected | src/info/mod.rs:23-33 | collecting three answered fields gives a map of their three values |
| Scenarios.SampleRendered | src/display/mod.rs:20-26 | unstyled without the logo, the three fields print as the header, a separator as long as the name, then "OS: …" and "CPU: …" |
| Scenarios.SampleTextLayout | src/display/mod.rs:74-116 | a two-line logo beside three info lines, with padding and an empty info line |
| Scenarios.DefaultTerminalFontUnknown | src/info/mod.rs:89 | the default field "terminal_font" has no built-in case, so it shows "Unknown" |
| Scenarios.DefaultColoursKnown | src/config/defaults.rs:6-21 | every default field colour is a known colour name |
| Scenarios.DefaultCollectionReturns | src/info/mod.rs:23-33 | with the default configuration, collection never panics |

## Left out

- Terminal styling (`colored`): styled text is an SGR opening sequence, the
  text and a reset. The model writes the codes in one fixed order
  (attributes, background, foreground). Byte-for-byte agreement with
  `colored` is therefore not claimed for a style with several codes. The extra escaping that `colored` does around
  resets inside the text is not modelled. The contracts say what the
  terminal shows, not which bytes `colored` writes.
- The decision whether to style at all: `colored` decides from whether
  stdout is a terminal and from `NO_COLOR`. The model takes the outcome as
  the flag `Host.colors`.
- Image decoding and the Lanczos3 resize are done by the `image` crate. The
  model takes the resized pixels per path (`Host.images`).
- Units.RoundTenths: `format_bytes` divides and rounds in `f64`. The model
  divides exactly and rounds ties to even. For byte counts above 2^53 the
  last printed digit can therefore differ from the program's.
- TOML parsing and serde: the default configuration file is transcribed as
  its two tables (`Defaults.TomlFields`, `Defaults.TomlFieldColors`). Only
  the `custom_commands` default is modelled (`Config.InfoFromTable`).
- The configuration loader, `src/config/loader.rs`, is not part of this
  model. Neither is `src/main.rs`.
- Reading the environment, the file system and the OS name, and spawning the
  shell, are inputs:
  - from the environment and files: `Host`;
  - from the shell: `CommandOutcome`;
  - from the built-in getters: `Probes.getter`.
  Choosing `sh -c` against `cmd /C` by platform is not modelled.
- The built-in getters of `src/info/system.rs`, `src/info/hardware.rs` and
  `src/info/software.rs` are not part of this model. Their results are the
  function `Probes.getter`.
- The built-in art texts (`assets/ascii/*.txt`) are not part of this model.
  Their contents are the parameter `AsciiArt.Assets`.
- Case mapping is ASCII-only (`Text.ToLower`, `Text.UpperAscii`). Rust also
  maps non-ASCII letters. OS detection is not affected, for these reasons:
  - every keyword (src/display/ascii_art.rs:41-51) is ASCII;
  - only two non-ASCII characters lower-case to something holding an ASCII
    letter: U+212A KELVIN SIGN becomes `k`, and U+0130 becomes `i`
    followed by U+0307;
  - no keyword contains `k`;
  - a U+0307 after the `i` breaks every keyword match through that `i`;
  - no keyword ends in `i`.
- An OS-name probe that changes between calls is not modelled. Each run sees
  one `Host`.
- Info.Probes: the built-in getters and the shell are functions of the
  field name and of the command. Every call with the same argument
  therefore gets the same answer.
  - Not modelled: a value that changes between calls (the uptime, a `date`
    command), and a command that fails only sometimes.
  - In the source, each entry of `fields` calls the getter again
    (src/info/mod.rs:26-29), so a later `Ok` for a repeated field
    overwrites the earlier one.
  - The model's map for a field listed twice is the same whichever of the
    two values is kept. `Info.CollectedStep` does state that a later value
    overwrites.
- Output to stdout: the model returns the text `render` builds.

## Behaviour of the code worth noting

- The header separator has as many dashes as the user@host text has bytes
  (`len()`), not characters.
- Each info row is followed by a line feed, including the last.
- Rendering the info block never fails.
- In image mode the height and width are the fixed constants 15 and 35, and
  the iTerm2 arguments ask for 30 by 15 cells.
- With no info lines, the cursor ends at the start of row r + 2. Here r is
  the row after the image.
- `auto_detect` is off by default. An `auto` source then shows the default
  art.
