/** The display of `src/display/mod.rs`: the info block (a header, then one
    "Label: value" line per field, in the configured order) and the
    compositor that puts the logo beside it, either as text rows side by
    side or, for an inline terminal image, as the image followed by cursor
    movements that print the info lines to its right. `colors` stands for
    whether `colored` styles its output. */
module Display {
  import opened Base
  import opened Text
  import Utf8
  import opened Style
  import opened Config
  import opened Environment
  import opened Terminal
  import AsciiArt

  // ---------------------------------------------------------------------
  // Field labels

  /** The labels `get_field_label` spells out. */
  const FixedLabels: map<string, string> := map[
    "os" := "OS", "hostname" := "Host", "kernel" := "Kernel", "uptime" := "Uptime",
    "packages" := "Packages", "shell" := "Shell", "resolution" := "Resolution",
    "de" := "DE", "wm" := "WM", "terminal" := "Terminal", "cpu" := "CPU",
    "memory" := "Memory", "disk" := "Disk", "colors" := "Colors"]

  /** `s` with its first character uppercased. */
  function Capitalized(s: string): (r: string)
    ensures |r| == |s| && (s != [] ==> r[1..] == s[1..])
    ensures s != [] ==> r[0] == UpperAscii(s[0])
  {
    if s == [] then [] else [UpperAscii(s[0])] + s[1..]
  }

  /** The label of a field without a fixed label: its name with the first
      character uppercased and every underscore turned into a space. */
  function CustomLabel(field: string): (text: string)
    ensures |text| == |field|
    ensures field != [] ==> text[0] == (if UpperAscii(field[0]) == '_' then ' ' else UpperAscii(field[0]))
    ensures forall k :: 0 < k < |field| ==> text[k] == (if field[k] == '_' then ' ' else field[k])
    ensures '_' !in text
  {
    var c := Capitalized(field);
    assert forall k :: 0 < k < |field| ==> c[k] == field[k] by {
      forall k | 0 < k < |field| ensures c[k] == field[k] {
        assert c[k] == c[1..][k - 1];
      }
    }
    ReplaceChar(c, '_', ' ')
  }

  function FieldLabel(field: string): string {
    if field in FixedLabels then FixedLabels[field] else CustomLabel(field)
  }

  /** `get_field_label`: the fixed label, or the name's characters copied
      into a buffer whose first entry is uppercased, then underscores
      replaced. */
  method GetFieldLabel(field: string) returns (text: string)
    ensures field in FixedLabels ==> text == FixedLabels[field]
    ensures field !in FixedLabels ==> text == CustomLabel(field)
  {
    if field in FixedLabels {
      return FixedLabels[field];
    }
    var chars := new char[|field|](k requires 0 <= k < |field| => field[k]);
    if chars.Length > 0 {
      chars[0] := UpperAscii(chars[0]);
    }
    assert chars[..] == Capitalized(field);
    text := ReplaceChar(chars[..], '_', ' ');
  }

  /** Labels of custom fields, as the program shows them. */
  lemma LabelExamples()
    ensures FieldLabel("terminal_font") == "Terminal font"
    ensures FieldLabel("git_branch") == "Git branch"
    ensures FieldLabel("os") == "OS"
  {
    assert "terminal_font" !in FixedLabels;
    assert "git_branch" !in FixedLabels;
  }

  // ---------------------------------------------------------------------
  // Colours of values

  /** The colour names `apply_color_by_name` knows. */
  const ColourNames: set<string> := {
    "black", "red", "green", "yellow", "blue", "magenta", "cyan", "white",
    "bright_black", "bright_red", "bright_green", "bright_yellow",
    "bright_blue", "bright_magenta", "bright_cyan", "bright_white"}

  function ColourName(c: Colour): (name: string)
    ensures name in ColourNames
  {
    match c
    case Black => "black"
    case Red => "red"
    case Green => "green"
    case Yellow => "yellow"
    case Blue => "blue"
    case Magenta => "magenta"
    case Cyan => "cyan"
    case White => "white"
    case BrightBlack => "bright_black"
    case BrightRed => "bright_red"
    case BrightGreen => "bright_green"
    case BrightYellow => "bright_yellow"
    case BrightBlue => "bright_blue"
    case BrightMagenta => "bright_magenta"
    case BrightCyan => "bright_cyan"
    case BrightWhite => "bright_white"
  }

  /** The colour a name selects; any other name selects white. */
  function ColourOf(name: string): (c: Colour)
    ensures name in ColourNames ==> ColourName(c) == name
    ensures name !in ColourNames ==> c == White
  {
    if name == "black" then Black
    else if name == "red" then Red
    else if name == "green" then Green
    else if name == "yellow" then Yellow
    else if name == "blue" then Blue
    else if name == "magenta" then Magenta
    else if name == "cyan" then Cyan
    else if name == "white" then White
    else if name == "bright_black" then BrightBlack
    else if name == "bright_red" then BrightRed
    else if name == "bright_green" then BrightGreen
    else if name == "bright_yellow" then BrightYellow
    else if name == "bright_blue" then BrightBlue
    else if name == "bright_magenta" then BrightMagenta
    else if name == "bright_cyan" then BrightCyan
    else if name == "bright_white" then BrightWhite
    else White
  }

  /** Each of the sixteen names selects its own colour, so names and colours
      are in one-to-one correspondence. */
  lemma ColourNamesRoundTrip(c: Colour)
    ensures ColourOf(ColourName(c)) == c
  {
  }

  /** `apply_color_by_name`: the text in the named foreground colour. */
  function ApplyColorByName(colors: bool, text: string, name: string): (r: string)
    ensures !colors ==> r == text
    ensures colors ==> r == Sgr([FgCode(ColourOf(name))]) + text + Reset
  {
    Paint(colors, Fg(ColourOf(name)), text)
  }

  /** Styling changes only how the text looks: a terminal shows the text. */
  lemma ApplyColorShows(colors: bool, text: string, name: string)
    requires Esc !in text
    ensures Visible(ApplyColorByName(colors, text, name)) == text
  {
    PaintVisible(colors, Fg(ColourOf(name)), text);
  }

  /** Styled, two colour names give the same text exactly when they select
      the same colour. */
  lemma ApplyColorDistinguishes(text: string, n: string, m: string)
    ensures ApplyColorByName(true, text, n) == ApplyColorByName(true, text, m) <==> ColourOf(n) == ColourOf(m)
  {
    if ApplyColorByName(true, text, n) == ApplyColorByName(true, text, m) {
      PaintFgInjective(ColourOf(n), ColourOf(m), text);
    }
  }

  /** An unknown colour name behaves exactly like "white". */
  lemma UnknownColourIsWhite(colors: bool, text: string, name: string)
    requires name !in ColourNames
    ensures ApplyColorByName(colors, text, name) == ApplyColorByName(colors, text, "white")
  {
  }

  /** `colorize_value`. */
  function ColorizeValue(colors: bool, field: string, value: string, colorValues: bool,
                         fieldColors: map<string, string>): (r: string)
    ensures field == "colors" || !colorValues ==> r == value
    ensures field != "colors" && colorValues
            ==> r == ApplyColorByName(colors, value, if field in fieldColors then fieldColors[field] else "white")
  {
    if field == "colors" || !colorValues then value
    else ApplyColorByName(colors, value, if field in fieldColors then fieldColors[field] else "white")
  }

  /** A colourised value shows as the value itself. */
  lemma ColorizeShows(colors: bool, field: string, value: string, colorValues: bool,
                      fieldColors: map<string, string>)
    requires Esc !in value
    ensures Visible(ColorizeValue(colors, field, value, colorValues, fieldColors)) == value
  {
    if field == "colors" || !colorValues {
      VisibleOfPlain(value);
    } else {
      ApplyColorShows(colors, value, if field in fieldColors then fieldColors[field] else "white");
    }
  }

  // ---------------------------------------------------------------------
  // The info block

  /** The userhost line in bold bright green and, under it, as many dimmed
      dashes as the userhost has bytes. */
  function HeaderRows(colors: bool, info: map<string, string>): (rows: seq<string>)
    ensures "userhost" !in info ==> rows == []
    ensures "userhost" in info ==> |rows| == 2
    ensures !colors && "userhost" in info
            ==> rows == [info["userhost"], Repeat('-', Utf8.ByteLen(info["userhost"]))]
  {
    if "userhost" in info then
      var u := info["userhost"];
      [Paint(colors, Fg(BrightGreen).Bold(), u), Paint(colors, Dimmed, Repeat('-', Utf8.ByteLen(u)))]
    else []
  }

  /** Styled or not, the header shows the userhost and, under it, one dash
      per byte of the userhost. */
  lemma HeaderShows(colors: bool, info: map<string, string>)
    requires "userhost" in info && Esc !in info["userhost"]
    ensures var rows, u := HeaderRows(colors, info), info["userhost"];
            Visible(rows[0]) == u && Visible(rows[1]) == Repeat('-', Utf8.ByteLen(u))
  {
    var u := info["userhost"];
    var dashes := Repeat('-', Utf8.ByteLen(u));
    assert Esc !in dashes;
    PaintVisible(colors, Fg(BrightGreen).Bold(), u);
    PaintVisible(colors, Dimmed, dashes);
  }

  /** The line of a field that has a label: the label in bold cyan, a dimmed
      colon, a space, the colourised value. */
  function LabelledRow(cfg: Config, colors: bool, field: string, value: string): string {
    Paint(colors, Fg(Cyan).Bold(), FieldLabel(field)) + Paint(colors, Dimmed, ":") + " "
    + ColorizeValue(colors, field, value, cfg.display.colorValues, cfg.display.fieldColors)
  }

  /** The lines one entry of the field list contributes: none for
      "userhost" or a field without a value, the raw value for "colors"
      without its label, the labelled line otherwise. */
  function FieldRow(cfg: Config, colors: bool, info: map<string, string>, field: string): (rows: seq<string>)
    ensures |rows| <= 1
    ensures |rows| == 1 <==> field != "userhost" && field in info
    ensures field == "colors" && field in info && !cfg.display.showColorsLabel ==> rows == [info[field]]
    ensures field != "userhost" && field in info && (field != "colors" || cfg.display.showColorsLabel)
            ==> rows == [LabelledRow(cfg, colors, field, info[field])]
  {
    if field == "userhost" || field !in info then []
    else if field == "colors" && !cfg.display.showColorsLabel then [info[field]]
    else [LabelledRow(cfg, colors, field, info[field])]
  }

  function FieldRows(cfg: Config, colors: bool, info: map<string, string>, fields: seq<string>): seq<string> {
    if fields == [] then []
    else FieldRows(cfg, colors, info, fields[..|fields| - 1]) + FieldRow(cfg, colors, info, fields[|fields| - 1])
  }

  function InfoRows(cfg: Config, colors: bool, info: map<string, string>): seq<string> {
    HeaderRows(colors, info) + FieldRows(cfg, colors, info, cfg.info.fields)
  }

  /** The text `render_info_with_colors` returns: every row ended by a line feed. */
  function InfoBlock(cfg: Config, colors: bool, info: map<string, string>): string {
    Terminated(InfoRows(cfg, colors, info))
  }

  /** The field lines follow the field list: the lines of a concatenated
      list are the lines of its parts, in order, so a repeated name
      repeats its line. */
  lemma {:induction false} FieldRowsAppend(cfg: Config, colors: bool, info: map<string, string>,
                                           a: seq<string>, b: seq<string>)
    ensures FieldRows(cfg, colors, info, a + b) == FieldRows(cfg, colors, info, a) + FieldRows(cfg, colors, info, b)
    decreases |b|
  {
    if b == [] {
      assert a + b == a;
    } else {
      var n := |b| - 1;
      assert (a + b)[..|a + b| - 1] == a + b[..n];
      assert (a + b)[|a + b| - 1] == b[n];
      FieldRowsAppend(cfg, colors, info, a, b[..n]);
    }
  }

  /** Each field contributes its own lines, nothing else. */
  lemma FieldRowsCons(cfg: Config, colors: bool, info: map<string, string>, f: string, rest: seq<string>)
    ensures FieldRows(cfg, colors, info, [f] + rest) == FieldRow(cfg, colors, info, f) + FieldRows(cfg, colors, info, rest)
  {
    FieldRowsAppend(cfg, colors, info, [f], rest);
    assert [f][..0] == [];
  }

  /** Unstyled, a labelled line reads "Label: value". */
  lemma PlainLabelledRow(cfg: Config, field: string, value: string)
    ensures LabelledRow(cfg, false, field, value) == FieldLabel(field) + ": " + value
  {
  }

  /** Styled, a labelled line shows "Label: value". */
  lemma LabelledRowVisible(cfg: Config, colors: bool, field: string, value: string)
    requires Esc !in FieldLabel(field) && Esc !in value
    ensures Visible(LabelledRow(cfg, colors, field, value)) == FieldLabel(field) + ": " + value
  {
    var v := ColorizeValue(colors, field, value, cfg.display.colorValues, cfg.display.fieldColors);
    var l := FieldLabel(field);
    LabelledRowParts(cfg, colors, field, value);
    PaintedPair(colors, Fg(Cyan).Bold(), l, Dimmed, ":", v);
    ColorizeShows(colors, field, value, cfg.display.colorValues, cfg.display.fieldColors);
    ColonSpace(l, value);
  }

  lemma ColonSpace(l: string, value: string)
    ensures l + (":" + (" " + value)) == l + ": " + value
  {
    assert ":" + " " == ": ";
    assert ":" + (" " + value) == ": " + value;
  }

  lemma LabelledRowParts(cfg: Config, colors: bool, field: string, value: string)
    ensures LabelledRow(cfg, colors, field, value)
         == Paint(colors, Fg(Cyan).Bold(), FieldLabel(field)) + (Paint(colors, Dimmed, ":")
            + (" " + ColorizeValue(colors, field, value, cfg.display.colorValues, cfg.display.fieldColors)))
  {
    Assoc4(Paint(colors, Fg(Cyan).Bold(), FieldLabel(field)), Paint(colors, Dimmed, ":"), " ",
           ColorizeValue(colors, field, value, cfg.display.colorValues, cfg.display.fieldColors));
  }

  lemma PaintedPair(colors: bool, la: Look, a: string, lb: Look, b: string, v: string)
    requires Esc !in a && Esc !in b
    ensures Visible(Paint(colors, la, a) + (Paint(colors, lb, b) + (" " + v))) == a + (b + (" " + Visible(v)))
  {
    PaintVisibleThen(colors, la, a, Paint(colors, lb, b) + (" " + v));
    PaintVisibleThen(colors, lb, b, " " + v);
    VisiblePlain(" ", v);
  }

  /** `render_info_with_colors`: the header, then a loop over the configured
      fields that appends each field's line. It cannot fail. */
  method RenderInfoWithColors(cfg: Config, colors: bool, info: map<string, string>) returns (out: string)
    ensures out == InfoBlock(cfg, colors, info)
  {
    out := "";
    if "userhost" in info {
      var u := info["userhost"];
      out := out + Paint(colors, Fg(BrightGreen).Bold(), u);
      out := out + "\n";
      var separator := Repeat('-', Utf8.ByteLen(u));
      out := out + Paint(colors, Dimmed, separator);
      out := out + "\n";
    }
    ghost var header := Terminated(HeaderRows(colors, info));
    HeaderText(colors, info, out);
    var fields := cfg.info.fields;
    for i := 0 to |fields|
      invariant out == header + Terminated(FieldRows(cfg, colors, info, fields[..i]))
    {
      var field := fields[i];
      ghost var before := out;
      ghost var row := FieldRow(cfg, colors, info, field);
      if field == "userhost" {
        NoRow(before, row);
        FieldStep(cfg, colors, info, fields, i, header, before, out);
        continue;
      }
      if field in info {
        var value := info[field];
        if field == "colors" && !cfg.display.showColorsLabel {
          out := out + value;
          out := out + "\n";
          OneRow(before, value, row);
        } else {
          var shown := GetFieldLabel(field);
          var line := Paint(colors, Fg(Cyan).Bold(), shown) + Paint(colors, Dimmed, ":") + " "
                      + ColorizeValue(colors, field, value, cfg.display.colorValues, cfg.display.fieldColors);
          out := out + line;
          out := out + "\n";
          OneRow(before, line, row);
        }
      } else {
        NoRow(before, row);
      }
      FieldStep(cfg, colors, info, fields, i, header, before, out);
    }
    assert fields[..|fields|] == fields;
    TerminatedAppend(HeaderRows(colors, info), FieldRows(cfg, colors, info, fields));
  }

  lemma NoRow(before: string, rows: seq<string>)
    requires rows == []
    ensures before == before + Terminated(rows)
  {
    assert before + "" == before;
  }

  lemma OneRow(before: string, line: string, rows: seq<string>)
    requires rows == [line]
    ensures before + line + "\n" == before + Terminated(rows)
  {
    TerminatedOne(line);
    Assoc(before, line, "\n");
  }

  /** The loop's invariant is kept when a field's lines are appended. */
  lemma FieldStep(cfg: Config, colors: bool, info: map<string, string>, fields: seq<string>, i: nat,
                  head: string, before: string, out: string)
    requires i < |fields|
    requires before == head + Terminated(FieldRows(cfg, colors, info, fields[..i]))
    requires out == before + Terminated(FieldRow(cfg, colors, info, fields[i]))
    ensures out == head + Terminated(FieldRows(cfg, colors, info, fields[..i + 1]))
  {
    FieldRowsStep(cfg, colors, info, fields, i);
    Assoc(head, Terminated(FieldRows(cfg, colors, info, fields[..i])), Terminated(FieldRow(cfg, colors, info, fields[i])));
  }

  /** What the header code appends is the header rows, each ended by a line feed. */
  lemma HeaderText(colors: bool, info: map<string, string>, out: string)
    requires "userhost" !in info ==> out == ""
    requires "userhost" in info ==>
      out == "" + Paint(colors, Fg(BrightGreen).Bold(), info["userhost"]) + "\n"
             + Paint(colors, Dimmed, Repeat('-', Utf8.ByteLen(info["userhost"]))) + "\n"
    ensures out == Terminated(HeaderRows(colors, info))
  {
    var rows := HeaderRows(colors, info);
    if "userhost" in info {
      TerminatedOne(rows[1]);
      assert rows == [rows[0]] + [rows[1]];
      assert Terminated(rows) == rows[0] + "\n" + Terminated([rows[1]]);
    }
  }

  lemma TerminatedOne(x: string)
    ensures Terminated([x]) == x + "\n"
  {
    assert [x][1..] == [];
  }

  lemma FieldRowsStep(cfg: Config, colors: bool, info: map<string, string>, fields: seq<string>, i: nat)
    requires i < |fields|
    ensures Terminated(FieldRows(cfg, colors, info, fields[..i + 1]))
            == Terminated(FieldRows(cfg, colors, info, fields[..i])) + Terminated(FieldRow(cfg, colors, info, fields[i]))
  {
    var p := fields[..i + 1];
    assert p[..|p| - 1] == fields[..i];
    TerminatedAppend(FieldRows(cfg, colors, info, fields[..i]), FieldRow(cfg, colors, info, fields[i]));
  }

  // ---------------------------------------------------------------------
  // Text mode: logo rows and info rows side by side

  /** Row `i` of `ls`, or "" past its end (`get(i).unwrap_or(&"")`). */
  function LineAt(ls: seq<string>, i: int): string {
    if 0 <= i < |ls| then ls[i] else ""
  }

  /** The widest logo line, in characters; 0 for no lines. */
  function LogoWidth(ls: seq<string>): (w: nat)
    ensures forall k :: 0 <= k < |ls| ==> |ls[k]| <= w
    ensures ls != [] ==> exists k :: 0 <= k < |ls| && |ls[k]| == w
    ensures ls == [] ==> w == 0
  {
    if ls == [] then 0
    else
      var rest := LogoWidth(ls[1..]);
      if |ls[0]| >= rest then |ls[0]| else rest
  }

  /** The spaces between a logo line and its info line. */
  function Padding(width: nat, logoLine: string): string {
    if |logoLine| < width then Repeat(' ', width - |logoLine| + 2) else "  "
  }

  /** Every info line starts two columns after the widest logo line. */
  lemma PaddingAligns(width: nat, logoLine: string)
    requires |logoLine| <= width
    ensures Padding(width, logoLine) == Repeat(' ', width + 2 - |logoLine|)
    ensures |logoLine| + |Padding(width, logoLine)| == width + 2
  {
  }

  /** One text-mode row: the logo line in bright blue, then, when the info
      line is not empty, the padding and the info line. */
  function TextRow(colors: bool, width: nat, logoLine: string, infoLine: string): string {
    if infoLine == "" then Paint(colors, Fg(BrightBlue), logoLine)
    else Paint(colors, Fg(BrightBlue), logoLine) + Padding(width, logoLine) + infoLine
  }

  function RowCount(logoLines: seq<string>, infoLines: seq<string>): nat {
    if |logoLines| >= |infoLines| then |logoLines| else |infoLines|
  }

  function TextRows(colors: bool, logoLines: seq<string>, infoLines: seq<string>): (rows: seq<string>)
    ensures |rows| == RowCount(logoLines, infoLines)
  {
    var w := LogoWidth(logoLines);
    seq(RowCount(logoLines, infoLines), i =>
      TextRow(colors, w, LineAt(logoLines, i), LineAt(infoLines, i)))
  }

  /** The text-mode output: every row ended by a line feed. */
  function TextLayout(colors: bool, logoLines: seq<string>, infoLines: seq<string>): string {
    Terminated(TextRows(colors, logoLines, infoLines))
  }

  /** The loop of the text-lines branch of `render_with_ascii`. */
  method TextOutput(colors: bool, logoLines: seq<string>, infoLines: seq<string>) returns (out: string)
    ensures out == TextLayout(colors, logoLines, infoLines)
  {
    var maxLines := if |logoLines| >= |infoLines| then |logoLines| else |infoLines|;
    var logoWidth := LogoWidth(logoLines);
    ghost var rows := TextRows(colors, logoLines, infoLines);
    out := "";
    for i := 0 to maxLines
      invariant out == Terminated(rows[..i])
    {
      var logoLine := LineAt(logoLines, i);
      var infoLine := LineAt(infoLines, i);
      var coloredLogoLine := Paint(colors, Fg(BrightBlue), logoLine);
      var padding := Padding(logoWidth, logoLine);
      ghost var before := out;
      if infoLine == "" {
        out := out + coloredLogoLine;
      } else {
        out := out + (coloredLogoLine + padding + infoLine);
      }
      out := out + "\n";
      TextRowsIndex(colors, logoLines, infoLines, i);
      RowsStep(rows, i, before, TextRow(colors, logoWidth, logoLine, infoLine));
    }
    assert |rows| == maxLines;
    AllRows(rows, maxLines, out);
  }

  lemma AllRows(rows: seq<string>, n: nat, out: string)
    requires n == |rows| && out == Terminated(rows[..n])
    ensures out == Terminated(rows)
  {
    assert rows[..n] == rows;
  }

  lemma TextRowsIndex(colors: bool, logoLines: seq<string>, infoLines: seq<string>, i: nat)
    requires i < RowCount(logoLines, infoLines)
    ensures TextRows(colors, logoLines, infoLines)[i]
            == TextRow(colors, LogoWidth(logoLines), LineAt(logoLines, i), LineAt(infoLines, i))
  {
  }

  /** Appending row `i` and a line feed to the first `i` rows, ended. */
  lemma RowsStep(rows: seq<string>, i: nat, before: string, row: string)
    requires i < |rows| && before == Terminated(rows[..i]) && row == rows[i]
    ensures before + row + "\n" == Terminated(rows[..i + 1])
  {
    TerminatedSnoc(rows[..i], rows[i]);
    assert rows[..i + 1] == rows[..i] + [rows[i]];
  }

  /** Text mode writes exactly max(logo lines, info lines) rows, each ended
      by a line feed, when no line holds a line feed of its own (as none
      does after `lines()`). */
  lemma TextLayoutRows(colors: bool, logoLines: seq<string>, infoLines: seq<string>)
    requires forall k :: 0 <= k < |logoLines| ==> '\n' !in logoLines[k]
    requires forall k :: 0 <= k < |infoLines| ==> '\n' !in infoLines[k]
    ensures Count(TextLayout(colors, logoLines, infoLines), '\n') == RowCount(logoLines, infoLines)
  {
    var rows := TextRows(colors, logoLines, infoLines);
    forall k | 0 <= k < |rows|
      ensures '\n' !in rows[k]
    {
      var l := LineAt(logoLines, k);
      PaintNoNewline(colors, Fg(BrightBlue), l);
      assert '\n' !in Padding(LogoWidth(logoLines), l);
    }
    CountTerminated(rows);
  }

  /** A row with an info line is the styled logo line, the padding that
      brings the info line to column width + 2, and the info line; a row
      without one is the styled logo line alone. */
  lemma TextRowShape(colors: bool, logoLines: seq<string>, infoLines: seq<string>, i: nat)
    requires i < RowCount(logoLines, infoLines)
    ensures var l, w := LineAt(logoLines, i), LogoWidth(logoLines);
            |l| <= w
            && (LineAt(infoLines, i) == "" ==> TextRows(colors, logoLines, infoLines)[i] == Paint(colors, Fg(BrightBlue), l))
            && (LineAt(infoLines, i) != "" ==>
                  TextRows(colors, logoLines, infoLines)[i]
                  == Paint(colors, Fg(BrightBlue), l) + Repeat(' ', w + 2 - |l|) + LineAt(infoLines, i))
  {
    var l, w := LineAt(logoLines, i), LogoWidth(logoLines);
    PaddingAligns(w, l);
  }

  // ---------------------------------------------------------------------
  // Image mode: the image, then the info lines to its right

  /** The prefixes `render_with_ascii` takes for an inline terminal image. */
  predicate IsTerminalImage(logo: string) {
    StartsWith(logo, [Esc] + "]1337;") || StartsWith(logo, [Esc] + "Ptmux;") || StartsWith(logo, [Esc] + "_Ga=")
  }

  /** The image's height in rows and the column the info lines start at. */
  const ImageHeight: nat := 15
  const ImageWidth: nat := 35

  /** Each info line after a cursor-forward, the lines separated by line feeds. */
  function PlacedCmds(lines: seq<string>): seq<Cmd> {
    if lines == [] then []
    else
      var n := |lines| - 1;
      PlacedCmds(lines[..n]) + (if n > 0 then [NewLine] else []) + [Forward(ImageWidth), Print(lines[n])]
  }

  /** Cursor up to the image's top row, the placed info lines, a move down
      past the image when fewer lines than its height were printed, a final
      line feed. */
  function ImageCmds(lines: seq<string>): seq<Cmd> {
    [Up(ImageHeight)] + PlacedCmds(lines) + TailCmds(|lines|) + [NewLine]
  }

  /** The image-mode output: the image sequence without trailing whitespace,
      then the commands. */
  function ImageLayout(logo: string, lines: seq<string>): string {
    TrimEnd(logo) + Emit(ImageCmds(lines))
  }

  lemma PlacedStep(lines: seq<string>, i: nat)
    requires i < |lines|
    ensures Emit(PlacedCmds(lines[..i + 1]))
            == Emit(PlacedCmds(lines[..i])) + (if i > 0 then "\n" else "") + (Csi(ImageWidth, 'C') + lines[i])
  {
    var p := lines[..i + 1];
    assert p[..i] == lines[..i];
    var sep: seq<Cmd> := if i > 0 then [NewLine] else [];
    assert PlacedCmds(p) == PlacedCmds(lines[..i]) + sep + [Forward(ImageWidth), Print(lines[i])];
    EmitAppend(PlacedCmds(lines[..i]) + sep, [Forward(ImageWidth), Print(lines[i])]);
    EmitAppend(PlacedCmds(lines[..i]), sep);
    if i > 0 {
      EmitSingle(NewLine);
    }
    EmitPair(Forward(ImageWidth), Print(lines[i]));
  }

  lemma PlacedOut(top: string, before: string, lines: seq<string>, i: nat)
    requires i < |lines|
    requires before == top + Emit(PlacedCmds(lines[..i]))
    ensures before + (if i > 0 then "\n" else "") + (Csi(ImageWidth, 'C') + lines[i])
            == top + Emit(PlacedCmds(lines[..i + 1]))
  {
    PlacedStep(lines, i);
    var sep := if i > 0 then "\n" else "";
    Regroup(top, Emit(PlacedCmds(lines[..i])), sep, Csi(ImageWidth, 'C') + lines[i], "");
  }

  /** The image branch of `render_with_ascii`. */
  method ImageOutput(logo: string, infoLines: seq<string>) returns (out: string)
    ensures out == ImageLayout(logo, infoLines)
  {
    out := "";
    out := out + TrimEnd(logo);
    var imageHeight := 15;
    var imageWidth := 35;
    out := out + Csi(imageHeight, 'A');
    ghost var top := TrimEnd(logo) + Csi(ImageHeight, 'A');
    for i := 0 to |infoLines|
      invariant out == top + Emit(PlacedCmds(infoLines[..i]))
    {
      ghost var before := out;
      if i > 0 {
        out := out + "\n";
      }
      assert out == before + (if i > 0 then "\n" else "");
      out := out + (Csi(imageWidth, 'C') + infoLines[i]);
      PlacedOut(top, before, infoLines, i);
    }
    var remainingLines := if imageHeight > |infoLines| then imageHeight - |infoLines| else 0;
    ghost var mid := out;
    if remainingLines > 0 {
      out := out + ("\n" + Csi(remainingLines, 'B'));
    }
    out := out + "\n";
    assert infoLines[..|infoLines|] == infoLines;
    ImageTail(logo, infoLines, mid, out);
  }

  lemma ImageTail(logo: string, lines: seq<string>, mid: string, out: string)
    requires mid == TrimEnd(logo) + Csi(ImageHeight, 'A') + Emit(PlacedCmds(lines))
    requires out == mid + (if |lines| < ImageHeight then "\n" + Csi(ImageHeight - |lines|, 'B') else "") + "\n"
    ensures out == ImageLayout(logo, lines)
  {
    var tail := TailCmds(|lines|);
    var up, placed := [Up(ImageHeight)], PlacedCmds(lines);
    assert ImageCmds(lines) == up + placed + tail + [NewLine];
    EmitAppend(up + placed + tail, [NewLine]);
    EmitAppend(up + placed, tail);
    EmitAppend(up, placed);
    EmitSingle(Up(ImageHeight));
    EmitSingle(NewLine);
    if |lines| < ImageHeight {
      EmitPair(NewLine, Down(ImageHeight - |lines|));
    }
    var t, u, b, c := TrimEnd(logo), Csi(ImageHeight, 'A'), Emit(placed), Emit(tail);
    assert Emit(ImageCmds(lines)) == u + b + c + "\n";
    assert out == t + u + b + c + "\n";
    Regroup(t, u, b, c, "\n");
  }

  lemma Regroup(t: string, u: string, b: string, c: string, d: string)
    ensures t + u + b + c + d == t + (u + b + c + d)
  {
  }

  /** Image mode spelled out: the trimmed image, `ESC[15A`, the info lines
      each after `ESC[35C` and joined by line feeds, `"\n" ESC[(15-n)B` when
      there are n < 15 lines, and a final line feed. */
  lemma ImageLayoutShape(logo: string, lines: seq<string>)
    ensures ImageLayout(logo, lines)
         == TrimEnd(logo) + Csi(ImageHeight, 'A') + Joined(Prefixed(lines))
            + (if |lines| < ImageHeight then "\n" + Csi(ImageHeight - |lines|, 'B') else "") + "\n"
  {
    EmitPlacedJoined(lines);
    var mid := TrimEnd(logo) + Csi(ImageHeight, 'A') + Emit(PlacedCmds(lines));
    ImageTail(logo, lines, mid,
      mid + (if |lines| < ImageHeight then "\n" + Csi(ImageHeight - |lines|, 'B') else "") + "\n");
  }

  /** Each info line behind the cursor-forward sequence. */
  function Prefixed(lines: seq<string>): (r: seq<string>)
    ensures |r| == |lines|
  {
    seq(|lines|, i requires 0 <= i < |lines| => Csi(ImageWidth, 'C') + lines[i])
  }

  /** The rows separated by line feeds, with none after the last. */
  function Joined(rows: seq<string>): string {
    if rows == [] then ""
    else if |rows| == 1 then rows[0]
    else Joined(rows[..|rows| - 1]) + "\n" + rows[|rows| - 1]
  }

  lemma {:induction false} EmitPlacedJoined(lines: seq<string>)
    ensures Emit(PlacedCmds(lines)) == Joined(Prefixed(lines))
    decreases |lines|
  {
    if lines != [] {
      var n := |lines| - 1;
      EmitPlacedJoined(lines[..n]);
      PlacedStep(lines, n);
      assert lines[..n + 1] == lines;
      var p := Prefixed(lines);
      assert p[..n] == Prefixed(lines[..n]);
      if n == 0 {
        assert Emit(PlacedCmds(lines[..0])) == "";
      }
    }
  }

  // ---------------------------------------------------------------------
  // Where the terminal prints the info lines in image mode

  lemma ForwardPrint(x: string, p: Cursor)
    ensures Placements([Forward(ImageWidth), Print(x)], p) == [Placement(p.row, p.col + ImageWidth, x)]
    ensures Final([Forward(ImageWidth), Print(x)], p) == Cursor(p.row, p.col + ImageWidth + |Visible(x)|)
  {
    var cs := [Forward(ImageWidth), Print(x)];
    var p1 := Step(Forward(ImageWidth), p);
    assert p1 == Cursor(p.row, p.col + ImageWidth);
    assert cs[1..] == [Print(x)];
    assert [Print(x)][1..] == [];
    assert Placements([Print(x)], p1) == [Placement(p1.row, p1.col, x)] + Placements([], Step(Print(x), p1));
    assert Placements(cs, p) == [] + Placements([Print(x)], p1);
    assert Final(cs, p) == Final([Print(x)], p1);
    assert Final([Print(x)], p1) == Final([], Step(Print(x), p1));
  }

  /** A single cursor command prints nothing. */
  lemma MoveOnly(c: Cmd, p: Cursor)
    requires !c.Print?
    ensures Placements([c], p) == [] && Final([c], p) == Step(c, p)
  {
    assert [c][1..] == [];
    assert Placements([c], p) == [] + Placements([], Step(c, p));
  }

  lemma LineFeed(p: Cursor)
    ensures Placements([NewLine], p) == [] && Final([NewLine], p) == Cursor(p.row + 1, 0)
  {
    assert [NewLine][1..] == [];
  }

  /** From a cursor at (t, c), info line i is printed on row t + i: the
      first after 35 more columns, the others at column 35. */
  lemma {:induction false} PlacedPositions(lines: seq<string>, t: int, c: int)
    ensures |Placements(PlacedCmds(lines), Cursor(t, c))| == |lines|
    ensures forall i :: 0 <= i < |lines| ==>
              Placements(PlacedCmds(lines), Cursor(t, c))[i] == Placement(t + i, (if i == 0 then c else 0) + ImageWidth, lines[i])
    ensures lines == [] ==> Final(PlacedCmds(lines), Cursor(t, c)) == Cursor(t, c)
    ensures lines != [] ==> Final(PlacedCmds(lines), Cursor(t, c)).row == t + |lines| - 1
    decreases |lines|
  {
    if lines != [] {
      var n := |lines| - 1;
      var init := lines[..n];
      PlacedPositions(init, t, c);
      var a := PlacedCmds(init);
      var sep: seq<Cmd> := if n > 0 then [NewLine] else [];
      var b := [Forward(ImageWidth), Print(lines[n])];
      assert PlacedCmds(lines) == a + sep + b;
      var p0 := Cursor(t, c);
      RunAppend(a + sep, b, p0);
      RunAppend(a, sep, p0);
      var q := Final(a, p0);
      if n > 0 {
        LineFeed(q);
      } else {
        assert sep == [];
      }
      var q2 := Final(sep, q);
      assert q2 == (if n > 0 then Cursor(t + n, 0) else Cursor(t, c));
      ForwardPrint(lines[n], q2);
      var ps := Placements(PlacedCmds(lines), p0);
      assert ps == Placements(a, p0) + Placements(sep, q) + [Placement(q2.row, q2.col + ImageWidth, lines[n])];
      assert Placements(sep, q) == [];
    }
  }

  function TailCmds(n: nat): seq<Cmd> {
    if n < ImageHeight then [NewLine, Down(ImageHeight - n)] else []
  }

  /** The image commands run as: up to the image's top, the placed lines,
      the tail, which prints nothing, and the final line feed. */
  lemma ImageRun(lines: seq<string>, r: int, c: int)
    ensures var top := Cursor(r - ImageHeight, c);
            var q := Final(PlacedCmds(lines), top);
            Placements(ImageCmds(lines), Cursor(r, c)) == Placements(PlacedCmds(lines), top)
            && Final(ImageCmds(lines), Cursor(r, c)) == Step(NewLine, Final(TailCmds(|lines|), q))
  {
    var up: seq<Cmd> := [Up(ImageHeight)];
    var placed, tail := PlacedCmds(lines), TailCmds(|lines|);
    assert ImageCmds(lines) == up + placed + tail + [NewLine];
    var p0, top := Cursor(r, c), Cursor(r - ImageHeight, c);
    MoveOnly(Up(ImageHeight), p0);
    SilentThen(up, placed, p0);
    var q := Final(placed, top);
    TailMoves(|lines|, q);
    ThenSilent(up + placed, tail, p0);
    MoveOnly(NewLine, Final(tail, q));
    ThenSilent(up + placed + tail, [NewLine], p0);
  }

  /** Commands that print nothing only move the cursor for what follows. */
  lemma SilentThen(a: seq<Cmd>, b: seq<Cmd>, p: Cursor)
    requires Placements(a, p) == []
    ensures Placements(a + b, p) == Placements(b, Final(a, p))
    ensures Final(a + b, p) == Final(b, Final(a, p))
  {
    RunAppend(a, b, p);
    assert [] + Placements(b, Final(a, p)) == Placements(b, Final(a, p));
  }

  /** Commands that print nothing add no placements after the others. */
  lemma ThenSilent(a: seq<Cmd>, b: seq<Cmd>, p: Cursor)
    requires Placements(b, Final(a, p)) == []
    ensures Placements(a + b, p) == Placements(a, p)
    ensures Final(a + b, p) == Final(b, Final(a, p))
  {
    RunAppend(a, b, p);
    assert Placements(a, p) + [] == Placements(a, p);
  }

  lemma TailMoves(n: nat, q: Cursor)
    ensures Placements(TailCmds(n), q) == []
    ensures Final(TailCmds(n), q) == if n < ImageHeight then Cursor(q.row + 1 + ImageHeight - n, 0) else q
  {
    if n < ImageHeight {
      assert TailCmds(n) == [NewLine] + [Down(ImageHeight - n)];
      RunAppend([NewLine], [Down(ImageHeight - n)], q);
      MoveOnly(NewLine, q);
      MoveOnly(Down(ImageHeight - n), Step(NewLine, q));
    }
  }

  /** With the cursor at (r, c) after the image, the info lines land on the
      image's rows r - 15, r - 14, ..., to the right of it; afterwards the
      cursor is at the start of row r + 2 with no info lines, r + 1 with
      fewer than 15, and below the last info line otherwise. */
  lemma ImagePlacements(lines: seq<string>, r: int, c: int)
    ensures var ps := Placements(ImageCmds(lines), Cursor(r, c));
            |ps| == |lines|
            && forall i :: 0 <= i < |lines| ==>
                 ps[i] == Placement(r - ImageHeight + i, (if i == 0 then c else 0) + ImageWidth, lines[i])
    ensures Final(ImageCmds(lines), Cursor(r, c))
            == Cursor(if lines == [] then r + 2 else if |lines| < ImageHeight then r + 1 else r - ImageHeight + |lines|, 0)
  {
    ImageRun(lines, r, c);
    PlacedPositions(lines, r - ImageHeight, c);
    var q := Final(PlacedCmds(lines), Cursor(r - ImageHeight, c));
    TailMoves(|lines|, q);
  }

  // ---------------------------------------------------------------------
  // `render` and `render_with_ascii`

  /** What `render_with_ascii` returns: the logo's error, or the logo and the
      info lines laid out in image mode or in text mode. */
  function RenderedWithAscii(cfg: Config, host: Host, a: AsciiArt.Assets, info: map<string, string>): (r: Result<string>)
    ensures r.Err? <==> AsciiArt.GetAsciiArt(cfg, host, a).Err?
    ensures r.Err? ==> r.error == AsciiArt.GetAsciiArt(cfg, host, a).error
  {
    match AsciiArt.GetAsciiArt(cfg, host, a)
    case Err(e) => Err(e)
    case Ok(logo) =>
      var infoLines := Lines(InfoBlock(cfg, host.colors, info));
      if IsTerminalImage(logo) then Ok(ImageLayout(logo, infoLines))
      else Ok(TextLayout(host.colors, Lines(logo), infoLines))
  }

  /** What `render` returns. */
  function Rendered(cfg: Config, host: Host, a: AsciiArt.Assets, info: map<string, string>): (r: Result<string>)
    ensures !cfg.display.showLogo ==> r == Ok(InfoBlock(cfg, host.colors, info))
    ensures r.Err? ==> cfg.display.showLogo && AsciiArt.GetAsciiArt(cfg, host, a).Err?
  {
    if cfg.display.showLogo then RenderedWithAscii(cfg, host, a, info)
    else Ok(InfoBlock(cfg, host.colors, info))
  }

  method RenderWithAscii(cfg: Config, host: Host, a: AsciiArt.Assets, info: map<string, string>) returns (r: Result<string>)
    ensures r == RenderedWithAscii(cfg, host, a, info)
  {
    var art := AsciiArt.GetAsciiArt(cfg, host, a);
    if art.Err? {
      return Err(art.error);
    }
    var logo := art.value;
    var isTerminalImage := StartsWith(logo, [Esc] + "]1337;") || StartsWith(logo, [Esc] + "Ptmux;")
                           || StartsWith(logo, [Esc] + "_Ga=");
    var infoOutput := RenderInfoWithColors(cfg, host.colors, info);
    var infoLines := Lines(infoOutput);
    var output;
    if isTerminalImage {
      output := ImageOutput(logo, infoLines);
    } else {
      var logoLines := Lines(logo);
      output := TextOutput(host.colors, logoLines, infoLines);
    }
    return Ok(output);
  }

  /** `Display::render`. */
  method Render(cfg: Config, host: Host, a: AsciiArt.Assets, info: map<string, string>) returns (r: Result<string>)
    ensures r == Rendered(cfg, host, a, info)
  {
    if cfg.display.showLogo {
      r := RenderWithAscii(cfg, host, a, info);
    } else {
      var block := RenderInfoWithColors(cfg, host.colors, info);
      r := Ok(block);
    }
  }

  /** Without the logo the output depends on the host only through whether
      it is styled: no art is resolved, so no file, image or terminal
      setting matters and nothing can fail. */
  lemma NoLogoIgnoresHost(cfg: Config, h1: Host, h2: Host, a1: AsciiArt.Assets, a2: AsciiArt.Assets,
                          info: map<string, string>)
    requires !cfg.display.showLogo && h1.colors == h2.colors
    ensures Rendered(cfg, h1, a1, info) == Rendered(cfg, h2, a2, info)
    ensures Rendered(cfg, h1, a1, info).Ok?
  {
  }

  /** The iTerm2 and Kitty encoders' output takes the image path; the block
      raster, which starts with an SGR sequence (or is empty, or starts with
      a line feed for an image zero pixels wide), takes the text path. */
  lemma EncodersChooseMode(data: seq<byte>, inTmux: bool, g: Grid)
    ensures IsTerminalImage(AsciiArt.ItermSequence(data, inTmux))
    ensures IsTerminalImage(AsciiArt.KittyCommand(data))
    ensures !IsTerminalImage(AsciiArt.BlockRaster(g))
  {
    ItermStart(data, inTmux);
    KittyStart(data);
    RasterStart(g);
  }

  lemma ItermStart(data: seq<byte>, inTmux: bool)
    ensures IsTerminalImage(AsciiArt.ItermSequence(data, inTmux))
  {
    if inTmux {
      AsciiArt.ItermTmuxShape(data);
      PrefixOf([Esc] + "Ptmux;", [Esc, Esc] + AsciiArt.ItermBody(data) + [Esc, '\\']);
    } else {
      AsciiArt.ItermPlainShape(data);
      PrefixOf([Esc] + "]1337;", AsciiArt.ItermArgs + AsciiArt.B64.Encode(data) + [AsciiArt.Bel]);
    }
  }

  lemma KittyStart(data: seq<byte>)
    ensures IsTerminalImage(AsciiArt.KittyCommand(data))
  {
    AsciiArt.KittyShape(data);
    PrefixOf([Esc] + "_Ga=", "T,f=100,s=" + NatStr(|data|) + ",v=" + AsciiArt.B64.Encode(data) + AsciiArt.KittyEnd);
  }

  lemma PrefixOf(p: string, rest: string)
    ensures StartsWith(p + rest, p)
  {
    assert (p + rest)[..|p|] == p;
  }

  lemma RasterStart(g: Grid)
    ensures !IsTerminalImage(AsciiArt.BlockRaster(g))
  {
    AsciiArt.RasterOpening(g);
    NotImageOpening(AsciiArt.BlockRaster(g));
  }

  /** A text that is empty, starts with a line feed, or has '[' second is
      none of the three image prefixes, each of which has a different
      second character. */
  lemma NotImageOpening(s: string)
    requires s == [] || s[0] == '\n' || (|s| >= 2 && s[1] == '[')
    ensures !IsTerminalImage(s)
  {
    NotPrefix(s, [Esc] + "]1337;");
    NotPrefix(s, [Esc] + "Ptmux;");
    NotPrefix(s, [Esc] + "_Ga=");
  }

  lemma NotPrefix(s: string, p: string)
    requires |p| >= 2 && p[0] == Esc && p[1] != '['
    requires s == [] || s[0] == '\n' || (|s| >= 2 && s[1] == '[')
    ensures !StartsWith(s, p)
  {
    if |p| <= |s| {
      assert s[..|p|][0] == s[0] && s[..|p|][1] == s[1];
    }
  }
}
