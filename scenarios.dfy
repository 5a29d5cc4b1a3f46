/** Whole runs of the model on small inputs: fields collected from a host,
    the info block `render` prints for them, a text-mode layout, and what the
    default configuration asks for. */
module Scenarios {
  import opened Base
  import opened Text
  import Utf8
  import opened Config
  import opened Defaults
  import opened Environment
  import opened Custom
  import Info
  import Display
  import AsciiArt

  /** Three fields, no logo, default colours. */
  function SampleConfig(): Config {
    Config(DisplayConfig(false, true, false, true, DefaultFieldColors),
           InfoConfig(["userhost", "os", "cpu"], map[]),
           DefaultAsciiArt())
  }

  /** A host whose getters answer for the three fields and fail for the rest. */
  function SampleProbes(): Info.Probes {
    Info.Probes(
      f => if f == "userhost" then Ok("alice@box")
           else if f == "os" then Ok("TestOS 1.0")
           else if f == "cpu" then Ok("CoreX (4 cores)")
           else Err(CollectorFailed(f)),
      _ => SpawnFailed,
      false)
  }

  function SampleInfo(): map<string, string> {
    map["userhost" := "alice@box", "os" := "TestOS 1.0", "cpu" := "CoreX (4 cores)"]
  }

  /** Collecting the three fields gives the three values. */
  lemma SampleCollected()
    ensures Info.Collected(SampleConfig().info, SampleProbes(), ["userhost", "os", "cpu"]) == Returned(SampleInfo())
  {
    var c, p := SampleConfig().info, SampleProbes();
    var f1, f2, f3 := ["userhost"], ["userhost", "os"], ["userhost", "os", "cpu"];
    assert f1[..0] == [] && f2[..1] == f1 && f3[..2] == f2;
    assert Info.CollectField(c, p, "userhost") == Returned(Ok("alice@box"));
    assert Info.CollectField(c, p, "os") == Returned(Ok("TestOS 1.0"));
    assert Info.CollectField(c, p, "cpu") == Returned(Ok("CoreX (4 cores)"));
    var m1 := map["userhost" := "alice@box"];
    assert Info.Collected(c, p, f1) == Returned(m1);
    var m2 := m1["os" := "TestOS 1.0"];
    assert Info.Collected(c, p, f2) == Returned(m2);
    assert m2["cpu" := "CoreX (4 cores)"] == SampleInfo();
  }

  /** Unstyled and without the logo, `render` prints the header, the
      separator as long as the userhost, and one "Label: value" line per
      field, whatever the host's files, images and terminal. */
  lemma SampleRendered(host: Host, a: AsciiArt.Assets)
    requires !host.colors
    ensures Display.Rendered(SampleConfig(), host, a, SampleInfo())
            == Ok("alice@box\n---------\nOS: TestOS 1.0\nCPU: CoreX (4 cores)\n")
  {
    var cfg, info := SampleConfig(), SampleInfo();
    assert info["userhost"] == "alice@box" && info["os"] == "TestOS 1.0" && info["cpu"] == "CoreX (4 cores)";
    SampleBlock(cfg, info);
  }

  /** The unstyled block of the three sample values. */
  lemma SampleBlock(cfg: Config, info: map<string, string>)
    requires cfg.info.fields == ["userhost", "os", "cpu"]
    requires "userhost" in info && "os" in info && "cpu" in info
    requires info["userhost"] == "alice@box" && info["os"] == "TestOS 1.0" && info["cpu"] == "CoreX (4 cores)"
    ensures Display.InfoBlock(cfg, false, info) == "alice@box\n---------\nOS: TestOS 1.0\nCPU: CoreX (4 cores)\n"
  {
    SampleSeparator();
    SampleLabels();
    PlainBlockOfThree(cfg, info, "os", "cpu");
    SampleText();
  }

  lemma SampleSeparator()
    ensures Repeat('-', Utf8.ByteLen("alice@box")) == "---------"
  {
    Utf8.ByteLenAscii("alice@box");
  }

  lemma SampleLabels()
    ensures Display.FieldLabel("os") == "OS" && Display.FieldLabel("cpu") == "CPU"
  {
    assert Display.FixedLabels["os"] == "OS";
    assert Display.FixedLabels["cpu"] == "CPU";
  }

  lemma SampleText()
    ensures "alice@box" + "\n" + "---------" + "\n" + ("OS" + ": " + "TestOS 1.0") + "\n"
            + ("CPU" + ": " + "CoreX (4 cores)") + "\n"
            == "alice@box\n---------\nOS: TestOS 1.0\nCPU: CoreX (4 cores)\n"
  {
    SampleLines();
    assert "alice@box" + "\n" == "alice@box\n";
    assert "alice@box\n" + "---------" == "alice@box\n---------";
    assert "alice@box\n---------" + "\n" == "alice@box\n---------\n";
    assert "alice@box\n---------\n" + "OS: TestOS 1.0" == "alice@box\n---------\nOS: TestOS 1.0";
    assert "alice@box\n---------\nOS: TestOS 1.0" + "\n" == "alice@box\n---------\nOS: TestOS 1.0\n";
    assert "alice@box\n---------\nOS: TestOS 1.0\n" + "CPU: CoreX (4 cores)"
           == "alice@box\n---------\nOS: TestOS 1.0\nCPU: CoreX (4 cores)";
  }

  lemma SampleLines()
    ensures "OS" + ": " + "TestOS 1.0" == "OS: TestOS 1.0"
    ensures "CPU" + ": " + "CoreX (4 cores)" == "CPU: CoreX (4 cores)"
  {
  }

  /** The unstyled block of a userhost and two labelled fields. */
  lemma PlainBlockOfThree(cfg: Config, info: map<string, string>, f1: string, f2: string)
    requires cfg.info.fields == ["userhost", f1, f2]
    requires "userhost" in info && f1 in info && f2 in info
    requires f1 != "userhost" && f1 != "colors" && f2 != "userhost" && f2 != "colors"
    ensures var u := info["userhost"];
            var l1, l2 := Display.FieldLabel(f1) + ": " + info[f1], Display.FieldLabel(f2) + ": " + info[f2];
            Display.InfoBlock(cfg, false, info)
            == u + "\n" + Repeat('-', Utf8.ByteLen(u)) + "\n" + l1 + "\n" + l2 + "\n"
  {
    var u := info["userhost"];
    FieldRowsThree(cfg, false, info, "userhost", f1, f2);
    Display.PlainLabelledRow(cfg, f1, info[f1]);
    Display.PlainLabelledRow(cfg, f2, info[f2]);
    var l1 := Display.FieldLabel(f1) + ": " + info[f1];
    var l2 := Display.FieldLabel(f2) + ": " + info[f2];
    var sep := Repeat('-', Utf8.ByteLen(u));
    assert Display.HeaderRows(false, info) == [u, sep];
    assert Display.FieldRows(cfg, false, info, cfg.info.fields) == [l1, l2];
    assert Display.InfoRows(cfg, false, info) == [u, sep, l1, l2];
    TerminatedFour(u, sep, l1, l2);
  }

  lemma FieldRowsThree(cfg: Config, colors: bool, info: map<string, string>, a: string, b: string, c: string)
    ensures Display.FieldRows(cfg, colors, info, [a, b, c])
            == Display.FieldRow(cfg, colors, info, a) + Display.FieldRow(cfg, colors, info, b)
               + Display.FieldRow(cfg, colors, info, c)
  {
    var s1, s2 := [a], [a, b];
    assert [] + [a] == s1 && s1 + [b] == s2 && s2 + [c] == [a, b, c];
    FieldRowsSnoc(cfg, colors, info, [], a);
    FieldRowsSnoc(cfg, colors, info, s1, b);
    FieldRowsSnoc(cfg, colors, info, s2, c);
    SumOfThree(Display.FieldRows(cfg, colors, info, []), Display.FieldRows(cfg, colors, info, s1),
               Display.FieldRows(cfg, colors, info, s2), Display.FieldRows(cfg, colors, info, [a, b, c]),
               Display.FieldRow(cfg, colors, info, a), Display.FieldRow(cfg, colors, info, b),
               Display.FieldRow(cfg, colors, info, c));
  }

  lemma SumOfThree(x0: seq<string>, x1: seq<string>, x2: seq<string>, x3: seq<string>,
                   p: seq<string>, q: seq<string>, r: seq<string>)
    requires x0 == [] && x1 == x0 + p && x2 == x1 + q && x3 == x2 + r
    ensures x3 == p + q + r
  {
    assert x1 == p;
  }

  lemma FieldRowsSnoc(cfg: Config, colors: bool, info: map<string, string>, fs: seq<string>, f: string)
    ensures Display.FieldRows(cfg, colors, info, fs + [f])
            == Display.FieldRows(cfg, colors, info, fs) + Display.FieldRow(cfg, colors, info, f)
  {
    assert (fs + [f])[..|fs|] == fs;
  }

  lemma TerminatedFour(a: string, b: string, c: string, d: string)
    ensures Terminated([a, b, c, d]) == a + "\n" + b + "\n" + c + "\n" + d + "\n"
  {
    var rows := [a, b, c, d];
    assert rows[1..] == [b, c, d] && [b, c, d][1..] == [c, d] && [c, d][1..] == [d] && [d][1..] == [];
    assert Terminated([d]) == d + "\n";
    assert Terminated([c, d]) == c + "\n" + (d + "\n");
    assert Terminated([b, c, d]) == b + "\n" + (c + "\n" + (d + "\n"));
  }

  /** A two-line logo beside three info lines, the middle one empty: the
      info column starts two places after the widest logo line, an empty
      info line leaves the logo line alone, and a missing logo line is
      padded. */
  lemma SampleTextLayout()
    ensures Display.TextLayout(false, ["ab", "c"], ["x", "", "z"]) == "ab  x\nc\n    z\n"
  {
    SampleTextRows(["ab", "c"], ["x", "", "z"]);
    TerminatedThree("ab  x", "c", "    z");
    assert "ab  x" + "\n" + "c" + "\n" + "    z" + "\n" == "ab  x\nc\n    z\n";
  }

  lemma SampleTextRows(logo: seq<string>, lines: seq<string>)
    requires logo == ["ab", "c"] && lines == ["x", "", "z"]
    ensures Display.TextRows(false, logo, lines) == ["ab  x", "c", "    z"]
  {
    assert Display.LogoWidth(logo) == 2 by {
      assert logo[1..] == ["c"] && logo[1..][1..] == [];
    }
    var rows := Display.TextRows(false, logo, lines);
    assert |rows| == 3;
    assert Display.Padding(2, "ab") == "  ";
    assert rows[0] == "ab" + "  " + "x" == "ab  x";
    assert rows[1] == "c";
    assert Display.Padding(2, "") == "    ";
    assert rows[2] == "" + "    " + "z" == "    z";
  }

  lemma TerminatedThree(a: string, b: string, c: string)
    ensures Terminated([a, b, c]) == a + "\n" + b + "\n" + c + "\n"
  {
    var rows := [a, b, c];
    assert rows[1..] == [b, c] && [b, c][1..] == [c] && [c][1..] == [];
    assert Terminated([c]) == c + "\n";
    assert Terminated([b, c]) == b + "\n" + (c + "\n");
  }

  /** The default field list names "terminal_font", which has no built-in
      getter: with no custom command of that name its value is "Unknown". */
  lemma DefaultTerminalFontUnknown(p: Info.Probes)
    ensures "terminal_font" in DefaultConfig().info.fields
    ensures Info.CollectField(DefaultConfig().info, p, "terminal_font") == Returned(Ok("Unknown"))
  {
    assert DefaultFields[11] == "terminal_font";
    Info.UnknownField(DefaultConfig().info, p, "terminal_font");
  }

  /** Every default field colour is a colour name `apply_color_by_name`
      knows, so none falls back to white. */
  lemma DefaultColoursKnown()
    ensures forall f :: f in DefaultFieldColors ==> DefaultFieldColors[f] in Display.ColourNames
  {
  }

  /** With the default configuration nothing is collected through the shell,
      so collection cannot panic. */
  lemma DefaultCollectionReturns(p: Info.Probes)
    ensures Info.Collected(DefaultConfig().info, p, DefaultConfig().info.fields).Returned?
  {
    Info.NoCustomNoPanic(DefaultConfig().info, p);
  }
}
