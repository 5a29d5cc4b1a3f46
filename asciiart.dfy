/** The logo resolver of `src/display/ascii_art.rs`: built-in art, art read
    from a file, and images written as terminal escape sequences (the iTerm2
    inline-image sequence, the Kitty graphics command, or a raster of
    true-colour block characters). */
module AsciiArt {
  import opened Base
  import opened Text
  import Utf8
  import B64 = Base64
  import opened Style
  import opened Config
  import opened Environment

  // ---------------------------------------------------------------------
  // Built-in art

  /** The texts of the `.txt` files under `assets/ascii`, which the program embeds with
      `include_str!`. */
  datatype Assets = Assets(
    defaultArt: string, macos: string, linux: string, ubuntu: string,
    arch: string, debian: string, fedora: string)

  const BuiltinNames: set<string> := {"default", "macos", "linux", "ubuntu", "arch", "debian", "fedora"}

  /** `get_builtin_art_map`: each name bound to its asset. */
  function BuiltinArtMap(a: Assets): (m: map<string, string>)
    ensures m.Keys == BuiltinNames
    ensures m["default"] == a.defaultArt
  {
    map["default" := a.defaultArt, "macos" := a.macos, "linux" := a.linux,
        "ubuntu" := a.ubuntu, "arch" := a.arch, "debian" := a.debian, "fedora" := a.fedora]
  }

  /** `get_builtin_art`: the art of that name, else the "default" art. The
      error for a table without "default" cannot happen, since the table
      always holds it. */
  function GetBuiltinArt(a: Assets, name: string): (r: Result<string>)
    ensures r.Ok?
    ensures name in BuiltinNames ==> r.value == BuiltinArtMap(a)[name]
    ensures name !in BuiltinNames ==> r.value == a.defaultArt
  {
    var m := BuiltinArtMap(a);
    if name in m then Ok(m[name])
    else if "default" in m then Ok(m["default"])
    else Err(NoAsciiArt)
  }

  /** An unknown name gives exactly what asking for "default" gives. */
  lemma UnknownBuiltinIsDefault(a: Assets, name: string)
    requires name !in BuiltinNames
    ensures GetBuiltinArt(a, name) == GetBuiltinArt(a, "default")
  {
  }

  /** `get_auto_detected_art`: the first keyword, in priority order, that the
      lowercased operating-system name contains picks the art. */
  function DetectedArtName(osName: string): (name: string)
    ensures name in BuiltinNames
  {
    KeywordArt(ToLower(osName))
  }

  /** The art name for an already lowercased operating-system name. */
  function KeywordArt(os: string): (name: string)
    ensures name in BuiltinNames
  {
    if Contains(os, "mac") || Contains(os, "darwin") then "macos"
    else if Contains(os, "ubuntu") then "ubuntu"
    else if Contains(os, "arch") then "arch"
    else if Contains(os, "debian") then "debian"
    else if Contains(os, "fedora") then "fedora"
    else if Contains(os, "linux") then "linux"
    else "default"
  }

  function GetAutoDetectedArt(a: Assets, host: Host): (r: Result<string>)
    ensures r == Ok(BuiltinArtMap(a)[DetectedArtName(host.osName.GetOr(""))])
  {
    GetBuiltinArt(a, DetectedArtName(host.osName.GetOr("")))
  }

  lemma LowerOf(s: string, t: string)
    requires |s| == |t| && forall k :: 0 <= k < |s| ==> LowerAscii(s[k]) == t[k]
    ensures ToLower(s) == t
  {
  }

  lemma KeywordUbuntu()
    ensures KeywordArt("ubuntu 22.04") == "ubuntu"
  {
    var os := "ubuntu 22.04";
    assert !Contains(os, "mac") by { NotContainsChar(os, "mac", 'm'); }
    assert !Contains(os, "darwin") by { NotContainsChar(os, "darwin", 'd'); }
    assert Contains(os, "ubuntu") by {
      assert os == "" + "ubuntu" + " 22.04";
      ContainsInfix("", "ubuntu", " 22.04");
    }
  }

  lemma KeywordDebian()
    ensures KeywordArt("debian gnu/linux") == "debian"
  {
    var os := "debian gnu/linux";
    assert !Contains(os, "mac") && !Contains(os, "darwin") by { NotMacOs(os, 'm', 'w'); }
    assert !Contains(os, "ubuntu") by { NotContainsChar(os, "ubuntu", 't'); }
    assert !Contains(os, "arch") by { NotContainsChar(os, "arch", 'r'); }
    assert Contains(os, "debian") by {
      assert os == "" + "debian" + " gnu/linux";
      ContainsInfix("", "debian", " gnu/linux");
    }
  }

  /** A name missing a letter of "mac" and one of "darwin" is not macOS. */
  lemma NotMacOs(os: string, c: char, d: char)
    requires c in "mac" && c !in os && d in "darwin" && d !in os
    ensures !Contains(os, "mac") && !Contains(os, "darwin")
  {
    NotContainsChar(os, "mac", c);
    NotContainsChar(os, "darwin", d);
  }

  lemma KeywordArch()
    ensures KeywordArt("arch linux") == "arch"
  {
    var os := "arch linux";
    assert !Contains(os, "mac") by { NotContainsChar(os, "mac", 'm'); }
    assert !Contains(os, "darwin") by { NotContainsChar(os, "darwin", 'd'); }
    assert !Contains(os, "ubuntu") by { NotContainsChar(os, "ubuntu", 'b'); }
    assert Contains(os, "arch") by {
      assert os == "" + "arch" + " linux";
      ContainsInfix("", "arch", " linux");
    }
  }

  lemma KeywordDarwin()
    ensures KeywordArt("darwin") == "macos"
  {
    var os := "darwin";
    assert Contains(os, "darwin") by {
      assert os == "" + "darwin" + "";
      ContainsInfix("", "darwin", "");
    }
  }

  lemma KeywordLinux()
    ensures KeywordArt("linux") == "linux"
  {
    var os := "linux";
    assert !Contains(os, "mac") by { NotContainsChar(os, "mac", 'm'); }
    assert !Contains(os, "darwin") by { NotContainsChar(os, "darwin", 'd'); }
    assert !Contains(os, "ubuntu") by { NotContainsChar(os, "ubuntu", 'b'); }
    assert !Contains(os, "arch") by { NotContainsChar(os, "arch", 'a'); }
    assert !Contains(os, "debian") by { NotContainsChar(os, "debian", 'd'); }
    assert !Contains(os, "fedora") by { NotContainsChar(os, "fedora", 'f'); }
    assert Contains(os, "linux") by {
      assert os == "" + "linux" + "";
      ContainsInfix("", "linux", "");
    }
  }

  lemma KeywordFedora()
    ensures KeywordArt("fedora linux") == "fedora"
  {
    var os := "fedora linux";
    assert !Contains(os, "mac") && !Contains(os, "darwin") by { NotMacOs(os, 'm', 'w'); }
    assert !Contains(os, "ubuntu") by { NotContainsChar(os, "ubuntu", 'b'); }
    assert !Contains(os, "arch") by { NotContainsChar(os, "arch", 'c'); }
    assert !Contains(os, "debian") by { NotContainsChar(os, "debian", 'b'); }
    assert Contains(os, "fedora") by {
      assert os == "" + "fedora" + " linux";
      ContainsInfix("", "fedora", " linux");
    }
  }

  lemma KeywordWindows()
    ensures KeywordArt("windows") == "default"
  {
    var os := "windows";
    assert !Contains(os, "mac") by { NotContainsChar(os, "mac", 'm'); }
    assert !Contains(os, "darwin") by { NotContainsChar(os, "darwin", 'a'); }
    assert !Contains(os, "ubuntu") by { NotContainsChar(os, "ubuntu", 'b'); }
    assert !Contains(os, "arch") by { NotContainsChar(os, "arch", 'a'); }
    assert !Contains(os, "debian") by { NotContainsChar(os, "debian", 'b'); }
    assert !Contains(os, "fedora") by { NotContainsChar(os, "fedora", 'f'); }
    assert !Contains(os, "linux") by { NotContainsChar(os, "linux", 'l'); }
  }

  /** Detection on some operating-system names: a later keyword never wins
      over an earlier one ("ubuntu" and "debian" before "linux"), and an
      unknown or missing name gives "default". */
  lemma DetectedArtExamples()
    ensures DetectedArtName("Ubuntu 22.04") == "ubuntu"
    ensures DetectedArtName("Debian GNU/Linux") == "debian"
    ensures DetectedArtName("Arch Linux") == "arch"
    ensures DetectedArtName("Darwin") == "macos"
    ensures DetectedArtName("Fedora Linux") == "fedora"
    ensures DetectedArtName("Linux") == "linux"
    ensures DetectedArtName("Windows") == "default"
    ensures DetectedArtName("") == "default"
  {
    DetectedDistributions();
    DetectedOthers();
  }

  lemma DetectedDistributions()
    ensures DetectedArtName("Ubuntu 22.04") == "ubuntu"
    ensures DetectedArtName("Debian GNU/Linux") == "debian"
    ensures DetectedArtName("Arch Linux") == "arch"
  {
    LowerOf("Ubuntu 22.04", "ubuntu 22.04");
    KeywordUbuntu();
    LowerOf("Debian GNU/Linux", "debian gnu/linux");
    KeywordDebian();
    LowerOf("Arch Linux", "arch linux");
    KeywordArch();
  }

  lemma DetectedOthers()
    ensures DetectedArtName("Darwin") == "macos"
    ensures DetectedArtName("Fedora Linux") == "fedora"
    ensures DetectedArtName("Linux") == "linux"
    ensures DetectedArtName("Windows") == "default"
    ensures DetectedArtName("") == "default"
  {
    LowerOf("Darwin", "darwin");
    KeywordDarwin();
    LowerOf("Fedora Linux", "fedora linux");
    KeywordFedora();
    LowerOf("Linux", "linux");
    KeywordLinux();
    LowerOf("Windows", "windows");
    KeywordWindows();
    assert ToLower("") == "";
  }

  /** `load_ascii_art_file`: the file's text; an error when the file cannot
      be read or is not UTF-8. */
  function LoadAsciiArtFile(host: Host, path: string): (r: Result<string>)
    ensures r.Ok? <==> path in host.files && Utf8.Decode(host.files[path]).Some?
    ensures r.Ok? ==> Utf8.Encode(r.value) == host.files[path]
    ensures r.Err? ==> r.error == ArtFileUnreadable(path)
  {
    if path in host.files then
      match Utf8.Decode(host.files[path])
      case Some(text) =>
        Utf8.EncodeDecode(host.files[path]);
        Ok(text)
      case None => Err(ArtFileUnreadable(path))
    else Err(ArtFileUnreadable(path))
  }

  // ---------------------------------------------------------------------
  // iTerm2 inline image

  const Bel: char := '\U{07}'

  /** The arguments of the inline-image sequence up to the payload: the image
      is drawn 30 character cells wide and 15 high (`width_cells`,
      `height_cells`), keeping its aspect ratio. */
  const ItermArgs: string := "File=width=30;" + "height=15;inline=1;" + "preserveAspectRatio=1:"

  function ItermPrefix(): string {
    [Esc] + "]1337;" + ItermArgs
  }

  /** The inline-image sequence after its leading escape character. */
  function ItermBody(data: seq<byte>): string {
    "]1337;" + ItermArgs + B64.Encode(data) + [Bel]
  }

  /** The inline-image sequence written outside tmux. */
  function ItermPlain(data: seq<byte>): string {
    [Esc] + ItermBody(data)
  }

  /** The sequence written inside tmux, as the source spells it: `ESC P tmux;
      ESC ESC ] 1337; ... BEL ESC \`. */
  function ItermTmux(data: seq<byte>): string {
    [Esc] + "Ptmux;" + [Esc, Esc] + ItermBody(data) + [Esc, '\\']
  }

  function ItermSequence(data: seq<byte>, inTmux: bool): string {
    if inTmux then ItermTmux(data) else ItermPlain(data)
  }

  /** `render_iterm2_image`. */
  function RenderIterm2Image(host: Host, path: string): (r: Result<string>)
    ensures r.Ok? <==> path in host.files
    ensures r.Ok? ==> r.value == ItermSequence(host.files[path], host.inTmux)
    ensures r.Err? ==> r.error == ImageFileUnreadable(path)
  {
    if path in host.files then Ok(ItermSequence(host.files[path], host.inTmux))
    else Err(ImageFileUnreadable(path))
  }

  /** Every escape character written twice, as tmux's pass-through sequence
      requires of the sequence it carries. */
  function DoubleEsc(s: string): (r: string)
    ensures Esc !in s ==> r == s
  {
    if s == [] then "" else (if s[0] == Esc then [Esc, Esc] else [s[0]]) + DoubleEsc(s[1..])
  }

  lemma {:induction false} DoubleEscAppend(a: string, b: string)
    ensures DoubleEsc(a + b) == DoubleEsc(a) + DoubleEsc(b)
  {
    if a == [] {
      assert a + b == b;
    } else {
      assert (a + b)[0] == a[0];
      assert (a + b)[1..] == a[1..] + b;
      DoubleEscAppend(a[1..], b);
    }
  }

  lemma NoEscInBase64(data: seq<byte>)
    ensures Esc !in B64.Encode(data) && ';' !in B64.Encode(data)
  {
    var s := B64.Encode(data);
    assert forall k :: 0 <= k < |s| ==> B64.IsBase64Char(s[k]);
  }

  /** The tmux form is the tmux pass-through sequence (`ESC P tmux;`, the
      carried sequence with its escapes doubled, `ESC \`) around exactly the
      sequence written outside tmux. */
  lemma TmuxPassThrough(data: seq<byte>)
    ensures ItermTmux(data) == [Esc] + "Ptmux;" + DoubleEsc(ItermPlain(data)) + [Esc, '\\']
  {
    BodyHasNoEsc(data);
    DoubleEscAppend([Esc], ItermBody(data));
    assert DoubleEsc([Esc]) == [Esc, Esc];
  }

  lemma BodyHasNoEsc(data: seq<byte>)
    ensures Esc !in ItermBody(data)
  {
    NoEscInBase64(data);
    ArgsHaveNoEsc();
    assert Esc !in "]1337;";
  }

  lemma ArgsHaveNoEsc()
    ensures Esc !in ItermArgs
  {
    assert Esc !in "File=width=30;";
    assert Esc !in "height=15;inline=1;";
    assert Esc !in "preserveAspectRatio=1:";
  }

  /** Reads the image bytes back out of an inline-image sequence written
      outside tmux. */
  function ParseIterm(s: string): Option<seq<byte>> {
    var p := ItermPrefix();
    if |s| > |p| && s[..|p|] == p && s[|s| - 1] == Bel then B64.Decode(s[|p|..|s| - 1])
    else Option.None
  }

  lemma ParseItermPlain(data: seq<byte>)
    ensures ParseIterm(ItermPlain(data)) == Some(data)
  {
    var p, e := ItermPrefix(), B64.Encode(data);
    ItermPlainShape(data);
    Framed(p, e, Bel, ItermPlain(data));
    B64.DecodeEncode(data);
  }

  /** Outside tmux: the prefix, the payload, the bell. */
  lemma ItermPlainShape(data: seq<byte>)
    ensures ItermPlain(data) == ItermPrefix() + B64.Encode(data) + [Bel]
    ensures ItermPlain(data) == ([Esc] + "]1337;") + (ItermArgs + B64.Encode(data) + [Bel])
  {
    Regroup5([Esc], "]1337;", ItermArgs, B64.Encode(data), [Bel]);
  }

  /** Inside tmux: the pass-through opening, then the rest. */
  lemma ItermTmuxShape(data: seq<byte>)
    ensures ItermTmux(data) == ([Esc] + "Ptmux;") + ([Esc, Esc] + ItermBody(data) + [Esc, '\\'])
  {
    Regroup5([Esc], "Ptmux;", [Esc, Esc], ItermBody(data), [Esc, '\\']);
  }

  lemma Regroup5(a: string, b: string, c: string, d: string, e: string)
    ensures a + (b + c + d + e) == a + b + c + d + e
    ensures a + b + c + d + e == (a + b) + (c + d + e)
    ensures a + b + c + d + e == (a + b + c) + d + e
  {
  }

  /** A string made of `p`, `e` and a last character gives each back. */
  lemma Framed(p: string, e: string, last: char, s: string)
    requires s == p + e + [last]
    ensures |s| > |p| && s[..|p|] == p && s[|s| - 1] == last && s[|p|..|s| - 1] == e
  {
  }

  // ---------------------------------------------------------------------
  // Kitty graphics command

  function KittyPrefix(): string {
    [Esc] + "_Ga=T,f=100,s="
  }

  const KittyEnd: string := ";" + [Esc, '\\', '\n']

  /** The command `render_kitty_image` writes: `s=` holds the file's length
      in bytes, `v=` its base64 text. */
  function KittyCommand(data: seq<byte>): string {
    KittyPrefix() + NatStr(|data|) + ",v=" + B64.Encode(data) + KittyEnd
  }

  /** `render_kitty_image`. */
  function RenderKittyImage(host: Host, path: string): (r: Result<string>)
    ensures r.Ok? <==> path in host.files
    ensures r.Ok? ==> r.value == KittyCommand(host.files[path])
    ensures r.Err? ==> r.error == ImageFileUnreadable(path)
  {
    if path in host.files then Ok(KittyCommand(host.files[path]))
    else Err(ImageFileUnreadable(path))
  }

  /** Reads the `s=` number and the payload bytes back out of a Kitty command. */
  function ParseKitty(s: string): Option<(nat, seq<byte>)> {
    var p := KittyPrefix();
    if !StartsWith(s, p) then Option.None
    else match ReadNat(s[|p|..])
      case None => Option.None
      case Some((n, rest)) =>
        match KittyPayload(rest)
        case None => Option.None
        case Some(text) =>
          match B64.Decode(text)
          case None => Option.None
          case Some(bytes) => Some((n, bytes))
  }

  /** The text between `,v=` and the closing `;ESC\` and line feed. */
  function KittyPayload(rest: string): Option<string> {
    if !StartsWith(rest, ",v=") then Option.None
    else
      var body := rest[3..];
      match Find(body, ';')
      case None => Option.None
      case Some(i) => if body[i..] == KittyEnd then Some(body[..i]) else Option.None
  }

  /** The command opens with `ESC _Ga=`. */
  lemma KittyShape(data: seq<byte>)
    ensures KittyCommand(data)
         == ([Esc] + "_Ga=") + ("T,f=100,s=" + NatStr(|data|) + ",v=" + B64.Encode(data) + KittyEnd)
  {
    var x, t := [Esc] + "_Ga=", "T,f=100,s=";
    assert "_Ga=T,f=100,s=" == "_Ga=" + t;
    Assoc([Esc], "_Ga=", t);
    Regroup6(x, t, NatStr(|data|), ",v=", B64.Encode(data), KittyEnd);
  }

  lemma Regroup6(a: string, b: string, c: string, d: string, e: string, f: string)
    ensures (a + b) + c + d + e + f == a + (b + c + d + e + f)
  {
  }

  lemma KittyPayloadOf(enc: string)
    requires ';' !in enc
    ensures KittyPayload(",v=" + enc + KittyEnd) == Some(enc)
  {
    var rest := ",v=" + enc + KittyEnd;
    var body := rest[3..];
    assert body == enc + [';'] + [Esc, '\\', '\n'];
    FindAt(enc, ';', [Esc, '\\', '\n']);
    assert body[|enc|..] == KittyEnd;
    assert body[..|enc|] == enc;
  }

  lemma ParseKittyCommand(data: seq<byte>)
    ensures ParseKitty(KittyCommand(data)) == Some((|data|, data))
  {
    var p := KittyPrefix();
    var enc := B64.Encode(data);
    var rest := ",v=" + enc + KittyEnd;
    var s := KittyCommand(data);
    assert s == p + (NatStr(|data|) + rest);
    assert s[|p|..] == NatStr(|data|) + rest;
    ReadNatStr(|data|, rest);
    NoEscInBase64(data);
    KittyPayloadOf(enc);
    B64.DecodeEncode(data);
  }

  // ---------------------------------------------------------------------
  // Block raster

  /** One pixel: a true-colour foreground SGR sequence, the glyph U+2593,
      and a reset. */
  function Cell(p: Rgb): string {
    [Esc] + "[38;2;" + NatStr(p.r) + ";" + NatStr(p.g) + ";" + NatStr(p.b) + "m▓" + [Esc] + "[0m"
  }

  /** The SGR parameters of a cell: `38;2;r;g;b`, a 24-bit foreground
      colour (ITU-T T.416, as terminals read SGR 38). */
  function CellParams(p: Rgb): string {
    "38;2;" + NatStr(p.r) + ";" + NatStr(p.g) + ";" + NatStr(p.b)
  }

  lemma CellParamsAreParams(p: Rgb)
    ensures forall k :: 0 <= k < |CellParams(p)| ==> IsParam(CellParams(p)[k])
  {
    var r, g, b := NatStr(p.r), NatStr(p.g), NatStr(p.b);
    assert forall k :: 0 <= k < |r| ==> IsDigit(r[k]);
    assert forall k :: 0 <= k < |g| ==> IsDigit(g[k]);
    assert forall k :: 0 <= k < |b| ==> IsDigit(b[k]);
  }

  /** A cell is an SGR sequence with the parameters `38;2;r;g;b`, then the
      glyph, then a reset. */
  lemma CellIsPainted(p: Rgb, rest: string)
    ensures Cell(p) + rest == [Esc, '['] + CellParams(p) + ("m" + ("▓" + (Reset + rest)))
  {
    assert Cell(p) == [Esc, '['] + CellParams(p) + "m▓" + Reset;
  }

  /** The cells of one pixel row, in x order. */
  function RowText(row: seq<Rgb>): string {
    if row == [] then "" else Cell(row[0]) + RowText(row[1..])
  }

  lemma {:induction false} RowTextSnoc(row: seq<Rgb>, p: Rgb)
    ensures RowText(row + [p]) == RowText(row) + Cell(p)
  {
    if row == [] {
      assert row + [p] == [p];
    } else {
      assert (row + [p])[1..] == row[1..] + [p];
      RowTextSnoc(row[1..], p);
    }
  }

  lemma RowStep(done: string, row: seq<Rgb>, x: nat)
    requires x < |row|
    ensures done + RowText(row[..x]) + Cell(row[x]) == done + RowText(row[..x + 1])
  {
    RowTextSnoc(row[..x], row[x]);
    assert row[..x + 1] == row[..x] + [row[x]];
  }

  lemma RowsStep(rows: seq<string>, y: nat)
    requires y < |rows|
    ensures Terminated(rows[..y]) + rows[y] + "\n" == Terminated(rows[..y + 1])
  {
    TerminatedSnoc(rows[..y], rows[y]);
    assert rows[..y + 1] == rows[..y] + [rows[y]];
  }

  function BlockRows(g: Grid): (rows: seq<string>)
    ensures |rows| == |g|
  {
    seq(|g|, y requires 0 <= y < |g| => RowText(g[y]))
  }

  /** The text of `render_image_as_ascii_blocks`: one line-feed-terminated
      row of cells per pixel row. */
  function BlockRaster(g: Grid): string {
    Terminated(BlockRows(g))
  }

  /** The raster is empty, starts with the line feed of an empty first
      row, or starts with the SGR introducer of the first row's first cell. */
  lemma RasterOpening(g: Grid)
    ensures var s := BlockRaster(g);
            s == [] || s[0] == '\n' || (|s| >= 2 && s[0] == Esc && s[1] == '[')
  {
    if g != [] {
      var rows := BlockRows(g);
      var tail := "\n" + Terminated(rows[1..]);
      Assoc(rows[0], "\n", Terminated(rows[1..]));
      assert BlockRaster(g) == rows[0] + tail;
      if g[0] != [] {
        var rest := RowText(g[0][1..]);
        assert rows[0] == Cell(g[0][0]) + rest;
        Assoc(Cell(g[0][0]), rest, tail);
        CellOpens(g[0][0], rest + tail);
      }
    }
  }

  lemma CellOpens(p: Rgb, rest: string)
    ensures |Cell(p) + rest| >= 2 && (Cell(p) + rest)[0] == Esc && (Cell(p) + rest)[1] == '['
  {
    CellIsPainted(p, rest);
  }

  /** The nested loop of `render_image_as_ascii_blocks`, over the pixels of
      the already resized image. */
  method RenderImageAsAsciiBlocks(g: Grid) returns (out: string)
    ensures out == BlockRaster(g)
  {
    var height := |g|;
    var width := if height == 0 then 0 else |g[0]|;
    var rows := BlockRows(g);
    out := "";
    for y := 0 to height
      invariant out == Terminated(rows[..y])
    {
      var row := g[y];
      var done := out;
      for x := 0 to width
        invariant out == done + RowText(row[..x])
      {
        var cell := Cell(row[x]);
        RowStep(done, row, x);
        out := out + cell;
      }
      assert row[..width] == row;
      RowsStep(rows, y);
      out := out + "\n";
    }
    assert rows[..height] == rows;
  }

  lemma CellShape(p: Rgb)
    ensures '\n' !in Cell(p)
    ensures Cell(p)[|Cell(p)| - 1] == 'm'
  {
    var r, g, b := NatStr(p.r), NatStr(p.g), NatStr(p.b);
    assert forall k :: 0 <= k < |r| ==> IsDigit(r[k]);
    assert forall k :: 0 <= k < |g| ==> IsDigit(g[k]);
    assert forall k :: 0 <= k < |b| ==> IsDigit(b[k]);
  }

  lemma {:induction false} RowTextShape(row: seq<Rgb>)
    ensures '\n' !in RowText(row)
    ensures row != [] ==> RowText(row)[|RowText(row)| - 1] == 'm'
  {
    if row != [] {
      CellShape(row[0]);
      RowTextShape(row[1..]);
    }
  }

  /** The raster reads back, with `lines()`, as exactly its pixel rows: h
      lines for an image h pixels high. */
  lemma BlockRasterLines(g: Grid)
    ensures Lines(BlockRaster(g)) == BlockRows(g)
  {
    var rows := BlockRows(g);
    forall k | 0 <= k < |rows|
      ensures '\n' !in rows[k] && StripCr(rows[k]) == rows[k]
    {
      RowTextShape(g[k]);
    }
    LinesOfTerminated(rows);
  }

  /** A cell shows its one glyph. */
  lemma CellShowsGlyph(p: Rgb, rest: string)
    ensures Visible(Cell(p) + rest) == "▓" + Visible(rest)
  {
    CellIsPainted(p, rest);
    CellParamsAreParams(p);
    VisibleSgrParams(CellParams(p), "▓" + (Reset + rest));
    GlyphThenReset(rest);
  }

  lemma GlyphThenReset(rest: string)
    ensures Visible("▓" + (Reset + rest)) == "▓" + Visible(rest)
  {
    VisiblePlain("▓", Reset + rest);
    VisibleResetThen(rest);
  }

  /** Each row shows one block glyph per pixel. */
  lemma {:induction false} RowShowsGlyphs(row: seq<Rgb>)
    ensures Visible(RowText(row)) == Repeat('▓', |row|)
  {
    if row != [] {
      CellShowsGlyph(row[0], RowText(row[1..]));
      RowShowsGlyphs(row[1..]);
      assert "▓" + Repeat('▓', |row| - 1) == Repeat('▓', |row|);
    }
  }

  /** `render_image_as_ascii_blocks` after `image::open` and `resize`. */
  function RenderImageAsBlocks(host: Host, path: string): (r: Result<string>)
    ensures r.Ok? <==> path in host.images
    ensures r.Ok? ==> r.value == BlockRaster(host.images[path])
    ensures r.Err? ==> r.error == ImageLoadFailed(path)
  {
    if path in host.images then Ok(BlockRaster(host.images[path]))
    else Err(ImageLoadFailed(path))
  }

  // ---------------------------------------------------------------------
  // Choosing the encoder, and the resolver

  /** Which encoder `render_image_as_terminal` uses. */
  datatype Encoder = ITerm2 | Kitty | Blocks

  /** The first applicable encoder: iTerm2 when `TERM_PROGRAM` is exactly
      "iTerm.app", Kitty when `TERM` contains "kitty", the block raster
      otherwise. */
  function ChosenEncoder(host: Host): (e: Encoder)
    ensures e == ITerm2 <==> host.termProgram == Some("iTerm.app")
    ensures e == Kitty <==> host.termProgram != Some("iTerm.app") && host.term.Some? && Contains(host.term.value, "kitty")
  {
    if host.termProgram == Some("iTerm.app") then ITerm2
    else if host.term.Some? && Contains(host.term.value, "kitty") then Kitty
    else Blocks
  }

  /** `render_image_as_terminal`, in the build with the `images` feature and
      in the one without. */
  function RenderImageAsTerminal(host: Host, path: string): (r: Result<string>)
    ensures !host.imagesFeature ==> r == Err(ImagesUnsupported)
    ensures host.imagesFeature && ChosenEncoder(host) == ITerm2 ==> r == RenderIterm2Image(host, path)
    ensures host.imagesFeature && ChosenEncoder(host) == Kitty ==> r == RenderKittyImage(host, path)
    ensures host.imagesFeature && ChosenEncoder(host) == Blocks ==> r == RenderImageAsBlocks(host, path)
  {
    if !host.imagesFeature then Err(ImagesUnsupported)
    else match ChosenEncoder(host)
      case ITerm2 => RenderIterm2Image(host, path)
      case Kitty => RenderKittyImage(host, path)
      case Blocks => RenderImageAsBlocks(host, path)
  }

  /** `get_ascii_art`: the logo text for the configured source. */
  function GetAsciiArt(cfg: Config, host: Host, a: Assets): (r: Result<string>)
    ensures cfg.asciiArt.source == AsciiArtSource.None ==> r == Ok("")
    ensures cfg.asciiArt.source == Auto && !cfg.asciiArt.autoDetect ==> r == Ok(a.defaultArt)
    ensures cfg.asciiArt.source == Auto && cfg.asciiArt.autoDetect ==> r == GetAutoDetectedArt(a, host)
    ensures cfg.asciiArt.source == Builtin ==> r == GetBuiltinArt(a, cfg.asciiArt.builtin.GetOr("default"))
    ensures (cfg.asciiArt.source == File || cfg.asciiArt.source == Image) && cfg.asciiArt.path.None?
            ==> r == Ok(a.defaultArt)
    ensures cfg.asciiArt.source == File && cfg.asciiArt.path.Some?
            ==> r == LoadAsciiArtFile(host, cfg.asciiArt.path.value)
    ensures cfg.asciiArt.source == Image && cfg.asciiArt.path.Some?
            ==> r == RenderImageAsTerminal(host, cfg.asciiArt.path.value)
  {
    var art := cfg.asciiArt;
    match art.source
    case None => Ok("")
    case Auto => if art.autoDetect then GetAutoDetectedArt(a, host) else GetBuiltinArt(a, "default")
    case Builtin => GetBuiltinArt(a, art.builtin.GetOr("default"))
    case File =>
      (match art.path
       case Some(path) => LoadAsciiArtFile(host, path)
       case None => GetBuiltinArt(a, "default"))
    case Image =>
      (match art.path
       case Some(path) => RenderImageAsTerminal(host, path)
       case None => GetBuiltinArt(a, "default"))
  }

  /** Resolving the logo fails only for a configured file or image path. */
  lemma GetAsciiArtFailsOnlyOnPaths(cfg: Config, host: Host, a: Assets)
    requires GetAsciiArt(cfg, host, a).Err?
    ensures cfg.asciiArt.source == File || cfg.asciiArt.source == Image
    ensures cfg.asciiArt.path.Some?
  {
  }
}
