/** Terminal styling as the `colored` crate applies it: a string wrapped in an
    SGR ("select graphic rendition", ECMA-48 section 8.3.117) sequence that
    switches the style on, and the reset sequence after it. Whether `colored`
    styles anything at all is decided by the process environment (whether
    stdout is a terminal, `NO_COLOR`, `CLICOLOR_FORCE`); the model takes that
    decision as the flag `enabled`. */
module Style {
  import opened Base
  import opened Text

  /** The sixteen ANSI colours `colored` names. */
  datatype Colour =
    | Black | Red | Green | Yellow | Blue | Magenta | Cyan | White
    | BrightBlack | BrightRed | BrightGreen | BrightYellow
    | BrightBlue | BrightMagenta | BrightCyan | BrightWhite

  /** SGR parameter that selects `c` as foreground colour; the background
      parameter is ten more. */
  function FgCode(c: Colour): (n: nat)
    ensures 30 <= n <= 37 || 90 <= n <= 97
  {
    match c
    case Black => 30
    case Red => 31
    case Green => 32
    case Yellow => 33
    case Blue => 34
    case Magenta => 35
    case Cyan => 36
    case White => 37
    case BrightBlack => 90
    case BrightRed => 91
    case BrightGreen => 92
    case BrightYellow => 93
    case BrightBlue => 94
    case BrightMagenta => 95
    case BrightCyan => 96
    case BrightWhite => 97
  }

  /** The style of a `ColoredString`: optional colours and the two text
      attributes the program uses. */
  datatype Look = Look(fg: Option<Colour>, bg: Option<Colour>, bold: bool, dimmed: bool) {
    /** No colour and no attribute: `colored` then prints the text as it is. */
    predicate IsPlain() {
      fg.None? && bg.None? && !bold && !dimmed
    }

    function Bold(): Look {
      Look(fg, bg, true, dimmed)
    }

    function On(c: Colour): Look {
      Look(fg, Some(c), bold, dimmed)
    }
  }

  /** `text.red()` and the like. */
  function Fg(c: Colour): Look {
    Look(Some(c), None, false, false)
  }

  /** `text.dimmed()`. */
  const Dimmed := Look(None, None, false, true)

  /** The SGR parameters of a look: attributes, then background, then foreground. */
  function Codes(look: Look): seq<nat> {
    (if look.bold then [1] else []) + (if look.dimmed then [2] else [])
    + (match look.bg case Some(c) => [FgCode(c) + 10] case None => [])
    + (match look.fg case Some(c) => [FgCode(c)] case None => [])
  }

  /** Decimal parameters separated by `;`. */
  function JoinCodes(codes: seq<nat>): string {
    if codes == [] then ""
    else if |codes| == 1 then NatStr(codes[0])
    else NatStr(codes[0]) + ";" + JoinCodes(codes[1..])
  }

  const Esc: char := '\U{1b}'

  /** SGR sequence `ESC [ parameters m`. */
  function Sgr(codes: seq<nat>): string {
    [Esc, '['] + JoinCodes(codes) + "m"
  }

  /** SGR 0: back to the default rendition. */
  const Reset: string := [Esc] + "[0m"

  /** `format!("{}", text.<style>())`. */
  function Paint(enabled: bool, look: Look, text: string): (r: string)
    ensures !enabled || look.IsPlain() ==> r == text
    ensures enabled && !look.IsPlain() ==> r == Sgr(Codes(look)) + text + Reset
  {
    if !enabled || look.IsPlain() then text else Sgr(Codes(look)) + text + Reset
  }

  // ---------------------------------------------------------------------
  // What a terminal shows: the text with its SGR sequences taken out

  predicate IsParam(c: char) {
    IsDigit(c) || c == ';'
  }

  /** Length of the longest prefix of `s` made of SGR parameter characters. */
  function ParamRun(s: string): (k: nat)
    ensures k <= |s|
  {
    if s != [] && IsParam(s[0]) then ParamRun(s[1..]) + 1 else 0
  }

  /** Length of the complete SGR sequence at the front of `s`; 0 when there is none. */
  function SgrLength(s: string): (k: nat)
    ensures k <= |s|
  {
    if |s| >= 2 && s[0] == Esc && s[1] == '[' then
      var j := ParamRun(s[2..]);
      if 2 + j < |s| && s[2 + j] == 'm' then j + 3 else 0
    else 0
  }

  /** The characters a terminal prints for `s`: every SGR sequence removed. */
  function Visible(s: string): string
    decreases |s|
  {
    if s == [] then ""
    else if SgrLength(s) > 0 then Visible(s[SgrLength(s)..])
    else [s[0]] + Visible(s[1..])
  }

  lemma {:induction false} ParamRunOf(p: string, rest: string)
    requires forall k :: 0 <= k < |p| ==> IsParam(p[k])
    requires rest == [] || !IsParam(rest[0])
    ensures ParamRun(p + rest) == |p|
  {
    if p == [] {
      assert p + rest == rest;
    } else {
      assert (p + rest)[1..] == p[1..] + rest;
      ParamRunOf(p[1..], rest);
    }
  }

  lemma {:induction false} JoinCodesParams(codes: seq<nat>)
    ensures forall k :: 0 <= k < |JoinCodes(codes)| ==> IsParam(JoinCodes(codes)[k])
  {
    if |codes| > 1 {
      JoinCodesParams(codes[1..]);
      var a, b := NatStr(codes[0]), JoinCodes(codes[1..]);
      assert JoinCodes(codes) == a + ";" + b;
      assert forall k :: 0 <= k < |a| ==> (a + ";" + b)[k] == a[k];
      assert forall k :: |a| + 1 <= k < |a| + 1 + |b| ==> (a + ";" + b)[k] == b[k - |a| - 1];
    }
  }

  /** An SGR sequence at the front is recognised whole. */
  lemma SgrLengthOfParams(q: string, rest: string)
    requires forall k :: 0 <= k < |q| ==> IsParam(q[k])
    ensures SgrLength([Esc, '['] + q + ("m" + rest)) == |q| + 3
  {
    var s := [Esc, '['] + q + ("m" + rest);
    assert s[2..] == q + ("m" + rest);
    ParamRunOf(q, "m" + rest);
    assert s[2 + |q|] == 'm';
  }

  /** An SGR sequence shows nothing. */
  lemma VisibleSgrParams(q: string, rest: string)
    requires forall k :: 0 <= k < |q| ==> IsParam(q[k])
    ensures Visible([Esc, '['] + q + ("m" + rest)) == Visible(rest)
  {
    var s := [Esc, '['] + q + ("m" + rest);
    SgrLengthOfParams(q, rest);
    assert s[|q| + 3..] == rest;
  }

  /** Text without escape characters is shown as it is. */
  lemma {:induction false} VisiblePlain(t: string, rest: string)
    requires Esc !in t
    ensures Visible(t + rest) == t + Visible(rest)
  {
    if t != [] {
      assert (t + rest)[0] == t[0];
      assert (t + rest)[1..] == t[1..] + rest;
      VisiblePlain(t[1..], rest);
    } else {
      assert t + rest == rest;
    }
  }

  lemma VisibleSgr(codes: seq<nat>, rest: string)
    ensures Visible(Sgr(codes) + rest) == Visible(rest)
  {
    JoinCodesParams(codes);
    assert Sgr(codes) + rest == [Esc, '['] + JoinCodes(codes) + ("m" + rest);
    VisibleSgrParams(JoinCodes(codes), rest);
  }

  lemma VisibleReset()
    ensures Visible(Reset) == ""
  {
    ResetIsSgr();
    assert Reset == Reset + "";
    VisibleSgr([0], "");
  }

  lemma VisibleResetThen(rest: string)
    ensures Visible(Reset + rest) == Visible(rest)
  {
    ResetIsSgr();
    VisibleSgr([0], rest);
  }

  lemma ResetIsSgr()
    ensures Reset == Sgr([0])
  {
    assert JoinCodes([0]) == "0";
  }

  /** Styling never changes what is shown: a painted string shows exactly
      its text, whatever the look and whether styling is enabled. */
  lemma PaintVisible(enabled: bool, look: Look, text: string)
    requires Esc !in text
    ensures Visible(Paint(enabled, look, text)) == text
  {
    VisiblePlain(text, "");
    assert text + "" == text;
    if enabled && !look.IsPlain() {
      assert Paint(enabled, look, text) == Sgr(Codes(look)) + (text + Reset);
      VisibleSgr(Codes(look), text + Reset);
      VisiblePlain(text, Reset);
      VisibleReset();
    }
  }

  /** Painting `text` then writing `rest` shows `text`, then what `rest` shows. */
  lemma PaintVisibleThen(enabled: bool, look: Look, text: string, rest: string)
    requires Esc !in text
    ensures Visible(Paint(enabled, look, text) + rest) == text + Visible(rest)
  {
    VisiblePlain(text, rest);
    if enabled && !look.IsPlain() {
      Assoc4(Sgr(Codes(look)), text, Reset, rest);
      VisibleSgr(Codes(look), text + (Reset + rest));
      VisiblePlain(text, Reset + rest);
      VisibleResetThen(rest);
    }
  }

  /** Styling adds no line feed. */
  lemma PaintNoNewline(enabled: bool, look: Look, text: string)
    requires '\n' !in text
    ensures '\n' !in Paint(enabled, look, text)
  {
    if enabled && !look.IsPlain() {
      JoinCodesParams(Codes(look));
      var j := JoinCodes(Codes(look));
      assert '\n' !in j;
      assert '\n' !in Reset;
    }
  }

  lemma VisibleOfPlain(t: string)
    requires Esc !in t
    ensures Visible(t) == t
  {
    VisiblePlain(t, "");
    assert t + "" == t;
  }

  // ---------------------------------------------------------------------
  // Different colours give different text

  /** A foreground colour's SGR sequence is five characters: ESC, `[`, two
      digits, `m`. */
  lemma FgSgrShape(c: Colour)
    ensures Codes(Fg(c)) == [FgCode(c)]
    ensures var q := Sgr([FgCode(c)]); |q| == 5 && q[2..4] == NatStr(FgCode(c))
  {
    var n := FgCode(c);
    assert Codes(Fg(c)) == [] + [] + [] + [n];
    assert NatStr(n) == NatStr(n / 10) + [DigitChar(n % 10)];
    assert |NatStr(n / 10)| == 1;
    assert JoinCodes([n]) == NatStr(n);
  }

  /** Each colour has its own SGR parameter. */
  lemma FgCodeInjective(a: Colour, b: Colour)
    requires FgCode(a) == FgCode(b)
    ensures a == b
  {
  }

  /** Styled text in one foreground colour differs from the same text in
      another. */
  lemma PaintFgInjective(a: Colour, b: Colour, t: string)
    requires Paint(true, Fg(a), t) == Paint(true, Fg(b), t)
    ensures a == b
  {
    FgSgrShape(a);
    FgSgrShape(b);
    var qa, qb := Sgr([FgCode(a)]), Sgr([FgCode(b)]);
    var s := Paint(true, Fg(a), t);
    assert s == qa + t + Reset && s == qb + t + Reset;
    assert s[..5] == qa && s[..5] == qb;
    NatStrInjective(FgCode(a), FgCode(b));
    FgCodeInjective(a, b);
  }
}
