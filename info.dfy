/** Field collection of `src/info/mod.rs`: each configured field is a custom
    command's output, a built-in getter's result, the colour blocks, or
    "Unknown"; `collect_all` keeps the fields whose collection succeeded. The
    built-in getters (system, hardware and software queries) and the shell
    are given as functions of this run's host. */
module Info {
  import opened Base
  import opened Text
  import opened Style
  import opened Config
  import opened Custom

  /** The names `collect_field` has a built-in case for. */
  const BuiltinFields: set<string> := {
    "os", "hostname", "userhost", "kernel", "uptime", "cpu", "memory", "disk",
    "shell", "terminal", "packages", "resolution", "de", "wm", "colors"}

  /** What the host gives: each built-in getter's result by field name, what
      running a custom command gives, and whether output is styled. */
  datatype Probes = Probes(getter: string -> Result<string>, shell: string -> CommandOutcome, colors: bool)

  // ---------------------------------------------------------------------
  // The colour blocks

  const NormalColours: seq<Colour> := [Black, Red, Green, Yellow, Blue, Magenta, Cyan, White]
  const BrightColours: seq<Colour> :=
    [BrightBlack, BrightRed, BrightGreen, BrightYellow, BrightBlue, BrightMagenta, BrightCyan, BrightWhite]

  /** Three full blocks in each colour, on a background of the same colour. */
  function Blocks(colors: bool, cs: seq<Colour>): string {
    if cs == [] then "" else Paint(colors, Fg(cs[0]).On(cs[0]), "███") + Blocks(colors, cs[1..])
  }

  /** `get_color_blocks`: the normal row, a line feed, the bright row. */
  function ColorBlocks(colors: bool): string {
    Blocks(colors, NormalColours) + "\n" + Blocks(colors, BrightColours)
  }

  /** A row shows three block characters per colour. */
  lemma {:induction false} BlocksShow(colors: bool, cs: seq<Colour>, rest: string)
    ensures Visible(Blocks(colors, cs) + rest) == Repeat('█', 3 * |cs|) + Visible(rest)
  {
    if cs != [] {
      var look := Fg(cs[0]).On(cs[0]);
      var head, tail := Paint(colors, look, "███"), Blocks(colors, cs[1..]);
      Assoc(head, tail, rest);
      PaintVisibleThen(colors, look, "███", tail + rest);
      BlocksShow(colors, cs[1..], rest);
      var n := 3 * (|cs| - 1);
      RepeatThree('█', n);
      Assoc("███", Repeat('█', n), Visible(rest));
    } else {
      assert Blocks(colors, cs) + rest == rest;
      assert Repeat('█', 0) + Visible(rest) == Visible(rest);
    }
  }

  lemma RepeatThree(c: char, n: nat)
    ensures Repeat(c, n + 3) == [c, c, c] + Repeat(c, n)
  {
  }

  lemma {:induction false} BlocksNoNewline(colors: bool, cs: seq<Colour>)
    ensures '\n' !in Blocks(colors, cs)
  {
    if cs != [] {
      PaintNoNewline(colors, Fg(cs[0]).On(cs[0]), "███");
      BlocksNoNewline(colors, cs[1..]);
    }
  }

  /** The colour blocks show two rows of 24 block characters, and hold
      exactly one line feed, between the two rows. */
  lemma ColorBlocksShape(colors: bool)
    ensures Visible(ColorBlocks(colors)) == Repeat('█', 24) + "\n" + Repeat('█', 24)
    ensures Count(ColorBlocks(colors), '\n') == 1
  {
    ColorBlocksShow(colors, NormalColours, BrightColours);
    ColorBlocksCount(colors, NormalColours, BrightColours);
  }

  lemma ColorBlocksShow(colors: bool, normal: seq<Colour>, bright: seq<Colour>)
    requires |normal| == 8 && |bright| == 8
    ensures Visible(Blocks(colors, normal) + "\n" + Blocks(colors, bright))
            == Repeat('█', 24) + "\n" + Repeat('█', 24)
  {
    var n, b := Blocks(colors, normal), Blocks(colors, bright);
    var row := Repeat('█', 24);
    Assoc(n, "\n", b);
    BlocksShow(colors, normal, "\n" + b);
    VisiblePlain("\n", b);
    BlocksShowAlone(colors, bright);
    Assoc(row, "\n", row);
  }

  lemma BlocksShowAlone(colors: bool, cs: seq<Colour>)
    ensures Visible(Blocks(colors, cs)) == Repeat('█', 3 * |cs|)
  {
    var b := Blocks(colors, cs);
    BlocksShow(colors, cs, "");
    assert b + "" == b;
    assert Visible("") == "";
    assert Repeat('█', 3 * |cs|) + "" == Repeat('█', 3 * |cs|);
  }

  lemma ColorBlocksCount(colors: bool, normal: seq<Colour>, bright: seq<Colour>)
    ensures Count(Blocks(colors, normal) + "\n" + Blocks(colors, bright), '\n') == 1
  {
    var n, b := Blocks(colors, normal), Blocks(colors, bright);
    assert n + "\n" + b == n + ("\n" + b);
    BlocksNoNewline(colors, normal);
    BlocksNoNewline(colors, bright);
    CountAppend(n, "\n" + b, '\n');
    CountAppend("\n", b, '\n');
    CountZero(n, '\n');
    CountZero(b, '\n');
  }

  // ---------------------------------------------------------------------
  // One field

  /** `collect_field`: a custom command of that name first, then the
      built-in cases, "Unknown" for any other name. Only a custom command
      can panic. */
  function CollectField(c: InfoConfig, p: Probes, field: string): (r: Run<Result<string>>)
    ensures field !in c.customCommands ==> r.Returned?
  {
    if field in c.customCommands then ExecuteCustomCommand(p.shell(c.customCommands[field]))
    else if field == "colors" then Returned(Ok(ColorBlocks(p.colors)))
    else if field in BuiltinFields then Returned(p.getter(field))
    else Returned(Ok("Unknown"))
  }

  /** A custom command overrides a built-in field of the same name: the
      result does not depend on the built-in getters or the styling. */
  lemma CustomTakesPrecedence(c: InfoConfig, p1: Probes, p2: Probes, field: string)
    requires field in c.customCommands
    requires p1.shell(c.customCommands[field]) == p2.shell(c.customCommands[field])
    ensures CollectField(c, p1, field) == CollectField(c, p2, field)
    ensures CollectField(c, p1, field) == ExecuteCustomCommand(p1.shell(c.customCommands[field]))
  {
  }

  /** A name with neither a custom command nor a built-in case is "Unknown". */
  lemma UnknownField(c: InfoConfig, p: Probes, field: string)
    requires field !in c.customCommands && field !in BuiltinFields
    ensures CollectField(c, p, field) == Returned(Ok("Unknown"))
  {
  }

  // ---------------------------------------------------------------------
  // All fields

  /** The map `collect_all` builds from `fields`, in order; a panic in any
      field's collection ends the whole call. */
  function Collected(c: InfoConfig, p: Probes, fields: seq<string>): Run<map<string, string>> {
    if fields == [] then Returned(map[])
    else
      var n := |fields| - 1;
      match Collected(c, p, fields[..n])
      case Panicked => Panicked
      case Returned(m) =>
        match CollectField(c, p, fields[n])
        case Panicked => Panicked
        case Returned(Ok(v)) => Returned(m[fields[n] := v])
        case Returned(Err(_)) => Returned(m)
  }

  /** `InfoCollector::collect_all`: a loop inserting each collected value. */
  method CollectAll(c: InfoConfig, p: Probes) returns (r: Run<map<string, string>>)
    ensures r == Collected(c, p, c.fields)
  {
    var info: map<string, string> := map[];
    var fields := c.fields;
    for i := 0 to |fields|
      invariant Collected(c, p, fields[..i]) == Returned(info)
    {
      var field := fields[i];
      var outcome := CollectField(c, p, field);
      CollectedStep(c, p, fields, i, info);
      if outcome.Panicked? {
        CollectedPanics(c, p, fields, i + 1);
        return Panicked;
      }
      if outcome.value.Ok? {
        info := info[field := outcome.value.value];
      }
    }
    assert fields[..|fields|] == fields;
    return Returned(info);
  }

  /** One more field: a panic ends the collection, a value is inserted, an
      error leaves the map as it was. */
  lemma CollectedStep(c: InfoConfig, p: Probes, fields: seq<string>, i: nat, m: map<string, string>)
    requires i < |fields| && Collected(c, p, fields[..i]) == Returned(m)
    ensures var o := CollectField(c, p, fields[i]);
            Collected(c, p, fields[..i + 1])
            == if o.Panicked? then Panicked
               else if o.value.Ok? then Returned(m[fields[i] := o.value.value])
               else Returned(m)
  {
    assert fields[..i + 1][..i] == fields[..i];
  }

  /** Once a prefix panics, so does every longer prefix. */
  lemma {:induction false} CollectedPanics(c: InfoConfig, p: Probes, fields: seq<string>, i: nat)
    requires i <= |fields| && Collected(c, p, fields[..i]).Panicked?
    ensures Collected(c, p, fields).Panicked?
    decreases |fields| - i
  {
    if i < |fields| {
      assert fields[..i + 1][..i] == fields[..i];
      CollectedPanics(c, p, fields, i + 1);
    } else {
      assert fields[..i] == fields;
    }
  }

  /** The map holds exactly the listed fields whose collection returned a
      value, each bound to that value; the call panics exactly when some
      listed field's collection panics. */
  lemma {:induction false} CollectedMap(c: InfoConfig, p: Probes, fields: seq<string>)
    ensures Collected(c, p, fields).Panicked?
            <==> exists i :: 0 <= i < |fields| && CollectField(c, p, fields[i]).Panicked?
    ensures Collected(c, p, fields).Returned? ==>
              var m := Collected(c, p, fields).value;
              forall f :: f in m <==> f in fields && CollectField(c, p, f).Returned? && CollectField(c, p, f).value.Ok?
    ensures Collected(c, p, fields).Returned? ==>
              var m := Collected(c, p, fields).value;
              forall f :: f in m ==> m[f] == CollectField(c, p, f).value.value
    decreases |fields|
  {
    if fields != [] {
      var n := |fields| - 1;
      var init := fields[..n];
      CollectedMap(c, p, init);
      assert fields == init + [fields[n]];
      assert forall i :: 0 <= i < n ==> fields[i] == init[i];
      assert forall f :: f in fields <==> f in init || f == fields[n];
    }
  }

  /** Without custom commands nothing can panic, so `collect_all` always
      returns a map. */
  lemma NoCustomNoPanic(c: InfoConfig, p: Probes)
    requires c.customCommands == map[]
    ensures Collected(c, p, c.fields).Returned?
  {
    CollectedMap(c, p, c.fields);
  }
}
