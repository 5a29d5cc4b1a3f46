/** The cursor-movement sequences image mode writes, and where a terminal
    puts the text between them. Rows and columns are counted from the
    terminal's origin; printed text is assumed to hold no control character
    other than SGR sequences, to take one cell per shown character, and not to
    wrap at the right margin. */
module Terminal {
  import opened Base
  import opened Text
  import opened Style

  /** One piece of output: text, a line feed, or a cursor movement of `n`
      cells (ECMA-48 CUU, CUD, CUF). */
  datatype Cmd = Print(text: string) | NewLine | Up(n: nat) | Down(n: nat) | Forward(n: nat)

  /** `ESC [ n <final>`. */
  function Csi(n: nat, final: char): string {
    [Esc, '['] + NatStr(n) + [final]
  }

  /** The characters written for one command. */
  function EmitOne(c: Cmd): string {
    match c
    case Print(t) => t
    case NewLine => "\n"
    case Up(n) => Csi(n, 'A')
    case Down(n) => Csi(n, 'B')
    case Forward(n) => Csi(n, 'C')
  }

  function Emit(cs: seq<Cmd>): string {
    if cs == [] then "" else EmitOne(cs[0]) + Emit(cs[1..])
  }

  lemma {:induction false} EmitAppend(a: seq<Cmd>, b: seq<Cmd>)
    ensures Emit(a + b) == Emit(a) + Emit(b)
  {
    if a == [] {
      assert a + b == b;
    } else {
      assert (a + b)[1..] == a[1..] + b;
      EmitAppend(a[1..], b);
    }
  }

  lemma EmitSingle(a: Cmd)
    ensures Emit([a]) == EmitOne(a)
  {
    assert [a][1..] == [];
  }

  lemma EmitPair(a: Cmd, b: Cmd)
    ensures Emit([a, b]) == EmitOne(a) + EmitOne(b)
  {
    assert [a, b][1..] == [b];
    EmitSingle(b);
  }

  datatype Cursor = Cursor(row: int, col: int)

  /** Text printed with the cursor at (`row`, `col`). */
  datatype Placement = Placement(row: int, col: int, text: string)

  /** Where the cursor stands after one command. A line feed returns to the
      first column, as a terminal in its usual (`onlcr`) mode shows it. */
  function Step(c: Cmd, p: Cursor): Cursor {
    match c
    case Print(t) => Cursor(p.row, p.col + |Visible(t)|)
    case NewLine => Cursor(p.row + 1, 0)
    case Up(n) => Cursor(p.row - n, p.col)
    case Down(n) => Cursor(p.row + n, p.col)
    case Forward(n) => Cursor(p.row, p.col + n)
  }

  /** Where the cursor stands after all of `cs`, started at `p`. */
  function Final(cs: seq<Cmd>, p: Cursor): Cursor {
    if cs == [] then p else Final(cs[1..], Step(cs[0], p))
  }

  /** Every text of `cs` with the position it is printed at. */
  function Placements(cs: seq<Cmd>, p: Cursor): seq<Placement> {
    if cs == [] then []
    else (match cs[0] case Print(t) => [Placement(p.row, p.col, t)] case _ => [])
         + Placements(cs[1..], Step(cs[0], p))
  }

  lemma {:induction false} RunAppend(a: seq<Cmd>, b: seq<Cmd>, p: Cursor)
    ensures Final(a + b, p) == Final(b, Final(a, p))
    ensures Placements(a + b, p) == Placements(a, p) + Placements(b, Final(a, p))
  {
    if a == [] {
      assert a + b == b;
    } else {
      assert (a + b)[1..] == a[1..] + b;
      RunAppend(a[1..], b, Step(a[0], p));
    }
  }
}
