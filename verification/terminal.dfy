/** A line-oriented model of the console the prompt draws on: rows of styled
    cells and a cursor, changed by the few console actions the prompt emits.
    Rows are numbered from 1 at the top, as the cursor-position sequence
    numbers them; columns are held 0-based. Lines never wrap and the screen
    never scrolls. */
module Terminal {

  /** Plain text, or the highlight colour of the selected row. */
  datatype Style = Plain | Highlight

  datatype Cell = Cell(ch: char, style: Style)

  /** What the prompt sends to the console. */
  datatype Action =
    | ClearScreen                        // erase the whole screen and home the cursor
    | Write(text: string, style: Style)  // a text segment at the cursor
    | LineBreak                          // to the start of the next row
    | CursorTo(row: int, column: int)    // cursor position, 1-based; 0 means 1
    | EraseLine                          // erase from the cursor to the end of its row

  /** The rows shown (a missing row is empty) and the cursor. */
  datatype Screen = Screen(lines: map<int, seq<Cell>>, row: int, col: nat)

  const Blank: Screen := Screen(map[], 1, 0)

  /** The cells shown on row `r`. */
  function Line(lines: map<int, seq<Cell>>, r: int): seq<Cell> {
    if r in lines then lines[r] else []
  }

  /** Row `r` now shows `line`; every other row is kept. */
  function Put(lines: map<int, seq<Cell>>, r: int, line: seq<Cell>): (m: map<int, seq<Cell>>)
    ensures Line(m, r) == line
    ensures forall r' :: r' != r ==> Line(m, r') == Line(lines, r')
  {
    if line == [] then lines - {r} else lines[r := line]
  }

  function Cells(text: string, style: Style): (cs: seq<Cell>)
    ensures |cs| == |text|
    ensures forall i :: 0 <= i < |text| ==> cs[i] == Cell(text[i], style)
  {
    seq(|text|, i requires 0 <= i < |text| => Cell(text[i], style))
  }

  /** `line` with `cells` written over it from column `col`; a gap before
      `col` is filled with blanks. */
  function Overlay(line: seq<Cell>, col: nat, cells: seq<Cell>): (r: seq<Cell>)
    ensures |r| == if col + |cells| <= |line| then |line| else col + |cells|
    ensures r[col..col + |cells|] == cells
    ensures r[..col] == (if col <= |line| then line[..col] else line + Cells(Spaces(col - |line|), Plain))
  {
    var padded := if col <= |line| then line else line + Cells(Spaces(col - |line|), Plain);
    var rest := if col + |cells| <= |padded| then padded[col + |cells|..] else [];
    assert (padded[..col] + cells + rest)[..col] == padded[..col];
    assert (padded[..col] + cells + rest)[col..col + |cells|] == cells;
    padded[..col] + cells + rest
  }

  function Spaces(n: nat): (s: string)
    ensures |s| == n
  {
    seq(n, _ => ' ')
  }

  function Apply(s: Screen, a: Action): Screen {
    match a
    case ClearScreen => Blank
    case Write(text, style) =>
      Screen(Put(s.lines, s.row, Overlay(Line(s.lines, s.row), s.col, Cells(text, style))),
             s.row, s.col + |text|)
    case LineBreak => Screen(s.lines, s.row + 1, 0)
    case CursorTo(row, column) =>
      Screen(s.lines, if row < 1 then 1 else row, if column < 1 then 0 else column - 1)
    case EraseLine =>
      var line := Line(s.lines, s.row);
      Screen(Put(s.lines, s.row, if s.col <= |line| then line[..s.col] else line), s.row, s.col)
  }

  function ApplyAll(s: Screen, actions: seq<Action>): Screen
    decreases |actions|
  {
    if |actions| == 0 then s else ApplyAll(Apply(s, actions[0]), actions[1..])
  }

  lemma {:induction false} ApplyAllAppend(s: Screen, a: seq<Action>, b: seq<Action>)
    ensures ApplyAll(s, a + b) == ApplyAll(ApplyAll(s, a), b)
    decreases |a|
  {
    if |a| > 0 {
      assert (a + b)[0] == a[0];
      assert (a + b)[1..] == a[1..] + b;
      ApplyAllAppend(Apply(s, a[0]), a[1..], b);
    } else {
      assert a + b == b;
    }
  }
}
