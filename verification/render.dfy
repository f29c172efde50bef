/** What the prompt draws: the full frame (query line, then one row per page
    entry with the selected entry highlighted) and the two-row partial
    repaint used when only the selection moves. Both are checked against one
    layout: the query line on row 1 and page entry `i` on row `i + 2`. */
module Render {
  import opened Terminal

  /** The text in front of the query on the first line. */
  const QueryPrefix: string := "Searching for: "

  function QueryRow(): int {
    1
  }

  function ItemRow(i: int): int {
    i + 2
  }

  function StyleOf(i: int, index: int): Style {
    if i == index then Highlight else Plain
  }

  /** The cells on row `r` of a completely drawn frame. */
  function LayoutRow(input: string, page: seq<string>, index: int, r: int): seq<Cell> {
    if r == QueryRow() then Cells(QueryPrefix + input, Plain)
    else if ItemRow(0) <= r < ItemRow(|page|) then
      Cells(page[r - ItemRow(0)], StyleOf(r - ItemRow(0), index))
    else []
  }

  /** The screen rows are exactly the frame for `input`, `page` and `index`. */
  ghost predicate Shows(lines: map<int, seq<Cell>>, input: string, page: seq<string>, index: int) {
    forall r :: Line(lines, r) == LayoutRow(input, page, index, r)
  }

  /** The entries from position `j` on, each followed by a line break. */
  function ListFrom(elems: seq<string>, index: int, j: nat): (acts: seq<Action>)
    requires j <= |elems|
    ensures |acts| == 2 * (|elems| - j)
    ensures forall i :: j <= i < |elems| ==>
              acts[2 * (i - j)] == Write(elems[i], StyleOf(i, index)) && acts[2 * (i - j) + 1] == LineBreak
    decreases |elems| - j
  {
    if j == |elems| then []
    else [Write(elems[j], StyleOf(j, index)), LineBreak] + ListFrom(elems, index, j + 1)
  }

  /** The list part of a full redraw: every entry in order, each on its own
      line, and the entry at `index` (only that one) highlighted. */
  function ListRenderable(elems: seq<string>, index: int): (acts: seq<Action>)
    ensures |acts| == 2 * |elems|
    ensures forall i :: 0 <= i < |elems| ==>
              acts[2 * i].Write? && acts[2 * i].text == elems[i] && acts[2 * i + 1] == LineBreak
    ensures forall k :: 0 <= k < |acts| && acts[k].Write? && acts[k].style == Highlight ==>
              0 <= index < |elems| && k == 2 * index
    ensures 0 <= index < |elems| ==> acts[2 * index] == Write(elems[index], Highlight)
  {
    var acts := ListFrom(elems, index, 0);
    forall i | 0 <= i < |elems|
      ensures acts[2 * i] == Write(elems[i], StyleOf(i, index)) && acts[2 * i + 1] == LineBreak
    {
      assert acts[2 * (i - 0)] == Write(elems[i], StyleOf(i, index));
      assert acts[2 * (i - 0) + 1] == LineBreak;
    }
    forall k | 0 <= k < |acts| && acts[k].Write? && acts[k].style == Highlight
      ensures 0 <= index < |elems| && k == 2 * index
    {
      var i := k / 2;
      assert k == 2 * i || k == 2 * i + 1;
      assert acts[2 * i] == Write(elems[i], StyleOf(i, index)) && acts[2 * i + 1] == LineBreak;
    }
    acts
  }

  /** A full redraw: the query line, a line break, then the list. */
  function FullRedraw(input: string, page: seq<string>, index: int): (acts: seq<Action>)
    ensures |acts| == 2 * |page| + 2
    ensures acts[0] == Write(QueryPrefix + input, Plain) && acts[1] == LineBreak
  {
    [Write(QueryPrefix + input, Plain), LineBreak] + ListRenderable(page, index)
  }

  /** After the query line, a full redraw lists every page entry in order,
      each followed by a line break, and highlights the selected entry and
      nothing else. */
  lemma FullRedrawListsPage(input: string, page: seq<string>, index: int)
    ensures var acts := FullRedraw(input, page, index);
      && (forall i :: 0 <= i < |page| ==>
            acts[2 * i + 2].Write? && acts[2 * i + 2].text == page[i] && acts[2 * i + 3] == LineBreak)
      && (forall k :: 0 <= k < |acts| && acts[k].Write? && acts[k].style == Highlight ==>
            0 <= index < |page| && k == 2 * index + 2)
      && (0 <= index < |page| ==> acts[2 * index + 2] == Write(page[index], Highlight))
  {
    var list := ListRenderable(page, index);
    var acts := FullRedraw(input, page, index);
    assert acts == [Write(QueryPrefix + input, Plain), LineBreak] + list;
    forall i | 0 <= i < |page|
      ensures acts[2 * i + 2] == list[2 * i] && acts[2 * i + 3] == list[2 * i + 1]
    {
    }
    forall k | 0 <= k < |acts| && acts[k].Write? && acts[k].style == Highlight
      ensures 0 <= index < |page| && k == 2 * index + 2
    {
      assert k >= 2;
      assert acts[k] == list[k - 2];
    }
    if 0 <= index < |page| {
      assert acts[2 * index + 2] == list[2 * index];
    }
  }

  /** The terminal row a row-clearing repaint for `row` moves to: the
      layout row of page entry `row - 1`, never the query line for the rows
      the loop passes (1 and up). */
  function ClearRowTarget(row: int): (r: int)
    ensures r == ItemRow(row - 1)
    ensures row >= 1 ==> r > QueryRow()
  {
    row + 1
  }

  /** Move to the start of the target row and erase it. */
  function ClearRow(row: int): (acts: seq<Action>)
    ensures |acts| == 2 && acts[1] == EraseLine
    ensures acts[0] == CursorTo(ItemRow(row - 1), 0)
  {
    [CursorTo(ClearRowTarget(row), 0), EraseLine]
  }

  /** Clearing a row from any screen empties exactly the target row and
      leaves the cursor at its start. */
  lemma ClearRowErases(t: Screen, row: int)
    requires row >= 0
    ensures var t' := ApplyAll(t, ClearRow(row));
      && Line(t'.lines, ClearRowTarget(row)) == []
      && t'.row == ClearRowTarget(row) && t'.col == 0
      && forall r :: r != ClearRowTarget(row) ==> Line(t'.lines, r) == Line(t.lines, r)
  {
    var acts := ClearRow(row);
    var t1 := Apply(t, acts[0]);
    var t2 := Apply(t1, acts[1]);
    assert ApplyAll(t2, acts[2..]) == t2;
    assert ApplyAll(t1, acts[1..]) == t2;
  }

  /** Clear a row and write one entry on it. */
  function Repaint(row: int, text: string, style: Style): seq<Action> {
    ClearRow(row) + [Write(text, style)]
  }

  /** The partial redraw after Down moved the selection to `index`: the
      previous entry is written plain, the new one highlighted. */
  function DownRedraw(page: seq<string>, index: int): (acts: seq<Action>)
    requires 1 <= index < |page|
    ensures |acts| == 6
    ensures acts[0] == CursorTo(ItemRow(index - 1), 0)
    ensures acts[3] == CursorTo(ItemRow(index), 0)
  {
    Repaint(index, page[index - 1], Plain) + Repaint(index + 1, page[index], Highlight)
  }

  /** The partial redraw after Up moved the selection to `index`. */
  function UpRedraw(page: seq<string>, index: int): (acts: seq<Action>)
    requires 0 <= index && index + 1 < |page|
    ensures |acts| == 6
    ensures acts[0] == CursorTo(ItemRow(index + 1), 0)
    ensures acts[3] == CursorTo(ItemRow(index), 0)
  {
    Repaint(index + 2, page[index + 1], Plain) + Repaint(index + 1, page[index], Highlight)
  }

  lemma OverlayEmpty(cells: seq<Cell>)
    ensures Overlay([], 0, cells) == cells
  {
    var r := Overlay([], 0, cells);
    assert r[0..|cells|] == cells;
    assert r == r[0..|cells|];
  }

  /** A repaint leaves exactly its target row showing the given entry and
      touches no other row. */
  lemma RepaintRow(t: Screen, row: int, text: string, style: Style)
    requires row >= 0
    ensures var t' := ApplyAll(t, Repaint(row, text, style));
      && Line(t'.lines, ClearRowTarget(row)) == Cells(text, style)
      && forall r :: r != ClearRowTarget(row) ==> Line(t'.lines, r) == Line(t.lines, r)
  {
    var acts := Repaint(row, text, style);
    var t1 := Apply(t, acts[0]);
    var t2 := Apply(t1, acts[1]);
    var t3 := Apply(t2, acts[2]);
    assert t1.row == row + 1 && t1.col == 0 && t1.lines == t.lines;
    assert Line(t2.lines, row + 1) == [] && t2.row == row + 1 && t2.col == 0;
    OverlayEmpty(Cells(text, style));
    assert Line(t3.lines, row + 1) == Cells(text, style);
    assert ApplyAll(t3, acts[3..]) == t3;
    assert ApplyAll(t2, acts[2..]) == t3;
    assert ApplyAll(t1, acts[1..]) == t3;
  }

  /** A Down repaint turns the frame for the previous selection into the
      frame for the new one: the rows it targets are the layout rows of the
      two entries whose highlight changes. */
  lemma DownRedrawMovesHighlight(t: Screen, input: string, page: seq<string>, index: int)
    requires 1 <= index < |page|
    requires Shows(t.lines, input, page, index - 1)
    ensures Shows(ApplyAll(t, DownRedraw(page, index)).lines, input, page, index)
  {
    var a := Repaint(index, page[index - 1], Plain);
    var b := Repaint(index + 1, page[index], Highlight);
    ApplyAllAppend(t, a, b);
    RepaintRow(t, index, page[index - 1], Plain);
    RepaintRow(ApplyAll(t, a), index + 1, page[index], Highlight);
    var t' := ApplyAll(t, DownRedraw(page, index));
    forall r ensures Line(t'.lines, r) == LayoutRow(input, page, index, r) {
      assert Line(t.lines, r) == LayoutRow(input, page, index - 1, r);
    }
  }

  /** An Up repaint turns the frame for the previous selection into the
      frame for the new one. */
  lemma UpRedrawMovesHighlight(t: Screen, input: string, page: seq<string>, index: int)
    requires 0 <= index && index + 1 < |page|
    requires Shows(t.lines, input, page, index + 1)
    ensures Shows(ApplyAll(t, UpRedraw(page, index)).lines, input, page, index)
  {
    var a := Repaint(index + 2, page[index + 1], Plain);
    var b := Repaint(index + 1, page[index], Highlight);
    ApplyAllAppend(t, a, b);
    RepaintRow(t, index + 2, page[index + 1], Plain);
    RepaintRow(ApplyAll(t, a), index + 1, page[index], Highlight);
    var t' := ApplyAll(t, UpRedraw(page, index));
    forall r ensures Line(t'.lines, r) == LayoutRow(input, page, index, r) {
      assert Line(t.lines, r) == LayoutRow(input, page, index + 1, r);
    }
  }

  /** Drawing the entries from `j` on, starting on their layout row of a
      screen that holds the layout rows above it and nothing below, completes
      the frame. */
  lemma {:induction false} ListFromDraws(t: Screen, input: string, page: seq<string>, index: int, j: nat)
    requires j <= |page|
    requires t.row == ItemRow(j) && t.col == 0
    requires forall r :: Line(t.lines, r) == if r < ItemRow(j) then LayoutRow(input, page, index, r) else []
    ensures var t' := ApplyAll(t, ListFrom(page, index, j));
      && Shows(t'.lines, input, page, index)
      && t'.row == ItemRow(|page|) && t'.col == 0
    decreases |page| - j
  {
    if j == |page| {
      forall r ensures Line(t.lines, r) == LayoutRow(input, page, index, r) {
      }
    } else {
      var acts := ListFrom(page, index, j);
      var t1 := Apply(t, acts[0]);
      var t2 := Apply(t1, acts[1]);
      OverlayEmpty(Cells(page[j], StyleOf(j, index)));
      assert Line(t.lines, ItemRow(j)) == [];
      assert Line(t1.lines, ItemRow(j)) == Cells(page[j], StyleOf(j, index));
      assert acts[2..] == ListFrom(page, index, j + 1);
      ListFromDraws(t2, input, page, index, j + 1);
      assert ApplyAll(t1, acts[1..]) == ApplyAll(t2, acts[2..]);
    }
  }

  /** A full redraw on a cleared screen shows exactly the frame, and leaves
      the cursor at the start of the row after the last entry. */
  lemma FullRedrawShowsLayout(input: string, page: seq<string>, index: int)
    ensures var t := ApplyAll(Blank, FullRedraw(input, page, index));
      && Shows(t.lines, input, page, index)
      && t.row == ItemRow(|page|) && t.col == 0
  {
    var head := [Write(QueryPrefix + input, Plain), LineBreak];
    ApplyAllAppend(Blank, head, ListRenderable(page, index));
    var t1 := Apply(Blank, head[0]);
    var t2 := Apply(t1, head[1]);
    OverlayEmpty(Cells(QueryPrefix + input, Plain));
    assert ApplyAll(t1, head[1..]) == t2;
    assert ApplyAll(Blank, head) == t2;
    ListFromDraws(t2, input, page, index, 0);
  }
}
