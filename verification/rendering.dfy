/** The printable picture of a grid (`Maze.__str__`): one line per row, one
    character per cell, each line ended by a newline; and the reading that
    undoes it. */
module Rendering {
  import opened Wrappers
  import opened Cells
  import opened Grids

  /** `"".join([c.value for c in row])`. */
  function RowText(row: seq<Cell>): (s: string)
    ensures |s| == |row|
    ensures forall j :: 0 <= j < |row| ==> FromChar(s[j]) == Some(row[j])
  {
    seq(|row|, j requires 0 <= j < |row| => ToChar(row[j]))
  }

  /** The rows' lines concatenated top to bottom, each followed by "\n". */
  function Render(g: Grid): string
  {
    if g == [] then "" else RowText(g[0]) + "\n" + Render(g[1..])
  }

  /** Where the cell in row `row`, column `column` lands in the picture of a
      grid whose rows are `width` cells wide. */
  function Offset(row: int, column: int, width: nat): int
  {
    row * (width + 1) + column
  }

  lemma OffsetNextRow(row: int, column: int, width: nat)
    ensures Offset(row, column, width) == Offset(row - 1, column, width) + width + 1
  {
  }

  /** The layout of the picture: its length, each cell's character at its
      offset, and a newline closing every row. */
  lemma {:induction false} RenderLayout(g: Grid, width: nat)
    requires Shaped(g, |g|, width)
    ensures |Render(g)| == |g| * (width + 1)
    ensures forall r, c :: 0 <= r < |g| && 0 <= c < width ==>
      0 <= Offset(r, c, width) < |Render(g)| && Render(g)[Offset(r, c, width)] == ToChar(g[r][c])
    ensures forall r :: 0 <= r < |g| ==>
      0 <= Offset(r, width, width) < |Render(g)| && Render(g)[Offset(r, width, width)] == '\n'
  {
    if g != [] {
      var rest := g[1..];
      RenderLayout(rest, width);
      var line := RowText(g[0]) + "\n";
      assert Render(g) == line + Render(rest);
      assert |line| == width + 1;
      forall r, c | 0 <= r < |g| && 0 <= c <= width
        ensures 0 <= Offset(r, c, width) < |Render(g)|
        ensures Render(g)[Offset(r, c, width)] == if c == width then '\n' else ToChar(g[r][c])
      {
        if r == 0 {
          assert Offset(r, c, width) == c;
        } else {
          OffsetNextRow(r, c, width);
          assert Offset(r, c, width) == |line| + Offset(r - 1, c, width);
          assert g[r] == rest[r - 1];
        }
      }
    }
  }

  /** Reads a picture back into rows of `width` cells; `None` when the text
      is not the picture of such a grid. */
  function Parse(s: string, width: nat): (r: Option<Grid>)
    ensures r.Some? ==> Shaped(r.value, |r.value|, width)
    decreases |s|
  {
    if s == [] then Some([])
    else if |s| < width + 1 || s[width] != '\n' then None
    else
      match ParseRow(s[..width])
      case None => None
      case Some(row) =>
        match Parse(s[width + 1..], width)
        case None => None
        case Some(rows) => Some([row] + rows)
  }

  /** Reads one line of markers, character by character. */
  function ParseRow(s: string): (r: Option<seq<Cell>>)
    ensures r.Some? ==> |r.value| == |s|
  {
    if s == [] then Some([])
    else
      match FromChar(s[0])
      case None => None
      case Some(c) =>
        match ParseRow(s[1..])
        case None => None
        case Some(cs) => Some([c] + cs)
  }

  lemma {:induction false} ParseRowText(row: seq<Cell>)
    ensures ParseRow(RowText(row)) == Some(row)
  {
    if row != [] {
      var s := RowText(row);
      ParseRowText(row[1..]);
      assert s[1..] == RowText(row[1..]);
      assert FromChar(s[0]) == Some(row[0]);
      assert [row[0]] + row[1..] == row;
    }
  }

  lemma {:induction false} RowTextParse(s: string, row: seq<Cell>)
    requires ParseRow(s) == Some(row)
    ensures RowText(row) == s
  {
    if s != [] {
      var c := FromChar(s[0]).value;
      var cs := ParseRow(s[1..]).value;
      RowTextParse(s[1..], cs);
      CharRoundTrip(c, s[0]);
      assert row == [c] + cs;
    }
  }

  /** Reading the picture of a grid gives back that grid. */
  lemma {:induction false} ParseRender(g: Grid, width: nat)
    requires Shaped(g, |g|, width)
    ensures Parse(Render(g), width) == Some(g)
  {
    if g != [] {
      var s := Render(g);
      var line := RowText(g[0]);
      assert s == line + "\n" + Render(g[1..]);
      assert s[..width] == line;
      assert s[width + 1..] == Render(g[1..]);
      ParseRowText(g[0]);
      ParseRender(g[1..], width);
      assert [g[0]] + g[1..] == g;
    }
  }

  /** Whatever text reads back as a grid is exactly that grid's picture. */
  lemma {:induction false} RenderParse(s: string, width: nat, g: Grid)
    requires Parse(s, width) == Some(g)
    ensures Render(g) == s
    decreases |s|
  {
    if s != [] {
      var row := ParseRow(s[..width]).value;
      var rows := Parse(s[width + 1..], width).value;
      RowTextParse(s[..width], row);
      RenderParse(s[width + 1..], width, rows);
      assert g == [row] + rows;
      assert g[1..] == rows;
      assert s == s[..width] + "\n" + s[width + 1..];
    }
  }

}
