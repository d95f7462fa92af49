/** Row-spanning cells of one table column. Walking the slots in order, a
    column opens a new cell when its name differs from the name of the
    previous slot (or at the first slot) and otherwise grows the open cell's
    row span by one. A cell's colour class (subham or not) is fixed by the
    slot that opened it. */
module Runs {

  /** One table cell: its text, whether it was classed subham, and its row span. */
  datatype Cell = Cell(name: string, subham: bool, rowSpan: nat)

  /** Per slot, the name shown in a column and the subham flag computed there. */
  type Column = seq<(string, bool)>

  /** The slot at which the run of equal names containing slot `i` began. */
  function RunStart(col: Column, i: nat): (j: nat)
    requires i < |col|
    ensures j <= i
    ensures j == 0 || col[j - 1].0 != col[j].0
    ensures forall k :: j <= k <= i ==> col[k].0 == col[i].0
    decreases i
  {
    if i == 0 || col[i].0 != col[i - 1].0 then i else RunStart(col, i - 1)
  }

  /** The subham flag of the cell slot `i` falls in: the flag of its run's first slot. */
  function OpenTag(col: Column, i: nat): bool
    requires i < |col|
  {
    col[RunStart(col, i)].1
  }

  /** Run starts look only at the slots up to `i`. */
  lemma {:induction false} RunStartPrefix(col: Column, n: nat, i: nat)
    requires i < n <= |col|
    ensures RunStart(col[..n], i) == RunStart(col, i)
    decreases i
  {
    if i > 0 && col[i].0 == col[i - 1].0 {
      RunStartPrefix(col, n, i - 1);
    }
  }

  /** The flag of the last slot's cell: its own flag when it opens a cell,
      otherwise the flag of the previous slot's cell. */
  lemma OpenTagStep(col: Column)
    requires |col| > 0
    ensures var n := |col| - 1;
      && (n > 0 ==> col[..n][n - 1] == col[n - 1])
      && OpenTag(col, n) == if n > 0 && col[n].0 == col[n - 1].0 then OpenTag(col[..n], n - 1) else col[n].1
  {
    var n := |col| - 1;
    if n > 0 {
      RunStartPrefix(col, n, n - 1);
    }
  }

  function TotalSpan(cells: seq<Cell>): nat
    decreases |cells|
  {
    if |cells| == 0 then 0 else TotalSpan(cells[..|cells| - 1]) + cells[|cells| - 1].rowSpan
  }

  /** Spans are positive and neighbouring cells carry different names. */
  ghost predicate WellFormed(cells: seq<Cell>) {
    && (forall k :: 0 <= k < |cells| ==> cells[k].rowSpan >= 1)
    && (forall k :: 0 < k < |cells| ==> cells[k - 1].name != cells[k].name)
  }

  /** One step of the column walk: grow the open cell when the slot repeats
      its name, otherwise open a new cell classed by this slot's flag. */
  function Place(cells: seq<Cell>, name: string, tag: bool): (r: seq<Cell>)
    ensures |r| > 0 && r[|r| - 1].name == name
    ensures r[|r| - 1].subham == if |cells| > 0 && cells[|cells| - 1].name == name then cells[|cells| - 1].subham else tag
    ensures TotalSpan(r) == TotalSpan(cells) + 1
    ensures WellFormed(cells) ==> WellFormed(r)
  {
    if |cells| > 0 && cells[|cells| - 1].name == name then
      var init := cells[..|cells| - 1];
      var r := init + [cells[|cells| - 1].(rowSpan := cells[|cells| - 1].rowSpan + 1)];
      assert r[..|r| - 1] == init;
      r
    else
      var r := cells + [Cell(name, tag, 1)];
      assert r[..|r| - 1] == cells;
      r
  }

  /** The cells of a whole column. */
  function RunLength(col: Column): (cells: seq<Cell>)
    ensures |cells| == 0 <==> |col| == 0
    ensures |col| > 0 ==> cells[|cells| - 1].name == col[|col| - 1].0
    ensures |col| > 0 ==> cells[|cells| - 1].subham == OpenTag(col, |col| - 1)
    ensures WellFormed(cells)
    ensures TotalSpan(cells) == |col|
    decreases |col|
  {
    if |col| == 0 then []
    else
      var n := |col| - 1;
      var prev := RunLength(col[..n]);
      OpenTagStep(col);
      Place(prev, col[n].0, col[n].1)
  }

  /** The cells of one more slot are one more walk step. */
  lemma RunLengthSnoc(col: Column, x: (string, bool))
    ensures RunLength(col + [x]) == Place(RunLength(col), x.0, x.1)
  {
    assert (col + [x])[..|col|] == col;
  }

  /** `n` copies of one slot. */
  function Repeat(x: (string, bool), n: nat): (r: Column)
    ensures |r| == n
    decreases n
  {
    if n == 0 then [] else Repeat(x, n - 1) + [x]
  }

  /** The slots a sequence of cells stands for: each cell repeated over its row span. */
  function Expand(cells: seq<Cell>): Column
    decreases |cells|
  {
    if |cells| == 0 then []
    else
      var c := cells[|cells| - 1];
      Expand(cells[..|cells| - 1]) + Repeat((c.name, c.subham), c.rowSpan)
  }

  /** A column seen through its cells: each slot keeps its name and carries
      the flag of the slot that opened its cell. */
  function Opened(col: Column): (r: Column)
    ensures |r| == |col|
    decreases |col|
  {
    if |col| == 0 then []
    else Opened(col[..|col| - 1]) + [(col[|col| - 1].0, OpenTag(col, |col| - 1))]
  }

  /** Slot `i` of the opened view is the slot's name with its cell's flag. */
  lemma {:induction false} OpenedAt(col: Column, i: nat)
    requires i < |col|
    ensures Opened(col)[i] == (col[i].0, OpenTag(col, i))
    decreases |col|
  {
    var n := |col| - 1;
    if i < n {
      OpenedAt(col[..n], i);
      RunStartPrefix(col, n, i);
    }
  }

  /** Expanding one more cell appends its slots. */
  lemma ExpandSnoc(init: seq<Cell>, c: Cell)
    ensures Expand(init + [c]) == Expand(init) + Repeat((c.name, c.subham), c.rowSpan)
  {
    assert (init + [c])[..|init|] == init;
  }

  /** One walk step extends the expanded view by the new slot, carrying the
      flag of the cell it lands in. */
  lemma ExpandPlace(cells: seq<Cell>, name: string, tag: bool)
    ensures Expand(Place(cells, name, tag)) == Expand(cells) + [(name, Place(cells, name, tag)[|Place(cells, name, tag)| - 1].subham)]
  {
    var r := Place(cells, name, tag);
    if |cells| > 0 && cells[|cells| - 1].name == name {
      var c := cells[|cells| - 1];
      var init := cells[..|cells| - 1];
      assert cells == init + [c];
      ExpandSnoc(init, c);
      ExpandSnoc(init, c.(rowSpan := c.rowSpan + 1));
    } else {
      ExpandSnoc(cells, Cell(name, tag, 1));
      assert Repeat((name, tag), 1) == [(name, tag)];
    }
  }

  /** Merging loses nothing: expanding the cells restores every slot's name
      in order, and each slot reads the flag its cell was opened with. */
  lemma {:induction false} ExpandRunLength(col: Column)
    ensures Expand(RunLength(col)) == Opened(col)
    decreases |col|
  {
    if |col| > 0 {
      var n := |col| - 1;
      var prev := RunLength(col[..n]);
      var cells := RunLength(col);
      assert cells == Place(prev, col[n].0, col[n].1);
      ExpandRunLength(col[..n]);
      ExpandPlace(prev, col[n].0, col[n].1);
      assert cells[|cells| - 1].subham == OpenTag(col, n);
      assert Expand(cells) == Opened(col[..n]) + [(col[n].0, OpenTag(col, n))];
    }
  }

  /** Every cell is a maximal run: expanding a cell gives slots with its name,
      and neighbouring cells never share a name. */
  lemma CellsAreMaximalRuns(col: Column)
    ensures var cells := RunLength(col);
      && TotalSpan(cells) == |col|
      && (forall k :: 0 < k < |cells| ==> cells[k - 1].name != cells[k].name)
      && |Expand(cells)| == |col|
      && (forall i :: 0 <= i < |col| ==> Expand(cells)[i].0 == col[i].0)
  {
    ExpandRunLength(col);
    forall i | 0 <= i < |col| ensures Expand(RunLength(col))[i].0 == col[i].0 {
      OpenedAt(col, i);
    }
  }
}
