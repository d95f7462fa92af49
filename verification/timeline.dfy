/** The table of a Tamil day without its DOM: 48 half-hour slots from 06:00,
    each resolved against the Orai, Gowri Panchangam and Asubha Kaalam
    tables, three columns of row-spanning cells, and the list of auspicious
    slots.

    `LayoutOf` is the specification, built from whole-sequence pieces
    (classify every slot, run-length each column, filter the slots);
    `PrepareTable` is the single pass of the original, carrying the previous
    names, the open cells and the Asubha Kaalam type from slot to slot, and
    is proved to compute `LayoutOf`. */
module Timeline {
  import opened Wrappers
  import opened Clock
  import opened Resolver
  import opened Runs

  /** Half-hour slots in a day. */
  const SlotCount: nat := 48

  /** Minutes after midnight at which slot `i` starts: the Tamil day begins at 06:00. */
  function SlotStart(i: nat): nat {
    360 + 30 * i
  }

  /** The 48 slots tile 06:00 to 06:00 the next day: every minute of that
      span lies in a slot, no minute outside it does, and no minute lies in two. */
  lemma SlotsTileTheDay(m: int)
    ensures 360 <= m < 360 + 1440 <==>
      exists i :: 0 <= i < SlotCount && SlotStart(i) <= m < SlotStart(i) + 30
    ensures forall i, j ::
      && 0 <= i < SlotCount && SlotStart(i) <= m < SlotStart(i) + 30
      && 0 <= j < SlotCount && SlotStart(j) <= m < SlotStart(j) + 30
      ==> i == j
  {
    if 360 <= m < 360 + 1440 {
      var i := (m - 360) / 30;
      assert SlotStart(i) <= m < SlotStart(i) + 30;
    }
  }

  /** The minute of the day at which slot `i` starts. */
  lemma SlotMinuteOfDay(i: nat)
    requires i < SlotCount
    ensures SlotStart(i) % 1440 == if i < 36 then SlotStart(i) else SlotStart(i) - 1440
  {
  }

  /** Different slots start at different minutes of the day. */
  lemma SlotStartsDistinct(i: nat, j: nat)
    requires i < SlotCount && j < SlotCount
    requires SlotStart(i) % 1440 == SlotStart(j) % 1440
    ensures i == j
  {
    SlotMinuteOfDay(i);
    SlotMinuteOfDay(j);
  }

  /** The time the resolvers see for slot `i`: the minute of the day it starts at. */
  function SlotTime(i: nat): int {
    SlotStart(i) % 1440
  }

  /** The original obtains that time by printing the slot's start as a
      24-hour label and parsing the label back. */
  lemma SlotTimeFromLabel(i: nat)
    ensures TimeToMinutes(Format24(SlotStart(i))) == Some(SlotTime(i))
  {
    Format24RoundTrip(SlotStart(i));
  }

  /** The first 24 slots read the day buckets and the last 24 the night
      buckets, and every slot time is within one day. */
  lemma SlotPeriods(i: nat)
    requires i < SlotCount
    ensures 0 <= SlotTime(i) < 1440
    ensures PeriodAt(SlotTime(i)) == Day <==> i < 24
  {
    SlotMinuteOfDay(i);
  }

  // ---------------------------------------------------------------------
  // Classification

  /** The three period tables. */
  datatype Tables = Tables(orai: Table, gowri: Table, asubha: Table)

  /** A resolved slot: Orai and Gowri Panchangam must resolve, Asubha Kaalam may not. */
  datatype Slot = Slot(orai: Entry, gowri: Entry, asubha: Option<Entry>)

  /** The slot at which the original dereferences a `null` lookup result and throws. */
  datatype Failure = OraiUnresolved(slot: nat) | GowriUnresolved(slot: nat)

  /** The lookups of slot `i`; a `null` Orai or Gowri Panchangam result is
      the failure the original throws at that slot. */
  function ClassifySlot(tables: Tables, day: string, i: nat): (r: Result<Slot, Failure>)
    ensures r.Err? ==> r.error.slot == i
    ensures r.Err? <==> Resolve(tables.orai, day, SlotTime(i)).None? || Resolve(tables.gowri, day, SlotTime(i)).None?
    ensures r.Err? ==> (r.error.OraiUnresolved? <==> Resolve(tables.orai, day, SlotTime(i)).None?)
  {
    var t := SlotTime(i);
    var orai := Resolve(tables.orai, day, t);
    if orai.None? then Err(OraiUnresolved(i))
    else
      var gowri := Resolve(tables.gowri, day, t);
      if gowri.None? then Err(GowriUnresolved(i))
      else Ok(Slot(orai.value, gowri.value, Resolve(tables.asubha, day, t)))
  }

  /** The lookups of the first `n` slots, one result per slot. */
  function SlotResults(tables: Tables, day: string, n: nat): (rs: seq<Result<Slot, Failure>>)
    ensures |rs| == n
    decreases n
  {
    if n == 0 then [] else SlotResults(tables, day, n - 1) + [ClassifySlot(tables, day, n - 1)]
  }

  /** All slots, or the failure of the first slot that cannot be classified. */
  function Collect(rs: seq<Result<Slot, Failure>>): (r: Result<seq<Slot>, Failure>)
    ensures r.Ok? <==> forall i :: 0 <= i < |rs| ==> rs[i].Ok?
    ensures r.Ok? ==> |r.value| == |rs| && forall i :: 0 <= i < |rs| ==> rs[i] == Ok(r.value[i])
    ensures r.Err? ==> exists i :: 0 <= i < |rs| && rs[i] == Err(r.error) && forall j :: 0 <= j < i ==> rs[j].Ok?
    decreases |rs|
  {
    if |rs| == 0 then Ok([])
    else
      var n := |rs| - 1;
      var init := rs[..n];
      assert forall i :: 0 <= i < n ==> init[i] == rs[i];
      match Collect(init)
      case Err(f) => Err(f)
      case Ok(prefix) =>
        match rs[n]
        case Err(f) => Err(f)
        case Ok(s) =>
          var r := prefix + [s];
          assert forall i :: 0 <= i < n ==> r[i] == prefix[i];
          Ok(r)
  }

  /** A failure among the earlier results is kept when one more is added. */
  lemma CollectStepErr(rs: seq<Result<Slot, Failure>>)
    requires |rs| > 0 && Collect(rs[..|rs| - 1]).Err?
    ensures Collect(rs) == Collect(rs[..|rs| - 1])
  {
  }

  /** Once a slot fails, the later slots do not change the reported failure. */
  lemma {:induction false} CollectErrPersists(rs: seq<Result<Slot, Failure>>, n: nat)
    requires n <= |rs|
    requires Collect(rs[..n]).Err?
    ensures Collect(rs) == Collect(rs[..n])
    decreases |rs| - n
  {
    if n < |rs| {
      var m := |rs| - 1;
      assert rs[..m][..n] == rs[..n];
      CollectErrPersists(rs[..m], n);
      CollectStepErr(rs);
    } else {
      assert rs[..n] == rs;
    }
  }

  /** The slots of the day, or the first slot at which the original throws. */
  function Classify(tables: Tables, day: string): Result<seq<Slot>, Failure> {
    Collect(SlotResults(tables, day, SlotCount))
  }

  // ---------------------------------------------------------------------
  // Columns

  /** The name the Asubha Kaalam column shows: '-' when nothing matched. */
  function AsubhaName(a: Option<Entry>): (r: string)
    ensures a.None? ==> r == "-"
    ensures r == "-" <==> a.None? || a.value.name == "-"
  {
    if a.None? then "-" else a.value.name
  }

  function OraiColumn(slots: seq<Slot>): (col: Column)
    ensures |col| == |slots|
  {
    seq(|slots|, i requires 0 <= i < |slots| => (slots[i].orai.name, slots[i].orai.kind == Subham))
  }

  function GowriColumn(slots: seq<Slot>): (col: Column)
    ensures |col| == |slots|
  {
    seq(|slots|, i requires 0 <= i < |slots| => (slots[i].gowri.name, slots[i].gowri.kind == Subham))
  }

  /** An Asubha Kaalam slot counts as subham exactly when nothing matched. */
  function AsubhaColumn(slots: seq<Slot>): (col: Column)
    ensures |col| == |slots|
    ensures forall i :: 0 <= i < |col| && col[i].1 ==> col[i].0 == "-"
  {
    seq(|slots|, i requires 0 <= i < |slots| => (AsubhaName(slots[i].asubha), slots[i].asubha.None?))
  }

  // ---------------------------------------------------------------------
  // Auspicious slots

  /** One entry of the returned list: the slot's 12-hour start and end and
      the three names shown at that slot. */
  datatype Window = Window(start: Clock12, end: Clock12, orai: string, gowri: string, asubha: string)

  /** Slot `i` is auspicious when its own Orai and Gowri types are subham and
      the Asubha Kaalam cell it falls in was opened by a slot with no match. */
  function Auspicious(slots: seq<Slot>, i: nat): (b: bool)
    requires i < |slots|
    ensures b ==> slots[i].orai.kind == Subham && slots[i].gowri.kind == Subham
    ensures b ==> AsubhaName(slots[i].asubha) == "-"
  {
    && slots[i].orai.kind == Subham
    && slots[i].gowri.kind == Subham
    && OpenTag(AsubhaColumn(slots), i)
  }

  /** The entry listed for slot `i` when it resolved to `s`. */
  function SlotWindow(i: nat, s: Slot): Window {
    Window(Format12(SlotStart(i)), Format12(SlotStart(i) + 30),
           s.orai.name, s.gowri.name, AsubhaName(s.asubha))
  }

  function WindowAt(slots: seq<Slot>, i: nat): Window
    requires i < |slots|
  {
    SlotWindow(i, slots[i])
  }

  /** The auspicious slots, in slot order, one entry each. */
  function Windows(slots: seq<Slot>): (r: seq<Window>)
    ensures |r| <= |slots|
    decreases |slots|
  {
    if |slots| == 0 then []
    else
      var n := |slots| - 1;
      Windows(slots[..n]) + if Auspicious(slots, n) then [WindowAt(slots, n)] else []
  }

  /** Whether a slot is auspicious depends only on the slots up to it. */
  lemma AuspiciousPrefix(slots: seq<Slot>, n: nat, i: nat)
    requires i < n <= |slots|
    ensures Auspicious(slots[..n], i) == Auspicious(slots, i)
    ensures WindowAt(slots[..n], i) == WindowAt(slots, i)
  {
    assert AsubhaColumn(slots[..n]) == AsubhaColumn(slots)[..n];
    RunStartPrefix(AsubhaColumn(slots), n, i);
  }

  /** The list holds exactly the windows of auspicious slots. */
  lemma {:induction false} WindowsMembers(slots: seq<Slot>, w: Window)
    ensures w in Windows(slots) <==>
      exists i :: 0 <= i < |slots| && Auspicious(slots, i) && w == WindowAt(slots, i)
    decreases |slots|
  {
    if |slots| > 0 {
      var n := |slots| - 1;
      WindowsMembers(slots[..n], w);
      forall i | 0 <= i < n {
        AuspiciousPrefix(slots, n, i);
      }
    }
  }

  /** A slot of the day is listed if and only if it is auspicious. */
  lemma WindowsIff(slots: seq<Slot>, i: nat)
    requires i < |slots| <= SlotCount
    ensures WindowAt(slots, i) in Windows(slots) <==> Auspicious(slots, i)
  {
    WindowsMembers(slots, WindowAt(slots, i));
    if WindowAt(slots, i) in Windows(slots) {
      var j :| 0 <= j < |slots| && Auspicious(slots, j) && WindowAt(slots, i) == WindowAt(slots, j);
      Format12Injective(SlotStart(i), SlotStart(j));
      SlotStartsDistinct(i, j);
    }
  }

  /** When no Asubha Kaalam entry is itself named '-', a slot's Asubha type
      is subham exactly when its own lookup found nothing, even though the
      type is only recomputed when a new cell opens. */
  lemma AsubhaTypeWithoutDashNames(slots: seq<Slot>, i: nat)
    requires i < |slots|
    requires forall k :: 0 <= k < |slots| && slots[k].asubha.Some? ==> slots[k].asubha.value.name != "-"
    ensures OpenTag(AsubhaColumn(slots), i) <==> slots[i].asubha.None?
  {
    var col := AsubhaColumn(slots);
    var j := RunStart(col, i);
    assert col[j].0 == col[i].0;
  }

  /** An entry named '-' that follows a slot with no match joins its cell and
      keeps the subham type, although it did match. */
  lemma DashNamedEntryKeepsSubham(o: Entry, g: Entry, e: Entry)
    requires e.name == "-"
    ensures var slots := [Slot(o, g, None), Slot(o, g, Some(e))];
      OpenTag(AsubhaColumn(slots), 1) && slots[1].asubha.Some?
  {
    var slots := [Slot(o, g, None), Slot(o, g, Some(e))];
    assert AsubhaColumn(slots)[1].0 == AsubhaColumn(slots)[0].0;
  }

  // ---------------------------------------------------------------------
  // The whole table

  /** The three columns of cells and the auspicious list. */
  datatype Layout = Layout(oraiCells: seq<Cell>, gowriCells: seq<Cell>, asubhaCells: seq<Cell>,
                           windows: seq<Window>)

  /** The table of `day`, or the first slot at which the original throws. */
  function LayoutOf(tables: Tables, day: string): (r: Result<Layout, Failure>)
    ensures r.Ok? <==> Classify(tables, day).Ok?
    ensures r.Ok? ==>
      && TotalSpan(r.value.oraiCells) == SlotCount
      && TotalSpan(r.value.gowriCells) == SlotCount
      && TotalSpan(r.value.asubhaCells) == SlotCount
      && |r.value.windows| <= SlotCount
  {
    match Classify(tables, day)
    case Err(f) => Err(f)
    case Ok(slots) =>
      Ok(Layout(RunLength(OraiColumn(slots)), RunLength(GowriColumn(slots)),
                RunLength(AsubhaColumn(slots)), Windows(slots)))
  }

  /** The auspicious slots among the first `|slots|`. */
  function AuspiciousSlots(slots: seq<Slot>): set<nat> {
    set i: nat | i < |slots| && Auspicious(slots, i)
  }

  /** One more slot adds itself to the auspicious slots exactly when it is auspicious. */
  lemma AuspiciousSlotsSnoc(slots: seq<Slot>)
    requires |slots| > 0
    ensures var n := |slots| - 1;
      AuspiciousSlots(slots) == AuspiciousSlots(slots[..n]) + if Auspicious(slots, n) then {n} else {}
  {
    var n := |slots| - 1;
    forall i | 0 <= i < n
      ensures Auspicious(slots[..n], i) == Auspicious(slots, i)
    {
      AuspiciousPrefix(slots, n, i);
    }
  }

  /** The list grows by one exactly at an auspicious slot. */
  lemma WindowsStep(slots: seq<Slot>)
    requires |slots| > 0
    ensures var n := |slots| - 1;
      |Windows(slots)| == |Windows(slots[..n])| + if Auspicious(slots, n) then 1 else 0
  {
  }

  /** One entry per auspicious slot: the list is as long as there are
      auspicious slots. */
  lemma {:induction false} WindowsCount(slots: seq<Slot>)
    ensures |Windows(slots)| == |AuspiciousSlots(slots)|
    decreases |slots|
  {
    if |slots| > 0 {
      var n := |slots| - 1;
      var before := AuspiciousSlots(slots[..n]);
      var here := Auspicious(slots, n);
      WindowsCount(slots[..n]);
      WindowsStep(slots);
      AuspiciousSlotsSnoc(slots);
      assert n !in before;
      assert |Windows(slots)| == |before| + if here then 1 else 0;
      assert AuspiciousSlots(slots) == before + if here then {n} else {};
    }
  }

  /** Slot order: the entries of the first `n` slots are a prefix of the list. */
  lemma {:induction false} WindowsPrefix(slots: seq<Slot>, n: nat)
    requires n <= |slots|
    ensures Windows(slots[..n]) <= Windows(slots)
    decreases |slots| - n
  {
    if n < |slots| {
      var m := |slots| - 1;
      assert slots[..m][..n] == slots[..n];
      WindowsPrefix(slots[..m], n);
    } else {
      assert slots[..n] == slots;
    }
  }

  /** The state of one column after walking `col`: its cells, and the name
      it showed at the last slot walked. */
  ghost predicate ColumnState(cells: seq<Cell>, previous: Option<string>, col: Column) {
    && cells == RunLength(col)
    && previous == if |col| == 0 then None else Some(col[|col| - 1].0)
  }

  /** One column step of the loop: open a cell when the name differs from
      the previous slot's, otherwise grow the open cell's row span. */
  method PlaceCell(cells: seq<Cell>, previous: Option<string>, name: string, tag: bool)
    returns (cells': seq<Cell>, previous': Option<string>, isNew: bool)
    requires previous == if |cells| == 0 then None else Some(cells[|cells| - 1].name)
    ensures cells' == Place(cells, name, tag)
    ensures previous' == Some(cells'[|cells'| - 1].name)
    ensures isNew <==> previous != Some(name)
    ensures isNew ==> cells' == cells + [Cell(name, tag, 1)]
    ensures !isNew ==> |cells'| == |cells| && cells'[..|cells| - 1] == cells[..|cells| - 1]
    ensures !isNew ==> cells'[|cells| - 1] == cells[|cells| - 1].(rowSpan := cells[|cells| - 1].rowSpan + 1)
  {
    if previous.None? || previous.value != name {
      cells' := cells + [Cell(name, tag, 1)];
      isNew := true;
    } else {
      var last := cells[|cells| - 1];
      cells' := cells[..|cells| - 1] + [last.(rowSpan := last.rowSpan + 1)];
      isNew := false;
    }
    previous' := Some(name);
  }

  /** A column step keeps the column's state in line with the walked slots. */
  lemma ColumnStateStep(cells: seq<Cell>, previous: Option<string>, col: Column, name: string, tag: bool)
    requires ColumnState(cells, previous, col)
    ensures previous == if |cells| == 0 then None else Some(cells[|cells| - 1].name)
    ensures ColumnState(Place(cells, name, tag), Some(name), col + [(name, tag)])
  {
    RunLengthSnoc(col, (name, tag));
  }

  /** The results of the first `i + 1` slots extend those of the first `i`. */
  lemma SlotResultsSnoc(tables: Tables, day: string, i: nat)
    ensures SlotResults(tables, day, i + 1) == SlotResults(tables, day, i) + [ClassifySlot(tables, day, i)]
  {
  }

  /** The results of the first `n` slots are a prefix of those of the first `m`. */
  lemma {:induction false} SlotResultsPrefix(tables: Tables, day: string, n: nat, m: nat)
    requires n <= m
    ensures SlotResults(tables, day, m)[..n] == SlotResults(tables, day, n)
    decreases m - n
  {
    if n < m {
      SlotResultsPrefix(tables, day, n, m - 1);
      assert SlotResults(tables, day, m)[..m - 1] == SlotResults(tables, day, m - 1);
    }
  }

  /** Entry `i` of the results is slot `i`'s lookup. */
  lemma SlotResultsAt(tables: Tables, day: string, n: nat, i: nat)
    requires i < n
    ensures SlotResults(tables, day, n)[i] == ClassifySlot(tables, day, i)
  {
    SlotResultsPrefix(tables, day, i + 1, n);
  }

  /** The table is built when every slot's Orai and Gowri Panchangam lookups succeed. */
  lemma LayoutWhenAllResolve(tables: Tables, day: string)
    requires forall i :: 0 <= i < SlotCount ==> ClassifySlot(tables, day, i).Ok?
    ensures LayoutOf(tables, day).Ok?
  {
    var rs := SlotResults(tables, day, SlotCount);
    forall i | 0 <= i < SlotCount
      ensures rs[i].Ok?
    {
      SlotResultsAt(tables, day, SlotCount, i);
    }
  }

  /** One slot whose Orai or Gowri Panchangam lookup returns `null` makes the original throw. */
  lemma NoLayoutWhenOneFails(tables: Tables, day: string, i: nat)
    requires i < SlotCount && ClassifySlot(tables, day, i).Err?
    ensures LayoutOf(tables, day).Err?
  {
    SlotResultsAt(tables, day, SlotCount, i);
  }

  /** The failure reported is that of the first slot whose lookups fail,
      Orai checked before Gowri Panchangam. */
  lemma LayoutFailsAtFirstUnresolved(tables: Tables, day: string)
    requires LayoutOf(tables, day).Err?
    ensures var f := LayoutOf(tables, day).error;
      && f.slot < SlotCount
      && ClassifySlot(tables, day, f.slot) == Err(f)
      && forall j :: 0 <= j < f.slot ==> ClassifySlot(tables, day, j).Ok?
  {
    var rs := SlotResults(tables, day, SlotCount);
    var f := Collect(rs).error;
    var i :| 0 <= i < |rs| && rs[i] == Err(f) && forall j :: 0 <= j < i ==> rs[j].Ok?;
    SlotResultsAt(tables, day, SlotCount, i);
    forall j | 0 <= j < i
      ensures ClassifySlot(tables, day, j).Ok?
    {
      SlotResultsAt(tables, day, SlotCount, j);
    }
  }

  /** The first failing result decides the collection. */
  lemma CollectFirstErr(rs: seq<Result<Slot, Failure>>, i: nat)
    requires i < |rs|
    requires Collect(rs[..i]).Ok? && rs[i].Err?
    ensures Collect(rs) == Err(rs[i].error)
  {
    var init := rs[..i + 1];
    assert init[..i] == rs[..i];
    assert Collect(init) == Err(rs[i].error);
    CollectErrPersists(rs, i + 1);
  }

  /** A failing slot after successful ones decides the whole table. */
  lemma SlotFails(tables: Tables, day: string, i: nat, slots: seq<Slot>)
    requires i < SlotCount
    requires Collect(SlotResults(tables, day, i)) == Ok(slots)
    requires ClassifySlot(tables, day, i).Err?
    ensures LayoutOf(tables, day) == Err(ClassifySlot(tables, day, i).error)
  {
    var rs := SlotResults(tables, day, SlotCount);
    SlotResultsPrefix(tables, day, i, SlotCount);
    SlotResultsPrefix(tables, day, i + 1, SlotCount);
    assert rs[i] == SlotResults(tables, day, i + 1)[i];
    CollectFirstErr(rs, i);
  }

  /** A walk over all the slots yields the table. */
  lemma LayoutOfWalk(tables: Tables, day: string, slots: seq<Slot>)
    requires Collect(SlotResults(tables, day, SlotCount)) == Ok(slots)
    ensures LayoutOf(tables, day) == Ok(Layout(RunLength(OraiColumn(slots)), RunLength(GowriColumn(slots)),
                                               RunLength(AsubhaColumn(slots)), Windows(slots)))
  {
  }

  /** A succeeding slot extends the collected slots. */
  lemma SlotSucceeds(tables: Tables, day: string, i: nat, slots: seq<Slot>, s: Slot)
    requires Collect(SlotResults(tables, day, i)) == Ok(slots)
    requires ClassifySlot(tables, day, i) == Ok(s)
    ensures Collect(SlotResults(tables, day, i + 1)) == Ok(slots + [s])
  {
    SlotResultsSnoc(tables, day, i);
    assert SlotResults(tables, day, i + 1)[..i] == SlotResults(tables, day, i);
  }

  /** Appending a slot appends one entry to each column. */
  lemma ColumnsSnoc(slots: seq<Slot>, s: Slot)
    ensures OraiColumn(slots + [s]) == OraiColumn(slots) + [(s.orai.name, s.orai.kind == Subham)]
    ensures GowriColumn(slots + [s]) == GowriColumn(slots) + [(s.gowri.name, s.gowri.kind == Subham)]
    ensures AsubhaColumn(slots + [s]) == AsubhaColumn(slots) + [(AsubhaName(s.asubha), s.asubha.None?)]
  {
  }

  /** Appending slot `n` appends its window exactly when its Orai and Gowri
      types are subham and `tag`, the type of the Asubha Kaalam cell it falls
      in, is too. */
  lemma WindowsSnoc(slots: seq<Slot>, n: nat, s: Slot, tag: bool)
    requires |slots| == n
    requires tag == OpenTag(AsubhaColumn(slots + [s]), n)
    ensures Windows(slots + [s]) == Windows(slots) +
      if s.orai.kind == Subham && s.gowri.kind == Subham && tag
      then [SlotWindow(n, s)] else []
  {
    assert (slots + [s])[..n] == slots;
    assert (slots + [s])[n] == s;
  }

  /** The three lookups of one slot, at the time read back from its 24-hour label. */
  method ResolveSlot(tables: Tables, day: string, i: nat) returns (r: Result<Slot, Failure>)
    ensures r == ClassifySlot(tables, day, i)
    ensures r.Err? ==> r.error.slot == i
  {
    var startLabel := Format24(SlotStart(i));
    var parsed := TimeToMinutes(startLabel);
    SlotTimeFromLabel(i);
    var t := parsed.value;
    var orai := Resolve(tables.orai, day, t);
    if orai.None? {
      return Err(OraiUnresolved(i));
    }
    var gowri := Resolve(tables.gowri, day, t);
    if gowri.None? {
      return Err(GowriUnresolved(i));
    }
    var asubha := Resolve(tables.asubha, day, t);
    r := Ok(Slot(orai.value, gowri.value, asubha));
  }

  /** What the single pass carries from slot to slot: the cells built so
      far, the name each column showed at the previous slot, the Asubha
      Kaalam type of the open cell, and the windows listed so far. */
  datatype Walk = Walk(oraiCells: seq<Cell>, gowriCells: seq<Cell>, asubhaCells: seq<Cell>,
                       previousOrai: Option<string>, previousGowri: Option<string>,
                       previousAsubha: Option<string>, asubhaSubham: bool, windows: seq<Window>)

  /** The carried state after walking `slots` agrees with the whole-sequence pieces. */
  ghost predicate Tracks(w: Walk, slots: seq<Slot>) {
    && CellsTrack(w, slots)
    && w.windows == Windows(slots)
  }

  /** The columns part of `Tracks`. */
  ghost predicate CellsTrack(w: Walk, slots: seq<Slot>) {
    && ColumnState(w.oraiCells, w.previousOrai, OraiColumn(slots))
    && ColumnState(w.gowriCells, w.previousGowri, GowriColumn(slots))
    && ColumnState(w.asubhaCells, w.previousAsubha, AsubhaColumn(slots))
    && (|slots| > 0 ==> w.asubhaSubham == OpenTag(AsubhaColumn(slots), |slots| - 1))
  }

  /** The Orai and Gowri Panchangam column step. */
  method PlaceColumn(cells: seq<Cell>, previous: Option<string>, ghost col: Column, name: string, tag: bool)
    returns (cells': seq<Cell>, previous': Option<string>)
    requires ColumnState(cells, previous, col)
    ensures ColumnState(cells', previous', col + [(name, tag)])
  {
    ColumnStateStep(cells, previous, col, name, tag);
    var isNew;
    cells', previous', isNew := PlaceCell(cells, previous, name, tag);
  }

  /** The Asubha Kaalam column step: the type is recomputed from the slot's
      own lookup only when a new cell opens, and otherwise carried over; either
      way it is the type of the slot that opened the cell. */
  method PlaceAsubha(cells: seq<Cell>, previous: Option<string>, subham: bool, ghost col: Column,
                     name: string, tag: bool)
    returns (cells': seq<Cell>, previous': Option<string>, subham': bool)
    requires ColumnState(cells, previous, col)
    requires |col| > 0 ==> subham == OpenTag(col, |col| - 1)
    ensures ColumnState(cells', previous', col + [(name, tag)])
    ensures subham' == OpenTag(col + [(name, tag)], |col|)
  {
    ColumnStateStep(cells, previous, col, name, tag);
    var isNew;
    cells', previous', isNew := PlaceCell(cells, previous, name, tag);
    subham' := if isNew then tag else subham;
  }

  /** The cell part of the loop body for one resolved slot: place a cell in
      each column, and recompute the Asubha Kaalam type only when its column
      opened a new cell. */
  method StepCells(w: Walk, ghost slots: seq<Slot>, s: Slot) returns (w': Walk)
    requires CellsTrack(w, slots)
    ensures CellsTrack(w', slots + [s])
    ensures w'.windows == w.windows
  {
    ColumnsSnoc(slots, s);
    var oraiCells, previousOrai :=
      PlaceColumn(w.oraiCells, w.previousOrai, OraiColumn(slots), s.orai.name, s.orai.kind == Subham);
    var gowriCells, previousGowri :=
      PlaceColumn(w.gowriCells, w.previousGowri, GowriColumn(slots), s.gowri.name, s.gowri.kind == Subham);
    var asubhaCells, previousAsubha, asubhaSubham :=
      PlaceAsubha(w.asubhaCells, w.previousAsubha, w.asubhaSubham, AsubhaColumn(slots),
                  AsubhaName(s.asubha), s.asubha.None?);
    w' := Walk(oraiCells, gowriCells, asubhaCells, previousOrai, previousGowri, previousAsubha,
               asubhaSubham, w.windows);
  }

  /** The body of the slot loop for one resolved slot: place its cells, then
      list the slot when all three types are subham. */
  method Step(w: Walk, ghost slots: seq<Slot>, n: nat, s: Slot) returns (w': Walk)
    requires |slots| == n
    requires Tracks(w, slots)
    ensures Tracks(w', slots + [s])
  {
    w' := StepCells(w, slots, s);
    WindowsSnoc(slots, n, s, w'.asubhaSubham);
    if s.orai.kind == Subham && s.gowri.kind == Subham && w'.asubhaSubham {
      w' := w'.(windows := w'.windows + [SlotWindow(n, s)]);
    }
  }

  /** One iteration of the slot loop: resolve slot `i`, then either stop
      with the failure that decides the whole table or carry the walk one
      slot further. */
  method Advance(tables: Tables, day: string, i: nat, w: Walk, ghost slots: seq<Slot>)
    returns (r: Result<Walk, Failure>, ghost slots': seq<Slot>)
    requires i < SlotCount && |slots| == i
    requires Collect(SlotResults(tables, day, i)) == Ok(slots)
    requires Tracks(w, slots)
    ensures r.Err? ==> LayoutOf(tables, day) == Err(r.error)
    ensures r.Ok? ==> |slots'| == i + 1 && Collect(SlotResults(tables, day, i + 1)) == Ok(slots')
    ensures r.Ok? ==> Tracks(r.value, slots')
  {
    var slot := ResolveSlot(tables, day, i);
    if slot.Err? {
      SlotFails(tables, day, i, slots);
      return Err(slot.error), slots;
    }
    SlotSucceeds(tables, day, i, slots, slot.value);
    var w' := Step(w, slots, i, slot.value);
    r, slots' := Ok(w'), slots + [slot.value];
  }

  /** `prepareTable`, as one pass over the slots. */
  method PrepareTable(tables: Tables, day: string) returns (r: Result<Layout, Failure>)
    ensures r == LayoutOf(tables, day)
  {
    var w := Walk([], [], [], None, None, None, false, []);
    ghost var slots: seq<Slot> := [];
    var i := 0;
    while i < SlotCount
      invariant 0 <= i <= SlotCount && |slots| == i
      invariant Collect(SlotResults(tables, day, i)) == Ok(slots)
      invariant Tracks(w, slots)
    {
      var next;
      next, slots := Advance(tables, day, i, w, slots);
      if next.Err? {
        return Err(next.error);
      }
      w := next.value;
      i := i + 1;
    }
    LayoutOfWalk(tables, day, slots);
    r := Ok(Layout(w.oraiCells, w.gowriCells, w.asubhaCells, w.windows));
  }
}
