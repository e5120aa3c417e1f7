/** What each fault does to a result, and exactly how the delivered result then differs. */
module Transforms {
  import opened Models
  import opened Draws
  import opened Permutations

  // ----- Cell corruption -----

  /** The nearest integer; ties go to the even one. */
  function RoundHalfEven(x: real): int {
    var f := x.Floor;
    var fraction := x - f as real;
    if fraction < 0.5 || (fraction == 0.5 && f % 2 == 0) then f else f + 1
  }

  /** Ten to the power of the default decimal context's 28 digits. */
  const DECIMAL_CONTEXT_LIMIT: int := 10_000_000_000_000_000_000_000_000_000

  /** The corrupted cell, or None if the profile cannot corrupt this value. */
  function ChewValue(profile: ChewProfile, value: Value): (mutated: Option<Value>)
    ensures mutated.Some? ==> mutated.value != value
  {
    match profile
    case Utf8Truncate =>
      if value.Text? && value.text != "" then Some(Text(value.text[..|value.text| - 1])) else None
    case PrecisionLoss =>
      if value.Decimal? then
        var rounded := RoundHalfEven(value.amount);
        if -DECIMAL_CONTEXT_LIMIT < rounded < DECIMAL_CONTEXT_LIMIT && rounded as real != value.amount
        then Some(Decimal(rounded as real)) else None
      else if value.Float? then
        var rounded := RoundHalfEven(value.number);
        if rounded as real != value.number then Some(Float(rounded as real)) else None
      else None
    case Nullify => if value != Null then Some(Null) else None
  }

  /** Rounding gives a nearest integer, the even one of two that are equally near. */
  lemma RoundsToNearest(x: real)
    ensures var r := RoundHalfEven(x);
            && x - 0.5 <= r as real <= x + 0.5
            && (r as real == x - 0.5 || r as real == x + 0.5 ==> r % 2 == 0)
  {
  }

  /** What each profile makes of which values. */
  lemma ChewingIs(profile: ChewProfile, value: Value, mutated: Value)
    ensures ChewValue(profile, value) == Some(mutated) <==>
            match profile
            case Nullify => value != Null && mutated == Null
            case Utf8Truncate => exists c :: mutated.Text? && value == Text(mutated.text + [c])
            case PrecisionLoss =>
              && mutated != value
              && ((&& value.Decimal? && mutated == Decimal(RoundHalfEven(value.amount) as real)
                   && -DECIMAL_CONTEXT_LIMIT < RoundHalfEven(value.amount) < DECIMAL_CONTEXT_LIMIT)
                  || (value.Float? && mutated == Float(RoundHalfEven(value.number) as real)))
  {
    hide RoundHalfEven;
    if profile == Utf8Truncate && value.Text? && value.text != "" {
      var n := |value.text| - 1;
      assert value.text == value.text[..n] + [value.text[n]];
      if mutated.Text? && value.text[..n] != mutated.text {
        forall c ensures value.text != mutated.text + [c] {
          assert (mutated.text + [c])[..|mutated.text|] == mutated.text;
        }
      }
    }
  }

  datatype Cell = Cell(row: nat, column: nat, mutated: Value)

  function RowCells(profile: ChewProfile, row: Row, rowIndex: nat, width: nat): seq<Cell>
    requires width <= |row|
  {
    if width == 0 then []
    else
      var mutated := ChewValue(profile, row[width - 1]);
      RowCells(profile, row, rowIndex, width - 1) +
      if mutated.Some? then [Cell(rowIndex, width - 1, mutated.value)] else []
  }

  /** The cells of the first `height` rows a profile can corrupt, row by row. */
  function Cells(profile: ChewProfile, rows: seq<Row>, height: nat): seq<Cell>
    requires height <= |rows|
  {
    if height == 0 then []
    else Cells(profile, rows, height - 1) + RowCells(profile, rows[height - 1], height - 1, |rows[height - 1]|)
  }

  datatype Eligible = Eligible(profile: ChewProfile, cells: seq<Cell>)

  function EligibleProfiles(profiles: seq<ChewProfile>, rows: seq<Row>): seq<Eligible> {
    if profiles == [] then []
    else
      var last := profiles[|profiles| - 1];
      var cells := Cells(last, rows, |rows|);
      EligibleProfiles(profiles[..|profiles| - 1], rows) + if cells != [] then [Eligible(last, cells)] else []
  }

  predicate Corrupts(profile: ChewProfile, rows: seq<Row>, c: Cell) {
    && c.row < |rows| && c.column < |rows[c.row]|
    && ChewValue(profile, rows[c.row][c.column]) == Some(c.mutated)
  }

  lemma {:induction false} RowCellsCorrupt(profile: ChewProfile, rows: seq<Row>, rowIndex: nat, width: nat)
    requires rowIndex < |rows| && width <= |rows[rowIndex]|
    ensures forall c | c in RowCells(profile, rows[rowIndex], rowIndex, width) :: Corrupts(profile, rows, c)
  {
    if width > 0 {
      RowCellsCorrupt(profile, rows, rowIndex, width - 1);
    }
  }

  lemma {:induction false} CellsCorrupt(profile: ChewProfile, rows: seq<Row>, height: nat)
    requires height <= |rows|
    ensures forall c | c in Cells(profile, rows, height) :: Corrupts(profile, rows, c)
  {
    if height > 0 {
      CellsCorrupt(profile, rows, height - 1);
      RowCellsCorrupt(profile, rows, height - 1, |rows[height - 1]|);
    }
  }

  /** Every cell a profile is eligible with is a cell that profile changes. */
  lemma {:induction false} EligibleCorrupts(profiles: seq<ChewProfile>, rows: seq<Row>)
    ensures forall e | e in EligibleProfiles(profiles, rows) ::
              e.profile in profiles && e.cells != [] && forall c | c in e.cells :: Corrupts(e.profile, rows, c)
  {
    if profiles != [] {
      EligibleCorrupts(profiles[..|profiles| - 1], rows);
      CellsCorrupt(profiles[|profiles| - 1], rows, |rows|);
    }
  }

  lemma {:induction false} RowCellsComplete(profile: ChewProfile, rows: seq<Row>, c: Cell, width: nat)
    requires Corrupts(profile, rows, c) && c.column < width <= |rows[c.row]|
    ensures c in RowCells(profile, rows[c.row], c.row, width)
  {
    hide ChewValue;
    if c.column < width - 1 {
      RowCellsComplete(profile, rows, c, width - 1);
    }
  }

  lemma {:induction false} CellsComplete(profile: ChewProfile, rows: seq<Row>, c: Cell, height: nat)
    requires Corrupts(profile, rows, c) && c.row < height <= |rows|
    ensures c in Cells(profile, rows, height)
  {
    hide ChewValue, RowCells;
    if c.row < height - 1 {
      CellsComplete(profile, rows, c, height - 1);
    } else {
      RowCellsComplete(profile, rows, c, |rows[c.row]|);
    }
  }

  /** Every cell that some profile of the list changes is eligible under that profile. */
  lemma {:induction false} EligibleIsComplete(profiles: seq<ChewProfile>, rows: seq<Row>, profile: ChewProfile, c: Cell)
    requires profile in profiles && Corrupts(profile, rows, c)
    ensures exists e | e in EligibleProfiles(profiles, rows) :: e.profile == profile && c in e.cells
  {
    hide Corrupts, Cells;
    var front, last := profiles[..|profiles| - 1], profiles[|profiles| - 1];
    if last == profile {
      RowOfCell(profile, rows, c);
      CellsComplete(profile, rows, c, |rows|);
      var e := Eligible(last, Cells(last, rows, |rows|));
      assert e in EligibleProfiles(profiles, rows);
    } else {
      assert profiles == front + [last];
      EligibleIsComplete(front, rows, profile, c);
      var e :| e in EligibleProfiles(front, rows) && e.profile == profile && c in e.cells;
      assert e in EligibleProfiles(profiles, rows);
    }
  }

  lemma RowOfCell(profile: ChewProfile, rows: seq<Row>, c: Cell)
    requires Corrupts(profile, rows, c)
    ensures c.row < |rows|
  {
    hide ChewValue;
  }

  /** Row by row, and in a row column by column. */
  predicate Precedes(c: Cell, d: Cell) { c.row < d.row || (c.row == d.row && c.column < d.column) }

  predicate InReadingOrder(cells: seq<Cell>) {
    forall i, j | 0 <= i < j < |cells| :: Precedes(cells[i], cells[j])
  }

  lemma {:induction false} RowCellsInOrder(profile: ChewProfile, row: Row, rowIndex: nat, width: nat)
    requires width <= |row|
    ensures var cells := RowCells(profile, row, rowIndex, width);
            InReadingOrder(cells) && forall i | 0 <= i < |cells| :: cells[i].row == rowIndex && cells[i].column < width
  {
    hide ChewValue;
    if width > 0 {
      RowCellsInOrder(profile, row, rowIndex, width - 1);
    }
  }

  lemma {:induction false} CellsInOrder(profile: ChewProfile, rows: seq<Row>, height: nat)
    requires height <= |rows|
    ensures var cells := Cells(profile, rows, height);
            InReadingOrder(cells) && forall i | 0 <= i < |cells| :: cells[i].row < height
  {
    hide RowCells;
    if height > 0 {
      CellsInOrder(profile, rows, height - 1);
      RowCellsInOrder(profile, rows[height - 1], height - 1, |rows[height - 1]|);
    }
  }

  /** The cells of every eligible profile come in reading order, without repetition. */
  lemma {:induction false} EligibleInOrder(profiles: seq<ChewProfile>, rows: seq<Row>)
    ensures forall e | e in EligibleProfiles(profiles, rows) :: InReadingOrder(e.cells)
  {
    hide InReadingOrder, Cells;
    if profiles != [] {
      EligibleInOrder(profiles[..|profiles| - 1], rows);
      CellsInOrder(profiles[|profiles| - 1], rows, |rows|);
    }
  }

  /** Eligible profiles come in the order of the list, each with all its cells. */
  lemma {:induction false} EligibleAppend(a: seq<ChewProfile>, b: seq<ChewProfile>, rows: seq<Row>)
    ensures EligibleProfiles(a + b, rows) == EligibleProfiles(a, rows) + EligibleProfiles(b, rows)
  {
    hide Cells;
    if b == [] {
      assert a + b == a;
    } else {
      var front := b[..|b| - 1];
      assert (a + b)[..|a + b| - 1] == a + front;
      EligibleAppend(a, front, rows);
    }
  }

  datatype Choice = Choice(profile: ChewProfile, cell: Cell)

  /** `_chew_choice`, given the two draws. */
  function ChewChoice(profiles: seq<ChewProfile>, rows: seq<Row>, profileDraw: nat, cellDraw: nat): (choice: Option<Choice>)
    ensures choice.Some? ==> Corrupts(choice.value.profile, rows, choice.value.cell)
  {
    var eligible := EligibleProfiles(profiles, rows);
    EligibleCorrupts(profiles, rows);
    if eligible == [] then None
    else
      var e := eligible[ModularIndex(profileDraw, |eligible|)];
      assert e in eligible;
      var cell := e.cells[ModularIndex(cellDraw, |e.cells|)];
      assert cell in e.cells;
      Some(Choice(e.profile, cell))
  }

  /** The scan of `_chew_choice` over profiles, rows and columns. */
  method FindEligible(profiles: seq<ChewProfile>, rows: seq<Row>) returns (eligible: seq<Eligible>)
    ensures eligible == EligibleProfiles(profiles, rows)
  {
    eligible := [];
    for p := 0 to |profiles|
      invariant eligible == EligibleProfiles(profiles[..p], rows)
    {
      var cells: seq<Cell> := [];
      for r := 0 to |rows|
        invariant cells == Cells(profiles[p], rows, r)
      {
        for c := 0 to |rows[r]|
          invariant cells == Cells(profiles[p], rows, r) + RowCells(profiles[p], rows[r], r, c)
        {
          var mutated := ChewValue(profiles[p], rows[r][c]);
          if mutated.Some? {
            cells := cells + [Cell(r, c, mutated.value)];
          }
        }
      }
      assert profiles[..p + 1][..p] == profiles[..p];
      if cells != [] {
        eligible := eligible + [Eligible(profiles[p], cells)];
      }
    }
    assert profiles[..|profiles|] == profiles;
  }

  // ----- Transformations of a result -----

  function WithRows(result: LogicalResult, rows: seq<Row>): LogicalResult {
    result.(rows := rows, rowcount := |rows|)
  }

  /** The rows whose index, counted from `offset`, is not hidden. */
  function Visible(rows: seq<Row>, hidden: set<nat>, offset: nat): seq<Row> {
    if rows == [] then []
    else (if offset in hidden then [] else [rows[0]]) + Visible(rows[1..], hidden, offset + 1)
  }

  lemma {:induction false} VisibleSplit(rows: seq<Row>, hidden: set<nat>, offset: nat, k: nat)
    requires k <= |rows|
    ensures Visible(rows, hidden, offset) == Visible(rows[..k], hidden, offset) + Visible(rows[k..], hidden, offset + k)
  {
    if k > 0 {
      VisibleSplit(rows[1..], hidden, offset + 1, k - 1);
      assert rows[..k][1..] == rows[1..][..k - 1] && rows[1..][k - 1..] == rows[k..];
    } else {
      assert rows[0..] == rows;
    }
  }

  lemma {:induction false} VisibleAll(rows: seq<Row>, hidden: set<nat>, offset: nat)
    requires forall i | i in hidden :: i < offset || i >= offset + |rows|
    ensures Visible(rows, hidden, offset) == rows
  {
    if rows != [] {
      VisibleAll(rows[1..], hidden, offset + 1);
      assert rows == [rows[0]] + rows[1..];
    }
  }

  function WithoutRow(rows: seq<Row>, i: nat): seq<Row>
    requires i < |rows|
  {
    rows[..i] + rows[i + 1..]
  }

  lemma {:induction false} VisibleAfter(rows: seq<Row>, i: nat)
    requires rows != []
    ensures Visible(rows, {i}, i) == rows[1..]
  {
    var back := rows[1..];
    VisibleAll(back, {i}, i + 1);
    assert Visible(rows, {i}, i) == [] + Visible(back, {i}, i + 1);
  }

  /** Hiding the one row that was stashed is leaving that row out; a shorter result is left whole. */
  lemma {:induction false} HidingOneRow(rows: seq<Row>, i: nat)
    ensures Visible(rows, {i}, 0) == if i < |rows| then WithoutRow(rows, i) else rows
  {
    hide Visible;
    if i < |rows| {
      VisibleSplit(rows, {i}, 0, i);
      VisibleAll(rows[..i], {i}, 0);
      VisibleAfter(rows[i..], i);
      assert rows[i..][1..] == rows[i + 1..];
    } else {
      VisibleAll(rows, {i}, 0);
    }
  }

  function Echoed(rows: seq<Row>, i: nat): seq<Row>
    requires i < |rows|
  {
    rows[..i + 1] + [rows[i]] + rows[i + 1..]
  }

  function Swaps(draws: seq<nat>): (js: seq<nat>)
    requires forall i | 0 <= i < |draws| :: draws[i] < TWO64
    ensures SwapVector(js, |draws|)
  {
    seq(|draws|, i requires 0 <= i < |draws| => ScaledIndex(draws[i], i + 1))
  }

  /** The shuffled rows, with the first two swapped if the shuffle left the rows as they were. */
  function Reordered(rows: seq<Row>, js: seq<nat>): seq<Row>
    requires |rows| > 1 && SwapVector(js, |rows|)
  {
    var shuffled := Shuffled(rows, js, |rows| - 1);
    if shuffled == rows then Swap(rows, 0, 1) else shuffled
  }

  /** A reordering keeps the rows, and is vacuous exactly when the shuffle is and the first two rows agree. */
  lemma ReorderedFacts(rows: seq<Row>, js: seq<nat>)
    requires |rows| > 1 && SwapVector(js, |rows|)
    ensures multiset(Reordered(rows, js)) == multiset(rows)
    ensures Reordered(rows, js) == rows <==> Shuffled(rows, js, |rows| - 1) == rows && rows[0] == rows[1]
  {
    ShuffledFacts(rows, js, |rows| - 1);
    SwapKeepsElements(rows, 0, 1);
  }

  /** With two equal rows in front, an identity shuffle is logged although nothing changed. */
  lemma VacuousShuffle(row: Row)
    ensures Reordered([row, row], [0, 1]) == [row, row]
  {
    assert Swap([row, row], 1, 1) == [row, row] && Swap([row, row], 0, 1) == [row, row];
    assert Shuffled([row, row], [0, 1], 1) == Shuffled([row, row], [0, 1], 0);
  }

  method ShuffleRows(rows: seq<Row>, draws: seq<nat>) returns (reordered: seq<Row>)
    requires |rows| > 1 && |draws| == |rows| && forall i | 0 <= i < |draws| :: draws[i] < TWO64
    ensures reordered == Reordered(rows, Swaps(draws))
  {
    var a := new Row[|rows|](i requires 0 <= i < |rows| => rows[i]);
    assert a[..] == rows;
    FisherYates(a, Swaps(draws));
    if a[..] == rows {
      a[0], a[1] := a[1], a[0];
      assert a[..] == Swap(rows, 0, 1);
    }
    reordered := a[..];
  }

  function Relabelled(columns: seq<string>, left: nat): seq<string>
    requires left + 1 < |columns|
  {
    Swap(columns, left, left + 1)
  }

  function Chewed(rows: seq<Row>, c: Cell): seq<Row>
    requires c.row < |rows| && c.column < |rows[c.row]|
  {
    rows[c.row := rows[c.row][c.column := c.mutated]]
  }

  /** A wrong count: the magnitude is 1..maxDelta, the sign comes from one byte and is positive at 0. */
  function Misreported(actual: nat, magnitudeDraw: nat, signByte: nat, maxDelta: Positive): nat {
    var magnitude := magnitudeDraw % maxDelta + 1;
    if actual == 0 || signByte % 2 == 0 then actual + magnitude
    else if actual >= magnitude then actual - magnitude else 0
  }

  // ----- How the delivered result differs -----

  predicate OneCellChanged(before: seq<Row>, after: seq<Row>) {
    |after| == |before| &&
    exists r, c | 0 <= r < |before| && 0 <= c < |before[r]| ::
      && |after[r]| == |before[r]| && after[r][c] != before[r][c]
      && (forall k | 0 <= k < |before[r]| && k != c :: after[r][k] == before[r][k])
      && (forall k | 0 <= k < |before| && k != r :: after[k] == before[k])
  }

  lemma ChewedChangesOneCell(rows: seq<Row>, profile: ChewProfile, c: Cell)
    requires Corrupts(profile, rows, c)
    ensures OneCellChanged(rows, Chewed(rows, c))
  {
    var after := Chewed(rows, c);
    assert after[c.row][c.column] != rows[c.row][c.column];
  }

  /** A misreported count is always off, by at most the configured delta. */
  lemma MisreportedIsOff(actual: nat, magnitudeDraw: nat, signByte: nat, maxDelta: Positive)
    ensures var reported := Misreported(actual, magnitudeDraw, signByte, maxDelta);
            reported != actual && reported <= actual + maxDelta && actual <= reported + maxDelta
  {
  }
}
