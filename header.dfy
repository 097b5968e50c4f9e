/**
 * `find_table_header`: the first row whose text names the columns of the item table, the
 * x-positions of its column labels, and the column boundaries halfway between neighbouring
 * labels.
 */
module HeaderLocator {
  import opened Wrappers
  import opened Text
  import opened Sorting
  import opened RowGrouping

  /** The four columns a label can name. */
  datatype Slot = Desc | Qty | Rate | Amt

  /** The x-position of the label found for each column, if any. */
  datatype Positions = Positions(desc: Option<int>, qty: Option<int>, rate: Option<int>, amt: Option<int>)

  /**
   * The column cut points, named after the sorted label positions they fall between:
   * `descEnd` between the first and second, `qtyEnd` between the second and third,
   * `rateEnd` between the third and fourth.
   */
  datatype Boundaries = Boundaries(descEnd: Option<real>, qtyEnd: Option<real>, rateEnd: Option<real>)

  function Texts(row: Row): (r: seq<string>)
    ensures |r| == |row|
  {
    seq(|row|, i requires 0 <= i < |row| => row[i].text)
  }

  /** The words of a row joined by single spaces, lower-cased. */
  function RowText(row: Row): string {
    Lower(Join(" ", Texts(row)))
  }

  /** The header test on a row's lower-cased text. */
  predicate IsHeaderText(merged: string) {
    (Contains(merged, "description") && Contains(merged, "qty") && Contains(merged, "rate"))
    || (Contains(merged, "qty") && (Contains(merged, "gross") || Contains(merged, "amount")))
  }

  predicate IsHeaderRow(row: Row) {
    IsHeaderText(RowText(row))
  }

  /** The index of the first header row at or after `from`. */
  function FirstHeaderFrom(rows: seq<Row>, from: nat): (r: Option<nat>)
    requires from <= |rows|
    ensures r.None? <==> forall j :: from <= j < |rows| ==> !IsHeaderRow(rows[j])
    ensures r.Some? ==> from <= r.value < |rows| && IsHeaderRow(rows[r.value])
                        && forall j :: from <= j < r.value ==> !IsHeaderRow(rows[j])
    decreases |rows| - from
  {
    if from == |rows| then None
    else if IsHeaderRow(rows[from]) then Some(from)
    else FirstHeaderFrom(rows, from + 1)
  }

  /** The index of the first header row: `None` exactly when no row is a header. */
  function FirstHeader(rows: seq<Row>): Option<nat> {
    FirstHeaderFrom(rows, 0)
  }

  /** The column a lower-cased label names, tried in the order description, quantity, rate, amount. */
  function Classify(w: string): Option<Slot> {
    if Contains(w, "desc") then Some(Desc)
    else if Contains(w, "qty") then Some(Qty)
    else if Contains(w, "rate") then Some(Rate)
    else if Contains(w, "amount") || Contains(w, "gross") || Contains(w, "net") then Some(Amt)
    else None
  }

  predicate Labels(w: Word, s: Slot) {
    Classify(Lower(w.text)) == Some(s)
  }

  function SlotX(p: Positions, s: Slot): Option<int> {
    match s
    case Desc => p.desc
    case Qty => p.qty
    case Rate => p.rate
    case Amt => p.amt
  }

  function Assign(p: Positions, s: Slot, x: int): Positions {
    match s
    case Desc => p.(desc := Some(x))
    case Qty => p.(qty := Some(x))
    case Rate => p.(rate := Some(x))
    case Amt => p.(amt := Some(x))
  }

  /** The label positions of a header row, filled word by word: a later label for the same column overwrites. */
  function LabelPositions(row: Row): Positions {
    if row == [] then Positions(None, None, None, None)
    else
      var w := row[|row| - 1];
      Record(LabelPositions(row[..|row| - 1]), Classify(Lower(w.text)), w.x)
  }

  /** The positions after a word at `x` that labels column `c`, if any. */
  function Record(p: Positions, c: Option<Slot>, x: int): Positions {
    match c
    case None => p
    case Some(s) => Assign(p, s, x)
  }

  lemma RecordSlot(p: Positions, c: Option<Slot>, x: int, s: Slot)
    ensures SlotX(Record(p, c, x), s) == if c == Some(s) then Some(x) else SlotX(p, s)
  {
  }

  /** The positions that were found, in the order description, quantity, rate, amount. */
  function PresentXs(p: Positions): (xs: seq<int>)
    ensures |xs| <= 4
  {
    (if p.desc.Some? then [p.desc.value] else [])
    + (if p.qty.Some? then [p.qty.value] else [])
    + (if p.rate.Some? then [p.rate.value] else [])
    + (if p.amt.Some? then [p.amt.value] else [])
  }

  function Identity(n: int): int {
    n
  }

  /** `(a + b) / 2` in exact arithmetic. */
  function Midpoint(a: int, b: int): real {
    (a + b) as real / 2.0
  }

  /** The cut points halfway between consecutive sorted positions. */
  function BoundariesOf(xs: seq<int>): Boundaries {
    Boundaries(
      if |xs| > 1 then Some(Midpoint(xs[0], xs[1])) else None,
      if |xs| > 2 then Some(Midpoint(xs[1], xs[2])) else None,
      if |xs| > 3 then Some(Midpoint(xs[2], xs[3])) else None)
  }

  /** The boundaries `find_table_header` derives from a header row. */
  function HeaderBoundaries(row: Row): Boundaries {
    BoundariesOf(SortBy(PresentXs(LabelPositions(row)), Identity))
  }

  /** Python's `find_table_header(rows)`: `(None, None)`, or the header index and its boundaries. */
  method FindTableHeader(rows: seq<Row>) returns (headerIndex: Option<nat>, boundaries: Option<Boundaries>)
    ensures headerIndex == FirstHeader(rows)
    ensures headerIndex.None? ==> boundaries.None?
    ensures headerIndex.Some? ==> boundaries == Some(HeaderBoundaries(rows[headerIndex.value]))
  {
    headerIndex := None;
    var headerRow: Option<Row> := None;
    var idx := 0;
    while idx < |rows|
      invariant 0 <= idx <= |rows|
      invariant forall j :: 0 <= j < idx ==> !IsHeaderRow(rows[j])
      invariant headerIndex.None? && headerRow.None?
    {
      var merged := RowText(rows[idx]);
      if IsHeaderText(merged) {
        headerIndex := Some(idx);
        headerRow := Some(rows[idx]);
        break;
      }
      idx := idx + 1;
    }

    if headerRow.None? {
      return None, None;
    }
    var row := headerRow.value;

    var positions := Positions(None, None, None, None);
    for j := 0 to |row|
      invariant positions == LabelPositions(row[..j])
    {
      assert row[..j + 1][..j] == row[..j];
      var x := row[j].x;
      match Classify(Lower(row[j].text))
      case Some(Desc) => positions := positions.(desc := Some(x));
      case Some(Qty) => positions := positions.(qty := Some(x));
      case Some(Rate) => positions := positions.(rate := Some(x));
      case Some(Amt) => positions := positions.(amt := Some(x));
      case None =>
    }
    assert row[..|row|] == row;

    var xs := PresentXs(positions);
    xs := SortBy(xs, Identity);

    var b := Boundaries(None, None, None);
    if |xs| > 1 {
      b := b.(descEnd := Some(Midpoint(xs[0], xs[1])));
    }
    if |xs| > 2 {
      b := b.(qtyEnd := Some(Midpoint(xs[1], xs[2])));
    }
    if |xs| > 3 {
      b := b.(rateEnd := Some(Midpoint(xs[2], xs[3])));
    }
    boundaries := Some(b);
  }

  // ---------------------------------------------------------------------------------------
  // What the header and the boundaries are.

  /**
   * The position recorded for a column is that of the last word labelling it; no position is
   * recorded when no word labels it.
   */
  lemma {:induction false} LabelPositionsLastMatch(row: Row, s: Slot)
    ensures match SlotX(LabelPositions(row), s)
      case None => forall j :: 0 <= j < |row| ==> !Labels(row[j], s)
      case Some(x) => exists j :: 0 <= j < |row| && row[j].x == x && Labels(row[j], s)
                        && forall k :: j < k < |row| ==> !Labels(row[k], s)
    decreases |row|
  {
    if row != [] {
      var init := row[..|row| - 1];
      var w := row[|row| - 1];
      LabelPositionsLastMatch(init, s);
      LabelPositionsStep(row, s);
      if !Labels(w, s) {
        match SlotX(LabelPositions(init), s)
        case None =>
          forall j | 0 <= j < |row| ensures !Labels(row[j], s) {
            if j < |init| { assert row[j] == init[j]; }
          }
        case Some(x) =>
          var j :| 0 <= j < |init| && init[j].x == x && Labels(init[j], s)
                   && forall k :: j < k < |init| ==> !Labels(init[k], s);
          assert row[j] == init[j];
          forall k | j < k < |row| ensures !Labels(row[k], s) {
            if k < |init| { assert row[k] == init[k]; }
          }
      }
    }
  }

  /** Adding a word changes a column's position only when the word labels that column. */
  lemma LabelPositionsStep(row: Row, s: Slot)
    requires row != []
    ensures var w := row[|row| - 1];
      SlotX(LabelPositions(row), s) == if Labels(w, s) then Some(w.x) else SlotX(LabelPositions(row[..|row| - 1]), s)
  {
    var w := row[|row| - 1];
    RecordSlot(LabelPositions(row[..|row| - 1]), Classify(Lower(w.text)), w.x, s);
  }

  /** A word names at most one column: the first of description, quantity, rate, amount whose label it contains. */
  lemma ClassifyPriority(w: string, s: Slot)
    requires Classify(w) == Some(s)
    ensures s == Desc <==> Contains(w, "desc")
    ensures s == Qty <==> !Contains(w, "desc") && Contains(w, "qty")
    ensures s == Rate <==> !Contains(w, "desc") && !Contains(w, "qty") && Contains(w, "rate")
    ensures s == Amt <==> !Contains(w, "desc") && !Contains(w, "qty") && !Contains(w, "rate")
  {
  }

  /**
   * With `k` labels found there are `k - 1` boundaries, named in sorted order; each lies
   * between the two sorted positions it separates, so they are non-decreasing.
   */
  lemma HeaderBoundariesShape(row: Row)
    ensures var present := PresentXs(LabelPositions(row));
      var xs := SortBy(present, Identity);
      var b := HeaderBoundaries(row);
      |xs| == |present| <= 4
      && SortedBy(xs, Identity) && multiset(xs) == multiset(present)
      && (b.descEnd.Some? <==> |xs| >= 2)
      && (b.qtyEnd.Some? <==> |xs| >= 3)
      && (b.rateEnd.Some? <==> |xs| == 4)
      && (b.descEnd.Some? ==> xs[0] as real <= b.descEnd.value <= xs[1] as real)
      && (b.qtyEnd.Some? ==> xs[1] as real <= b.qtyEnd.value <= xs[2] as real)
      && (b.rateEnd.Some? ==> xs[2] as real <= b.rateEnd.value <= xs[3] as real)
  {
    var present := PresentXs(LabelPositions(row));
    var xs := SortBy(present, Identity);
    SortBySortedPermutation(present, Identity);
    if |xs| >= 2 {
      assert Identity(xs[0]) <= Identity(xs[1]);
    }
    if |xs| >= 3 {
      assert Identity(xs[1]) <= Identity(xs[2]);
    }
    if |xs| >= 4 {
      assert Identity(xs[2]) <= Identity(xs[3]);
    }
  }

  /** The boundaries come in order: `descEnd <= qtyEnd <= rateEnd` wherever both exist. */
  lemma HeaderBoundariesOrdered(row: Row)
    ensures var b := HeaderBoundaries(row);
      (b.qtyEnd.Some? ==> b.descEnd.Some? && b.descEnd.value <= b.qtyEnd.value)
      && (b.rateEnd.Some? ==> b.qtyEnd.Some? && b.qtyEnd.value <= b.rateEnd.value)
  {
    HeaderBoundariesShape(row);
  }

  /** Fewer than four labels leave `rateEnd` out. */
  lemma FewLabelsNoRateEnd(row: Row)
    requires |PresentXs(LabelPositions(row))| < 4
    ensures HeaderBoundaries(row).rateEnd.None?
  {
    HeaderBoundariesShape(row);
  }
}
