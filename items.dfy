/**
 * `extract_line_items`: the rows after the header become line items. A row mentioning
 * "category total" is skipped, a row mentioning "printed" ends the table; the other rows are
 * cut into four columns at the boundaries and read as description, quantity, rate and amount.
 */
module ItemExtraction {
  import opened Wrappers
  import opened Text
  import opened Conversions
  import opened RowGrouping
  import opened HeaderLocator

  datatype Column = DescCol | QtyCol | RateCol | AmtCol

  /** One invoice line. */
  datatype LineItem = LineItem(name: string, quantity: real, rate: real, amount: real)

  /** The position a missing boundary stands for. */
  const MissingBoundary: real := 99999.0

  /** The column of a word at `x`: the first boundary it lies left of, else the amount column. */
  function ColumnOf(x: int, b: Boundaries): Column {
    if (x as real) < b.descEnd.GetOr(MissingBoundary) then DescCol
    else if (x as real) < b.qtyEnd.GetOr(MissingBoundary) then QtyCol
    else if (x as real) < b.rateEnd.GetOr(MissingBoundary) then RateCol
    else AmtCol
  }

  /** The texts of the words of `row` that fall in column `c`, in row order. */
  function Bucket(row: Row, b: Boundaries, c: Column): seq<string> {
    if row == [] then []
    else
      var w := row[|row| - 1];
      Bucket(row[..|row| - 1], b, c) + (if ColumnOf(w.x, b) == c then [w.text] else [])
  }

  /** The value of the first token that `read` accepts. */
  function FirstRead(tokens: seq<string>, read: string -> Option<real>): Option<real> {
    if tokens == [] then None
    else if read(tokens[0]).Some? then read(tokens[0])
    else FirstRead(tokens[1..], read)
  }

  /** The value of the first token that reads as a number. */
  function FirstNumber(tokens: seq<string>): Option<real> {
    FirstRead(tokens, AsNumber)
  }

  lemma {:induction false} FirstReadNone(tokens: seq<string>, read: string -> Option<real>)
    ensures FirstRead(tokens, read).None? <==> forall i :: 0 <= i < |tokens| ==> read(tokens[i]).None?
    decreases |tokens|
  {
    if tokens != [] && read(tokens[0]).None? {
      FirstReadNone(tokens[1..], read);
      assert forall i :: 1 <= i < |tokens| ==> tokens[i] == tokens[1..][i - 1];
    }
  }

  lemma {:induction false} FirstReadIndex(tokens: seq<string>, read: string -> Option<real>) returns (i: nat)
    requires FirstRead(tokens, read).Some?
    ensures i < |tokens| && read(tokens[i]) == FirstRead(tokens, read)
    ensures forall j :: 0 <= j < i ==> read(tokens[j]).None?
    decreases |tokens|
  {
    if read(tokens[0]).Some? {
      i := 0;
    } else {
      var k := FirstReadIndex(tokens[1..], read);
      i := k + 1;
      assert tokens[i] == tokens[1..][k];
      assert forall j :: 1 <= j < i ==> tokens[j] == tokens[1..][j - 1];
    }
  }

  /** `FirstNumber` finds nothing exactly when no token reads as a number. */
  lemma FirstNumberNone(tokens: seq<string>)
    ensures FirstNumber(tokens).None? <==> forall i :: 0 <= i < |tokens| ==> AsNumber(tokens[i]).None?
  {
    FirstReadNone(tokens, AsNumber);
  }

  /** What `FirstNumber` finds is the value of the first token that reads as a number. */
  lemma FirstNumberIsFirst(tokens: seq<string>)
    requires FirstNumber(tokens).Some?
    ensures exists i :: 0 <= i < |tokens| && AsNumber(tokens[i]) == FirstNumber(tokens)
                        && forall j :: 0 <= j < i ==> AsNumber(tokens[j]).None?
  {
    var i := FirstReadIndex(tokens, AsNumber);
  }

  /** Python's truthiness of an optional number: present and not zero. */
  predicate Truthy(v: Option<real>) {
    v.Some? && v.value != 0.0
  }

  /** The item read from a row's description, quantity, rate and amount: it needs a non-empty description and an amount. */
  function MakeItem(description: string, quantity: Option<real>, rate: Option<real>, amount: Option<real>): Option<LineItem> {
    if description == [] || amount.None? then None
    else Some(LineItem(description,
                       if Truthy(quantity) then quantity.value else 1.0,
                       if Truthy(rate) then rate.value else amount.value,
                       amount.value))
  }

  /** The description of a row: its description-column words joined by spaces, stripped, without a leading serial number. */
  function Description(row: Row, b: Boundaries): string {
    StripSerial(Strip(Join(" ", Bucket(row, b, DescCol))))
  }

  /** The item a row yields, if any. */
  function ParseRow(row: Row, b: Boundaries): Option<LineItem> {
    MakeItem(Description(row, b), AsNumber(Concat(Bucket(row, b, QtyCol))),
             AsNumber(Concat(Bucket(row, b, RateCol))), FirstNumber(Bucket(row, b, AmtCol)))
  }

  /** `ParseRow` for fixed boundaries. */
  function RowReader(b: Boundaries): Row -> Option<LineItem> {
    row => ParseRow(row, b)
  }

  predicate IsSkipRow(row: Row) {
    Contains(RowText(row), "category total")
  }

  predicate IsStopRow(row: Row) {
    !IsSkipRow(row) && Contains(RowText(row), "printed")
  }

  /** The items a processed row adds. */
  function Yield(item: Option<LineItem>): seq<LineItem> {
    match item case None => [] case Some(i) => [i]
  }

  /**
   * The items of a run of rows, read in order until a stop row, skipping skip rows, with
   * `read` giving the item of every other row.
   */
  function ItemsOf(rows: seq<Row>, read: Row -> Option<LineItem>): seq<LineItem> {
    if rows == [] then []
    else if IsSkipRow(rows[0]) then ItemsOf(rows[1..], read)
    else if IsStopRow(rows[0]) then []
    else Yield(read(rows[0])) + ItemsOf(rows[1..], read)
  }

  /** The items of the rows after the header, cut into columns at `b`. */
  function ItemsFrom(rows: seq<Row>, b: Boundaries): seq<LineItem> {
    ItemsOf(rows, RowReader(b))
  }

  /** The rows after the header row. */
  function AfterHeader(rows: seq<Row>, h: nat): seq<Row> {
    if h + 1 <= |rows| then rows[h + 1..] else []
  }

  /** What `extract_line_items` returns. */
  function LineItems(rows: seq<Row>, headerRowIdx: Option<nat>, boundaries: Option<Boundaries>): seq<LineItem> {
    if headerRowIdx.None? || boundaries.None? then []
    else ItemsFrom(AfterHeader(rows, headerRowIdx.value), boundaries.value)
  }

  /** The bucketing loop of `extract_line_items`: each word goes to the column the cascade picks. */
  method SplitColumns(row: Row, b: Boundaries) returns (descCol: seq<string>, qtyCol: seq<string>, rateCol: seq<string>, amtCol: seq<string>)
    ensures descCol == Bucket(row, b, DescCol) && qtyCol == Bucket(row, b, QtyCol)
    ensures rateCol == Bucket(row, b, RateCol) && amtCol == Bucket(row, b, AmtCol)
  {
    descCol, qtyCol, rateCol, amtCol := [], [], [], [];
    for j := 0 to |row|
      invariant descCol == Bucket(row[..j], b, DescCol) && qtyCol == Bucket(row[..j], b, QtyCol)
      invariant rateCol == Bucket(row[..j], b, RateCol) && amtCol == Bucket(row[..j], b, AmtCol)
    {
      assert row[..j + 1][..j] == row[..j];
      var x, token := row[j].x, row[j].text;
      if (x as real) < b.descEnd.GetOr(MissingBoundary) {
        descCol := descCol + [token];
      } else if (x as real) < b.qtyEnd.GetOr(MissingBoundary) {
        qtyCol := qtyCol + [token];
      } else if (x as real) < b.rateEnd.GetOr(MissingBoundary) {
        rateCol := rateCol + [token];
      } else {
        amtCol := amtCol + [token];
      }
    }
    assert row[..|row|] == row;
  }

  /** The amount scan of `extract_line_items`: the first token of the amount column that is a number. */
  method FirstAmount(amtCol: seq<string>) returns (amountVal: Option<real>)
    ensures amountVal == FirstNumber(amtCol)
  {
    amountVal := None;
    for j := 0 to |amtCol|
      invariant FirstNumber(amtCol) == FirstNumber(amtCol[j..])
    {
      assert amtCol[j..][0] == amtCol[j] && amtCol[j..][1..] == amtCol[j + 1..];
      var num := AsNumber(amtCol[j]);
      if num.Some? {
        amountVal := num;
        return;
      }
    }
  }

  /** The reading of one processed row in `extract_line_items`: columns, description, numbers, and the item if it has a description and an amount. */
  method ReadRow(row: Row, b: Boundaries) returns (item: Option<LineItem>)
    ensures item == ParseRow(row, b)
  {
    var descCol, qtyCol, rateCol, amtCol := SplitColumns(row, b);
    var description := StripSerial(Strip(Join(" ", descCol)));
    var quantity := AsNumber(Concat(qtyCol));
    var rateVal := AsNumber(Concat(rateCol));
    var amountVal := FirstAmount(amtCol);
    if description == [] || amountVal.None? {
      return None;
    }
    item := Some(LineItem(description,
                          if Truthy(quantity) then quantity.value else 1.0,
                          if Truthy(rateVal) then rateVal.value else amountVal.value,
                          amountVal.value));
  }

  lemma ItemsOfStep(rows: seq<Row>, i: nat, read: Row -> Option<LineItem>)
    requires i < |rows|
    ensures ItemsOf(rows[i..], read)
      == if IsSkipRow(rows[i]) then ItemsOf(rows[i + 1..], read)
         else if IsStopRow(rows[i]) then []
         else Yield(read(rows[i])) + ItemsOf(rows[i + 1..], read)
  {
    assert rows[i..][0] == rows[i] && rows[i..][1..] == rows[i + 1..];
  }

  lemma ReaderIs(b: Boundaries, row: Row)
    ensures RowReader(b)(row) == ParseRow(row, b)
  {
  }

  lemma ReaderReads(b: Boundaries, row: Row, item: Option<LineItem>)
    requires item == ParseRow(row, b)
    ensures RowReader(b)(row) == item
  {
  }

  lemma Reassociate(items: seq<LineItem>, added: seq<LineItem>, tail: seq<LineItem>, whole: seq<LineItem>)
    requires items + (added + tail) == whole
    ensures (items + added) + tail == whole
  {
    assert items + (added + tail) == (items + added) + tail;
  }

  /** Python's `extract_line_items(rows, header_row_idx, boundaries)`. */
  method ExtractLineItems(rows: seq<Row>, headerRowIdx: Option<nat>, boundaries: Option<Boundaries>)
    returns (items: seq<LineItem>)
    ensures items == LineItems(rows, headerRowIdx, boundaries)
  {
    if headerRowIdx.None? || boundaries.None? {
      return [];
    }
    var b := boundaries.value;
    var rest := AfterHeader(rows, headerRowIdx.value);
    ghost var read := RowReader(b);
    items := [];
    var i := 0;
    while i < |rest|
      invariant 0 <= i <= |rest|
      invariant items + ItemsOf(rest[i..], read) == ItemsOf(rest, read)
    {
      ItemsOfStep(rest, i, read);
      var row := rest[i];
      var rowTextFull := RowText(row);
      if Contains(rowTextFull, "category total") {
        i := i + 1;
        continue;
      }
      if Contains(rowTextFull, "printed") {
        assert items == ItemsOf(rest, read);
        return;
      }
      var item := ReadRow(row, b);
      ReaderReads(b, row, item);
      Reassociate(items, Yield(item), ItemsOf(rest[i + 1..], read), ItemsOf(rest, read));
      items := items + Yield(item);
      i := i + 1;
    }
    assert rest[i..] == [];
  }

  // ---------------------------------------------------------------------------------------
  // What the items are, for any reading of the rows.

  /**
   * Every item comes from a row that is not a skip row and that no stop row precedes, and is
   * what that row reads as.
   */
  lemma {:induction false} ItemsOfProvenance(rows: seq<Row>, read: Row -> Option<LineItem>, item: LineItem)
    requires item in ItemsOf(rows, read)
    ensures exists j :: 0 <= j < |rows| && read(rows[j]) == Some(item) && !IsSkipRow(rows[j])
                        && !IsStopRow(rows[j]) && forall k :: 0 <= k < j ==> !IsStopRow(rows[k])
    decreases |rows|
  {
    assert rows != [];
    if IsSkipRow(rows[0]) || read(rows[0]) != Some(item) {
      assert item in ItemsOf(rows[1..], read);
      ItemsOfProvenance(rows[1..], read, item);
      var j :| 0 <= j < |rows[1..]| && read(rows[1..][j]) == Some(item) && !IsSkipRow(rows[1..][j])
               && !IsStopRow(rows[1..][j]) && forall k :: 0 <= k < j ==> !IsStopRow(rows[1..][k]);
      assert rows[j + 1] == rows[1..][j];
      assert forall k :: 1 <= k < j + 1 ==> rows[k] == rows[1..][k - 1];
      assert !IsStopRow(rows[0]);
    }
  }

  /** Rows after a stop row do not matter. */
  lemma {:induction false} StopEndsTable(pre: seq<Row>, stop: Row, post: seq<Row>, read: Row -> Option<LineItem>)
    requires IsStopRow(stop)
    ensures ItemsOf(pre + [stop] + post, read) == ItemsOf(pre + [stop], read)
    decreases |pre|
  {
    if pre == [] {
      assert ([stop] + post)[0] == stop && [stop][0] == stop;
    } else {
      assert (pre + [stop] + post)[0] == pre[0] && (pre + [stop])[0] == pre[0];
      assert (pre + [stop] + post)[1..] == pre[1..] + [stop] + post;
      assert (pre + [stop])[1..] == pre[1..] + [stop];
      StopEndsTable(pre[1..], stop, post, read);
    }
  }

  /** A skip row adds nothing and does not end the table, even when it also mentions "printed". */
  lemma {:induction false} SkipRowIsTransparent(pre: seq<Row>, skip: Row, post: seq<Row>, read: Row -> Option<LineItem>)
    requires IsSkipRow(skip)
    ensures ItemsOf(pre + [skip] + post, read) == ItemsOf(pre + post, read)
    decreases |pre|
  {
    if pre == [] {
      assert ([skip] + post)[0] == skip && ([skip] + post)[1..] == post;
      assert pre + [skip] + post == [skip] + post && pre + post == post;
    } else {
      assert (pre + [skip] + post)[0] == pre[0] && (pre + post)[0] == pre[0];
      assert (pre + [skip] + post)[1..] == pre[1..] + [skip] + post;
      assert (pre + post)[1..] == pre[1..] + post;
      SkipRowIsTransparent(pre[1..], skip, post, read);
    }
  }

  /** Rows none of which reads as an item yield no items. */
  lemma {:induction false} NoReadingNoItems(rows: seq<Row>, read: Row -> Option<LineItem>)
    requires forall row <- rows :: read(row).None?
    ensures ItemsOf(rows, read) == []
    decreases |rows|
  {
    if rows != [] {
      assert rows[0] in rows;
      assert forall row <- rows[1..] :: row in rows;
      NoReadingNoItems(rows[1..], read);
    }
  }

  /** Items are what the rows read as: a property of every row's item holds of every item. */
  lemma {:induction false} ItemsOfKeep(rows: seq<Row>, read: Row -> Option<LineItem>, good: LineItem -> bool)
    requires forall row <- rows :: read(row).Some? ==> good(read(row).value)
    ensures forall item <- ItemsOf(rows, read) :: good(item)
    decreases |rows|
  {
    if rows != [] {
      assert rows[0] in rows;
      assert forall row <- rows[1..] :: row in rows;
      ItemsOfKeep(rows[1..], read, good);
    }
  }

  // ---------------------------------------------------------------------------------------
  // What the items of `extract_line_items` are.

  /** An item of the rows after row `h` is read from one of them, not a skip row and preceded by no stop row after `h`. */
  lemma ItemsAfterHeaderRow(rows: seq<Row>, h: nat, read: Row -> Option<LineItem>, item: LineItem) returns (j: nat)
    requires item in ItemsOf(AfterHeader(rows, h), read)
    ensures h < j < |rows| && read(rows[j]) == Some(item)
    ensures !IsSkipRow(rows[j]) && forall k :: h < k < j ==> !IsStopRow(rows[k])
  {
    var rest := AfterHeader(rows, h);
    ItemsOfProvenance(rest, read, item);
    var i :| 0 <= i < |rest| && read(rest[i]) == Some(item) && !IsSkipRow(rest[i])
             && forall k :: 0 <= k < i ==> !IsStopRow(rest[k]);
    j := h + 1 + i;
    assert rest[i] == rows[j];
    assert forall k :: h < k < j ==> rows[k] == rest[k - h - 1];
  }

  /** No item comes from the header row or the rows before it; each is what a later row reads as. */
  lemma LineItemsAfterHeader(rows: seq<Row>, h: nat, b: Boundaries, item: LineItem)
    requires item in LineItems(rows, Some(h), Some(b))
    ensures exists j :: h < j < |rows| && ParseRow(rows[j], b) == Some(item)
                        && !IsSkipRow(rows[j]) && forall k :: h < k < j ==> !IsStopRow(rows[k])
  {
    var j := ItemsAfterHeaderRow(rows, h, RowReader(b), item);
    ReaderIs(b, rows[j]);
  }

  /** The conditions every extracted item meets. */
  predicate WellFormed(item: LineItem) {
    item.name != [] && item.quantity != 0.0 && (item.rate != 0.0 || item.rate == item.amount)
  }

  /** An item has a name; its quantity is never zero; its rate is the amount unless a non-zero rate was read. */
  lemma MakeItemWellFormed(description: string, quantity: Option<real>, rate: Option<real>, amount: Option<real>)
    ensures MakeItem(description, quantity, rate, amount).Some? ==> WellFormed(MakeItem(description, quantity, rate, amount).value)
  {
  }

  lemma ParseRowWellFormed(row: Row, b: Boundaries)
    ensures ParseRow(row, b).Some? ==> WellFormed(ParseRow(row, b).value)
  {
    MakeItemWellFormed(Description(row, b), AsNumber(Concat(Bucket(row, b, QtyCol))),
                       AsNumber(Concat(Bucket(row, b, RateCol))), FirstNumber(Bucket(row, b, AmtCol)));
  }

  /** Every extracted item is well formed. */
  lemma ItemsWellFormed(rows: seq<Row>, b: Boundaries)
    ensures forall item <- ItemsFrom(rows, b) :: WellFormed(item)
  {
    forall row <- rows
      ensures RowReader(b)(row).Some? ==> WellFormed(RowReader(b)(row).value)
    {
      ParseRowWellFormed(row, b);
    }
    ItemsOfKeep(rows, RowReader(b), WellFormed);
  }

  /**
   * An item exists exactly when the description is non-empty and the amount is a number; the
   * amount is that number; the quantity is 1 unless a non-zero quantity was read; the rate is
   * the amount unless a non-zero rate was read.
   */
  lemma MakeItemFields(description: string, quantity: Option<real>, rate: Option<real>, amount: Option<real>)
    ensures MakeItem(description, quantity, rate, amount).Some? <==> description != [] && amount.Some?
    ensures MakeItem(description, quantity, rate, amount).Some? ==>
              var item := MakeItem(description, quantity, rate, amount).value;
              item.name == description && item.amount == amount.value
              && (quantity.None? || quantity.value == 0.0 ==> item.quantity == 1.0)
              && (quantity.Some? && quantity.value != 0.0 ==> item.quantity == quantity.value)
              && (rate.None? || rate.value == 0.0 ==> item.rate == amount.value)
              && (rate.Some? && rate.value != 0.0 ==> item.rate == rate.value)
  {
  }

  /** `MakeItemFields` for the readings of a row's columns. */
  lemma ParseRowFields(row: Row, b: Boundaries)
    ensures ParseRow(row, b).Some? <==> Description(row, b) != [] && FirstNumber(Bucket(row, b, AmtCol)).Some?
    ensures ParseRow(row, b).Some? ==>
              var item := ParseRow(row, b).value;
              var quantity := AsNumber(Concat(Bucket(row, b, QtyCol)));
              var rate := AsNumber(Concat(Bucket(row, b, RateCol)));
              item.name == Description(row, b) && item.amount == FirstNumber(Bucket(row, b, AmtCol)).value
              && (quantity.None? || quantity.value == 0.0 ==> item.quantity == 1.0)
              && (quantity.Some? && quantity.value != 0.0 ==> item.quantity == quantity.value)
              && (rate.None? || rate.value == 0.0 ==> item.rate == item.amount)
              && (rate.Some? && rate.value != 0.0 ==> item.rate == rate.value)
  {
    MakeItemFields(Description(row, b), AsNumber(Concat(Bucket(row, b, QtyCol))),
                   AsNumber(Concat(Bucket(row, b, RateCol))), FirstNumber(Bucket(row, b, AmtCol)));
  }

  lemma TextsSnoc(row: Row)
    requires row != []
    ensures Texts(row) == Texts(row[..|row| - 1]) + [row[|row| - 1].text]
  {
  }

  /** Every word of a row lands in exactly one column. */
  lemma {:induction false} BucketsPartition(row: Row, b: Boundaries)
    ensures multiset(Bucket(row, b, DescCol)) + multiset(Bucket(row, b, QtyCol))
          + multiset(Bucket(row, b, RateCol)) + multiset(Bucket(row, b, AmtCol))
         == multiset(Texts(row))
    decreases |row|
  {
    if row != [] {
      var init := row[..|row| - 1];
      BucketsPartition(init, b);
      TextsSnoc(row);
    }
  }

  // ---------------------------------------------------------------------------------------
  // Fewer than four header labels: no items.

  /** Without a `rateEnd`, a word left of the default boundary never reaches the amount column. */
  lemma {:induction false} NoAmountColumn(row: Row, b: Boundaries)
    requires b.rateEnd.None?
    requires forall w <- row :: (w.x as real) < MissingBoundary
    ensures Bucket(row, b, AmtCol) == []
    decreases |row|
  {
    if row != [] {
      var init := row[..|row| - 1];
      assert forall w <- init :: w in row;
      assert row[|row| - 1] in row;
      NoAmountColumn(init, b);
    }
  }

  /** Rows whose words all lie left of the default boundary, read with no `rateEnd`, yield no items. */
  lemma NoRateEndNoItems(rows: seq<Row>, b: Boundaries)
    requires b.rateEnd.None?
    requires forall row <- rows :: forall w <- row :: (w.x as real) < MissingBoundary
    ensures ItemsFrom(rows, b) == []
  {
    forall row <- rows
      ensures RowReader(b)(row).None?
    {
      NoAmountColumn(row, b);
      assert FirstNumber(Bucket(row, b, AmtCol)) == None;
    }
    NoReadingNoItems(rows, RowReader(b));
  }

  /**
   * When the header row has fewer than four labels and every word lies left of x = 99999,
   * no line item is extracted: the amount column stays empty.
   */
  lemma FewLabelsYieldNoItems(rows: seq<Row>)
    requires forall row <- rows :: forall w <- row :: w.x < 99999
    requires FirstHeader(rows).Some? ==> |PresentXs(LabelPositions(rows[FirstHeader(rows).value]))| < 4
    ensures var h := FirstHeader(rows);
      LineItems(rows, h, if h.None? then None else Some(HeaderBoundaries(rows[h.value]))) == []
  {
    var h := FirstHeader(rows);
    if h.Some? {
      var b := HeaderBoundaries(rows[h.value]);
      FewLabelsNoRateEnd(rows[h.value]);
      var rest := AfterHeader(rows, h.value);
      assert forall row <- rest :: row in rows;
      NoRateEndNoItems(rest, b);
    }
  }
}
