/**
 * The tail of `extract_bill_info_from_url`: group the OCR words into rows, locate the header,
 * extract the line items, and report them as one page with their count and the sum of their
 * amounts. Downloading the image and running OCR are outside the model: the OCR output is the
 * input here.
 */
module Pipeline {
  import opened Wrappers
  import opened RowGrouping
  import opened HeaderLocator
  import opened ItemExtraction

  /** The vertical distance within which `group_tokens_by_line` keeps words on one line by default. */
  const LineThreshold: int := 12

  /** One page of the report. */
  datatype PageItems = PageItems(pageNo: string, billItems: seq<LineItem>)

  datatype BillData = BillData(pagewiseLineItems: seq<PageItems>, totalItemCount: nat, reconciledAmount: real)

  /** The report returned to the web layer. */
  datatype BillInfo = BillInfo(isSuccess: bool, data: BillData)

  /** Python's `sum(item["item_amount"] for item in items)`, added left to right from 0. */
  function SumAmounts(items: seq<LineItem>): real {
    if items == [] then 0.0 else SumAmounts(items[..|items| - 1]) + items[|items| - 1].amount
  }

  /** The sum over a concatenation is the sum of the sums. */
  lemma {:induction false} SumAmountsAppend(a: seq<LineItem>, b: seq<LineItem>)
    ensures SumAmounts(a + b) == SumAmounts(a) + SumAmounts(b)
    decreases |b|
  {
    if b == [] {
      assert a + b == a;
    } else {
      var init := b[..|b| - 1];
      assert (a + b)[..|a + b| - 1] == a + init;
      assert (a + b)[|a + b| - 1] == b[|b| - 1];
      SumAmountsAppend(a, init);
    }
  }

  /** The sum of the item counts of the pages. */
  function PagesCount(pages: seq<PageItems>): nat {
    if pages == [] then 0 else PagesCount(pages[..|pages| - 1]) + |pages[|pages| - 1].billItems|
  }

  /** The sum of the item amounts of the pages. */
  function PagesAmount(pages: seq<PageItems>): real {
    if pages == [] then 0.0 else PagesAmount(pages[..|pages| - 1]) + SumAmounts(pages[|pages| - 1].billItems)
  }

  /** A report whose totals agree with its pages. */
  predicate Reconciled(d: BillData) {
    d.totalItemCount == PagesCount(d.pagewiseLineItems) && d.reconciledAmount == PagesAmount(d.pagewiseLineItems)
  }

  /** The report on the extracted items: a success with one page "1" and totals that agree with it. */
  function Report(items: seq<LineItem>): (r: BillInfo)
    ensures r.isSuccess && Reconciled(r.data)
    ensures |r.data.pagewiseLineItems| == 1 && r.data.pagewiseLineItems[0] == PageItems("1", items)
  {
    var page := PageItems("1", items);
    assert [page][..0] == [];
    BillInfo(true, BillData([page], |items|, SumAmounts(items)))
  }

  /** The rows of the OCR output. */
  function OcrRows(ocr: OcrData): seq<Row> {
    GroupRows(Tokens(ocr), LineThreshold)
  }

  /** The header of a run of rows and its boundaries, as `find_table_header` returns them. */
  function HeaderOf(rows: seq<Row>): (Option<nat>, Option<Boundaries>) {
    var h := FirstHeader(rows);
    (h, if h.None? then None else Some(HeaderBoundaries(rows[h.value])))
  }

  /** The items `extract_bill_info_from_url` reports for an OCR output. */
  function BillItems(ocr: OcrData): seq<LineItem> {
    var rows := OcrRows(ocr);
    LineItems(rows, HeaderOf(rows).0, HeaderOf(rows).1)
  }

  /** Python's `extract_bill_info_from_url` after the OCR step. */
  method ExtractBillInfo(ocr: OcrData) returns (info: BillInfo)
    ensures info == Report(BillItems(ocr))
  {
    var rows := GroupTokensByLine(ocr, LineThreshold);
    var headerIdx, bounds := FindTableHeader(rows);
    var lineItems := ExtractLineItems(rows, headerIdx, bounds);
    info := BillInfo(true, BillData([PageItems("1", lineItems)], |lineItems|, SumAmounts(lineItems)));
  }

  // ---------------------------------------------------------------------------------------
  // What the report says.

  /** Without a header row the report lists no items and a reconciled amount of zero. */
  lemma NoHeaderEmptyReport(ocr: OcrData)
    requires forall row <- OcrRows(ocr) :: !IsHeaderRow(row)
    ensures Report(BillItems(ocr)).data.totalItemCount == 0
    ensures Report(BillItems(ocr)).data.reconciledAmount == 0.0
  {
    var rows := OcrRows(ocr);
    assert forall j :: 0 <= j < |rows| ==> rows[j] in rows;
    assert FirstHeader(rows).None?;
  }

  /**
   * A header row with fewer than four column labels, and every OCR word left of x = 99999,
   * give a report with no items and a reconciled amount of zero.
   */
  lemma FewLabelsEmptyReport(ocr: OcrData)
    requires forall i :: 0 <= i < |ocr.left| ==> ocr.left[i] < 99999
    requires var rows := OcrRows(ocr);
      FirstHeader(rows).Some? ==> |PresentXs(LabelPositions(rows[FirstHeader(rows).value]))| < 4
    ensures Report(BillItems(ocr)).data.totalItemCount == 0
    ensures Report(BillItems(ocr)).data.reconciledAmount == 0.0
  {
    var tokens := Tokens(ocr);
    var rows := OcrRows(ocr);
    forall row <- rows, w <- row
      ensures w.x < 99999
    {
      GroupRowsPositions(tokens, LineThreshold, row, w);
    }
    FewLabelsYieldNoItems(rows);
  }

  /** Every reported item is well formed and comes from a row after the header. */
  lemma ReportedItems(ocr: OcrData, item: LineItem)
    requires item in Report(BillItems(ocr)).data.pagewiseLineItems[0].billItems
    ensures WellFormed(item)
    ensures var rows := OcrRows(ocr);
      FirstHeader(rows).Some?
      && exists j :: FirstHeader(rows).value < j < |rows| && ParseRow(rows[j], HeaderBoundaries(rows[FirstHeader(rows).value])) == Some(item)
  {
    var rows := OcrRows(ocr);
    var h := FirstHeader(rows);
    assert h.Some?;
    var b := HeaderBoundaries(rows[h.value]);
    ItemsWellFormed(AfterHeader(rows, h.value), b);
    LineItemsAfterHeader(rows, h.value, b, item);
  }
}
