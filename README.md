# Invoice line-item extractor, modelled in Dafny

The extractor reads a bill. OCR yields a flat list of words, each with its left edge `x`, its top
edge `y` and its text. `Hackathon/extractor.py` turns those words into invoice line items:

1. `group_tokens_by_line` groups the words into rows. A new row starts when a word's `y` is more
   than 12 away from the `y` of the word kept before it. Each row is sorted by `x`.
2. `find_table_header` finds the first row that looks like a table header. It reads where its
   column labels (description, quantity, rate, amount) sit, and puts column boundaries halfway
   between neighbouring labels.
3. `extract_line_items` walks the rows after the header and handles them in this order:
   - it skips a "category total" row;
   - it stops at a "printed" row;
   - every other row is cut into four columns at the boundaries. It yields an item when the
     description is non-empty and some amount token reads as a number.
4. `extract_bill_info_from_url` reports the items as page "1", with their count and the sum of
   their amounts.

`as_number` reads a number after removing commas. `strip_serial` drops a leading all-digit word
from a description.

The model has one module per stage:

- `Text`: the Python string operations the code relies on.
- `Sorting`: Python's stable `sorted` with a key.
- `Conversions`: `as_number` and `strip_serial`.
- `Amounts`: printed amounts such as "1,234.50", the partner that `as_number` reads back.
- `RowGrouping`, `HeaderLocator`, `ItemExtraction` and `Pipeline`: the four stages above.

The loops of the source are methods with loop invariants. Each method is proved equal to a
specification function defined one loop step per unfolding. The lemmas then state what those
functions mean. Numbers are exact reals.

## Model

| member | source | states |
|---|---|---|
| RowGrouping.Tokens | Hackathon/extractor.py:52 | `zip(left, top, text)`: as long as the shortest of the three columns, the i-th token takes the i-th x, y and text |
| RowGrouping.Accepted | Hackathon/extractor.py:52-55 | the tokens whose stripped text is not empty, in input order, each carrying its stripped text (what this means is stated by `AcceptedStripped`, `AcceptedEmpty` and `AcceptedPositions`) |
| RowGrouping.Runs | Hackathon/extractor.py:57-63 | the kept tokens cut into runs: there are no runs exactly when nothing is kept, and no run is empty (`RunsSplitRule` states where the cuts fall) |
| RowGrouping.GroupRows | Hackathon/extractor.py:52-66 | the rows `group_tokens_by_line` returns: each run of kept tokens as words, stably sorted by x (what this means is stated by the `GroupRows…` lemmas below) |
| RowGrouping.GroupTokensByLine | Hackathon/extractor.py:43-68 | the rows returned are `GroupRows` of the zipped input: each finished row is one maximal run of kept tokens, sorted by x, and the open row is closed at the end when non-empty |
| RowGrouping.PlaceToken | Hackathon/extractor.py:57-63 | a kept token joins the open row when it is the first or its y is within the threshold of the previous kept y; otherwise the open row is closed sorted by x and a new one opens; either way the loop state is kept |
| RowGrouping.LoopFinish | Hackathon/extractor.py:65-66 | closing the open row when it is non-empty gives exactly the grouping of all kept tokens |
| RowGrouping.AcceptedStripped | Hackathon/extractor.py:53-55 | every kept token has non-empty text that `strip()` leaves unchanged |
| RowGrouping.AcceptedEmpty | Hackathon/extractor.py:53-55 | no token is kept exactly when every token's text is whitespace |
| RowGrouping.AcceptedPositions | Hackathon/extractor.py:52-58 | every kept token carries the x and y of some input token |
| RowGrouping.RunsSplitRule | Hackathon/extractor.py:57-63 | the runs put together are the kept tokens; inside a run each token is within the threshold of the token kept just before it; each later run starts with a token farther than the threshold from the previous kept token |
| RowGrouping.GroupRowsKeepsTokens | Hackathon/extractor.py:52-66 | the rows put together are a permutation of the kept, stripped tokens |
| RowGrouping.GroupRowsRow | Hackathon/extractor.py:60-66 | every row is non-empty, sorted by x, a permutation of its run, and words sharing an x keep their reading order |
| RowGrouping.GroupRowsEmpty | Hackathon/extractor.py:52-68 | there are no rows exactly when every token is blank (so empty input gives no rows) |
| RowGrouping.GroupRowsPositions | Hackathon/extractor.py:52-58 | every word of every row sits at the x of an input token |
| Sorting.SortBySortedPermutation | Hackathon/extractor.py:60 | the key sort returns a sequence sorted by the key that is a permutation of its input |
| Sorting.SortByStable | Hackathon/extractor.py:60 | the key sort is stable: the elements with any one key keep their order |
| HeaderLocator.IsHeaderText | Hackathon/extractor.py:85-86 | the header test on the lower-cased row text: it contains "description", "qty" and "rate", or it contains "qty" and one of "gross" and "amount" |
| HeaderLocator.FirstHeaderFrom | Hackathon/extractor.py:82-89 | `None` exactly when no row from the start index on passes the header test; otherwise the smallest index that does |
| HeaderLocator.FirstHeader | Hackathon/extractor.py:82-92 | the index of the first row passing the header test, searched from row 0; `FirstHeaderFrom` states that it is the least such index and that it is `None` exactly when no row passes |
| HeaderLocator.FindTableHeader | Hackathon/extractor.py:74-119 | `(None, None)` exactly when no row is a header; otherwise the first header index and the boundaries of that row |
| HeaderLocator.Classify | Hackathon/extractor.py:98-105 | the column a lower-cased header word names: "desc", then "qty", then "rate", then "amount", "gross" or "net" (`ClassifyPriority` states the order) |
| HeaderLocator.LabelPositions | Hackathon/extractor.py:94-105 | the positions filled word by word along the header row, with a later label for the same column overwriting an earlier one (`LabelPositionsLastMatch` and `LabelPositionsStep` state what that means) |
| HeaderLocator.LabelPositionsLastMatch | Hackathon/extractor.py:94-105 | a column's position is that of the last word labelling it, and it is absent exactly when no word labels it |
| HeaderLocator.LabelPositionsStep | Hackathon/extractor.py:96-105 | a header word changes only the position of the column it labels |
| HeaderLocator.ClassifyPriority | Hackathon/extractor.py:98-105 | a word labels at most one column: description before quantity before rate before amount |
| HeaderLocator.BoundariesOf | Hackathon/extractor.py:111-117 | the cut points halfway between the first and second, second and third, and third and fourth of the sorted positions, each present only when both of its positions exist |
| HeaderLocator.HeaderBoundaries | Hackathon/extractor.py:107-117 | the boundaries of a header row: its present label positions, sorted, cut by `BoundariesOf` (`HeaderBoundariesShape` and `HeaderBoundariesOrdered` state what they are) |
| HeaderLocator.HeaderBoundariesShape | Hackathon/extractor.py:107-117 | the label positions are sorted and kept whole; with k positions, `desc_end` exists iff k ≥ 2, `qty_end` iff k ≥ 3 and `rate_end` iff k = 4; each boundary lies between the two sorted positions it separates |
| HeaderLocator.HeaderBoundariesOrdered | Hackathon/extractor.py:111-117 | a later boundary exists only with the earlier ones, and `desc_end ≤ qty_end ≤ rate_end` |
| HeaderLocator.FewLabelsNoRateEnd | Hackathon/extractor.py:111-117 | with fewer than four labels there is no `rate_end` |
| Conversions.RemoveCommas | Hackathon/extractor.py:127 | `value.replace(",", "")`: drops every comma and keeps the other characters in order (`RemoveCommasCount` states the counts) |
| Conversions.NumberStrip | Hackathon/extractor.py:127 | the trim `float()` applies: the result has no tab, line feed, vertical tab, form feed, carriage return or space at either end, and a non-space first or last character of the input is kept |
| Conversions.NumberStripKeepsOthers | Hackathon/extractor.py:127 | the trim removes only that whitespace: every other character occurs as often after it as before |
| Conversions.AsNumber | Hackathon/extractor.py:125-129 | `float(value.replace(",", ""))`, or `None` where `float()` raises: commas are removed, the `float()` whitespace is trimmed, and the rest must be an optionally signed decimal numeral (the lemmas below state what it accepts and rejects) |
| Conversions.RemoveCommasCount | Hackathon/extractor.py:127 | removing commas leaves no comma and keeps every other character as often as before |
| Conversions.AsNumberNeedsDigit | Hackathon/extractor.py:125-129 | text without a digit is not a number |
| Conversions.AsNumberRejectsSecondPoint | Hackathon/extractor.py:125-129 | text with two or more decimal points is not a number |
| Conversions.AsNumberIgnoresComma | Hackathon/extractor.py:127 | a comma anywhere in the text does not change what it reads as |
| Conversions.AsNumberLeadingSeparator | Hackathon/extractor.py:125-129 | text that starts with an information separator (U+001C to U+001F) is not a number, because `float()` does not trim those characters although `str.strip()` does |
| Conversions.AsNumberSeparatorExample | Hackathon/extractor.py:125-129 | the token ",\u001C5", which `strip()` keeps as it is, is not a number |
| Conversions.AsNumberOfDigits | Hackathon/extractor.py:125-129 | text that, once its commas are gone, is a sign, digits and fraction digits reads as that signed value |
| Amounts.AsNumberOfAmount | Hackathon/extractor.py:125-129 | an amount printed with grouping commas, sign and fraction reads back as the value it shows |
| Amounts.AsNumberOfNumeral | Hackathon/extractor.py:125-129 | every whole number, printed with grouping commas, reads back as itself |
| Amounts.AsNumberExample | Hackathon/extractor.py:127 | "1,234.50" reads as 1234.5 |
| Amounts.AsNumberNonNumbers | Hackathon/extractor.py:125-129 | "" and "abc" are not numbers |
| Text.Strip | Hackathon/extractor.py:53 | `str.strip()`: the result has no whitespace at either end, and it is empty exactly when the text is all whitespace |
| Text.SplitWords | Hackathon/extractor.py:134 | `str.split()`: every word is non-empty and holds no whitespace |
| Text.Join | Hackathon/extractor.py:136 | `sep.join(parts)`: the parts with the separator between neighbours (`SplitJoin` is its partner) |
| Text.Concat | Hackathon/extractor.py:177 | `"".join(parts)`: the same as joining with the empty separator |
| Text.Lower | Hackathon/extractor.py:83 | `str.lower()` on ASCII: the same length, with every capital letter lowered and every other character kept |
| Text.Contains | Hackathon/extractor.py:85-86 | the substring test `pat in text` |
| Text.IsDigits | Hackathon/extractor.py:135 | `str.isdigit()` on ASCII: non-empty and every character a digit |
| Text.SplitJoin | Hackathon/extractor.py:134-136 | splitting words joined by single spaces gives the words back |
| Conversions.StripSerial | Hackathon/extractor.py:132-137 | drops the first word when it is all digits and joins the rest by single spaces; otherwise the description is unchanged (`StripSerialWords` states it in terms of the words) |
| Conversions.StripSerialWords | Hackathon/extractor.py:132-137 | when the first word is all digits, the result is the other words joined by spaces (and splits into them); otherwise the description is returned unchanged |
| Conversions.StripSerialDropsSerial | Hackathon/extractor.py:134-136 | a serial number followed by words becomes just the words |
| Conversions.StripSerialKeepsText | Hackathon/extractor.py:134-137 | words whose first word is not all digits are kept as they are |
| ItemExtraction.ColumnOf | Hackathon/extractor.py:167-174 | the column of a word at x: description left of `desc_end`, else quantity left of `qty_end`, else rate left of `rate_end`, else amount, where a missing boundary stands for 99999 |
| ItemExtraction.Bucket | Hackathon/extractor.py:166-174 | the texts of the words of a row that fall in one column, in row order (`BucketsPartition` states that the four buckets share out the row) |
| ItemExtraction.SplitColumns | Hackathon/extractor.py:161-174 | the four column lists are the buckets of the cascade `< desc_end`, `< qty_end`, `< rate_end`, else amount, with 99999 for a missing boundary |
| ItemExtraction.BucketsPartition | Hackathon/extractor.py:166-174 | every word of a row lands in exactly one of the four buckets |
| ItemExtraction.NoAmountColumn | Hackathon/extractor.py:167-174 | without `rate_end`, and with every x below 99999, the amount bucket is empty |
| ItemExtraction.FirstNumber | Hackathon/extractor.py:180-186 | the value of the first token that reads as a number (`FirstNumberNone` and `FirstNumberIsFirst` state it) |
| ItemExtraction.FirstAmount | Hackathon/extractor.py:180-186 | the scan returns the value of the first amount token that reads as a number |
| ItemExtraction.FirstNumberNone | Hackathon/extractor.py:180-186 | no amount is found exactly when no token reads as a number |
| ItemExtraction.FirstNumberIsFirst | Hackathon/extractor.py:180-186 | the amount found is the value of a token with no readable token before it |
| ItemExtraction.ReadRow | Hackathon/extractor.py:161-196 | one row's buckets, description, quantity, rate and amount give `ParseRow` |
| ItemExtraction.MakeItem | Hackathon/extractor.py:188-196 | the item built from description, quantity, rate and amount, or none without a description or an amount (`MakeItemFields` states the fields) |
| ItemExtraction.Description | Hackathon/extractor.py:176 | the description-column words joined by spaces, stripped, without a leading serial number |
| ItemExtraction.ParseRow | Hackathon/extractor.py:176-196 | the item a row yields at the given boundaries (`ParseRowFields` states its fields) |
| ItemExtraction.MakeItemFields | Hackathon/extractor.py:188-196 | an item exists iff the description is non-empty and an amount was found; quantity is 1.0 when unread or zero, rate is the amount when unread or zero, otherwise the values read |
| ItemExtraction.ParseRowFields | Hackathon/extractor.py:176-196 | the same rules stated for a row: name is the stripped, serial-free description; amount is the first number of the amount bucket; quantity and rate are the space-less joins read as numbers, with their defaults |
| ItemExtraction.ParseRowWellFormed | Hackathon/extractor.py:188-196 | an item read from a row has a name, a non-zero quantity, and a non-zero rate or the amount as its rate |
| ItemExtraction.ItemsWellFormed | Hackathon/extractor.py:188-196 | every extracted item is well formed in that sense |
| ItemExtraction.IsSkipRow | Hackathon/extractor.py:156 | a row whose lower-cased text contains "category total" |
| ItemExtraction.IsStopRow | Hackathon/extractor.py:158 | a row that is not a skip row and whose lower-cased text contains "printed" |
| ItemExtraction.ItemsOf | Hackathon/extractor.py:152-159 | the items of the rows read in order: skip rows are passed over, a stop row ends the scan, every other row adds its item if it has one |
| ItemExtraction.LineItems | Hackathon/extractor.py:147-159 | what `extract_line_items` returns: nothing without a header index or boundaries, otherwise the items of the rows after the header |
| ItemExtraction.ExtractLineItems | Hackathon/extractor.py:143-198 | the method returns `LineItems`: nothing without a header or boundaries, else the items of the rows after the header |
| ItemExtraction.ItemsOfProvenance | Hackathon/extractor.py:152-159 | every item comes from a row that is neither skipped nor a stop row, with no stop row before it |
| ItemExtraction.LineItemsAfterHeader | Hackathon/extractor.py:152-159 | every item comes from a row after the header, which is not skipped and has no stop row between it and the header |
| ItemExtraction.StopEndsTable | Hackathon/extractor.py:158-159 | rows after a "printed" row add nothing |
| ItemExtraction.SkipRowIsTransparent | Hackathon/extractor.py:156-157 | a "category total" row (even one that also says "printed") adds nothing and does not stop the scan |
| ItemExtraction.NoReadingNoItems | Hackathon/extractor.py:152-189 | when no row yields an item the result is empty |
| ItemExtraction.NoRateEndNoItems | Hackathon/extractor.py:167-189 | without `rate_end`, and with every x below 99999, no item is extracted |
| ItemExtraction.FewLabelsYieldNoItems | Hackathon/extractor.py:111-189 | when the header has fewer than four labels and every x is below 99999, there are no line items |
| Pipeline.SumAmounts | Hackathon/extractor.py:230 | `sum` of the item amounts, added left to right from zero (`SumAmountsAppend` states it over concatenations) |
| Pipeline.SumAmountsAppend | Hackathon/extractor.py:230 | the sum of amounts over two lists put together is the sum of their sums |
| Pipeline.Report | Hackathon/extractor.py:219-232 | the report is a success with one page "1" holding the items, its count is the number of items and its amount the sum of their amounts |
| Pipeline.ExtractBillInfo | Hackathon/extractor.py:215-232 | the result is the report on the items extracted from the rows, header and boundaries |
| Pipeline.NoHeaderEmptyReport | Hackathon/extractor.py:215-232 | without a header row the report counts no items and a zero amount |
| Pipeline.FewLabelsEmptyReport | Hackathon/extractor.py:215-232 | with fewer than four header labels and every OCR x below 99999, the report counts no items and a zero amount |
| Pipeline.ReportedItems | Hackathon/extractor.py:215-232 | every reported item is well formed and is read from a row after the header |

## Left out

- Downloading the image, running OCR and the Tesseract path (`Hackathon/extractor.py` lines 8, 14-37 and 212-213) are I/O. The OCR output is the model's input: three sequences (`left`, `top`, `text`) zipped to the shortest.
- `Hackathon/app.py`, the web endpoint around the pipeline, is not part of this model.
- Python floats are exact reals here. Rounding when parsing and when summing is not modelled, and the boundaries are exact halves.
- Conversions.AsNumber: accepts only an optional `-` or `+`, ASCII digits, at most one decimal point, and surrounding tabs, line breaks, vertical tabs, form feeds, carriage returns and spaces (the ASCII whitespace `float()` trims). It rejects the exponents, `inf`/`nan`, underscores, and the Unicode digits and spaces that `float()` also accepts.
- Text.Lower, Text.IsSpace and Text.IsDigits: ASCII only. Unicode case folding, Unicode whitespace and Unicode `isdigit` are left out. Text.IsSpace is the ASCII whitespace of `str.strip()` and `str.split()`; `as_number` uses the narrower Conversions.IsNumberSpace.
- Pipeline.SumAmounts: `sum` of an empty list is the integer 0 in Python. Here it is the real 0.0.
- The two inner loops of `extract_line_items` are the separate methods SplitColumns and FirstAmount. ReadRow is the body for one processed row, which runs both. The body of the `group_tokens_by_line` loop is PlaceToken.
- The dictionaries of the source are datatypes: `positions` is `Positions`, `boundaries` is `Boundaries`, an item is `LineItem`, and the report is `BillInfo`.
- `Amounts.AmountText` and `Amounts.GroupDigits` print amounts. They do not appear in the source. They exist so that `as_number` has an inverse to be proved against.
