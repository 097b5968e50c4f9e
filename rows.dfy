/**
 * `group_tokens_by_line`: OCR tokens, read in order, are cut into rows wherever the vertical
 * position jumps by more than a threshold from the previous kept token; blank tokens are
 * dropped, the others are kept stripped, and each row is sorted by horizontal position.
 *
 * The loop is proved against `GroupRows`, a specification written from the back (one loop
 * step is one unfolding); the lemmas then say what `GroupRows` means.
 */
module RowGrouping {
  import opened Wrappers
  import opened Text
  import opened Sorting

  /** The OCR result: three parallel columns, as the OCR engine returns them. */
  datatype OcrData = OcrData(left: seq<int>, top: seq<int>, text: seq<string>)

  /** One OCR token: left edge, top edge and text. */
  datatype Token = Token(x: int, y: int, text: string)

  /** A token placed in a row: its left edge and its stripped text. */
  datatype Word = Word(x: int, text: string)

  type Row = seq<Word>

  function Abs(n: int): nat {
    if n < 0 then -n else n
  }

  function Min(a: nat, b: nat): nat {
    if a <= b then a else b
  }

  /** `zip(left, top, text)`: as long as the shortest column. */
  function Tokens(ocr: OcrData): (r: seq<Token>)
    ensures |r| == Min(Min(|ocr.left|, |ocr.top|), |ocr.text|)
    ensures forall i :: 0 <= i < |r| ==> r[i] == Token(ocr.left[i], ocr.top[i], ocr.text[i])
  {
    seq(Min(Min(|ocr.left|, |ocr.top|), |ocr.text|), i requires 0 <= i < Min(Min(|ocr.left|, |ocr.top|), |ocr.text|)
      => Token(ocr.left[i], ocr.top[i], ocr.text[i]))
  }

  /** The tokens that are not blank, with their text stripped, in input order. */
  function Accepted(tokens: seq<Token>): seq<Token> {
    if tokens == [] then []
    else
      var t := tokens[|tokens| - 1];
      var cleaned := Strip(t.text);
      Accepted(tokens[..|tokens| - 1]) + (if cleaned == [] then [] else [Token(t.x, t.y, cleaned)])
  }

  lemma AcceptedNext(tokens: seq<Token>, i: nat)
    requires i < |tokens|
    ensures var cleaned := Strip(tokens[i].text);
      Accepted(tokens[..i + 1])
      == Accepted(tokens[..i]) + (if cleaned == [] then [] else [Token(tokens[i].x, tokens[i].y, cleaned)])
  {
    assert tokens[..i + 1][..i] == tokens[..i];
  }

  /** Every kept token has a non-blank text that stripping leaves as it is. */
  lemma {:induction false} AcceptedStripped(tokens: seq<Token>)
    ensures forall t <- Accepted(tokens) :: t.text != [] && Strip(t.text) == t.text
    decreases |tokens|
  {
    if tokens != [] {
      var t := tokens[|tokens| - 1];
      var cleaned := Strip(t.text);
      AcceptedStripped(tokens[..|tokens| - 1]);
      StripNoEdgeSpace(cleaned);
    }
  }

  /** The condition under which a token joins the row of the token kept before it. */
  predicate Close(previous: Token, t: Token, threshold: int) {
    Abs(t.y - previous.y) <= threshold
  }

  /** Cuts the kept tokens into runs: a token opens a new run exactly when it is not close to the previous one. */
  function Runs(kept: seq<Token>, threshold: int): (runs: seq<seq<Token>>)
    ensures |runs| == 0 <==> kept == []
    ensures forall i :: 0 <= i < |runs| ==> runs[i] != []
  {
    if kept == [] then []
    else
      var previous := kept[..|kept| - 1];
      var t := kept[|kept| - 1];
      var runs := Runs(previous, threshold);
      if previous == [] then [[t]]
      else if Close(previous[|previous| - 1], t, threshold) then runs[..|runs| - 1] + [runs[|runs| - 1] + [t]]
      else runs + [[t]]
  }

  function WordOf(t: Token): Word {
    Word(t.x, t.text)
  }

  function WordsOf(run: seq<Token>): (r: seq<Word>)
    ensures |r| == |run|
  {
    seq(|run|, i requires 0 <= i < |run| => WordOf(run[i]))
  }

  function XOf(w: Word): int {
    w.x
  }

  /** Each run, as words, stably sorted by x. */
  function SortRuns(runs: seq<seq<Token>>): (rows: seq<Row>)
    ensures |rows| == |runs|
  {
    if runs == [] then [] else SortRuns(runs[..|runs| - 1]) + [SortBy(WordsOf(runs[|runs| - 1]), XOf)]
  }

  /** The rows `group_tokens_by_line` returns. */
  function GroupRows(tokens: seq<Token>, threshold: int): seq<Row> {
    SortRuns(Runs(Accepted(tokens), threshold))
  }

  /** The loop state once `kept` are the tokens kept so far: finished rows, the open row and the last kept y. */
  predicate LoopState(kept: seq<Token>, threshold: int, rows: seq<Row>, currentLine: seq<Word>, previousY: Option<int>) {
    var runs := Runs(kept, threshold);
    if kept == [] then rows == [] && currentLine == [] && previousY == None
    else
      rows == SortRuns(runs[..|runs| - 1]) && currentLine == WordsOf(runs[|runs| - 1])
      && previousY == Some(kept[|kept| - 1].y)
  }

  lemma SortRunsAppend(runs: seq<seq<Token>>, run: seq<Token>)
    ensures SortRuns(runs + [run]) == SortRuns(runs) + [SortBy(WordsOf(run), XOf)]
  {
    assert (runs + [run])[..|runs|] == runs;
  }

  /** A kept token close to the previous one (or the first) joins the open row. */
  lemma LoopJoin(kept: seq<Token>, u: Token, threshold: int, rows: seq<Row>, currentLine: seq<Word>, previousY: Option<int>)
    requires LoopState(kept, threshold, rows, currentLine, previousY)
    requires previousY == None || Abs(u.y - previousY.value) <= threshold
    ensures LoopState(kept + [u], threshold, rows, currentLine + [WordOf(u)], Some(u.y))
  {
    var kept' := kept + [u];
    assert kept'[..|kept'| - 1] == kept;
    var runs := Runs(kept, threshold);
    var runs' := Runs(kept', threshold);
    if kept == [] {
      assert runs' == [[u]];
      assert WordsOf([u]) == [WordOf(u)];
    } else {
      assert runs' == runs[..|runs| - 1] + [runs[|runs| - 1] + [u]];
      assert runs'[..|runs'| - 1] == runs[..|runs| - 1];
      assert WordsOf(runs[|runs| - 1] + [u]) == currentLine + [WordOf(u)];
    }
  }

  /** A kept token far from the previous one closes the open row and opens a new one. */
  lemma LoopSplit(kept: seq<Token>, u: Token, threshold: int, rows: seq<Row>, currentLine: seq<Word>, previousY: Option<int>)
    requires LoopState(kept, threshold, rows, currentLine, previousY)
    requires previousY != None && Abs(u.y - previousY.value) > threshold
    ensures LoopState(kept + [u], threshold, rows + [SortBy(currentLine, XOf)], [WordOf(u)], Some(u.y))
  {
    var kept' := kept + [u];
    assert kept'[..|kept'| - 1] == kept;
    var runs := Runs(kept, threshold);
    var runs' := Runs(kept', threshold);
    assert runs' == runs + [[u]];
    assert runs'[..|runs'| - 1] == runs;
    assert runs == runs[..|runs| - 1] + [runs[|runs| - 1]];
    SortRunsAppend(runs[..|runs| - 1], runs[|runs| - 1]);
    assert WordsOf([u]) == [WordOf(u)];
  }

  /** After the last token, closing the open row (when there is one) gives all the rows. */
  lemma LoopFinish(kept: seq<Token>, threshold: int, rows: seq<Row>, currentLine: seq<Word>, previousY: Option<int>)
    requires LoopState(kept, threshold, rows, currentLine, previousY)
    ensures (if currentLine != [] then rows + [SortBy(currentLine, XOf)] else rows) == SortRuns(Runs(kept, threshold))
  {
    var runs := Runs(kept, threshold);
    if kept != [] {
      assert runs == runs[..|runs| - 1] + [runs[|runs| - 1]];
      SortRunsAppend(runs[..|runs| - 1], runs[|runs| - 1]);
    }
  }

  /** The body of the loop for a kept token: it joins the open row, or closes that row and opens a new one. */
  method PlaceToken(ghost kept: seq<Token>, u: Token, threshold: int, rows: seq<Row>, currentLine: seq<Word>, previousY: Option<int>)
    returns (rows': seq<Row>, currentLine': seq<Word>, previousY': Option<int>)
    requires LoopState(kept, threshold, rows, currentLine, previousY)
    ensures LoopState(kept + [u], threshold, rows', currentLine', previousY')
  {
    rows', currentLine' := rows, currentLine;
    if previousY == None || Abs(u.y - previousY.value) <= threshold {
      LoopJoin(kept, u, threshold, rows, currentLine, previousY);
      currentLine' := currentLine + [Word(u.x, u.text)];
    } else {
      LoopSplit(kept, u, threshold, rows, currentLine, previousY);
      rows' := rows + [SortBy(currentLine, XOf)];
      currentLine' := [Word(u.x, u.text)];
    }
    previousY' := Some(u.y);
  }

  /** Python's `group_tokens_by_line(ocr_data, threshold)`. */
  method GroupTokensByLine(ocr: OcrData, threshold: int) returns (rows: seq<Row>)
    ensures rows == GroupRows(Tokens(ocr), threshold)
  {
    var tokens := Tokens(ocr);
    rows := [];
    var currentLine: seq<Word> := [];
    var previousY: Option<int> := None;
    ghost var kept: seq<Token> := [];
    var i := 0;
    while i < |tokens|
      invariant 0 <= i <= |tokens|
      invariant kept == Accepted(tokens[..i])
      invariant LoopState(kept, threshold, rows, currentLine, previousY)
    {
      AcceptedNext(tokens, i);
      var t := tokens[i];
      var cleaned := Strip(t.text);
      if cleaned != [] {
        var u := Token(t.x, t.y, cleaned);
        rows, currentLine, previousY := PlaceToken(kept, u, threshold, rows, currentLine, previousY);
        kept := kept + [u];
      }
      i := i + 1;
    }
    assert tokens[..i] == tokens;
    LoopFinish(kept, threshold, rows, currentLine, previousY);
    if currentLine != [] {
      rows := rows + [SortBy(currentLine, XOf)];
    }
  }

  // ---------------------------------------------------------------------------------------
  // Where the kept tokens come from.

  /** Every kept token keeps the position of an input token. */
  lemma {:induction false} AcceptedPositions(tokens: seq<Token>)
    ensures forall t <- Accepted(tokens) :: exists i :: 0 <= i < |tokens| && tokens[i].x == t.x && tokens[i].y == t.y
    decreases |tokens|
  {
    if tokens != [] {
      var init := tokens[..|tokens| - 1];
      AcceptedPositions(init);
      assert forall i :: 0 <= i < |init| ==> init[i] == tokens[i];
    }
  }

  // What the rows are.

  function Flatten<T>(runs: seq<seq<T>>): seq<T> {
    if runs == [] then [] else Flatten(runs[..|runs| - 1]) + runs[|runs| - 1]
  }

  function Last<T>(s: seq<T>): T
    requires s != []
  {
    s[|s| - 1]
  }

  /** Consecutive tokens of one run are close. */
  predicate CloseWithin(run: seq<Token>, threshold: int) {
    forall j :: 0 < j < |run| ==> Close(run[j - 1], run[j], threshold)
  }

  /** The first token of every run but the first is not close to the token before it. */
  predicate FarBetween(runs: seq<seq<Token>>, threshold: int)
    requires forall i :: 0 <= i < |runs| ==> runs[i] != []
  {
    forall i :: 0 < i < |runs| ==> !Close(Last(runs[i - 1]), runs[i][0], threshold)
  }

  predicate NonEmptyRuns<T>(runs: seq<seq<T>>) {
    forall i :: 0 <= i < |runs| ==> runs[i] != []
  }

  predicate AllCloseWithin(runs: seq<seq<Token>>, threshold: int) {
    forall i :: 0 <= i < |runs| ==> CloseWithin(runs[i], threshold)
  }

  /**
   * The split rule: the runs put together are the kept tokens, a run continues exactly while
   * each token is close to the one before it, and a run ends exactly where the next token is not.
   */
  predicate SplitRule(kept: seq<Token>, threshold: int) {
    var runs := Runs(kept, threshold);
    Flatten(runs) == kept && AllCloseWithin(runs, threshold) && FarBetween(runs, threshold)
  }

  lemma LastOfRuns(kept: seq<Token>, threshold: int)
    requires kept != [] && Flatten(Runs(kept, threshold)) == kept
    ensures var runs := Runs(kept, threshold); Last(runs[|runs| - 1]) == Last(kept)
  {
    var runs := Runs(kept, threshold);
    var n := |runs|;
    assert Flatten(runs) == Flatten(runs[..n - 1]) + runs[n - 1];
  }

  lemma FlattenGrowLast<T>(runs: seq<seq<T>>, t: T)
    requires runs != []
    ensures Flatten(runs[..|runs| - 1] + [runs[|runs| - 1] + [t]]) == Flatten(runs) + [t]
  {
    var n := |runs|;
    var runs' := runs[..n - 1] + [runs[n - 1] + [t]];
    assert runs'[..n - 1] == runs[..n - 1];
  }

  lemma FlattenSnoc<T>(runs: seq<seq<T>>, r: seq<T>)
    ensures Flatten(runs + [r]) == Flatten(runs) + r
  {
    assert (runs + [r])[..|runs|] == runs;
  }

  lemma CloseWithinSnoc(run: seq<Token>, t: Token, threshold: int)
    requires run != [] && CloseWithin(run, threshold) && Close(Last(run), t, threshold)
    ensures CloseWithin(run + [t], threshold)
  {
    var r := run + [t];
    forall j | 0 < j < |r| ensures Close(r[j - 1], r[j], threshold) {
      if j < |r| - 1 {
        assert r[j - 1] == run[j - 1] && r[j] == run[j];
      }
    }
  }

  lemma AllCloseWithinReplaceLast(runs: seq<seq<Token>>, r: seq<Token>, threshold: int)
    requires runs != [] && AllCloseWithin(runs, threshold) && CloseWithin(r, threshold)
    ensures AllCloseWithin(runs[..|runs| - 1] + [r], threshold)
  {
    var runs' := runs[..|runs| - 1] + [r];
    forall i | 0 <= i < |runs'| ensures CloseWithin(runs'[i], threshold) {
      if i < |runs| - 1 {
        assert runs'[i] == runs[i];
      }
    }
  }

  lemma AllCloseWithinSnoc(runs: seq<seq<Token>>, r: seq<Token>, threshold: int)
    requires AllCloseWithin(runs, threshold) && CloseWithin(r, threshold)
    ensures AllCloseWithin(runs + [r], threshold)
  {
    var runs' := runs + [r];
    forall i | 0 <= i < |runs'| ensures CloseWithin(runs'[i], threshold) {
      if i < |runs| {
        assert runs'[i] == runs[i];
      }
    }
  }

  lemma FarBetweenReplaceLast(runs: seq<seq<Token>>, r: seq<Token>, threshold: int)
    requires forall i :: 0 <= i < |runs| ==> runs[i] != []
    requires runs != [] && r != [] && r[0] == runs[|runs| - 1][0] && FarBetween(runs, threshold)
    ensures NonEmptyRuns(runs[..|runs| - 1] + [r])
    ensures FarBetween(runs[..|runs| - 1] + [r], threshold)
  {
    var n := |runs|;
    var runs' := runs[..n - 1] + [r];
    assert forall i :: 0 <= i < n - 1 ==> runs'[i] == runs[i];
    forall i | 0 < i < n ensures !Close(Last(runs'[i - 1]), runs'[i][0], threshold) {
      assert runs'[i - 1] == runs[i - 1];
      assert runs'[i][0] == runs[i][0];
    }
  }

  lemma FarBetweenSnoc(runs: seq<seq<Token>>, r: seq<Token>, threshold: int)
    requires forall i :: 0 <= i < |runs| ==> runs[i] != []
    requires runs != [] && r != [] && FarBetween(runs, threshold)
    requires !Close(Last(runs[|runs| - 1]), r[0], threshold)
    ensures NonEmptyRuns(runs + [r])
    ensures FarBetween(runs + [r], threshold)
  {
    var runs' := runs + [r];
    assert forall i :: 0 <= i < |runs| ==> runs'[i] == runs[i];
    forall i | 0 < i < |runs'| ensures !Close(Last(runs'[i - 1]), runs'[i][0], threshold) {
      assert runs'[i - 1] == runs[i - 1];
    }
  }

  lemma SplitRuleJoin(previous: seq<Token>, t: Token, threshold: int)
    requires previous != [] && Close(Last(previous), t, threshold)
    requires SplitRule(previous, threshold)
    ensures SplitRule(previous + [t], threshold)
  {
    var kept := previous + [t];
    assert kept[..|kept| - 1] == previous;
    var runs := Runs(previous, threshold);
    var n := |runs|;
    var last := runs[n - 1] + [t];
    assert Runs(kept, threshold) == runs[..n - 1] + [last];
    FlattenGrowLast(runs, t);
    LastOfRuns(previous, threshold);
    CloseWithinSnoc(runs[n - 1], t, threshold);
    AllCloseWithinReplaceLast(runs, last, threshold);
    FarBetweenReplaceLast(runs, last, threshold);
  }

  lemma SplitRuleOpen(previous: seq<Token>, t: Token, threshold: int)
    requires previous != [] && !Close(Last(previous), t, threshold)
    requires SplitRule(previous, threshold)
    ensures SplitRule(previous + [t], threshold)
  {
    var kept := previous + [t];
    assert kept[..|kept| - 1] == previous;
    var runs := Runs(previous, threshold);
    assert Runs(kept, threshold) == runs + [[t]];
    FlattenSnoc(runs, [t]);
    LastOfRuns(previous, threshold);
    AllCloseWithinSnoc(runs, [t], threshold);
    FarBetweenSnoc(runs, [t], threshold);
  }

  /** The runs obey the split rule. */
  lemma {:induction false} RunsSplitRule(kept: seq<Token>, threshold: int)
    ensures SplitRule(kept, threshold)
    decreases |kept|
  {
    if kept != [] {
      var previous := kept[..|kept| - 1];
      var t := kept[|kept| - 1];
      RunsSplitRule(previous, threshold);
      assert kept == previous + [t];
      if previous == [] {
        assert Runs(kept, threshold) == [[t]];
        assert Flatten([[t]]) == Flatten([[t]][..0]) + [t];
      } else if Close(Last(previous), t, threshold) {
        SplitRuleJoin(previous, t, threshold);
      } else {
        SplitRuleOpen(previous, t, threshold);
      }
    }
  }

  lemma WordsOfAppend(a: seq<Token>, b: seq<Token>)
    ensures WordsOf(a + b) == WordsOf(a) + WordsOf(b)
  {
  }

  lemma {:induction false} SortRunsPermutation(runs: seq<seq<Token>>)
    ensures multiset(Flatten(SortRuns(runs))) == multiset(WordsOf(Flatten(runs)))
    decreases |runs|
  {
    if runs != [] {
      var init, run := runs[..|runs| - 1], runs[|runs| - 1];
      var row := SortBy(WordsOf(run), XOf);
      SortRunsPermutation(init);
      assert SortRuns(runs) == SortRuns(init) + [row];
      FlattenSnoc(SortRuns(init), row);
      assert Flatten(runs) == Flatten(init) + run;
      WordsOfAppend(Flatten(init), run);
      SortBySortedPermutation(WordsOf(run), XOf);
    }
  }

  lemma {:induction false} FlattenHas<T>(runs: seq<seq<T>>, i: nat, w: T)
    requires i < |runs| && w in runs[i]
    ensures w in Flatten(runs)
    decreases |runs|
  {
    if i < |runs| - 1 {
      FlattenHas(runs[..|runs| - 1], i, w);
    }
  }

  /** Every word of every row sits at the x-position of an input token. */
  lemma GroupRowsPositions(tokens: seq<Token>, threshold: int, row: Row, w: Word)
    requires row in GroupRows(tokens, threshold) && w in row
    ensures exists i :: 0 <= i < |tokens| && tokens[i].x == w.x
  {
    var rows := GroupRows(tokens, threshold);
    var r :| 0 <= r < |rows| && rows[r] == row;
    FlattenHas(rows, r, w);
    GroupRowsKeepsTokens(tokens, threshold);
    assert w in multiset(WordsOf(Accepted(tokens)));
    var k :| 0 <= k < |Accepted(tokens)| && WordsOf(Accepted(tokens))[k] == w;
    AcceptedPositions(tokens);
    assert Accepted(tokens)[k] in Accepted(tokens);
  }

  /** Grouping keeps every non-blank token, stripped, and nothing else: the rows put together are a permutation of them. */
  lemma GroupRowsKeepsTokens(tokens: seq<Token>, threshold: int)
    ensures multiset(Flatten(GroupRows(tokens, threshold))) == multiset(WordsOf(Accepted(tokens)))
  {
    RunsSplitRule(Accepted(tokens), threshold);
    SortRunsPermutation(Runs(Accepted(tokens), threshold));
  }

  lemma {:induction false} SortRunsRow(runs: seq<seq<Token>>, i: nat)
    requires i < |runs|
    ensures SortRuns(runs)[i] == SortBy(WordsOf(runs[i]), XOf)
    decreases |runs|
  {
    if i < |runs| - 1 {
      assert runs[..|runs| - 1][i] == runs[i];
      SortRunsRow(runs[..|runs| - 1], i);
    }
  }

  /**
   * Row `i` holds the words of run `i`: it is sorted by x, a permutation of the run, and the
   * words sharing an x keep their reading order; no row is empty.
   */
  lemma GroupRowsRow(tokens: seq<Token>, threshold: int, i: nat, k: int)
    requires i < |GroupRows(tokens, threshold)|
    ensures var runs := Runs(Accepted(tokens), threshold);
      var row := GroupRows(tokens, threshold)[i];
      row != []
      && SortedBy(row, XOf)
      && multiset(row) == multiset(WordsOf(runs[i]))
      && WithKey(row, XOf, k) == WithKey(WordsOf(runs[i]), XOf, k)
  {
    var runs := Runs(Accepted(tokens), threshold);
    SortRunsRow(runs, i);
    SortBySortedPermutation(WordsOf(runs[i]), XOf);
    SortByStable(WordsOf(runs[i]), XOf, k);
  }

  /** A token whose text is whitespace only. */
  predicate Blank(t: Token) {
    AllSpace(t.text)
  }

  predicate AllBlank(tokens: seq<Token>) {
    forall i :: 0 <= i < |tokens| ==> Blank(tokens[i])
  }

  lemma AllBlankSnoc(tokens: seq<Token>)
    requires tokens != []
    ensures AllBlank(tokens) <==> AllBlank(tokens[..|tokens| - 1]) && Blank(tokens[|tokens| - 1])
  {
    assert forall i :: 0 <= i < |tokens| - 1 ==> tokens[..|tokens| - 1][i] == tokens[i];
  }

  /** No token is kept exactly when every token is blank. */
  lemma {:induction false} AcceptedEmpty(tokens: seq<Token>)
    ensures Accepted(tokens) == [] <==> AllBlank(tokens)
    decreases |tokens|
  {
    if tokens != [] {
      AcceptedEmpty(tokens[..|tokens| - 1]);
      AllBlankSnoc(tokens);
    }
  }

  /** There are no rows exactly when every token is blank. */
  lemma GroupRowsEmpty(tokens: seq<Token>, threshold: int)
    ensures GroupRows(tokens, threshold) == [] <==> forall i :: 0 <= i < |tokens| ==> AllSpace(tokens[i].text)
  {
    AcceptedEmpty(tokens);
  }
}
