/**
 * Concrete runs of the line classifier and of the whole run, worked out on
 * literal lines: the six example behaviours of the ingester, the ",," test
 * firing inside quotes, an empty leading value, the empty line, and a line
 * with an odd number of quotes, where the split follows suffix parity.
 */
module Scenarios {
  import opened Wrappers
  import opened CsvSplit
  import opened RecordClassifier
  import opened SinkRouter
  import opened RunLog
  import opened Launcher

  /** A value written the CSV way, holding no ",," and no comma at its edges. */
  predicate CleanValue(f: string)
  {
    WellQuoted(f) && !HasDoubleComma(f) && NoEdgeComma(f)
  }

  /** Clean values, none of them empty except perhaps the first. */
  predicate CleanValues(fields: seq<string>)
  {
    && |fields| >= 1
    && (forall i :: 0 <= i < |fields| ==> CleanValue(fields[i]))
    && (forall i :: 0 < i < |fields| ==> fields[i] != "")
  }

  /** Clean values make a line that splits back into them and has no ",,". */
  lemma CleanValuesClassify(fields: seq<string>)
    requires CleanValues(fields)
    ensures Split(Join(fields)) == fields
    ensures Classify(Join(fields)) == if |fields| == NumHeaders then Valid(fields) else Invalid
  {
    JoinNoDoubleComma(fields);
    forall f | f in fields ensures WellQuoted(f) {
      var i :| 0 <= i < |fields| && fields[i] == f;
      assert CleanValue(fields[i]);
    }
    SplitJoinWellQuoted(fields);
  }

  /** Scenario 1, the line a,b,c,d,e,f,g,h,i,j: ten plain values are loaded as they stand, in order. */
  lemma PlainLineIsLoaded(fields: seq<string>)
    requires fields == ["a", "b", "c", "d", "e", "f", "g", "h", "i", "j"]
    ensures Classify(Join(fields)) == Valid(fields)
  {
    assert CleanValues(fields);
    CleanValuesClassify(fields);
  }

  /**
   * Scenario 2, the line a,,c,d,e,f,g,h,i,j: the split gives ten values, one
   * of them empty, but the ",," rejects the line.
   */
  lemma MissingValueIsRejected(fields: seq<string>)
    requires fields == ["a", "", "c", "d", "e", "f", "g", "h", "i", "j"]
    ensures |Split(Join(fields))| == NumHeaders
    ensures Classify(Join(fields)) == Invalid
  {
    assert forall i :: 0 <= i < |fields| ==> WellQuoted(fields[i]);
    assert forall f :: f in fields ==> WellQuoted(f);
    SplitJoinWellQuoted(fields);
    EmptyInnerFieldGivesDoubleComma(fields, 1);
    DoubleCommaRejected(Join(fields));
  }

  /** Scenario 3, the line a,b,c,d,e,f,g,h,i: nine values are too few. */
  lemma NineValuesAreRejected(fields: seq<string>)
    requires fields == ["a", "b", "c", "d", "e", "f", "g", "h", "i"]
    ensures Classify(Join(fields)) == Invalid
  {
    assert CleanValues(fields);
    CleanValuesClassify(fields);
  }

  /**
   * Scenario 4, the line "a,b",c,d,e,f,g,h,i,j,k: the comma inside the
   * quotes does not split, and the first value keeps its quotes.
   */
  lemma QuotedCommaValue(fields: seq<string>)
    requires fields == ["\"a,b\"", "c", "d", "e", "f", "g", "h", "i", "j", "k"]
    ensures Classify(Join(fields)) == Valid(fields)
    ensures Classify(Join(fields)).values[0] == "\"a,b\""
  {
    assert CleanValue("\"a,b\"");
    assert CleanValues(fields);
    CleanValuesClassify(fields);
  }

  /** Scenario 4 as first written, "a,b",c,d,e,f,g,h,i,j, has only nine values and is rejected. */
  lemma QuotedCommaNineValues(fields: seq<string>)
    requires fields == ["\"a,b\"", "c", "d", "e", "f", "g", "h", "i", "j"]
    ensures Classify(Join(fields)) == Invalid
  {
    assert CleanValue("\"a,b\"");
    assert CleanValues(fields);
    CleanValuesClassify(fields);
  }

  /** A ",," in the first value reaches the line. */
  lemma DoubleCommaInFirstValue(fields: seq<string>)
    requires |fields| >= 1 && HasDoubleComma(fields[0])
    ensures HasDoubleComma(Join(fields))
  {
    var f := fields[0];
    var i :| 0 <= i < |f| - 1 && f[i] == ',' && f[i + 1] == ',';
    if |fields| > 1 {
      assert Join(fields) == f + "," + Join(fields[1..]);
    }
    assert Join(fields)[i] == f[i] && Join(fields)[i + 1] == f[i + 1];
  }

  /**
   * The line "a,,b",c,d,e,f,g,h,i,j,k splits into ten values, yet the ",,"
   * inside the quotes rejects it: the test reads the raw text.
   */
  lemma QuotedDoubleCommaIsRejected(fields: seq<string>)
    requires fields == ["\"a,,b\"", "c", "d", "e", "f", "g", "h", "i", "j", "k"]
    ensures Split(Join(fields)) == fields
    ensures Classify(Join(fields)) == Invalid
  {
    assert WellQuoted("\"a,,b\"");
    assert forall i :: 0 <= i < |fields| ==> WellQuoted(fields[i]);
    assert forall f :: f in fields ==> WellQuoted(f);
    SplitJoinWellQuoted(fields);
    assert fields[0][2] == ',' && fields[0][3] == ',';
    DoubleCommaInFirstValue(fields);
    DoubleCommaRejected(Join(fields));
  }

  /** The line ,b,c,d,e,f,g,h,i,j: a leading comma gives an empty first value, and the line is loaded. */
  lemma EmptyFirstValueIsLoaded(fields: seq<string>)
    requires fields == ["", "b", "c", "d", "e", "f", "g", "h", "i", "j"]
    ensures Classify(Join(fields)) == Valid(fields)
    ensures Classify(Join(fields)).values[0] == ""
  {
    assert CleanValues(fields);
    CleanValuesClassify(fields);
  }

  /** The empty line is one empty value, and so a reject. */
  lemma EmptyLine()
    ensures Split("") == [""]
    ensures Classify("") == Invalid
  {
    assert FirstSplit("", 0) == 0;
  }

  /**
   * With an odd number of quotes the split follows the quotes after each
   * comma: in a,"b,c the first comma has one quote after it and is kept,
   * the second has none and splits.
   */
  lemma OddQuotesFollowSuffixParity()
    ensures Split("a,\"b,c") == ["a,\"b", "c"]
  {
    var s := "a,\"b,c";
    assert s[2..] == "\"b,c";
    assert QuoteCount("c") == 0;
    assert QuoteCount(",c") == 0;
    assert QuoteCount("b,c") == 0;
    assert QuoteCount(s[2..]) == 1;
    assert !SplitsAt(s, 1);
    assert s[5..] == "c";
    assert SplitsAt(s, 4);
    forall j | 0 <= j < 4 ensures !SplitsAt(s, j) {
      if j == 1 {
        assert !SplitsAt(s, 1);
      }
    }
    FirstSplitIs(s, 0, 4);
    assert FirstSplit("c", 0) == 1;
    assert Split("c") == ["c"];
    assert s[..4] == "a,\"b";
  }

  /**
   * Scenario 5: 2500 lines with 2400 valid ones, every insert accepted:
   * the log reads 2500, 2400 and 100, and progress is shown at 1000 and 2000.
   */
  lemma RunOf2500Lines(args: seq<string>, lines: seq<string>, storage: seq<bool>)
    requires |lines| == 2500 && |storage| == 2500
    requires BaseName(args).Success?
    requires ValidCount(lines) == 2400
    requires forall i :: 0 <= i < |lines| ==> storage[i]
    ensures RunOutcome(args, Some(lines), storage).Finished?
    ensures ParseSummary(RunOutcome(args, Some(lines), storage).log) == Some((2500, 2400, 100))
    ensures Ticks(0, |lines|) == [1000, 2000]
  {
    FinishedIff(args, lines, storage);
    FinishedLogCounts(args, lines, storage);
    TicksOf2500();
  }

  /**
   * Scenario 6: the insert of line 1500 (index 1499) fails: exit status 1,
   * the 1499 lines before it stay stored, and no log is written.
   */
  lemma InsertFailsAtLine1500(args: seq<string>, lines: seq<string>, storage: seq<bool>)
    requires |lines| == 2500 && |storage| == 2500
    requires BaseName(args).Success?
    requires InsertFails(lines[1499], storage[1499])
    requires forall i :: 0 <= i < 1499 ==> !InsertFails(lines[i], storage[i])
    ensures RunOutcome(args, Some(lines), storage).InsertAborted?
    ensures ExitCode(RunOutcome(args, Some(lines), storage)) == 1
    ensures RunOutcome(args, Some(lines), storage).sinks.total == 1499
    ensures RunOutcome(args, Some(lines), storage).sinks.rows == ValidRows(lines[..1499])
  {
    AbortKeepsEarlierLines(args, lines, storage, 1499);
  }
}
