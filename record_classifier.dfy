/**
 * The per-line validity test of src/Main.java:122-124: a line is loaded into
 * the table when it holds no ",," anywhere in its raw text and its
 * quote-aware split gives exactly NUM_HEADERS fields; otherwise it is
 * rejected. The ",," test looks at the raw text and ignores quoting.
 */
module RecordClassifier {
  import opened CsvSplit

  /** NUM_HEADERS (src/Main.java:24): the width of the table, columns A to J. */
  const NumHeaders: nat := 10

  /** `x.contains(",,")`. */
  predicate HasDoubleComma(line: string)
  {
    exists i :: 0 <= i < |line| - 1 && line[i] == ',' && line[i + 1] == ','
  }

  /** The outcome for one line: the field values to insert, or a reject. */
  datatype Record = Valid(values: seq<string>) | Invalid

  function Classify(line: string): (r: Record)
    ensures r.Valid? ==> |r.values| == NumHeaders && Join(r.values) == line
  {
    JoinSplit(line);
    var values := Split(line);
    if !HasDoubleComma(line) && |values| == NumHeaders then Valid(values) else Invalid
  }

  /** Validity stated on the raw line: no ",," and exactly nine split commas. */
  lemma ValidIff(line: string)
    ensures Classify(line).Valid? <==> !HasDoubleComma(line) && SplitCount(line, 0) == NumHeaders - 1
  {
    FieldCount(line);
  }

  /** A line holding ",," is rejected whatever its field count and wherever its quotes are. */
  lemma DoubleCommaRejected(line: string)
    requires HasDoubleComma(line)
    ensures Classify(line) == Invalid
  {
  }

  /** The values of a valid line are cut exactly at the line's split commas. */
  lemma ValidValuesCutAtSplitPoints(line: string, i: int)
    requires Classify(line).Valid?
    requires 0 <= i < |line|
    ensures SplitsAt(line, i) <==> IsCut(Classify(line).values, i)
  {
    SplitCutsAreSplitPoints(line, i);
  }

  lemma {:induction false} EmptyInnerFieldGivesDoubleComma(fields: seq<string>, j: nat)
    requires 0 < j < |fields| - 1
    requires fields[j] == ""
    ensures HasDoubleComma(Join(fields))
  {
    var s := Join(fields);
    var rest := fields[1..];
    var t := Join(rest);
    assert s == fields[0] + "," + t;
    if j == 1 {
      assert t == "" + "," + Join(rest[1..]);
      var i := |fields[0]|;
      assert s[i] == ',' && s[i + 1] == ',';
    } else {
      EmptyInnerFieldGivesDoubleComma(rest, j - 1);
      var i :| 0 <= i < |t| - 1 && t[i] == ',' && t[i + 1] == ',';
      var d := |fields[0]| + 1;
      assert s[d + i] == t[i] && s[d + i + 1] == t[i + 1];
    }
  }

  /**
   * In a valid line only the first and the last value can be empty: an
   * empty value in between would sit between two adjacent commas.
   */
  lemma ValidInnerValuesNonEmpty(line: string, j: nat)
    requires Classify(line).Valid?
    requires 0 < j < NumHeaders - 1
    ensures Classify(line).values[j] != ""
  {
    var values := Classify(line).values;
    if values[j] == "" {
      EmptyInnerFieldGivesDoubleComma(values, j);
    }
  }

  /**
   * Ten fields written the CSV way, joined with "," and free of ",,", make a
   * line that is loaded with exactly those ten values.
   */
  lemma ClassifyJoinValid(fields: seq<string>)
    requires |fields| == NumHeaders
    requires forall f :: f in fields ==> WellQuoted(f)
    requires !HasDoubleComma(Join(fields))
    ensures Classify(Join(fields)) == Valid(fields)
  {
    SplitJoinWellQuoted(fields);
  }

  /** Any other number of fields written the CSV way makes a rejected line. */
  lemma ClassifyJoinWrongCount(fields: seq<string>)
    requires |fields| >= 1 && |fields| != NumHeaders
    requires forall f :: f in fields ==> WellQuoted(f)
    ensures Classify(Join(fields)) == Invalid
  {
    SplitJoinWellQuoted(fields);
  }

  /** A value that neither starts nor ends with a comma (the empty value qualifies). */
  predicate NoEdgeComma(f: string)
  {
    f == "" || (f[0] != ',' && f[|f| - 1] != ',')
  }

  lemma JoinTwoNoDoubleComma(a: string, t: string)
    requires !HasDoubleComma(a) && !HasDoubleComma(t)
    requires a == "" || a[|a| - 1] != ','
    requires t == "" || t[0] != ','
    ensures !HasDoubleComma(a + "," + t)
  {
    var s := a + "," + t;
    forall i | 0 <= i < |s| - 1 && s[i] == ',' ensures s[i + 1] != ',' {
      if i + 1 < |a| {
        assert s[i] == a[i] && s[i + 1] == a[i + 1];
      } else if i == |a| {
        assert s[i + 1] == t[0];
      } else if i > |a| {
        assert s[i] == t[i - |a| - 1] && s[i + 1] == t[i - |a|];
      }
    }
  }

  /**
   * The converse direction of EmptyInnerFieldGivesDoubleComma: values free
   * of ",," and of edge commas, none empty after the first, join into a line
   * without ",,".
   */
  lemma {:induction false} JoinNoDoubleComma(fields: seq<string>)
    requires |fields| >= 1
    requires forall i :: 0 <= i < |fields| ==> !HasDoubleComma(fields[i]) && NoEdgeComma(fields[i])
    requires forall i :: 0 < i < |fields| ==> fields[i] != ""
    ensures !HasDoubleComma(Join(fields))
    ensures fields[0] != "" ==> Join(fields)[0] == fields[0][0]
  {
    if |fields| > 1 {
      var rest := fields[1..];
      JoinNoDoubleComma(rest);
      assert Join(fields) == fields[0] + "," + Join(rest);
      JoinTwoNoDoubleComma(fields[0], Join(rest));
    }
  }
}
