/**
 * The quote-aware comma split of one input line (src/Main.java:122).
 *
 * The program splits with the pattern ",(?=(?:[^\"]*\"[^\"]*\")*[^\"]*$)" and
 * limit -1: a comma is a split point exactly when the text after it holds an
 * even number of double-quote characters, and empty leading and trailing
 * fields are kept. Quote parity is measured towards the END of the line, so
 * a line with an odd number of quotes is split by that rule and not by
 * "inside or outside an open quote".
 */
module CsvSplit {

  /** Number of double-quote characters in `s`. */
  function QuoteCount(s: string): (n: nat)
    ensures n <= |s|
  {
    if s == [] then 0 else (if s[0] == '"' then 1 else 0) + QuoteCount(s[1..])
  }

  /** The comma at position `i` of `s` is a split point. */
  predicate SplitsAt(s: string, i: int)
  {
    0 <= i < |s| && s[i] == ',' && QuoteCount(s[i + 1..]) % 2 == 0
  }

  /** The first split point of `s` at or after `from`, or `|s|` when there is none. */
  function FirstSplit(s: string, from: nat): (k: nat)
    requires from <= |s|
    ensures from <= k <= |s|
    ensures k < |s| ==> SplitsAt(s, k)
    ensures forall j :: from <= j < k ==> !SplitsAt(s, j)
    decreases |s| - from
  {
    if from == |s| then |s|
    else if SplitsAt(s, from) then from
    else FirstSplit(s, from + 1)
  }

  /** `String.split` with the pattern above and limit -1: the text between consecutive split points. */
  function Split(s: string): (fields: seq<string>)
    ensures |fields| >= 1
    decreases |s|
  {
    var k := FirstSplit(s, 0);
    if k == |s| then [s] else [s[..k]] + Split(s[k + 1..])
  }

  /** The fields glued back together with "," between them. */
  function Join(fields: seq<string>): string
  {
    if |fields| == 0 then ""
    else if |fields| == 1 then fields[0]
    else fields[0] + "," + Join(fields[1..])
  }

  /** Whether position `c` of `Join(fields)` holds one of the commas that separate the fields. */
  predicate IsCut(fields: seq<string>, c: int)
    decreases |fields|
  {
    && |fields| >= 2
    && (c == |fields[0]| || (c > |fields[0]| && IsCut(fields[1..], c - |fields[0]| - 1)))
  }

  /** Number of split points of `s` at or after position `from`. */
  function SplitCount(s: string, from: nat): nat
    requires from <= |s|
    decreases |s| - from
  {
    if from == |s| then 0 else (if SplitsAt(s, from) then 1 else 0) + SplitCount(s, from + 1)
  }

  /** Dropping a prefix does not move the split points of what remains. */
  lemma SplitsAtDrop(s: string, d: nat, j: nat)
    requires d <= |s|
    ensures SplitsAt(s[d..], j) <==> SplitsAt(s, d + j)
  {
    if 0 <= j < |s| - d {
      assert s[d..][j + 1..] == s[d + j + 1..];
    }
  }

  lemma {:induction false} QuoteCountAppend(a: string, b: string)
    ensures QuoteCount(a + b) == QuoteCount(a) + QuoteCount(b)
  {
    if a == [] {
      assert a + b == b;
    } else {
      assert (a + b)[0] == a[0];
      assert (a + b)[1..] == a[1..] + b;
      QuoteCountAppend(a[1..], b);
    }
  }

  /** Splitting loses nothing: joining the fields with "," gives the line back. */
  lemma {:induction false} JoinSplit(s: string)
    ensures Join(Split(s)) == s
    decreases |s|
  {
    var k := FirstSplit(s, 0);
    if k < |s| {
      var rest := Split(s[k + 1..]);
      JoinSplit(s[k + 1..]);
      assert ([s[..k]] + rest)[1..] == rest;
      assert s == s[..k] + "," + s[k + 1..];
    }
  }

  /** A position of `s` is a split point exactly when it is one of the separators between the fields. */
  lemma {:induction false} SplitCutsAreSplitPoints(s: string, i: int)
    requires 0 <= i < |s|
    ensures SplitsAt(s, i) <==> IsCut(Split(s), i)
    decreases |s|
  {
    var k := FirstSplit(s, 0);
    if k == |s| {
      assert Split(s) == [s];
    } else {
      var t := s[k + 1..];
      SplitUnfold(s, k);
      IsCutCons(s[..k], Split(t), i);
      if i > k {
        SplitsAtDrop(s, k + 1, i - k - 1);
        SplitCutsAreSplitPoints(t, i - k - 1);
      }
    }
  }

  lemma SplitUnfold(s: string, k: nat)
    requires k == FirstSplit(s, 0) < |s|
    ensures Split(s) == [s[..k]] + Split(s[k + 1..])
  {
  }

  lemma IsCutCons(f: string, rest: seq<string>, c: int)
    requires |rest| >= 1
    ensures IsCut([f] + rest, c) <==> c == |f| || (c > |f| && IsCut(rest, c - |f| - 1))
  {
    assert ([f] + rest)[0] == f && ([f] + rest)[1..] == rest;
  }



  lemma {:induction false} SplitCountSkip(s: string, from: nat, k: nat)
    requires from <= k <= |s|
    requires forall j :: from <= j < k ==> !SplitsAt(s, j)
    ensures SplitCount(s, from) == SplitCount(s, k)
    decreases k - from
  {
    if from < k {
      SplitCountSkip(s, from + 1, k);
    }
  }

  lemma {:induction false} SplitCountDrop(s: string, d: nat, j: nat)
    requires d + j <= |s|
    ensures SplitCount(s[d..], j) == SplitCount(s, d + j)
    decreases |s| - d - j
  {
    if d + j < |s| {
      SplitsAtDrop(s, d, j);
      SplitCountDrop(s, d, j + 1);
    }
  }

  /** The field count is the number of split points plus one; so the empty line gives one field. */
  lemma {:induction false} FieldCount(s: string)
    ensures |Split(s)| == SplitCount(s, 0) + 1
    decreases |s|
  {
    var k := FirstSplit(s, 0);
    SplitCountSkip(s, 0, k);
    if k < |s| {
      FieldCount(s[k + 1..]);
      SplitCountDrop(s, k + 1, 0);
    }
  }

  /**
   * A comma between an opening and a closing quote is never a split point
   * when the text after the closing quote holds an even number of quotes.
   */
  lemma OddAfterEven(q: nat)
    requires q % 2 == 0
    ensures (1 + q) % 2 == 1
  {
    var h := q / 2;
    assert q == 2 * h;
    assert 1 + q == 2 * h + 1;
  }

  lemma QuotedCommaNotSplit(a: string, m: string, b: string, p: nat)
    requires '"' !in m
    requires QuoteCount(b) % 2 == 0
    requires p < |m| && m[p] == ','
    ensures !SplitsAt(a + "\"" + m + "\"" + b, |a| + 1 + p)
  {
    QuotedSuffix(a, m, b, p);
    assert forall c :: c in m[p + 1..] ==> c in m;
    OddAfterQuote(m[p + 1..], b);
  }

  lemma QuotedSuffix(a: string, m: string, b: string, p: nat)
    requires p < |m|
    ensures (a + "\"" + m + "\"" + b)[|a| + 1 + p] == m[p]
    ensures (a + "\"" + m + "\"" + b)[|a| + 1 + p + 1..] == m[p + 1..] + ("\"" + b)
  {
    var head := a + "\"" + m[..p + 1];
    var tail := m[p + 1..] + ("\"" + b);
    assert m == m[..p + 1] + m[p + 1..];
    assert a + "\"" + m + "\"" + b == head + tail;
    assert (head + tail)[|head|..] == tail;
  }

  lemma OddAfterQuote(x: string, b: string)
    requires '"' !in x
    requires QuoteCount(b) % 2 == 0
    ensures QuoteCount(x + ("\"" + b)) % 2 == 1
  {
    QuoteCountAppend(x, "\"" + b);
    QuoteCountAppend("\"", b);
    NoQuotesCount(x);
    assert QuoteCount("\"") == 1;
    OddAfterEven(QuoteCount(b));
  }



  lemma {:induction false} NoQuotesCount(s: string)
    requires '"' !in s
    ensures QuoteCount(s) == 0
  {
    if s != [] {
      assert s == [s[0]] + s[1..];
      NoQuotesCount(s[1..]);
    }
  }

  /** A field as a CSV writer would emit it: plain text, or quotes around text that holds no quote. */
  predicate WellQuoted(f: string)
  {
    ('"' !in f && ',' !in f)
    || (|f| >= 2 && f[0] == '"' && f[|f| - 1] == '"' && '"' !in f[1..|f| - 1])
  }

  lemma FirstSplitIs(s: string, from: nat, k: nat)
    requires from <= k <= |s|
    requires k < |s| ==> SplitsAt(s, k)
    requires forall j :: from <= j < k ==> !SplitsAt(s, j)
    ensures FirstSplit(s, from) == k
  {
  }

  lemma WellQuotedEvenQuotes(f: string)
    requires WellQuoted(f)
    ensures QuoteCount(f) % 2 == 0
  {
    if '"' in f {
      var m := f[1..|f| - 1];
      assert f == "\"" + m + "\"";
      QuoteCountAppend("\"" + m, "\"");
      QuoteCountAppend("\"", m);
      NoQuotesCount(m);
    } else {
      NoQuotesCount(f);
    }
  }

  lemma {:induction false} JoinEvenQuotes(fields: seq<string>)
    requires forall f :: f in fields ==> WellQuoted(f)
    ensures QuoteCount(Join(fields)) % 2 == 0
  {
    if |fields| == 1 {
      WellQuotedEvenQuotes(fields[0]);
    } else if |fields| > 1 {
      assert fields[0] in fields;
      WellQuotedEvenQuotes(fields[0]);
      JoinEvenQuotes(fields[1..]);
      QuoteCountAppend(fields[0] + ",", Join(fields[1..]));
      QuoteCountAppend(fields[0], ",");
    }
  }

  /** No position inside a well-quoted field is a split point when an even number of quotes follows it. */
  lemma NoSplitInField(f: string, b: string, p: nat)
    requires WellQuoted(f)
    requires QuoteCount(b) % 2 == 0
    requires p < |f|
    ensures !SplitsAt(f + b, p)
  {
    if '"' in f && 0 < p < |f| - 1 && f[p] == ',' {
      var m := f[1..|f| - 1];
      assert f + b == "" + "\"" + m + "\"" + b;
      QuotedCommaNotSplit("", m, b, p - 1);
    }
  }

  /** For fields written the CSV way, splitting their join gives the same fields back. */
  lemma {:induction false} SplitJoinWellQuoted(fields: seq<string>)
    requires |fields| >= 1
    requires forall f :: f in fields ==> WellQuoted(f)
    ensures Split(Join(fields)) == fields
  {
    var s := Join(fields);
    var f := fields[0];
    assert f in fields;
    if |fields| == 1 {
      forall j | 0 <= j < |s| ensures !SplitsAt(s, j) {
        assert s == f + "";
        NoSplitInField(f, "", j);
      }
      FirstSplitIs(s, 0, |s|);
    } else {
      var rest := fields[1..];
      var t := Join(rest);
      assert forall g :: g in rest ==> g in fields;
      JoinEvenQuotes(rest);
      FirstSplitAfterField(f, t);
      assert s == f + ("," + t);
      SplitUnfold(s, |f|);
      assert s[..|f|] == f && s[|f| + 1..] == t;
      SplitJoinWellQuoted(rest);
      assert fields == [f] + rest;
    }
  }

  /** In a well-quoted field followed by "," and an even-quoted rest, the first split point is that comma. */
  lemma FirstSplitAfterField(f: string, t: string)
    requires WellQuoted(f)
    requires QuoteCount(t) % 2 == 0
    ensures FirstSplit(f + ("," + t), 0) == |f|
  {
    var s := f + ("," + t);
    QuoteCountAppend(",", t);
    forall j | 0 <= j < |f| ensures !SplitsAt(s, j) {
      NoSplitInField(f, "," + t, j);
    }
    assert s[|f| + 1..] == t;
    assert SplitsAt(s, |f|);
    FirstSplitIs(s, 0, |f|);
  }

}
