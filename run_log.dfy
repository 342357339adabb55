/**
 * The three-line summary that printLogs writes to the log file
 * (src/Main.java:187-189), with the decimal rendering Java's string
 * concatenation applies to the int counters.
 */
module RunLog {
  import opened Wrappers

  const ReceivedLabel := "Received   : "
  const SuccessfulLabel := "Successful : "
  const FailedLabel := "Failed     : "

  predicate IsDigit(c: char)
  {
    '0' <= c <= '9'
  }

  predicate AllDigits(s: string)
  {
    forall i :: 0 <= i < |s| ==> IsDigit(s[i])
  }

  function DigitChar(d: nat): (c: char)
    requires d < 10
  {
    ('0' as int + d) as char
  }

  /** The decimal text of a counter, as `"" + n` renders a non-negative int: digits only, no leading zero. */
  function Decimal(n: nat): (s: string)
    ensures |s| >= 1 && AllDigits(s)
    ensures s[0] == '0' ==> n == 0 && s == "0"
    decreases n
  {
    if n < 10 then [DigitChar(n)] else Decimal(n / 10) + [DigitChar(n % 10)]
  }

  /** The value of a string of digits. */
  function ParseDecimal(s: string): nat
    requires AllDigits(s)
    decreases |s|
  {
    if s == [] then 0
    else ParseDecimal(s[..|s| - 1]) * 10 + (s[|s| - 1] as int - '0' as int)
  }

  /** Reading the decimal text of a counter gives the counter back. */
  lemma {:induction false} ParseDecimalOfDecimal(n: nat)
    ensures ParseDecimal(Decimal(n)) == n
    decreases n
  {
    var s := Decimal(n);
    if n >= 10 {
      ParseDecimalOfDecimal(n / 10);
      assert s[..|s| - 1] == Decimal(n / 10);
    }
  }

  /** The text printLogs writes: one labelled line per counter. */
  function Summary(total: nat, success: nat, failure: nat): string
  {
    (ReceivedLabel + Decimal(total)) + "\n" + (SuccessfulLabel + Decimal(success)) + "\n" + (FailedLabel + Decimal(failure))
  }

  /** The first position of `c` in `s`, or |s|. */
  function IndexOf(s: string, c: char): (k: nat)
    ensures k <= |s|
    ensures k < |s| ==> s[k] == c
    ensures forall j :: 0 <= j < k ==> s[j] != c
    decreases |s|
  {
    if s == [] then 0 else if s[0] == c then 0 else 1 + IndexOf(s[1..], c)
  }

  /** The text cut at its line breaks. */
  function Lines(s: string): (ls: seq<string>)
    ensures |ls| >= 1
    decreases |s|
  {
    var k := IndexOf(s, '\n');
    if k == |s| then [s] else [s[..k]] + Lines(s[k + 1..])
  }

  /** The counter on a line that starts with `prefix`, if the rest of the line is a number. */
  function ParseCounter(line: string, prefix: string): Option<nat>
  {
    if |prefix| < |line| && line[..|prefix|] == prefix && AllDigits(line[|prefix|..])
    then Some(ParseDecimal(line[|prefix|..]))
    else None
  }

  /** Reads the three counters back from a summary text. */
  function ParseSummary(text: string): Option<(nat, nat, nat)>
  {
    var ls := Lines(text);
    if |ls| != 3 then None
    else
      match (ParseCounter(ls[0], ReceivedLabel), ParseCounter(ls[1], SuccessfulLabel), ParseCounter(ls[2], FailedLabel))
      case (Some(t), Some(s), Some(f)) => Some((t, s, f))
      case _ => None
  }

  lemma LinesOfLine(a: string)
    requires '\n' !in a
    ensures Lines(a) == [a]
  {
    assert IndexOf(a, '\n') == |a|;
  }

  lemma LinesCons(a: string, b: string)
    requires '\n' !in a
    ensures Lines(a + "\n" + b) == [a] + Lines(b)
  {
    var s := a + "\n" + b;
    var k := IndexOf(s, '\n');
    assert s[|a|] == '\n';
    assert forall j :: 0 <= j < |a| ==> s[j] == a[j];
    assert k == |a|;
    assert s[..k] == a;
    assert s[k + 1..] == b;
  }

  lemma CounterLineNoBreak(prefix: string, n: nat)
    requires '\n' !in prefix
    ensures '\n' !in prefix + Decimal(n)
  {
    assert forall j :: 0 <= j < |Decimal(n)| ==> IsDigit(Decimal(n)[j]);
  }

  lemma CounterLine(prefix: string, n: nat)
    ensures ParseCounter(prefix + Decimal(n), prefix) == Some(n)
  {
    var line := prefix + Decimal(n);
    assert line[..|prefix|] == prefix;
    assert line[|prefix|..] == Decimal(n);
    ParseDecimalOfDecimal(n);
  }

  lemma ThreeLines(l0: string, l1: string, l2: string)
    requires '\n' !in l0 && '\n' !in l1 && '\n' !in l2
    ensures Lines(l0 + "\n" + l1 + "\n" + l2) == [l0, l1, l2]
  {
    var rest := l1 + "\n" + l2;
    assert Lines(rest) == [l1, l2] by {
      LinesCons(l1, l2);
      LinesOfLine(l2);
    }
    calc {
      Lines(l0 + "\n" + l1 + "\n" + l2);
    == { assert l0 + "\n" + l1 + "\n" + l2 == l0 + "\n" + rest; }
      Lines(l0 + "\n" + rest);
    == { LinesCons(l0, rest); }
      [l0] + Lines(rest);
    }
  }

  lemma LabelsHaveNoBreak()
    ensures '\n' !in ReceivedLabel && '\n' !in SuccessfulLabel && '\n' !in FailedLabel
  {
  }

  /** The summary is three lines, one per counter. */
  lemma SummaryLines(total: nat, success: nat, failure: nat)
    ensures Lines(Summary(total, success, failure)) ==
      [ReceivedLabel + Decimal(total), SuccessfulLabel + Decimal(success), FailedLabel + Decimal(failure)]
  {
    LabelsHaveNoBreak();
    CounterLineNoBreak(ReceivedLabel, total);
    CounterLineNoBreak(SuccessfulLabel, success);
    CounterLineNoBreak(FailedLabel, failure);
    ThreeLines(ReceivedLabel + Decimal(total), SuccessfulLabel + Decimal(success), FailedLabel + Decimal(failure));
  }

  /** The counters can be read back from the summary: the log determines the run's counts. */
  lemma SummaryRoundTrip(total: nat, success: nat, failure: nat)
    ensures ParseSummary(Summary(total, success, failure)) == Some((total, success, failure))
  {
    SummaryLines(total, success, failure);
    CounterLine(ReceivedLabel, total);
    CounterLine(SuccessfulLabel, success);
    CounterLine(FailedLabel, failure);
  }
}
