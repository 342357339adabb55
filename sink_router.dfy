/**
 * The per-line router of src/Main.java:119-170: each line is classified,
 * a valid one is bound to the ten insert parameters and stored as one table
 * row, an invalid one is appended verbatim with "\n" to the rejects writer,
 * and the run counters are updated. A failing insert ends the run on the
 * spot (System.exit in insertInto), leaving everything done before in place.
 *
 * Whether an insert succeeds is decided by the database, which is not part
 * of this model: it enters as a boolean answer per line.
 */
module SinkRouter {
  import opened CsvSplit
  import opened RecordClassifier

  /** The run counters and the two sinks. */
  datatype Sinks = Sinks(total: nat, success: nat, failure: nat, rows: seq<seq<string>>, rejects: seq<string>)

  /** The state at the start of a run: the static counters start at 0 (src/Main.java:40-42). */
  const Start := Sinks(0, 0, 0, [], [])

  /** The accounting every observation point sees. */
  predicate Balanced(st: Sinks)
  {
    && st.total == |st.rows| + |st.rejects|
    && |st.rows| == st.success
    && |st.rejects| == st.failure
    && (forall i :: 0 <= i < |st.rows| ==> |st.rows[i]| == NumHeaders)
  }

  /** Routing one line whose insert, if it has one, succeeds. */
  function Step(st: Sinks, line: string): Sinks
  {
    match Classify(line)
    case Valid(values) =>
      st.(total := st.total + 1, success := st.success + 1, rows := st.rows + [values])
    case Invalid =>
      st.(total := st.total + 1, failure := st.failure + 1, rejects := st.rejects + [line + "\n"])
  }

  /** Routing the lines one after the other, in order. */
  function Apply(st: Sinks, lines: seq<string>): Sinks
    decreases |lines|
  {
    if lines == [] then st else Step(Apply(st, lines[..|lines| - 1]), lines[|lines| - 1])
  }

  lemma ApplyNext(st: Sinks, lines: seq<string>, i: nat)
    requires i < |lines|
    ensures Apply(st, lines[..i + 1]) == Step(Apply(st, lines[..i]), lines[i])
  {
    assert lines[..i + 1][..i] == lines[..i];
  }

  /** Number of valid lines. */
  function ValidCount(lines: seq<string>): (n: nat)
    ensures n <= |lines|
    decreases |lines|
  {
    if lines == [] then 0
    else ValidCount(lines[..|lines| - 1]) + (if Classify(lines[|lines| - 1]).Valid? then 1 else 0)
  }

  /** The value vectors of the valid lines, in input order. */
  function ValidRows(lines: seq<string>): seq<seq<string>>
    decreases |lines|
  {
    if lines == [] then []
    else
      var last := lines[|lines| - 1];
      ValidRows(lines[..|lines| - 1]) + (if Classify(last).Valid? then [Classify(last).values] else [])
  }

  /** The invalid lines, each followed by "\n", in input order. */
  function Rejected(lines: seq<string>): seq<string>
    decreases |lines|
  {
    if lines == [] then []
    else
      var last := lines[|lines| - 1];
      Rejected(lines[..|lines| - 1]) + (if Classify(last).Invalid? then [last + "\n"] else [])
  }

  /** One line changes exactly one sink, adds one to total and to exactly one of success and failure. */
  lemma StepRoutesOnce(st: Sinks, line: string)
    requires Balanced(st)
    ensures Balanced(Step(st, line))
    ensures Step(st, line).total == st.total + 1
    ensures Classify(line).Valid? ==>
      Step(st, line) == st.(total := st.total + 1, success := st.success + 1, rows := st.rows + [Split(line)])
    ensures Classify(line).Invalid? ==>
      Step(st, line) == st.(total := st.total + 1, failure := st.failure + 1, rejects := st.rejects + [line + "\n"])
  {
  }

  lemma StepTotal(st: Sinks, line: string)
    ensures Step(st, line).total == st.total + 1
  {
  }

  /** After a run over `lines` the counters are the line counts and the sinks hold the lines, in order. */
  lemma {:induction false} ApplyAccounts(st: Sinks, lines: seq<string>)
    ensures Apply(st, lines) == Sinks(
      st.total + |lines|,
      st.success + ValidCount(lines),
      st.failure + (|lines| - ValidCount(lines)),
      st.rows + ValidRows(lines),
      st.rejects + Rejected(lines))
    decreases |lines|
  {
    if lines != [] {
      var init := lines[..|lines| - 1];
      ApplyAccounts(st, init);
      assert (st.rows + ValidRows(init)) + (if Classify(lines[|lines| - 1]).Valid? then [Classify(lines[|lines| - 1]).values] else [])
          == st.rows + ValidRows(lines);
      assert (st.rejects + Rejected(init)) + (if Classify(lines[|lines| - 1]).Invalid? then [lines[|lines| - 1] + "\n"] else [])
          == st.rejects + Rejected(lines);
    }
  }

  /** A run from the start: one count per line, the valid lines' values as rows, the invalid lines as rejects. */
  lemma RunFromStart(lines: seq<string>)
    ensures Apply(Start, lines) ==
      Sinks(|lines|, ValidCount(lines), |lines| - ValidCount(lines), ValidRows(lines), Rejected(lines))
  {
    ApplyAccounts(Start, lines);
  }

  /** total == success + failure, one row per success and one reject per failure, at every line. */
  lemma {:induction false} ApplyKeepsBalanced(st: Sinks, lines: seq<string>)
    requires Balanced(st)
    ensures Balanced(Apply(st, lines))
    decreases |lines|
  {
    if lines != [] {
      ApplyKeepsBalanced(st, lines[..|lines| - 1]);
      StepRoutesOnce(Apply(st, lines[..|lines| - 1]), lines[|lines| - 1]);
    }
  }

  /** Counters never go down and the sinks only grow at their end. */
  lemma ApplyMonotone(st: Sinks, lines: seq<string>)
    ensures st.total <= Apply(st, lines).total
    ensures st.success <= Apply(st, lines).success
    ensures st.failure <= Apply(st, lines).failure
    ensures st.rows <= Apply(st, lines).rows
    ensures st.rejects <= Apply(st, lines).rejects
  {
    ApplyAccounts(st, lines);
  }

  /** Running two chunks of lines one after the other is running them together. */
  lemma {:induction false} ApplyConcat(st: Sinks, a: seq<string>, b: seq<string>)
    ensures Apply(st, a + b) == Apply(Apply(st, a), b)
    decreases |b|
  {
    if b == [] {
      assert a + b == a;
    } else {
      assert (a + b)[..|a + b| - 1] == a + b[..|b| - 1];
      ApplyConcat(st, a, b[..|b| - 1]);
    }
  }

  /** The rows follow the input order: the rows of a + b are those of a, then those of b. */
  lemma {:induction false} ValidRowsConcat(a: seq<string>, b: seq<string>)
    ensures ValidRows(a + b) == ValidRows(a) + ValidRows(b)
    decreases |b|
  {
    if b == [] {
      assert a + b == a;
    } else {
      assert (a + b)[..|a + b| - 1] == a + b[..|b| - 1];
      ValidRowsConcat(a, b[..|b| - 1]);
    }
  }

  /** The rejects follow the input order: the rejects of a + b are those of a, then those of b. */
  lemma {:induction false} RejectedConcat(a: seq<string>, b: seq<string>)
    ensures Rejected(a + b) == Rejected(a) + Rejected(b)
    decreases |b|
  {
    if b == [] {
      assert a + b == a;
    } else {
      assert (a + b)[..|a + b| - 1] == a + b[..|b| - 1];
      RejectedConcat(a, b[..|b| - 1]);
    }
  }

  /** Every rejects entry is an invalid input line, byte for byte, followed by "\n". */
  lemma {:induction false} RejectedVerbatim(lines: seq<string>, k: nat)
    requires k < |Rejected(lines)|
    ensures exists i :: 0 <= i < |lines| && Classify(lines[i]) == Invalid && Rejected(lines)[k] == lines[i] + "\n"
    decreases |lines|
  {
    var init := lines[..|lines| - 1];
    if k < |Rejected(init)| {
      RejectedVerbatim(init, k);
      var i :| 0 <= i < |init| && Classify(init[i]) == Invalid && Rejected(init)[k] == init[i] + "\n";
      assert lines[i] == init[i];
    } else {
      assert Classify(lines[|lines| - 1]) == Invalid && Rejected(lines)[k] == lines[|lines| - 1] + "\n";
    }
  }

  /** Every stored row is the ten values of a valid input line. */
  lemma {:induction false} ValidRowsAreSplits(lines: seq<string>, k: nat)
    requires k < |ValidRows(lines)|
    ensures |ValidRows(lines)[k]| == NumHeaders
    ensures exists i :: 0 <= i < |lines| && Classify(lines[i]) == Valid(ValidRows(lines)[k])
    decreases |lines|
  {
    var init := lines[..|lines| - 1];
    var last := lines[|lines| - 1];
    if k < |ValidRows(init)| {
      ValidRowsAreSplits(init, k);
      var i :| 0 <= i < |init| && Classify(init[i]) == Valid(ValidRows(init)[k]);
      assert lines[i] == init[i];
    } else {
      assert Classify(lines[|lines| - 1]) == Valid(ValidRows(lines)[k]);
    }
  }

  /** Every row and every reject accounted for: every line goes to one sink or the other. */
  lemma {:induction false} SinksPartitionLines(lines: seq<string>)
    ensures |ValidRows(lines)| == ValidCount(lines)
    ensures |Rejected(lines)| == |lines| - ValidCount(lines)
    decreases |lines|
  {
    if lines != [] {
      SinksPartitionLines(lines[..|lines| - 1]);
    }
  }

  // ---------------------------------------------------------------------------
  // Progress notifications (src/Main.java:138-140)

  /** A progress line is printed after the line that brings total to a multiple of 1000. */
  predicate Progress(total: nat)
  {
    total % 1000 == 0
  }

  /** The totals at which progress is printed while total goes from `from` to `from + n`. */
  function Ticks(from: nat, n: nat): seq<nat>
    decreases n
  {
    if n == 0 then [] else Ticks(from, n - 1) + (if Progress(from + n) then [from + n] else [])
  }

  lemma TicksNext(from: nat, n: nat, t: nat)
    requires t == from + n + 1
    ensures Ticks(from, n + 1) == Ticks(from, n) + (if Progress(t) then [t] else [])
  {
  }

  /** A tick happens at exactly the multiples of 1000 passed during the run. */
  lemma {:induction false} TicksExactly(from: nat, n: nat, t: int)
    ensures t in Ticks(from, n) <==> from < t <= from + n && t % 1000 == 0
    decreases n
  {
    if n > 0 {
      TicksExactly(from, n - 1, t);
    }
  }

  /** Ticks come in increasing order. */
  lemma {:induction false} TicksIncreasing(from: nat, n: nat)
    ensures forall i, j :: 0 <= i < j < |Ticks(from, n)| ==> Ticks(from, n)[i] < Ticks(from, n)[j]
    decreases n
  {
    if n > 0 {
      TicksIncreasing(from, n - 1);
      var ts := Ticks(from, n - 1);
      forall i | 0 <= i < |ts| ensures ts[i] < from + n {
        TicksExactly(from, n - 1, ts[i]);
      }
    }
  }

  /** The number of ticks is the number of thousands crossed. */
  lemma {:induction false} TicksCount(from: nat, n: nat)
    ensures |Ticks(from, n)| == (from + n) / 1000 - from / 1000
    decreases n
  {
    if n > 0 {
      TicksCount(from, n - 1);
    }
  }

  /** 2500 lines from a fresh start give progress at 1000 and at 2000 and nowhere else. */
  lemma TicksOf2500()
    ensures Ticks(0, 2500) == [1000, 2000]
  {
    var ts := Ticks(0, 2500);
    TicksCount(0, 2500);
    assert |ts| == 2;
    TicksIncreasing(0, 2500);
    TicksExactly(0, 2500, ts[0]);
    TicksExactly(0, 2500, ts[1]);
    ThousandsUpTo2500(ts[0]);
    ThousandsUpTo2500(ts[1]);
    assert ts == [ts[0], ts[1]];
  }

  lemma ThousandsUpTo2500(t: int)
    requires 0 < t <= 2500 && t % 1000 == 0
    ensures t == 1000 || t == 2000
  {
    var q := t / 1000;
    assert t == 1000 * q;
  }


  // ---------------------------------------------------------------------------
  // Where a run stops

  /** The insert for this line is attempted and fails. */
  predicate InsertFails(line: string, accepted: bool)
  {
    Classify(line).Valid? && !accepted
  }

  /** The index of the line whose insert ends the run, or |lines| when the run completes. */
  function FirstFailure(lines: seq<string>, storage: seq<bool>): (n: nat)
    requires |storage| == |lines|
    ensures n <= |lines|
    ensures forall i :: 0 <= i < n ==> !InsertFails(lines[i], storage[i])
    ensures n < |lines| ==> InsertFails(lines[n], storage[n])
    decreases |lines|
  {
    if lines == [] then 0
    else if InsertFails(lines[0], storage[0]) then 0
    else 1 + FirstFailure(lines[1..], storage[1..])
  }

  lemma FirstFailureAt(lines: seq<string>, storage: seq<bool>, i: nat)
    requires |storage| == |lines|
    requires i <= FirstFailure(lines, storage)
    requires i < |lines| && InsertFails(lines[i], storage[i])
    ensures FirstFailure(lines, storage) == i
  {
  }
}
