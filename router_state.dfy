/**
 * The run state of src/Main.java (the static counters and the two sinks)
 * as an object, and the per-line action and the line loop that update it,
 * each proved against the routing functions of SinkRouter.
 */
module RouterState {
  import opened CsvSplit
  import opened RecordClassifier
  import opened SinkRouter

  /** The table row the insert statement produces from its bound parameters: column A is parameter 1, and so on. */
  function RowOf(params: map<int, string>, n: nat): seq<string>
    requires forall k :: 1 <= k <= n ==> k in params
  {
    seq(n, i requires 0 <= i < n => params[i + 1])
  }

  /** `ps.setString(i + 1, values[i])` for every i (src/Main.java:162-164). */
  method BindParameters(values: seq<string>) returns (params: map<int, string>)
    ensures forall k :: k in params <==> 1 <= k <= |values|
    ensures forall k :: 1 <= k <= |values| ==> params[k] == values[k - 1]
  {
    params := map[];
    for i := 0 to |values|
      invariant forall k :: k in params <==> 1 <= k <= i
      invariant forall k :: 1 <= k <= i ==> params[k] == values[k - 1]
    {
      params := params[i + 1 := values[i]];
    }
  }

  /** The run state of src/Main.java: the static counters and the two sinks. */
  class Router {
    var total: nat
    var success: nat
    var failure: nat
    var rows: seq<seq<string>>
    var rejects: seq<string>

    function State(): Sinks
      reads this
    {
      Sinks(total, success, failure, rows, rejects)
    }

    ghost predicate Valid()
      reads this
    {
      Balanced(State())
    }

    constructor ()
      ensures Valid()
      ensures total == 0 && success == 0 && failure == 0 && rows == [] && rejects == []
    {
      total, success, failure := 0, 0, 0;
      rows, rejects := [], [];
    }

    /** `insertInto` (src/Main.java:160-170): bind the values and store them as one row if the database accepts it. */
    method InsertInto(values: seq<string>, accepted: bool) returns (ok: bool)
      requires |values| == NumHeaders
      modifies this`rows
      ensures ok == accepted
      ensures rows == if accepted then old(rows) + [values] else old(rows)
    {
      var params := BindParameters(values);
      ok := accepted;
      if accepted {
        var row := RowOf(params, |values|);
        assert row == values;
        rows := rows + [row];
      }
    }

    /**
     * The body of the per-line action (src/Main.java:120-141). `ok` is false
     * when the insert failed and the run ends; `tick` tells whether a
     * progress line is printed.
     */
    method ProcessLine(line: string, insertOk: bool) returns (ok: bool, tick: bool)
      requires Valid()
      modifies this
      ensures Valid()
      ensures ok == !InsertFails(line, insertOk)
      ensures State() == if ok then Step(old(State()), line) else old(State())
      ensures tick == (ok && Progress(total))
    {
      var values := Split(line);
      if !HasDoubleComma(line) && |values| == NumHeaders {
        ok := InsertInto(values, insertOk);
        if !ok {
          tick := false;
          return;
        }
        success := success + 1;
      } else {
        rejects := rejects + [line + "\n"];
        failure := failure + 1;
        ok := true;
      }
      total := total + 1;
      tick := Progress(total);
    }

    /**
     * `stream.forEach(action)` (src/Main.java:144-145) over the lines of the
     * input file. `storage[i]` is the database's answer to the insert of
     * line i, asked only when line i is valid. The run stops at the first
     * failing insert; `ticks` lists the totals printed as progress.
     */
    method ProcessAll(lines: seq<string>, storage: seq<bool>) returns (completed: bool, ticks: seq<nat>)
      requires Valid()
      requires |storage| == |lines|
      modifies this
      ensures Valid()
      ensures completed == (FirstFailure(lines, storage) == |lines|)
      ensures State() == Apply(old(State()), lines[..FirstFailure(lines, storage)])
      ensures ticks == Ticks(old(total), FirstFailure(lines, storage))
    {
      ghost var st0 := State();
      ticks := [];
      var i := 0;
      while i < |lines|
        invariant i <= FirstFailure(lines, storage)
        invariant Valid()
        invariant total == st0.total + i
        invariant State() == Apply(st0, lines[..i])
        invariant ticks == Ticks(st0.total, i)
      {
        var ok, tick := ProcessLine(lines[i], storage[i]);
        if !ok {
          completed := false;
          FirstFailureAt(lines, storage, i);
          return;
        }
        ApplyNext(st0, lines, i);
        StepTotal(Apply(st0, lines[..i]), lines[i]);
        var t := total;
        TicksNext(st0.total, i, t);
        if tick {
          ticks := ticks + [t];
        }
        i := i + 1;
      }
      completed := true;
      assert lines[..i] == lines;
    }
  }
}
