/**
 * The entry point `main` (src/Main.java:44-92) without its I/O: the base
 * name taken from the argument, the companion paths formed from it, the run
 * over the input lines and the log text written at the end.
 *
 * The input file's lines and the database's answers to inserts come in as
 * parameters; creating files, opening the connection and creating the table
 * are not part of this model.
 */
module Launcher {
  import opened Wrappers
  import opened SinkRouter
  import opened RouterState
  import opened RunLog

  /** Why the program stops before it reads any input. */
  datatype ArgError =
    | MissingArgument   // no argument: usage() exits with status 1
    | NameTooShort      // fewer than 4 characters: substring(0, length - 4) throws

  /** The argument with its 4-character extension removed (src/Main.java:45-50). */
  function BaseName(args: seq<string>): (r: Result<string, ArgError>)
  {
    if |args| < 1 then Failure(MissingArgument)
    else if |args[0]| < 4 then Failure(NameTooShort)
    else Success(args[0][..|args[0]| - 4])
  }

  function DatabaseUrl(base: string): string { "jdbc:sqlite:" + base + ".db" }
  function InputPath(base: string): string { base + ".csv" }
  function RejectsPath(base: string): string { base + "-bad.csv" }
  function LogPath(base: string): string { base + ".log" }

  /** The base name is the argument less its last four characters; shorter or missing arguments are errors. */
  lemma BaseNameSpec(args: seq<string>)
    ensures BaseName(args) == Failure(MissingArgument) <==> |args| == 0
    ensures BaseName(args) == Failure(NameTooShort) <==> |args| >= 1 && |args[0]| < 4
    ensures BaseName(args).Success? ==>
      |BaseName(args).value| == |args[0]| - 4 && BaseName(args).value + args[0][|args[0]| - 4..] == args[0]
  {
  }

  /** Putting any 4-character extension back on a base name and taking it off again gives the base name. */
  lemma BaseNameOfExtended(base: string, ext: string, rest: seq<string>)
    requires |ext| == 4
    ensures BaseName([base + ext] + rest) == Success(base)
  {
    var arg := base + ext;
    assert ([arg] + rest)[0] == arg;
    assert arg[..|arg| - 4] == base;
  }

  /** The input is read from the argument itself exactly when the argument ends in ".csv". */
  lemma InputIsArgument(arg: string)
    requires |arg| >= 4
    ensures BaseName([arg]).Success?
    ensures InputPath(BaseName([arg]).value) == arg <==> arg[|arg| - 4..] == ".csv"
  {
    var base := arg[..|arg| - 4];
    assert arg == base + arg[|arg| - 4..];
    if InputPath(base) == arg {
      assert arg[|arg| - 4..] == InputPath(base)[|base|..];
    }
  }

  /** The database, input, rejects and log files formed from one base name are four different files. */
  lemma PathsDistinct(base: string)
    ensures base + ".db" != InputPath(base)
    ensures base + ".db" != RejectsPath(base)
    ensures base + ".db" != LogPath(base)
    ensures InputPath(base) != RejectsPath(base)
    ensures InputPath(base) != LogPath(base)
    ensures RejectsPath(base) != LogPath(base)
  {
    assert |base + ".db"| != |InputPath(base)|;
    assert |base + ".db"| != |RejectsPath(base)|;
    assert |base + ".db"| != |LogPath(base)|;
    assert |InputPath(base)| != |RejectsPath(base)|;
    assert InputPath(base)[|base| + 1] != LogPath(base)[|base| + 1];
    assert |RejectsPath(base)| != |LogPath(base)|;
  }

  /** How a run ends. Only Finished exits with status 0 and writes the log. */
  datatype Outcome =
    | ArgumentError(reason: ArgError)
    | ReadError                                   // Files.lines fails: exit 1 before any line
    | InsertAborted(sinks: Sinks)                 // an insert failed: exit 1, earlier rows stay, no log
    | Finished(sinks: Sinks, logPath: string, log: string)

  function ExitCode(o: Outcome): int
  {
    if o.Finished? then 0 else 1
  }

  /**
   * What a run with these arguments, input lines (None when the input file
   * cannot be read) and insert answers ends in.
   */
  function RunOutcome(args: seq<string>, input: Option<seq<string>>, storage: seq<bool>): Outcome
    requires input.Some? ==> |storage| == |input.value|
  {
    match BaseName(args)
    case Failure(e) => ArgumentError(e)
    case Success(base) =>
      match input
      case None => ReadError
      case Some(lines) =>
        var n := FirstFailure(lines, storage);
        var st := Apply(Start, lines[..n]);
        if n < |lines| then InsertAborted(st)
        else Finished(st, LogPath(base), Summary(st.total, st.success, st.failure))
  }

  /** `main`: derive the names, route every line through a fresh Router, then form the log. */
  method Ingest(args: seq<string>, input: Option<seq<string>>, storage: seq<bool>) returns (o: Outcome)
    requires input.Some? ==> |storage| == |input.value|
    ensures o == RunOutcome(args, input, storage)
  {
    var name := BaseName(args);
    if name.Failure? {
      return ArgumentError(name.error);
    }
    if input.None? {
      return ReadError;
    }
    var lines := input.value;
    var completed, st := RouteAll(lines, storage);
    RunOutcomeOfLines(args, name.value, lines, storage);
    if !completed {
      o := InsertAborted(st);
    } else {
      o := Finished(st, LogPath(name.value), Summary(st.total, st.success, st.failure));
    }
  }

  /** `processData` on a fresh Router: the state the lines leave behind, and whether every line was routed. */
  method RouteAll(lines: seq<string>, storage: seq<bool>) returns (completed: bool, st: Sinks)
    requires |storage| == |lines|
    ensures completed == (FirstFailure(lines, storage) == |lines|)
    ensures st == Apply(Start, lines[..FirstFailure(lines, storage)])
  {
    var router := new Router();
    var ticks;
    completed, ticks := router.ProcessAll(lines, storage);
    st := router.State();
  }

  lemma RunOutcomeOfLines(args: seq<string>, base: string, lines: seq<string>, storage: seq<bool>)
    requires |storage| == |lines|
    requires BaseName(args) == Success(base)
    ensures RunOutcome(args, Some(lines), storage) ==
      var n := FirstFailure(lines, storage);
      var st := Apply(Start, lines[..n]);
      if n < |lines| then InsertAborted(st) else Finished(st, LogPath(base), Summary(st.total, st.success, st.failure))
  {
  }

  /** A finished run logs the number of lines, of valid lines and of invalid lines. */
  lemma FinishedLogCounts(args: seq<string>, lines: seq<string>, storage: seq<bool>)
    requires |storage| == |lines|
    requires RunOutcome(args, Some(lines), storage).Finished?
    ensures ExitCode(RunOutcome(args, Some(lines), storage)) == 0
    ensures ParseSummary(RunOutcome(args, Some(lines), storage).log)
      == Some((|lines|, ValidCount(lines), |lines| - ValidCount(lines)))
    ensures RunOutcome(args, Some(lines), storage).sinks.rows == ValidRows(lines)
    ensures RunOutcome(args, Some(lines), storage).sinks.rejects == Rejected(lines)
  {
    FinishedState(args, lines, storage);
    RunFromStart(lines);
    SummaryRoundTrip(|lines|, ValidCount(lines), |lines| - ValidCount(lines));
  }

  lemma FinishedState(args: seq<string>, lines: seq<string>, storage: seq<bool>)
    requires |storage| == |lines|
    requires RunOutcome(args, Some(lines), storage).Finished?
    ensures FirstFailure(lines, storage) == |lines|
    ensures RunOutcome(args, Some(lines), storage) ==
      var st := Apply(Start, lines);
      Finished(st, LogPath(BaseName(args).value), Summary(st.total, st.success, st.failure))
  {
    assert lines[..|lines|] == lines;
  }

  /** A finished run is one in which every attempted insert succeeded. */
  lemma FinishedIff(args: seq<string>, lines: seq<string>, storage: seq<bool>)
    requires |storage| == |lines|
    requires BaseName(args).Success?
    ensures RunOutcome(args, Some(lines), storage).Finished?
      <==> forall i :: 0 <= i < |lines| ==> !InsertFails(lines[i], storage[i])
  {
  }

  /**
   * An insert that fails at line n (counted from 0) ends the run with exit
   * status 1: the lines before it are all accounted for, nothing of line n
   * or later is, and no log is written.
   */
  lemma AbortKeepsEarlierLines(args: seq<string>, lines: seq<string>, storage: seq<bool>, n: nat)
    requires |storage| == |lines|
    requires BaseName(args).Success?
    requires n < |lines| && InsertFails(lines[n], storage[n])
    requires forall i :: 0 <= i < n ==> !InsertFails(lines[i], storage[i])
    ensures RunOutcome(args, Some(lines), storage) == InsertAborted(Apply(Start, lines[..n]))
    ensures ExitCode(RunOutcome(args, Some(lines), storage)) == 1
    ensures RunOutcome(args, Some(lines), storage).sinks.total == n
    ensures RunOutcome(args, Some(lines), storage).sinks.rows == ValidRows(lines[..n])
  {
    var k := FirstFailure(lines, storage);
    assert k == n;
    ApplyAccounts(Start, lines[..n]);
  }
}
