/**
 * The script part of calver.rb: `--mode` is checked against `MODES` while the
 * options are parsed, and then `case options[:mode]` prints the git
 * instructions for the chosen mode. Printing and exiting are modelled by an
 * `Outcome`: the lines `puts` writes and how the run ends. The clock is a
 * parameter.
 */
module Cli {
  import opened Wrappers
  import opened RubyStrings
  import opened CalVer

  datatype Mode = HelpMode | HotfixMode | NextVersionMode | MonthStartMode

  /** `MODES` */
  const Modes: seq<string> := ["help", "hotfix", "nextVersion", "monthStart"]

  /** The `--mode` value that selects `m`. */
  function ModeName(m: Mode): string {
    match m
    case HelpMode => "help"
    case HotfixMode => "hotfix"
    case NextVersionMode => "nextVersion"
    case MonthStartMode => "monthStart"
  }

  /** `MODES.include?(name)`, and which mode it names. */
  function ModeNamed(name: string): (m: Option<Mode>)
    ensures m.Some? <==> name in Modes
    ensures m.Some? ==> ModeName(m.value) == name
  {
    if name == "help" then Some(HelpMode)
    else if name == "hotfix" then Some(HotfixMode)
    else if name == "nextVersion" then Some(NextVersionMode)
    else if name == "monthStart" then Some(MonthStartMode)
    else None
  }

  /** Exceptions that end the script. */
  datatype Error =
    | InvalidMode(mode: string)       // ArgumentError from the --mode handler
    | DateFailure(error: DateError)   // raised by monthStart

  datatype Status =
    | Completed           // the script ran to its end: exit status 0
    | Exited(code: int)   // `exit code`
    | Raised(error: Error)

  datatype Outcome = Outcome(lines: seq<string>, status: Status)

  /**
   * The `--mode` handler, run once for each `--mode=...` in command-line
   * order: an invalid value raises at once, a valid one overwrites
   * `options[:mode]`.
   */
  method ParseModes(modeArgs: seq<string>) returns (result: Result<Option<Mode>, Error>)
    ensures (forall i :: 0 <= i < |modeArgs| ==> modeArgs[i] in Modes) ==>
      result == Success(if modeArgs == [] then None else ModeNamed(modeArgs[|modeArgs| - 1]))
    ensures (exists i :: 0 <= i < |modeArgs| && modeArgs[i] !in Modes) ==>
      exists k :: 0 <= k < |modeArgs| && modeArgs[k] !in Modes &&
        (forall j :: 0 <= j < k ==> modeArgs[j] in Modes) &&
        result == Failure(InvalidMode(modeArgs[k]))
  {
    var mode: Option<Mode> := None;  // options[:mode]
    var i := 0;
    while i < |modeArgs|
      invariant 0 <= i <= |modeArgs|
      invariant forall j :: 0 <= j < i ==> modeArgs[j] in Modes
      invariant mode == if i == 0 then None else ModeNamed(modeArgs[i - 1])
    {
      var named := ModeNamed(modeArgs[i]);
      if named.None? {
        return Failure(InvalidMode(modeArgs[i]));
      }
      mode := named;
      i := i + 1;
    }
    return Success(mode);
  }

  // ---------------------------------------------------------------------
  // the input revision
  // ---------------------------------------------------------------------

  type Month = m: int | 1 <= m <= 12 witness 1

  /** The date the clock gives. */
  datatype Today = Today(year: int, month: Month)

  /** Two decimal digits, zero-padded. */
  function TwoDigits(n: nat): string
    requires n < 100
  {
    [DigitChar(n / 10), DigitChar(n % 10)]
  }

  /** `Time.now.to_date.strftime("%y.%m.1")` */
  function DefaultRevisionString(today: Today): string {
    TwoDigits(today.year % 100) + "." + TwoDigits(today.month) + ".1"
  }

  /** The revision a mode works on: `ARGV.pop` when there is an argument, today's otherwise. */
  function InputRevision(argv: seq<string>, today: Today): Revision {
    if argv == [] then Parse(DefaultRevisionString(today)) else Parse(argv[|argv| - 1])
  }

  lemma ToIOfTwoDigits(n: nat)
    requires n < 100
    ensures ToI(TwoDigits(n)) == n
  {
    var s := TwoDigits(n);
    LeadingDigitsOfNumeral(s, []);
    assert s + [] == s;
    assert s[..1] == [s[0]];
    assert DigitsValue([s[0]]) == n / 10 by {
      assert [s[0]][..0] == [];
    }
  }

  /** Today's revision string joins two two-digit pieces and "1". */
  lemma DefaultRevisionPieces(today: Today)
    ensures DefaultRevisionString(today) == Join([TwoDigits(today.year % 100), TwoDigits(today.month), "1"])
  {
    var y, m := TwoDigits(today.year % 100), TwoDigits(today.month);
    JoinThree(y, m, "1");
    assert y + "." + m + "." + "1" == y + "." + m + ".1";
  }

  /** Without an argument, the input is revision 1 of the current month. */
  lemma DefaultRevision(today: Today)
    ensures InputRevision([], today) == Revision(Some(today.year % 100), Some(today.month as int), Some(1), None)
  {
    var y, m := TwoDigits(today.year % 100), TwoDigits(today.month);
    DefaultRevisionPieces(today);
    assert AllDotFree([y, m, "1"]);
    ParsePieces([y, m, "1"]);
    ToIOfTwoDigits(today.year % 100);
    ToIOfTwoDigits(today.month);
    ReadCounts();
  }

  // ---------------------------------------------------------------------
  // the printed instructions
  // ---------------------------------------------------------------------

  /** What `--mode=nextVersion` prints for input `v`: the caution line only for a hotfix. */
  function NextVersionLines(v: Revision): seq<string> {
    if IsHotfix(v) then [HotfixMergeLine(v), CautionLine(v)] else [ReleaseMergeLine(v)]
  }

  /** The instructions for a hotfix input: merge to the release branch and on to the month branch. */
  function HotfixMergeLine(v: Revision): string {
    var next, parent := ToS(NextVersion(v)), ParentBranch(v, false);
    "Before starting coding work on " + next + ", tag " + ToS(v) + " and merge it to " + parent
    + ", and to " + ParentBranch(Parse(parent), false) + " (and its descendents), then branch off "
    + parent + " to " + next
  }

  function CautionLine(v: Revision): string {
    var next := ToS(NextVersion(v));
    "(But be mindful that " + next + " might already exist, and it could be something else, or it could even be a different month!)"
  }

  /** The instructions for an input that is not a hotfix. */
  function ReleaseMergeLine(v: Revision): string {
    var next, parent := ToS(NextVersion(v)), ParentBranch(v, false);
    "Before starting coding work on " + next + ", tag " + ToS(v) + " and merge it to " + parent
    + ", then branch off " + parent + " to " + next
  }

  const NeedVersionMessage := "Need to specify the version to hotfix on the command line"

  /** What `--mode=hotfix` prints for input `v`. */
  function HotfixLine(v: Revision): string {
    "Before starting work on " + ToS(Hotfix(v)) + ", branch off " + ParentBranch(v, true) + " to " + ToS(Hotfix(v))
  }

  /** What `--mode=monthStart` prints for input `v` whose month start is `next`. */
  function MonthStartLine(v: Revision, next: Revision): string {
    "Merge outstanding branches for the month into " + CurrentMonth(v) + ", and " + CurrentMonth(v)
    + " to master and from master to " + ToS(next)
  }

  /** `case options[:mode]`, given the remaining command-line arguments and today's date. */
  function Dispatch(mode: Option<Mode>, argv: seq<string>, today: Today): Outcome {
    match mode
    case None => Outcome([], Completed)
    case Some(HelpMode) => Outcome([], Completed)
    case Some(NextVersionMode) => Outcome(NextVersionLines(InputRevision(argv, today)), Completed)
    case Some(HotfixMode) =>
      if argv == [] then Outcome([NeedVersionMessage], Exited(1))
      else Outcome([HotfixLine(Parse(argv[|argv| - 1]))], Completed)
    case Some(MonthStartMode) =>
      var v := InputRevision(argv, today);
      match MonthStart(v)
      case Failure(e) => Outcome([], Raised(DateFailure(e)))
      case Success(next) => Outcome([MonthStartLine(v, next)], Completed)
  }

  /**
   * The whole script: the `--mode` values in command-line order, the
   * positional arguments left after option parsing, and today's date.
   */
  method Run(modeArgs: seq<string>, argv: seq<string>, today: Today) returns (o: Outcome)
    ensures (exists i :: 0 <= i < |modeArgs| && modeArgs[i] !in Modes) ==>
      exists k :: 0 <= k < |modeArgs| && modeArgs[k] !in Modes &&
        (forall j :: 0 <= j < k ==> modeArgs[j] in Modes) &&
        o == Outcome([], Raised(InvalidMode(modeArgs[k])))
    ensures (forall i :: 0 <= i < |modeArgs| ==> modeArgs[i] in Modes) ==>
      o == Dispatch(if modeArgs == [] then None else ModeNamed(modeArgs[|modeArgs| - 1]), argv, today)
  {
    var parsed := ParseModes(modeArgs);
    match parsed
    case Failure(e) =>
      o := Outcome([], Raised(e));
    case Success(mode) =>
      o := Dispatch(mode, argv, today);
  }

  // ---------------------------------------------------------------------
  // properties of the dispatch
  // ---------------------------------------------------------------------

  /** `--mode=help`, or no `--mode` at all, matches no branch: nothing is printed. */
  lemma HelpPrintsNothing(mode: Option<Mode>, argv: seq<string>, today: Today)
    requires mode.None? || mode == Some(HelpMode)
    ensures Dispatch(mode, argv, today) == Outcome([], Completed)
  {
  }

  /** Hotfix mode without a version prints one message and exits with status 1. */
  lemma HotfixNeedsArgument(argv: seq<string>, today: Today)
    ensures Dispatch(Some(HotfixMode), argv, today).status == Exited(1) <==> argv == []
    ensures argv == [] ==> Dispatch(Some(HotfixMode), argv, today).lines == [NeedVersionMessage]
  {
  }

  /** Only the last positional argument is used. */
  lemma LastArgumentWins(mode: Option<Mode>, argv: seq<string>, today: Today)
    requires argv != []
    ensures Dispatch(mode, argv, today) == Dispatch(mode, [argv[|argv| - 1]], today)
  {
  }

  /**
   * Without an argument, nextVersion and monthStart behave as if given
   * today's "YY.MM.1".
   */
  lemma NoArgumentMeansToday(mode: Mode, today: Today)
    requires mode != HotfixMode
    ensures Dispatch(Some(mode), [], today) == Dispatch(Some(mode), [DefaultRevisionString(today)], today)
  {
  }

  /** Today's revision always has a valid month, so monthStart without an argument never raises. */
  lemma MonthStartTodayCompletes(today: Today)
    ensures Dispatch(Some(MonthStartMode), [], today).status == Completed
    ensures |Dispatch(Some(MonthStartMode), [], today).lines| == 1
  {
    DefaultRevision(today);
  }

  /**
   * nextVersion prints the extra caution line exactly when the input is a
   * hotfix, and then names the input's month branch as the grandparent.
   */
  lemma NextVersionCaution(argv: seq<string>, today: Today)
    ensures var o := Dispatch(Some(NextVersionMode), argv, today);
      o.status == Completed && (|o.lines| == 2 <==> IsHotfix(InputRevision(argv, today)))
    ensures var v := InputRevision(argv, today);
      IsHotfix(v) ==> ParentBranch(Parse(ParentBranch(v, false)), false) == CurrentMonth(v)
  {
    var v := InputRevision(argv, today);
    assert Dispatch(Some(NextVersionMode), argv, today) == Outcome(NextVersionLines(v), Completed);
    NextVersionLineCount(v);
    Grandparent(v, false);
  }

  lemma NextVersionLineCount(v: Revision)
    ensures |NextVersionLines(v)| == if IsHotfix(v) then 2 else 1
  {
  }

  /** An invalid `--mode` anywhere stops the run before anything is printed. */
  method InvalidModeStops(argv: seq<string>, today: Today) returns (o: Outcome)
    ensures o == Outcome([], Raised(InvalidMode("bogus")))
  {
    o := Run(["nextVersion", "bogus", "hotfix"], argv, today);
    assert ["nextVersion", "bogus", "hotfix"][1] !in Modes;
  }

  /** `--mode=hotfix 24.03.2.1` */
  lemma ExampleHotfixRun(today: Today)
    ensures Dispatch(Some(HotfixMode), ["24.03.2.1"], today) ==
      Outcome(["Before starting work on " + "24.03.2.2" + ", branch off " + "24.03.2" + " to " + "24.03.2.2"], Completed)
  {
    ExampleHotfix();
  }

  /** `--mode=nextVersion 24.03.1` */
  lemma ExampleNextVersionRun(today: Today)
    ensures Dispatch(Some(NextVersionMode), ["24.03.1"], today) ==
      Outcome(["Before starting coding work on " + "24.03.2" + ", tag " + "24.03.1" + " and merge it to " + "24.03"
               + ", then branch off " + "24.03" + " to " + "24.03.2"], Completed)
  {
    ExampleRelease();
  }
}
