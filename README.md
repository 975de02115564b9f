# calver.rb in Dafny

calver.rb is a small Ruby script for calendar versions of the form
`YY.MM.REV[.HOTFIX]`. It tells a developer which git branches to create
and merge when starting the next version, a hotfix, or a new month.

This project models the two parts of the script:

- **The `Revision` value type** (module `CalVer`, `revision.dfy`).
  - A `datatype` with four `Option<int>` fields. `None` stands for Ruby's nil.
  - `Parse` models `Revision.new`: `split(".")` followed by `to_i` on each piece.
  - `ToS` models `to_s`: zero-padding to width 2, then one `chomp(".")`.
  - `NewRevision` models the helper that every derivation goes through. It joins
    the fields with ".", chomps one dot and parses again, and it is defined that way.
  - `NextVersion`, `Hotfix`, `MonthStart`, `CurrentMonth` and `ParentBranch` model
    the derivations and branch names.
  - The Ruby string operations they rely on live in module `RubyStrings`
    (`ruby_strings.dfy`): `split`, `Array#join`, `chomp`, `rjust`, `String#to_i`
    and `Integer#to_s`.
- **The script** (module `Cli`, `cli.dfy`).
  - `ParseModes` is a method with a loop. It runs the `--mode` handler once per
    occurrence, in command-line order: an invalid value raises at once, and a
    valid one overwrites `options[:mode]`.
  - `Dispatch` is the `case options[:mode]` statement. It returns an `Outcome`:
    the lines printed and how the run ends (completed, `exit 1`, or an exception).
  - `Run` composes the two.
  - Today's date is a parameter.

Where the code differs from a plain reading of its documentation, the model follows the code:

- `monthStart` does not wrap the two-digit year: December of year 99 is followed by
  January of year 100, printed as "100.01.1". The source comment at calver.rb:40
  acknowledges this.
- `--mode=help` matches no `when` branch, so it prints nothing. The usage text
  belongs to the separate `--help` option.
- `newRevision` does not drop nil fields. A nil before a set field becomes an empty
  piece, and that piece reads back as 0, so the hotfix of "24.03" is "24.03.0.1".
- `chomp(".")` removes one dot only, so a revision without a count prints as "24.03.".
- Nothing in the model promises that years lie in 0..99 or that months lie in 1..12.
  `Parse` accepts any integers, and `MonthStart` models Ruby's `Date.new` on them:
  - nil year or month raises a TypeError;
  - months -12..-1 count back from December;
  - a month outside the range of a 32-bit C int raises a RangeError, because `Date.new`
    converts the month to a C int first;
  - any other month raises Date::Error.

## Model

| member | source | states |
|---|---|---|
| RubyStrings.Split | calver.rb:12 | `split(".")` yields pieces without dots whose last piece, if any, is non-empty (trailing empty pieces dropped) |
| RubyStrings.Join | calver.rb:59 | `Array#join(".")`: its inverses are `SplitJoin` and `SplitAllJoin`, and `JoinSplitAll` restores a split string |
| RubyStrings.Chomp | calver.rb:21 | `chomp(".")` removes one trailing dot and only one: `SplitChomp` shows it never changes what `split(".")` yields, and `ToSOfMonthOnly` that a second trailing dot stays |
| RubyStrings.SplitJoin | calver.rb:59 | splitting a join of dot-free pieces gives the pieces back minus trailing empty ones |
| RubyStrings.SplitAllJoin | calver.rb:59 | splitting (keeping empties) inverts joining dot-free pieces |
| RubyStrings.JoinSplitAll | calver.rb:59 | joining the pieces of a split restores the string |
| RubyStrings.SplitChomp | calver.rb:21 | chomping one trailing dot never changes what `split(".")` yields |
| RubyStrings.DropTrailingOfFour | calver.rb:59 | which of four joined pieces survive the split: all up to the last non-empty one |
| RubyStrings.Rjust2Shape | calver.rb:20 | `rjust(2, "0")` keeps the string as its suffix and pads on the left with '0' only |
| RubyStrings.Rjust2 | calver.rb:20 | `rjust(2, "0")` has length 2 for a shorter string and keeps a longer one's length; `Rjust2Shape` gives the padding |
| RubyStrings.LeadingDigits | calver.rb:12 | the digits `to_i` reads are the longest all-digit prefix |
| RubyStrings.ToI | calver.rb:12 | `String#to_i`: its partner is `IntToString`, read back by `ToIOfIntToString` and `ToIOfPadded`; `ToINonNumeric` gives 0 for text that is no number |
| RubyStrings.IntToString | calver.rb:20 | `Integer#to_s` is non-empty, has no dot, and is one character long exactly for 0..9 |
| RubyStrings.ToIOfIntToString | calver.rb:12 | `to_i` reads back any integer written by `to_s`, negative ones included, whatever non-digit text follows |
| RubyStrings.ToINonNumeric | calver.rb:12 | a piece not starting with a digit or sign reads as 0 |
| RubyStrings.ToIOfPadded | calver.rb:20 | `to_i` reads back a zero-padded integer |
| CalVer.Parse | calver.rb:11-17 | a parsed revision never has a nil field before a set one |
| CalVer.ParsePieces | calver.rb:11-17 | pieces 0..3 become year, month, count and hotfix through `to_i`; missing pieces are nil; pieces after the fourth are ignored |
| CalVer.ParseChompJoin | calver.rb:59 | parsing a chomped join reads the pieces left after trailing empty ones are dropped |
| CalVer.ParseOfJoined | calver.rb:58-60 | re-parsing four joined fields yields the fields, with a nil before a set field read as 0 |
| CalVer.InterpolatedReadsBack | calver.rb:20 | `"#{f}"` is dot-free, empty exactly for nil, and reads back as the value (nil as 0) |
| CalVer.PaddedReadsBack | calver.rb:20 | a padded field is non-empty and dot-free, reads back as its value (nil as 0), and pads nil like 0 ("00") |
| CalVer.ToS | calver.rb:19-22 | `Revision#to_s`: `ParseOfToS` and `RoundTrip` read it back, `FormatIdempotent` shows formatting is stable, `ToSIsJoin` ties it to `join` |
| CalVer.ToSIsJoin | calver.rb:19-22 | `to_s` is the chomped dot-join of the padded year and month and the plain count and hotfix |
| CalVer.ParseOfToS | calver.rb:11-22 | parsing `to_s` gives the revision back, except that nil year and month read as 0 and a nil count before a hotfix reads as 0 |
| CalVer.RoundTrip | calver.rb:11-22 | a revision with year and month set and no nil before a set field parses back from its `to_s` unchanged |
| CalVer.FormatIdempotent | calver.rb:19-22 | formatting a re-parsed `to_s` yields the same text |
| CalVer.ToSOfMonthOnly | calver.rb:20-21 | with count and hotfix nil only one of the two trailing dots is removed |
| CalVer.ToSOfRelease | calver.rb:20-21 | with a count and no hotfix nothing is chomped |
| CalVer.ToSOfHotfixBuild | calver.rb:20-21 | with a count and a hotfix the text has four dotted pieces |
| CalVer.NewRevision | calver.rb:58-60 | `newRevision` equals the reference `Filled` on its arguments (nil before a set field becomes 0) |
| CalVer.NextVersion | calver.rb:24-29 | same year and month (nil as 0), count plus one (1 when nil), never a hotfix |
| CalVer.Hotfix | calver.rb:31-33 | same year, month and count (nil as 0), hotfix plus one (1 when nil), always `hotfix?` |
| CalVer.IsHotfix | calver.rb:35-37 | `hotfix?` holds exactly when the hotfix field is set: `Hotfix` always yields one and `NextVersion` never does |
| CalVer.DateNew | calver.rb:41 | `Date.new` succeeds exactly for months 1..12 and -12..-1, keeping the year; a nil month is a TypeError, a month outside the C int range a RangeError, any other month Date::Error |
| CalVer.NextMonth | calver.rb:41 | `>> 1` advances the month count (12 * year + month) by exactly one and stays in 1..12 |
| CalVer.MonthStart | calver.rb:39-43 | succeeds exactly when year and month are set and the month is valid (nil raises TypeError, a month outside the C int range RangeError, any other invalid month Date::Error); the result is the next month (12 * year + month grows by one) with count 1 and no hotfix |
| CalVer.MonthStartRollover | calver.rb:39-43 | for months 1..12: December goes to January of year + 1, with no wrap at 99; other months advance by one; count 1, hotfix nil |
| CalVer.CurrentMonth | calver.rb:45-47 | the month branch "YY.MM": `ParseCurrentMonth` reads it back, and `Grandparent` and `NextVersionParent` reach it from other branches |
| CalVer.ParentBranch | calver.rb:49-55 | the branch to branch off: `ParentBranchIsRelease` and `ParseParentBranch` state which fields it keeps |
| CalVer.ParseCurrentMonth | calver.rb:45-47 | the month branch parses to the revision's year and month with no count |
| CalVer.ParentBranchIsRelease | calver.rb:49-55 | the forced parent branch is the revision's own `to_s` with its hotfix removed |
| CalVer.ParseParentBranch | calver.rb:49-55 | a parent branch parses to no hotfix; it keeps the count when forced or for a hotfix and drops it otherwise |
| CalVer.Grandparent | calver.rb:110 | the parent branch of the parsed parent branch is the revision's month branch |
| CalVer.NextVersionParent | calver.rb:113 | the next version of any revision branches off the input's month branch |
| CalVer.HotfixParent | calver.rb:123 | a hotfix's parent is the forced parent of its input; with a nil count they differ ("YY.MM.0" against "YY.MM.") |
| CalVer.ParseExampleRelease | calver.rb:11-17 | "24.03.1" parses to 24, 3, 1, nil |
| CalVer.ParseExampleHotfix | calver.rb:11-17 | "24.03.2.1" parses to 24, 3, 2, 1 |
| CalVer.ParseExampleDecember | calver.rb:11-17 | "24.12.1" parses to 24, 12, 1, nil |
| CalVer.ParseExampleMonthOnly | calver.rb:11-17 | "24.03" parses with count and hotfix nil |
| CalVer.ParseExampleNonNumeric | calver.rb:12 | "24.x.1" reads the non-numeric month as 0 |
| CalVer.FormatExamples | calver.rb:19-22 | the texts of five releases, including year 100 |
| CalVer.FormatHotfixExamples | calver.rb:19-22 | the texts of two hotfix builds and of a revision without a count ("24.03.") |
| CalVer.BranchExamples | calver.rb:45-55 | month and parent branch names of example revisions |
| CalVer.ExampleRelease | calver.rb:24-29 | "24.03.1" is no hotfix, its next version is "24.03.2" and its parent "24.03" |
| CalVer.ExampleHotfix | calver.rb:31-37 | "24.03.2.1" is a hotfix of "24.03.2"; its next hotfix is "24.03.2.2" and its next version "24.03.3" |
| CalVer.ExampleMonthStart | calver.rb:39-43 | "24.12.1" starts "25.01.1"; December of 99 starts "100.01.1" |
| CalVer.ExampleMonthOnly | calver.rb:31-33 | "24.03" prints as "24.03.", its forced parent is "24.03." and its hotfix is "24.03.0.1" |
| Cli.ModeNamed | calver.rb:63-70 | a name selects a mode exactly when it is in `MODES`, and that mode's name is the name |
| Cli.ParseModes | calver.rb:69-75 | all values valid: the last one wins (none: no mode); otherwise the first invalid value raises |
| Cli.Dispatch | calver.rb:102-133 | `case options[:mode]`: `HelpPrintsNothing`, `HotfixNeedsArgument`, `LastArgumentWins`, `NoArgumentMeansToday`, `MonthStartTodayCompletes` and `NextVersionCaution` state its outcomes |
| Cli.Run | calver.rb:66-133 | an invalid `--mode` raises before anything is printed; otherwise the dispatch of the last mode runs |
| Cli.InvalidModeStops | calver.rb:69-75 | `nextVersion`, `bogus`, `hotfix` raises on "bogus" and prints nothing |
| Cli.ToIOfTwoDigits | calver.rb:105 | a two-digit field of `strftime` reads back as its number |
| Cli.DefaultRevisionString | calver.rb:105 | today's "%y.%m.1": `DefaultRevisionPieces` gives its pieces and `DefaultRevision` what it parses to |
| Cli.InputRevision | calver.rb:104-108 | the input revision is the last argument's, or today's without one: `DefaultRevision`, `LastArgumentWins` and `NoArgumentMeansToday` |
| Cli.DefaultRevisionPieces | calver.rb:105 | today's "%y.%m.1" is the join of the two-digit year, the two-digit month and "1" |
| Cli.DefaultRevision | calver.rb:104-105 | without an argument the input is the current year mod 100, the current month, count 1, no hotfix |
| Cli.HelpPrintsNothing | calver.rb:102-133 | `help` or no mode prints nothing and completes |
| Cli.HotfixNeedsArgument | calver.rb:116-120 | hotfix mode exits 1 exactly when there is no argument, printing the one message |
| Cli.LastArgumentWins | calver.rb:121 | only the last positional argument matters, in every mode |
| Cli.NoArgumentMeansToday | calver.rb:104-108 | nextVersion and monthStart without an argument behave as with today's "YY.MM.1" |
| Cli.MonthStartTodayCompletes | calver.rb:126-132 | monthStart on today's date never raises and prints one line |
| Cli.NextVersionCaution | calver.rb:109-114 | nextVersion completes and prints two lines exactly for a hotfix input, whose grandparent is the month branch |
| Cli.NextVersionLineCount | calver.rb:109-114 | the nextVersion instructions are two lines for a hotfix and one otherwise |
| Cli.NextVersionLines | calver.rb:109-114 | the nextVersion instructions: `NextVersionLineCount` counts them, `ExampleNextVersionRun` shows one |
| Cli.HotfixMergeLine | calver.rb:110 | the exact text printed first for a hotfix input; `Grandparent` shows its second branch is the month branch |
| Cli.CautionLine | calver.rb:111 | the exact caution text printed second for a hotfix input; `NextVersionCaution` shows it is printed only then |
| Cli.ReleaseMergeLine | calver.rb:113 | the exact text printed for an input that is no hotfix; `ExampleNextVersionRun` shows one |
| Cli.HotfixLine | calver.rb:116-123 | the exact hotfix instruction; without an argument `HotfixNeedsArgument` shows the constant `NeedVersionMessage` is printed instead, and `ExampleHotfixRun` shows one |
| Cli.MonthStartLine | calver.rb:126-132 | the exact monthStart instruction; `MonthStartTodayCompletes` shows it is printed for today's date |
| Cli.ExampleHotfixRun | calver.rb:123 | `--mode=hotfix 24.03.2.1` prints the branch-off instruction for "24.03.2.2" from "24.03.2" |
| Cli.ExampleNextVersionRun | calver.rb:113 | `--mode=nextVersion 24.03.1` prints the tag-and-branch instruction for "24.03.2" |

## Left out

- OptionParser itself is not modelled (calver.rb:66-100). The model covers what its `--mode` handler decides. Unknown options, a `--mode` without a value, and the order of `--mode` relative to `--help` are left out.
- The `--help` usage text (calver.rb:76-98) is left out. It is fixed text that embeds the script's file name and the clock.
- `puts` and `exit` are not performed. `Dispatch` returns the printed lines and an exit status in an `Outcome`.
- `Time.now` is not read. Today's year and month are the `Today` parameter.
- Exception messages are left out. Only the kind of exception is modelled: the invalid mode value, a TypeError, a RangeError, or Date::Error.
- Ruby's `Date` is modelled only through what `monthStart` uses: building the first of a month from a year and a month, and adding one month. Days, the calendar reform and non-integer arguments are left out.
- `ARGV.pop` mutates `ARGV`; the model reads the last element, since nothing reads `ARGV` afterwards.
- RubyStrings.ToI: models `String#to_i` as an optional sign followed by the longest run of digits, or 0. It does not model leading whitespace or '_' between digits ("1_0".to_i is 10 in Ruby).
- CalVer.RoundTrip: requires that no field is nil while a later one is set, in addition to year and month being set. Without that, `to_s` of a revision with a nil count and a hotfix reads the count back as 0, as `ParseOfToS` states. No parsed or derived revision has that shape, as `Parse`, `NextVersion` and `Hotfix` guarantee.
- Integers are unbounded, as Ruby's are.
