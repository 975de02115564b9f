/**
 * The `Revision` value type of calver.rb: a calendar version `YY.MM.REV[.HOTFIX]`
 * read from a dotted string into four fields that may each be nil, written back
 * out, and the revisions and branch names derived from it.
 */
module CalVer {
  import opened Wrappers
  import opened RubyStrings

  /** year, month, revision count and hotfix count; `None` is Ruby's nil. */
  datatype Revision = Revision(year: Option<int>, month: Option<int>, revCount: Option<int>, hotfix: Option<int>)

  /** No field is nil while a later one is set: the shape every parsed revision has. */
  predicate Contiguous(r: Revision) {
    && (r.hotfix.Some? ==> r.revCount.Some?)
    && (r.revCount.Some? ==> r.month.Some?)
    && (r.month.Some? ==> r.year.Some?)
  }

  /**
   * The revision whose fields are `y`, `m`, `rc`, `h`, except that a nil field
   * followed by a set one reads as 0 (an empty piece between two dots).
   */
  function Filled(y: Option<int>, m: Option<int>, rc: Option<int>, h: Option<int>): Revision {
    var rc' := if h.Some? then Some(rc.GetOr(0)) else rc;
    var m' := if rc'.Some? then Some(m.GetOr(0)) else m;
    var y' := if m'.Some? then Some(y.GetOr(0)) else y;
    Revision(y', m', rc', h)
  }

  // ---------------------------------------------------------------------
  // Revision.new
  // ---------------------------------------------------------------------

  /** The `i`-th piece read with `to_i`, or nil when there are fewer pieces. */
  function Piece(dots: seq<string>, i: nat): Option<int> {
    if i < |dots| then Some(ToI(dots[i])) else None
  }

  /** `Revision.new(revString)` */
  function Parse(revString: string): (r: Revision)
    ensures Contiguous(r)
  {
    var dots := Split(revString);
    Revision(Piece(dots, 0), Piece(dots, 1), Piece(dots, 2), Piece(dots, 3))
  }

  /**
   * Pieces 0 to 3 of a dotted string become year, month, revision count and
   * hotfix, each through `to_i`; missing pieces are nil and pieces past the
   * fourth are ignored.
   */
  lemma ParsePieces(pieces: seq<string>)
    requires |pieces| >= 1 && AllDotFree(pieces) && pieces[|pieces| - 1] != ""
    ensures Parse(Join(pieces)) ==
      Revision(Piece(pieces, 0), Piece(pieces, 1), Piece(pieces, 2), Piece(pieces, 3))
  {
    SplitJoin(pieces);
  }

  /** Parsing a chomped join reads the pieces left after dropping trailing empty ones. */
  lemma ParseChompJoin(pieces: seq<string>)
    requires |pieces| >= 1 && AllDotFree(pieces)
    ensures var dots := DropTrailingEmpty(pieces);
      Parse(Chomp(Join(pieces))) == Revision(Piece(dots, 0), Piece(dots, 1), Piece(dots, 2), Piece(dots, 3))
  {
    SplitChomp(Join(pieces));
    SplitJoin(pieces);
  }

  /**
   * The shared step behind `to_s` and `newRevision`: four pieces, each empty
   * exactly when its field is nil and otherwise read back by `to_i`, joined
   * with '.', chomped and parsed again.
   */
  lemma ParseOfJoined(a: string, b: string, c: string, d: string,
                       fa: Option<int>, fb: Option<int>, fc: Option<int>, fd: Option<int>)
    requires DotFree(a) && DotFree(b) && DotFree(c) && DotFree(d)
    requires (a == "" <==> fa.None?) && (b == "" <==> fb.None?)
    requires (c == "" <==> fc.None?) && (d == "" <==> fd.None?)
    requires ToI(a) == fa.GetOr(0) && ToI(b) == fb.GetOr(0) && ToI(c) == fc.GetOr(0) && ToI(d) == fd.GetOr(0)
    ensures Parse(Chomp(Join([a, b, c, d]))) == Filled(fa, fb, fc, fd)
  {
    ParseChompJoin([a, b, c, d]);
    DropTrailingOfFour(a, b, c, d);
  }

  // ---------------------------------------------------------------------
  // to_s
  // ---------------------------------------------------------------------

  /** `"#{f}"`: a number's digits, or nothing for nil. */
  function Interpolated(f: Option<int>): string {
    match f
    case None => ""
    case Some(n) => IntToString(n)
  }

  /** `f.to_s.rjust(2, "0")`, which turns nil into "00". */
  function Padded(f: Option<int>): (s: string)
    ensures |s| >= 2
  {
    Rjust2(Interpolated(f))
  }

  /** `Revision#to_s` */
  function ToS(r: Revision): string {
    Chomp(Padded(r.year) + "." + Padded(r.month) + "." + Interpolated(r.revCount) + "." + Interpolated(r.hotfix))
  }

  lemma InterpolatedReadsBack(f: Option<int>)
    ensures DotFree(Interpolated(f))
    ensures Interpolated(f) == "" <==> f.None?
    ensures ToI(Interpolated(f)) == f.GetOr(0)
  {
    if f.Some? {
      ToIOfIntToString(f.value, []);
      assert IntToString(f.value) + [] == IntToString(f.value);
    }
  }

  lemma PaddedReadsBack(f: Option<int>)
    ensures DotFree(Padded(f)) && Padded(f) != ""
    ensures ToI(Padded(f)) == f.GetOr(0)
    ensures Padded(Some(f.GetOr(0))) == Padded(f)
  {
    InterpolatedReadsBack(f);
    var s, p := Interpolated(f), Padded(f);
    Rjust2Shape(s);
    forall i | 0 <= i < |p| ensures p[i] != '.' {
      if i >= |p| - |s| {
        assert p[i] == p[|p| - |s|..][i - (|p| - |s|)];
      }
    }
    if f.Some? {
      ToIOfPadded(f.value);
    } else {
      assert Interpolated(Some(0)) == "0";
    }
  }

  lemma ToSIsJoin(r: Revision)
    ensures ToS(r) == Chomp(Join([Padded(r.year), Padded(r.month), Interpolated(r.revCount), Interpolated(r.hotfix)]))
  {
    var a, b, c, d := Padded(r.year), Padded(r.month), Interpolated(r.revCount), Interpolated(r.hotfix);
    var ps := [a, b, c, d];
    assert ps[..3] == [a, b, c] && [a, b, c][..2] == [a, b] && [a, b][..1] == [a];
    assert Join([a, b]) == a + "." + b;
    assert Join([a, b, c]) == a + "." + b + "." + c;
  }

  /**
   * Reading back what `to_s` wrote: nil year and month come back as 0 (they
   * were written "00"), the other fields come back as they were, except a nil
   * revision count before a hotfix, which comes back as 0.
   */
  lemma {:induction false} ParseOfToS(r: Revision)
    ensures Parse(ToS(r)) == Filled(Some(r.year.GetOr(0)), Some(r.month.GetOr(0)), r.revCount, r.hotfix)
  {
    ToSIsJoin(r);
    PaddedReadsBack(r.year);
    PaddedReadsBack(r.month);
    InterpolatedReadsBack(r.revCount);
    InterpolatedReadsBack(r.hotfix);
    ParseOfJoined(Padded(r.year), Padded(r.month), Interpolated(r.revCount), Interpolated(r.hotfix),
                  Some(r.year.GetOr(0)), Some(r.month.GetOr(0)), r.revCount, r.hotfix);
  }

  /** Round trip: a revision with year and month set parses back from its own `to_s`. */
  lemma RoundTrip(r: Revision)
    requires Contiguous(r) && r.month.Some?
    ensures Parse(ToS(r)) == r
  {
    ParseOfToS(r);
  }

  /** Formatting is idempotent: `to_s` of the re-parsed `to_s` is the same string. */
  lemma FormatIdempotent(r: Revision)
    requires Contiguous(r)
    ensures ToS(Parse(ToS(r))) == ToS(r)
  {
    ParseOfToS(r);
    PaddedReadsBack(r.year);
    PaddedReadsBack(r.month);
  }

  /**
   * With both revision count and hotfix nil, only one of the two trailing dots
   * is chomped: the text ends in '.'.
   */
  lemma ToSOfMonthOnly(r: Revision)
    requires r.revCount.None? && r.hotfix.None?
    ensures ToS(r) == Padded(r.year) + "." + Padded(r.month) + "."
  {
  }

  // ---------------------------------------------------------------------
  // newRevision and the derived revisions
  // ---------------------------------------------------------------------

  /**
   * `newRevision(year, month, revcount, hotfix)`: joins the four fields with
   * '.', chomps one trailing '.' and parses the text again.
   */
  function NewRevision(y: Option<int>, m: Option<int>, rc: Option<int>, h: Option<int>): (r: Revision)
    ensures r == Filled(y, m, rc, h)
  {
    InterpolatedReadsBack(y);
    InterpolatedReadsBack(m);
    InterpolatedReadsBack(rc);
    InterpolatedReadsBack(h);
    ParseOfJoined(Interpolated(y), Interpolated(m), Interpolated(rc), Interpolated(h), y, m, rc, h);
    Parse(Chomp(Join([Interpolated(y), Interpolated(m), Interpolated(rc), Interpolated(h)])))
  }

  /** `hotfix?` */
  predicate IsHotfix(r: Revision) {
    r.hotfix.Some?
  }

  /**
   * `nextVersion`: same year and month, revision count one higher (1 when it
   * was nil), hotfix dropped.
   */
  function NextVersion(r: Revision): (n: Revision)
    ensures n.year == Some(r.year.GetOr(0)) && n.month == Some(r.month.GetOr(0))
    ensures n.revCount == Some(if r.revCount.None? then 1 else r.revCount.value + 1)
    ensures !IsHotfix(n) && Contiguous(n)
  {
    NewRevision(r.year, r.month, Some(if r.revCount.None? then 1 else r.revCount.value + 1), None)
  }

  /**
   * `hotfix`: same year, month and revision count (a nil count becomes 0
   * through the re-parse), hotfix count one higher (1 when it was nil).
   */
  function Hotfix(r: Revision): (n: Revision)
    ensures n.year == Some(r.year.GetOr(0)) && n.month == Some(r.month.GetOr(0))
    ensures n.revCount == Some(r.revCount.GetOr(0))
    ensures n.hotfix == Some(if r.hotfix.None? then 1 else r.hotfix.value + 1)
    ensures IsHotfix(n) && Contiguous(n)
  {
    NewRevision(r.year, r.month, r.revCount, Some(if r.hotfix.None? then 1 else r.hotfix.value + 1))
  }

  // ---------------------------------------------------------------------
  // monthStart
  // ---------------------------------------------------------------------

  /** What Ruby raises where `monthStart` cannot build its date. */
  datatype DateError =
    | TypeError    // nil year or month handed to arithmetic or to Date.new
    | RangeError   // a month that does not fit the C int Date.new converts it to
    | InvalidDate  // Date::Error: a month outside 1..12 and -12..-1

  /** Whether `m` fits a 32-bit C int, the type `Date.new` converts a month to. */
  predicate IsCInt(m: int) {
    -0x8000_0000 <= m <= 0x7fff_ffff
  }

  /** The first day of a calendar month. */
  datatype Date = Date(year: int, month: int)

  /**
   * `Date.new(year, month)`: months 1 to 12, or -12 to -1 counted back from
   * December. Nil is a type error; a month is first converted to a C int,
   * which fails with a range error, and any other month is an invalid date.
   */
  function DateNew(year: int, month: Option<int>): (d: Result<Date, DateError>)
    ensures d.Success? ==> d.value.year == year && 1 <= d.value.month <= 12
    ensures d.Success? <==> month.Some? && (1 <= month.value <= 12 || -12 <= month.value <= -1)
    ensures month.None? ==> d == Failure(TypeError)
    ensures month.Some? && !IsCInt(month.value) ==> d == Failure(RangeError)
    ensures month.Some? && IsCInt(month.value) && !(1 <= month.value <= 12 || -12 <= month.value <= -1) ==>
      d == Failure(InvalidDate)
  {
    match month
    case None => Failure(TypeError)
    case Some(m) =>
      if !IsCInt(m) then Failure(RangeError)
      else if 1 <= m <= 12 then Success(Date(year, m))
      else if -12 <= m <= -1 then Success(Date(year, m + 13))
      else Failure(InvalidDate)
  }

  /** `date >> 1`: the month after. */
  function NextMonth(d: Date): (n: Date)
    requires 1 <= d.month <= 12
    ensures 1 <= n.month <= 12
    ensures 12 * n.year + n.month == 12 * d.year + d.month + 1
  {
    if d.month == 12 then Date(d.year + 1, 1) else Date(d.year, d.month + 1)
  }

  /**
   * `monthStart`: revision 1 of the following month. The year is the
   * two-digit year plus 2000 and back, so 99 becomes 100: there is no wrap.
   */
  function MonthStart(r: Revision): (n: Result<Revision, DateError>)
    ensures n.Success? <==>
      r.year.Some? && r.month.Some? && (1 <= r.month.value <= 12 || -12 <= r.month.value <= -1)
    ensures (r.year.None? || r.month.None?) ==> n == Failure(TypeError)
    ensures r.year.Some? && r.month.Some? && !IsCInt(r.month.value) ==> n == Failure(RangeError)
    ensures r.year.Some? && r.month.Some? && IsCInt(r.month.value) ==>
      (1 <= r.month.value <= 12 || -12 <= r.month.value <= -1) || n == Failure(InvalidDate)
    ensures n.Success? ==>
      var s := n.value;
      var m := if r.month.value < 0 then r.month.value + 13 else r.month.value;
      && s.year.Some? && s.month.Some? && 1 <= s.month.value <= 12
      && 12 * s.year.value + s.month.value == 12 * r.year.value + m + 1
      && s.revCount == Some(1) && s.hotfix.None?
  {
    if r.year.None? then Failure(TypeError)
    else
      match DateNew(2000 + r.year.value, r.month)
      case Failure(e) => Failure(e)
      case Success(d) =>
        var n := NextMonth(d);
        Success(NewRevision(Some(n.year - 2000), Some(n.month), Some(1), None))
  }

  /** A month count `12 * year + month` with the month in 1..12 names one year and month. */
  lemma MonthCountUnique(y: int, m: int, y': int, m': int)
    requires 1 <= m <= 12 && 1 <= m' <= 12 && 12 * y + m == 12 * y' + m'
    ensures y == y' && m == m'
  {
  }

  /** December rolls over to January of the next year, with no wrap at 99; other months advance by one. */
  lemma MonthStartRollover(y: int, m: int, rc: Option<int>, h: Option<int>)
    requires 1 <= m <= 12
    ensures MonthStart(Revision(Some(y), Some(m), rc, h)) ==
      Success(if m == 12 then Revision(Some(y + 1), Some(1), Some(1), None)
              else Revision(Some(y), Some(m + 1), Some(1), None))
  {
    var n := MonthStart(Revision(Some(y), Some(m), rc, h));
    var s := n.value;
    var y', m' := if m == 12 then y + 1 else y, if m == 12 then 1 else m + 1;
    MonthCountUnique(s.year.value, s.month.value, y', m');
    assert s == Revision(Some(y'), Some(m'), Some(1), None);
    assert n == Success(s);
  }

  // ---------------------------------------------------------------------
  // branch names
  // ---------------------------------------------------------------------

  /** `currentMonth`: "YY.MM". */
  function CurrentMonth(r: Revision): string {
    Padded(r.year) + "." + Padded(r.month)
  }

  /**
   * `parentBranch(forceHotfix)`: "YY.MM.REV" for a hotfix (or when forced),
   * "YY.MM" otherwise. A nil revision count leaves a trailing '.'.
   */
  function ParentBranch(r: Revision, forceHotfix: bool): string {
    if forceHotfix || IsHotfix(r) then
      Padded(r.year) + "." + Padded(r.month) + "." + Interpolated(r.revCount)
    else
      Padded(r.year) + "." + Padded(r.month)
  }

  /** The month branch parses to the revision's year and month (nil read as 0). */
  lemma ParseCurrentMonth(r: Revision)
    ensures Parse(CurrentMonth(r)) == Revision(Some(r.year.GetOr(0)), Some(r.month.GetOr(0)), None, None)
  {
    PaddedReadsBack(r.year);
    PaddedReadsBack(r.month);
    ParsePieces([Padded(r.year), Padded(r.month)]);
    assert [Padded(r.year), Padded(r.month)][..1] == [Padded(r.year)];
  }

  /**
   * The forced parent branch is the name of the release being patched: the
   * revision's own `to_s` with its hotfix dropped.
   */
  lemma ParentBranchIsRelease(r: Revision)
    ensures ParentBranch(r, true) == ToS(r.(hotfix := None))
  {
  }

  /** A parent branch names no hotfix, and keeps the revision's year, month and (when shown) count. */
  lemma {:induction false} ParseParentBranch(r: Revision, forceHotfix: bool)
    ensures Parse(ParentBranch(r, forceHotfix)) ==
      if forceHotfix || IsHotfix(r) then Revision(Some(r.year.GetOr(0)), Some(r.month.GetOr(0)), r.revCount, None)
      else Revision(Some(r.year.GetOr(0)), Some(r.month.GetOr(0)), None, None)
  {
    if forceHotfix || IsHotfix(r) {
      var r' := r.(hotfix := None);
      ParentBranchIsRelease(r);
      ParseOfToS(r');
    } else {
      ParseCurrentMonth(r);
    }
  }

  /**
   * The branch a hotfix's parent branch merges into ("grandparent") is the
   * revision's month branch.
   */
  lemma Grandparent(r: Revision, forceHotfix: bool)
    ensures ParentBranch(Parse(ParentBranch(r, forceHotfix)), false) == CurrentMonth(r)
  {
    ParseParentBranch(r, forceHotfix);
    PaddedReadsBack(r.year);
    PaddedReadsBack(r.month);
  }

  /** The next version of any revision branches off its month branch. */
  lemma NextVersionParent(r: Revision)
    ensures ParentBranch(NextVersion(r), false) == CurrentMonth(r)
  {
    PaddedReadsBack(r.year);
    PaddedReadsBack(r.month);
  }

  /**
   * A hotfix branches off the release it patches; when that release had no
   * revision count, the hotfix's parent is "YY.MM.0" and not the forced
   * parent "YY.MM.".
   */
  lemma HotfixParent(r: Revision)
    requires r.year.Some? && r.month.Some?
    ensures r.revCount.Some? ==> ParentBranch(Hotfix(r), false) == ParentBranch(r, true)
    ensures r.revCount.None? ==> ParentBranch(Hotfix(r), false) == CurrentMonth(r) + ".0" &&
                                 ParentBranch(r, true) == CurrentMonth(r) + "."
  {
    var n := Hotfix(r);
    assert n.year == r.year && n.month == r.month && IsHotfix(n);
    var pre := Padded(r.year) + "." + Padded(r.month);
    assert ParentBranch(n, false) == pre + "." + Interpolated(n.revCount);
    assert ParentBranch(r, true) == pre + "." + Interpolated(r.revCount);
    if r.revCount.None? {
      assert Interpolated(Some(0)) == "0";
    }
  }

  // ---------------------------------------------------------------------
  // worked examples
  // ---------------------------------------------------------------------

  /** `to_s` of a revision with a count and no hotfix: nothing is chomped. */
  lemma ToSOfRelease(r: Revision)
    requires r.revCount.Some? && r.hotfix.None?
    ensures ToS(r) == Padded(r.year) + "." + Padded(r.month) + "." + IntToString(r.revCount.value)
  {
  }

  /** `to_s` of a hotfix build with a count: nothing is chomped. */
  lemma ToSOfHotfixBuild(r: Revision)
    requires r.revCount.Some? && r.hotfix.Some?
    ensures ToS(r) == Padded(r.year) + "." + Padded(r.month) + "." + IntToString(r.revCount.value) + "." + IntToString(r.hotfix.value)
  {
  }

  lemma SmallNumerals()
    ensures IntToString(0) == "0" && IntToString(1) == "1" && IntToString(2) == "2" && IntToString(3) == "3"
  {
  }

  lemma LargeNumerals()
    ensures IntToString(12) == "12" && IntToString(24) == "24" && IntToString(25) == "25" && IntToString(100) == "100"
  {
    assert NatToString(10) == "10";
  }

  lemma PaddedNumerals()
    ensures Padded(Some(24)) == "24" && Padded(Some(25)) == "25" && Padded(Some(100)) == "100"
    ensures Padded(Some(3)) == "03" && Padded(Some(1)) == "01" && Padded(Some(12)) == "12"
  {
    SmallNumerals();
    LargeNumerals();
  }

  lemma ReadYear()
    ensures ToI("24") == 24
  {
    LargeNumerals();
    ToIOfPadded(24);
  }

  lemma ReadMonths()
    ensures ToI("03") == 3 && ToI("12") == 12
  {
    PaddedNumerals();
    ToIOfPadded(3);
    ToIOfPadded(12);
  }

  lemma ReadCounts()
    ensures ToI("1") == 1 && ToI("2") == 2
  {
    SmallNumerals();
    ToIOfPadded(1);
    ToIOfPadded(2);
  }

  lemma ParseExampleRelease()
    ensures Parse("24.03.1") == Revision(Some(24), Some(3), Some(1), None)
  {
    ReadYear();
    ReadMonths();
    ReadCounts();
    JoinThree("24", "03", "1");
    assert Join(["24", "03", "1"]) == "24.03.1";
    ParsePieces(["24", "03", "1"]);
  }

  lemma ParseExampleHotfix()
    ensures Parse("24.03.2.1") == Revision(Some(24), Some(3), Some(2), Some(1))
  {
    ReadYear();
    ReadMonths();
    ReadCounts();
    JoinFour("24", "03", "2", "1");
    assert Join(["24", "03", "2", "1"]) == "24.03.2.1";
    ParsePieces(["24", "03", "2", "1"]);
  }

  lemma ParseExampleDecember()
    ensures Parse("24.12.1") == Revision(Some(24), Some(12), Some(1), None)
  {
    ReadYear();
    ReadMonths();
    ReadCounts();
    JoinThree("24", "12", "1");
    assert Join(["24", "12", "1"]) == "24.12.1";
    ParsePieces(["24", "12", "1"]);
  }

  /** "24.03" has no revision count and no hotfix. */
  lemma ParseExampleMonthOnly()
    ensures Parse("24.03") == Revision(Some(24), Some(3), None, None)
  {
    ReadYear();
    ReadMonths();
    JoinTwo("24", "03");
    assert Join(["24", "03"]) == "24.03";
    ParsePieces(["24", "03"]);
  }

  /** A non-numeric piece reads as 0. */
  lemma ParseExampleNonNumeric()
    ensures Parse("24.x.1") == Revision(Some(24), Some(0), Some(1), None)
  {
    ReadYear();
    ReadCounts();
    ToINonNumeric("x");
    JoinThree("24", "x", "1");
    assert Join(["24", "x", "1"]) == "24.x.1";
    ParsePieces(["24", "x", "1"]);
  }

  lemma FormatExamples()
    ensures ToS(Revision(Some(24), Some(3), Some(1), None)) == "24.03.1"
    ensures ToS(Revision(Some(24), Some(3), Some(2), None)) == "24.03.2"
    ensures ToS(Revision(Some(24), Some(3), Some(3), None)) == "24.03.3"
    ensures ToS(Revision(Some(25), Some(1), Some(1), None)) == "25.01.1"
    ensures ToS(Revision(Some(100), Some(1), Some(1), None)) == "100.01.1"
  {
    PaddedNumerals();
    SmallNumerals();
    ToSOfRelease(Revision(Some(24), Some(3), Some(1), None));
    ToSOfRelease(Revision(Some(24), Some(3), Some(2), None));
    ToSOfRelease(Revision(Some(24), Some(3), Some(3), None));
    ToSOfRelease(Revision(Some(25), Some(1), Some(1), None));
    ToSOfRelease(Revision(Some(100), Some(1), Some(1), None));
  }

  lemma FormatHotfixExamples()
    ensures ToS(Revision(Some(24), Some(3), Some(2), Some(2))) == "24.03.2.2"
    ensures ToS(Revision(Some(24), Some(3), Some(0), Some(1))) == "24.03.0.1"
    ensures ToS(Revision(Some(24), Some(3), None, None)) == "24.03."
  {
    PaddedNumerals();
    SmallNumerals();
    ToSOfHotfixBuild(Revision(Some(24), Some(3), Some(2), Some(2)));
    ToSOfHotfixBuild(Revision(Some(24), Some(3), Some(0), Some(1)));
  }

  lemma BranchExamples()
    ensures CurrentMonth(Revision(Some(24), Some(3), Some(1), None)) == "24.03"
    ensures ParentBranch(Revision(Some(24), Some(3), Some(1), None), false) == "24.03"
    ensures ParentBranch(Revision(Some(24), Some(3), Some(2), Some(1)), false) == "24.03.2"
    ensures ParentBranch(Revision(Some(24), Some(3), Some(2), Some(1)), true) == "24.03.2"
    ensures ParentBranch(Revision(Some(24), Some(3), None, None), true) == "24.03."
  {
    PaddedNumerals();
    SmallNumerals();
  }

  /** "24.03.1" is not a hotfix; its next version is "24.03.2" and its parent is "24.03". */
  lemma ExampleRelease()
    ensures !IsHotfix(Parse("24.03.1"))
    ensures ToS(Parse("24.03.1")) == "24.03.1"
    ensures ToS(NextVersion(Parse("24.03.1"))) == "24.03.2"
    ensures CurrentMonth(Parse("24.03.1")) == "24.03"
    ensures ParentBranch(Parse("24.03.1"), false) == "24.03"
  {
    ParseExampleRelease();
    assert NextVersion(Revision(Some(24), Some(3), Some(1), None)) == Revision(Some(24), Some(3), Some(2), None);
    FormatExamples();
    BranchExamples();
  }

  /**
   * "24.03.2.1" is a hotfix of release "24.03.2", which is its parent
   * branch; the next hotfix is "24.03.2.2" and the next version "24.03.3".
   */
  lemma ExampleHotfix()
    ensures IsHotfix(Parse("24.03.2.1"))
    ensures ParentBranch(Parse("24.03.2.1"), false) == "24.03.2"
    ensures ParentBranch(Parse("24.03.2.1"), true) == "24.03.2"
    ensures ToS(Hotfix(Parse("24.03.2.1"))) == "24.03.2.2"
    ensures ToS(NextVersion(Parse("24.03.2.1"))) == "24.03.3"
  {
    ParseExampleHotfix();
    assert Hotfix(Revision(Some(24), Some(3), Some(2), Some(1))) == Revision(Some(24), Some(3), Some(2), Some(2));
    assert NextVersion(Revision(Some(24), Some(3), Some(2), Some(1))) == Revision(Some(24), Some(3), Some(3), None);
    FormatExamples();
    FormatHotfixExamples();
    BranchExamples();
  }

  /** December of '24 starts January of '25; December of '99 starts year "100". */
  lemma ExampleMonthStart()
    ensures MonthStart(Parse("24.12.1")).Success?
    ensures ToS(MonthStart(Parse("24.12.1")).value) == "25.01.1"
    ensures ToS(MonthStart(Revision(Some(99), Some(12), Some(3), None)).value) == "100.01.1"
  {
    ParseExampleDecember();
    MonthStartRollover(24, 12, Some(1), None);
    MonthStartRollover(99, 12, Some(3), None);
    FormatExamples();
  }

  /**
   * "24.03" has no revision count, so it prints as "24.03.", its forced
   * parent is "24.03." and its hotfix is "24.03.0.1".
   */
  lemma ExampleMonthOnly()
    ensures ToS(Parse("24.03")) == "24.03."
    ensures ParentBranch(Parse("24.03"), true) == "24.03."
    ensures ToS(Hotfix(Parse("24.03"))) == "24.03.0.1"
  {
    ParseExampleMonthOnly();
    assert Hotfix(Revision(Some(24), Some(3), None, None)) == Revision(Some(24), Some(3), Some(0), Some(1));
    FormatHotfixExamples();
    BranchExamples();
  }
}
