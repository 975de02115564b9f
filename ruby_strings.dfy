/**
 * The pieces of Ruby's String, Array and Integer behaviour that the CalVer
 * revision type relies on: `String#split(".")`, `Array#join(".")`,
 * `String#chomp(".")`, `String#rjust(2, "0")`, `String#to_i` and
 * `Integer#to_s`. Strings are sequences of characters.
 */
module RubyStrings {

  predicate IsDigit(c: char) {
    '0' <= c <= '9'
  }

  predicate AllDigits(s: string) {
    forall i :: 0 <= i < |s| ==> IsDigit(s[i])
  }

  predicate DotFree(s: string) {
    forall i :: 0 <= i < |s| ==> s[i] != '.'
  }

  predicate AllDotFree(pieces: seq<string>) {
    forall k :: 0 <= k < |pieces| ==> DotFree(pieces[k])
  }

  // ---------------------------------------------------------------------
  // split and join
  // ---------------------------------------------------------------------

  /**
   * Cutting `s` at every '.', keeping every piece, empty ones included:
   * k dots give k + 1 pieces.
   */
  function SplitAll(s: string): (pieces: seq<string>)
    ensures |pieces| >= 1
    decreases |s|
  {
    if s == [] then [""]
    else
      var init, c := s[..|s| - 1], s[|s| - 1];
      if c == '.' then SplitAll(init) + [""]
      else
        var r := SplitAll(init);
        r[..|r| - 1] + [r[|r| - 1] + [c]]
  }

  /** Ruby's `split` with no limit removes the empty pieces at the end. */
  function DropTrailingEmpty(pieces: seq<string>): (r: seq<string>)
    ensures r <= pieces
    ensures r == [] || r[|r| - 1] != ""
    ensures forall k :: |r| <= k < |pieces| ==> pieces[k] == ""
  {
    if |pieces| > 0 && pieces[|pieces| - 1] == "" then DropTrailingEmpty(pieces[..|pieces| - 1])
    else pieces
  }

  /** A trailing empty piece is dropped; a non-empty last piece stops the dropping. */
  lemma DropTrailingEmptySnoc(pieces: seq<string>, last: string)
    ensures DropTrailingEmpty(pieces + [last]) == if last == "" then DropTrailingEmpty(pieces) else pieces + [last]
  {
    assert (pieces + [last])[..|pieces|] == pieces;
  }

  lemma DropTrailingOfOne(a: string)
    ensures DropTrailingEmpty([a]) == if a == "" then [] else [a]
  {
  }

  lemma DropTrailingOfTwo(a: string, b: string)
    ensures DropTrailingEmpty([a, b]) == if b == "" then DropTrailingEmpty([a]) else [a, b]
  {
    assert [a] + [b] == [a, b];
    DropTrailingEmptySnoc([a], b);
  }

  lemma DropTrailingOfThree(a: string, b: string, c: string)
    ensures DropTrailingEmpty([a, b, c]) == if c == "" then DropTrailingEmpty([a, b]) else [a, b, c]
  {
    assert [a, b] + [c] == [a, b, c];
    DropTrailingEmptySnoc([a, b], c);
  }

  lemma DropTrailingOfFour(a: string, b: string, c: string, d: string)
    ensures d != "" ==> DropTrailingEmpty([a, b, c, d]) == [a, b, c, d]
    ensures d == "" && c != "" ==> DropTrailingEmpty([a, b, c, d]) == [a, b, c]
    ensures d == "" && c == "" && b != "" ==> DropTrailingEmpty([a, b, c, d]) == [a, b]
    ensures d == "" && c == "" && b == "" && a != "" ==> DropTrailingEmpty([a, b, c, d]) == [a]
    ensures d == "" && c == "" && b == "" && a == "" ==> DropTrailingEmpty([a, b, c, d]) == []
  {
    assert [a, b, c] + [d] == [a, b, c, d];
    DropTrailingEmptySnoc([a, b, c], d);
    DropTrailingOfThree(a, b, c);
    DropTrailingOfTwo(a, b);
    DropTrailingOfOne(a);
  }

  /** `s.split(".")` */
  function Split(s: string): (pieces: seq<string>)
    ensures AllDotFree(pieces)
    ensures pieces == [] || pieces[|pieces| - 1] != ""
  {
    SplitAllDotFree(s);
    DropTrailingEmpty(SplitAll(s))
  }

  /** No piece of a split contains a dot. */
  lemma {:induction false} SplitAllDotFree(s: string)
    ensures AllDotFree(SplitAll(s))
    decreases |s|
  {
    if s != [] {
      var init, c := s[..|s| - 1], s[|s| - 1];
      SplitAllDotFree(init);
      var r := SplitAll(init);
      if c != '.' {
        var last := r[|r| - 1] + [c];
        assert DotFree(last) by {
          forall i | 0 <= i < |last| ensures last[i] != '.' {
            if i < |last| - 1 {
              assert last[i] == r[|r| - 1][i];
            }
          }
        }
        var p := r[..|r| - 1] + [last];
        forall k | 0 <= k < |p| ensures DotFree(p[k]) {
          if k < |p| - 1 {
            assert p[k] == r[k];
          }
        }
      }
    }
  }

  /** `pieces.join(".")` */
  function Join(pieces: seq<string>): string {
    if |pieces| == 0 then ""
    else if |pieces| == 1 then pieces[0]
    else Join(pieces[..|pieces| - 1]) + "." + pieces[|pieces| - 1]
  }

  /** `s.chomp(".")`: one trailing '.' is removed, and only one. */
  function Chomp(s: string): string {
    if |s| > 0 && s[|s| - 1] == '.' then s[..|s| - 1] else s
  }

  lemma {:induction false} SplitAllOfDotFree(s: string)
    requires DotFree(s)
    ensures SplitAll(s) == [s]
    decreases |s|
  {
    if s != [] {
      SplitAllOfDotFree(s[..|s| - 1]);
      assert s[..|s| - 1] + [s[|s| - 1]] == s;
    }
  }

  lemma {:induction false} SplitAllAfterDot(a: string, b: string)
    requires DotFree(b)
    ensures SplitAll(a + "." + b) == SplitAll(a) + [b]
    decreases |b|
  {
    var s := a + "." + b;
    if b == [] {
      assert s[..|s| - 1] == a;
    } else {
      var b' := b[..|b| - 1];
      assert s[..|s| - 1] == a + "." + b';
      assert s[|s| - 1] == b[|b| - 1];
      SplitAllAfterDot(a, b');
      assert b' + [b[|b| - 1]] == b;
    }
  }

  /** Splitting a join of dot-free pieces gives the pieces back. */
  lemma {:induction false} SplitAllJoin(pieces: seq<string>)
    requires |pieces| >= 1 && AllDotFree(pieces)
    ensures SplitAll(Join(pieces)) == pieces
  {
    var n := |pieces|;
    if n == 1 {
      SplitAllOfDotFree(pieces[0]);
    } else {
      var init := pieces[..n - 1];
      SplitAllJoin(init);
      SplitAllAfterDot(Join(init), pieces[n - 1]);
      assert init + [pieces[n - 1]] == pieces;
    }
  }

  /** Joining the pieces of a split gives the string back. */
  lemma {:induction false} JoinSplitAll(s: string)
    ensures Join(SplitAll(s)) == s
    decreases |s|
  {
    if s != [] {
      var init, c := s[..|s| - 1], s[|s| - 1];
      assert init + [c] == s;
      var r := SplitAll(init);
      JoinSplitAll(init);
      if c == '.' {
        JoinSnoc(r, "");
      } else {
        var p := r[..|r| - 1] + [r[|r| - 1] + [c]];
        assert SplitAll(s) == p;
        assert r[..|r| - 1] + [r[|r| - 1]] == r;
        JoinExtendLast(r[..|r| - 1], r[|r| - 1], c);
      }
    }
  }

  /** Appending a piece appends a dot and the piece. */
  lemma JoinSnoc(pieces: seq<string>, last: string)
    requires pieces != []
    ensures Join(pieces + [last]) == Join(pieces) + "." + last
  {
    assert (pieces + [last])[..|pieces|] == pieces;
  }

  /** Extending the last piece by a character extends the joined text. */
  lemma JoinExtendLast(init: seq<string>, last: string, c: char)
    ensures Join(init + [last + [c]]) == Join(init + [last]) + [c]
  {
    if init != [] {
      JoinSnoc(init, last + [c]);
      JoinSnoc(init, last);
    }
  }

  lemma JoinTwo(a: string, b: string)
    ensures Join([a, b]) == a + "." + b
  {
    assert [a, b][..1] == [a];
  }

  lemma JoinThree(a: string, b: string, c: string)
    ensures Join([a, b, c]) == a + "." + b + "." + c
  {
    assert [a, b, c][..2] == [a, b];
    JoinTwo(a, b);
  }

  lemma JoinFour(a: string, b: string, c: string, d: string)
    ensures Join([a, b, c, d]) == a + "." + b + "." + c + "." + d
  {
    assert [a, b, c, d][..3] == [a, b, c];
    JoinThree(a, b, c);
  }

  /** Ruby's `split(".")` of a join: the pieces up to the last non-empty one. */
  lemma SplitJoin(pieces: seq<string>)
    requires |pieces| >= 1 && AllDotFree(pieces)
    ensures Split(Join(pieces)) == DropTrailingEmpty(pieces)
  {
    SplitAllJoin(pieces);
  }

  /** Removing one trailing '.' never changes what `split(".")` returns. */
  lemma SplitChomp(s: string)
    ensures Split(Chomp(s)) == Split(s)
  {
    if |s| > 0 && s[|s| - 1] == '.' {
      var r := SplitAll(s[..|s| - 1]);
      assert (r + [""])[..|r|] == r;
    }
  }

  // ---------------------------------------------------------------------
  // rjust
  // ---------------------------------------------------------------------

  /** `s.rjust(2, "0")`: pads on the left with '0' up to width 2. */
  function Rjust2(s: string): (r: string)
    ensures |r| == if |s| < 2 then 2 else |s|
  {
    if |s| == 0 then "00"
    else if |s| == 1 then "0" + s
    else s
  }

  /** What `rjust` adds is '0's, on the left; `s` itself ends the result. */
  lemma Rjust2Shape(s: string)
    ensures Rjust2(s)[|Rjust2(s)| - |s|..] == s
    ensures forall i :: 0 <= i < |Rjust2(s)| - |s| ==> Rjust2(s)[i] == '0'
  {
  }

  // ---------------------------------------------------------------------
  // to_i and Integer#to_s
  // ---------------------------------------------------------------------

  function DigitValue(c: char): (d: nat)
    requires IsDigit(c)
    ensures d < 10
  {
    c as int - '0' as int
  }

  function DigitChar(d: nat): (c: char)
    requires d < 10
    ensures IsDigit(c) && DigitValue(c) == d
  {
    ('0' as int + d) as char
  }

  /** The longest prefix of `s` made of decimal digits. */
  function LeadingDigits(s: string): (d: string)
    ensures d <= s && AllDigits(d)
    ensures |d| == |s| || !IsDigit(s[|d|])
  {
    if s == [] || !IsDigit(s[0]) then [] else [s[0]] + LeadingDigits(s[1..])
  }

  /** The value of a decimal numeral (leading zeros allowed). */
  function DigitsValue(d: string): nat
    requires AllDigits(d)
  {
    if d == [] then 0 else DigitsValue(d[..|d| - 1]) * 10 + DigitValue(d[|d| - 1])
  }

  /**
   * `s.to_i`: an optional sign, then the longest run of digits; anything
   * that is not a number reads as 0.
   */
  function ToI(s: string): int {
    if |s| > 0 && s[0] == '-' then 0 - DigitsValue(LeadingDigits(s[1..]))
    else if |s| > 0 && s[0] == '+' then DigitsValue(LeadingDigits(s[1..]))
    else DigitsValue(LeadingDigits(s))
  }

  /** Decimal digits of `n`, without leading zeros. */
  function NatToString(n: nat): (s: string)
    ensures |s| >= 1 && AllDigits(s)
    ensures n >= 10 <==> |s| >= 2
  {
    if n < 10 then [DigitChar(n)] else NatToString(n / 10) + [DigitChar(n % 10)]
  }

  /** `n.to_s` */
  function IntToString(n: int): (s: string)
    ensures |s| >= 1 && DotFree(s)
    ensures |s| < 2 <==> 0 <= n < 10
  {
    if n < 0 then "-" + NatToString(-n) else NatToString(n)
  }

  lemma {:induction false} DigitsValueOfNatToString(n: nat)
    ensures DigitsValue(NatToString(n)) == n
  {
    if n >= 10 {
      var s := NatToString(n);
      DigitsValueOfNatToString(n / 10);
      assert s[..|s| - 1] == NatToString(n / 10);
    }
  }

  lemma {:induction false} LeadingDigitsOfNumeral(d: string, t: string)
    requires AllDigits(d)
    requires t == [] || !IsDigit(t[0])
    ensures LeadingDigits(d + t) == d
  {
    if d != [] {
      assert (d + t)[1..] == d[1..] + t;
      LeadingDigitsOfNumeral(d[1..], t);
    }
  }

  /** An unsigned numeral followed by a non-digit reads as its digits' value. */
  lemma ToIOfNumeral(d: string, t: string)
    requires d != [] && AllDigits(d)
    requires t == [] || !IsDigit(t[0])
    ensures ToI(d + t) == DigitsValue(d)
  {
    LeadingDigitsOfNumeral(d, t);
    assert (d + t)[0] == d[0];
  }

  /** A numeral after a minus sign reads as the negated value. */
  lemma ToIOfNegatedNumeral(d: string, t: string)
    requires AllDigits(d)
    requires t == [] || !IsDigit(t[0])
    ensures ToI("-" + d + t) == 0 - DigitsValue(d)
  {
    var s := "-" + d + t;
    assert s[0] == '-' && s[1..] == d + t;
    assert ToI(s) == 0 - DigitsValue(LeadingDigits(d + t));
    LeadingDigitsOfNumeral(d, t);
  }

  /**
   * `to_i` reads back what `to_s` wrote, and stops at the first character
   * after the number.
   */
  lemma ToIOfIntToString(n: int, t: string)
    requires t == [] || !IsDigit(t[0])
    ensures ToI(IntToString(n) + t) == n
  {
    if n < 0 {
      DigitsValueOfNatToString(-n);
      ToIOfNegatedNumeral(NatToString(-n), t);
    } else {
      DigitsValueOfNatToString(n);
      ToIOfNumeral(NatToString(n), t);
    }
  }

  /** A piece that does not start with a sign or a digit reads as 0. */
  lemma ToINonNumeric(s: string)
    requires s == [] || (!IsDigit(s[0]) && s[0] != '-' && s[0] != '+')
    ensures ToI(s) == 0
  {
  }

  /** Zero-padding to width 2 does not change the number `to_i` reads. */
  lemma ToIOfPadded(n: int)
    ensures ToI(Rjust2(IntToString(n))) == n
  {
    ToIOfIntToString(n, []);
    assert IntToString(n) + [] == IntToString(n);
    if 0 <= n < 10 {
      var p := Rjust2(IntToString(n));
      assert p == ['0', DigitChar(n)];
      assert LeadingDigits(p) == p by {
        LeadingDigitsOfNumeral(p, []);
        assert p + [] == p;
      }
      assert p[..1] == ['0'];
      assert DigitsValue(['0']) == 0 by { assert ['0'][..0] == []; }
      assert DigitsValue(p) == n;
    }
  }
}
