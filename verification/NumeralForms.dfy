/** Which texts is_numeric_literal of src/frostlake_sql.c accepts, said by their parts. */
module NumeralForms {
  import opened Literals

  predicate AreDigits(s: string, i: nat, j: nat)
    requires j <= |s|
  {
    forall k :: i <= k < j ==> '0' <= s[k] <= '9'
  }

  predicate AreBlanks(s: string, i: nat, j: nat)
    requires j <= |s|
  {
    forall k :: i <= k < j ==> s[k] == ' ' || s[k] == '\t'
  }

  /** Nothing or one sign in `s[i..j]`. */
  predicate IsSign(s: string, i: nat, j: nat)
    requires i <= j <= |s|
  {
    j == i || (j == i + 1 && (s[i] == '+' || s[i] == '-'))
  }

  /** Nothing or a point and any digits. */
  predicate IsFraction(s: string, i: nat, j: nat)
    requires i <= j <= |s|
  {
    j == i || (s[i] == '.' && AreDigits(s, i + 1, j))
  }

  /** Nothing or an `e`, a sign up to `m` and at least one digit. */
  predicate IsExponent(s: string, i: nat, m: nat, j: nat)
    requires i <= j <= |s|
  {
    j == i || (i < m < j && (s[i] == 'e' || s[i] == 'E') && IsSign(s, i + 1, m) && AreDigits(s, m, j))
  }

  /**
   Blanks, a sign, digits, a fraction, an exponent and blanks, one behind the other; there is a digit
   before or behind the point.
   */
  predicate SpellsNumber(s: string, a: nat, b: nat, c: nat, d: nat, m: nat, e: nat) {
    && a <= b <= c <= d <= e <= |s|
    && AreBlanks(s, 0, a) && IsSign(s, a, b) && AreDigits(s, b, c) && IsFraction(s, c, d)
    && (b < c || c + 1 < d)
    && IsExponent(s, d, m, e) && AreBlanks(s, e, |s|)
  }

  lemma {:induction false} BlanksRun(s: string, i: nat, j: nat)
    requires i <= j <= |s| && AreBlanks(s, i, j)
    ensures RunFrom(Start, s, i) == RunFrom(Start, s, j)
    decreases j - i
  {
    if i < j {
      BlanksRun(s, i + 1, j);
    }
  }

  lemma {:induction false} DigitsRun(n: Numeral, s: string, i: nat, j: nat)
    requires i <= j <= |s| && AreDigits(s, i, j)
    requires !n.Trailing? && !n.Dead?
    ensures RunFrom(n, s, i) == RunFrom(if i == j then n else Next(n, '0'), s, j)
    decreases j - i
  {
    if i < j {
      DigitsRun(Next(n, s[i]), s, i + 1, j);
    }
  }

  /** Behind a numeral only blanks are accepted. */
  lemma {:induction false} TrailingRun(s: string, i: nat)
    requires i <= |s|
    ensures Accepting(RunFrom(Trailing, s, i)) == AreBlanks(s, i, |s|)
    decreases |s| - i
  {
    if i < |s| {
      if IsBlank(s[i]) {
        TrailingRun(s, i + 1);
      } else {
        DeadStays(s, i + 1);
      }
    }
  }

  function SignEnd(s: string, i: nat): nat { if i < |s| && (s[i] == '+' || s[i] == '-') then i + 1 else i }

  function DigitsEnd(s: string, i: nat): (r: nat)
    requires i <= |s|
    ensures i <= r <= |s| && AreDigits(s, i, r) && (r < |s| ==> !('0' <= s[r] <= '9'))
    decreases |s| - i
  {
    if i < |s| && '0' <= s[i] <= '9' then DigitsEnd(s, i + 1) else i
  }

  function BlanksEnd(s: string, i: nat): (r: nat)
    requires i <= |s|
    ensures i <= r <= |s| && AreBlanks(s, i, r) && (r < |s| ==> s[r] != ' ' && s[r] != '\t')
    decreases |s| - i
  {
    if i < |s| && (s[i] == ' ' || s[i] == '\t') then BlanksEnd(s, i + 1) else i
  }

  lemma {:induction false} SpelledIsNumeric(s: string, a: nat, b: nat, c: nat, d: nat, m: nat, e: nat)
    requires SpellsNumber(s, a, b, c, d, m, e)
    ensures IsNumeric(s)
  {
    hide AreBlanks, AreDigits;
    BlanksRun(s, 0, a);
    var n := if a < b then Signed else Start;
    assert RunFrom(Start, s, a) == RunFrom(n, s, b);
    DigitsRun(n, s, b, c);
    var w := if b < c then Whole else n;
    assert RunFrom(n, s, b) == RunFrom(w, s, c);
    var f := w;
    if c < d {
      var p := Next(w, '.');
      assert RunFrom(w, s, c) == RunFrom(p, s, c + 1);
      DigitsRun(p, s, c + 1, d);
      f := if c + 1 == d then p else Fraction;
    }
    assert RunFrom(w, s, c) == RunFrom(f, s, d) && (f.Whole? || f.Fraction?);
    ExponentRun(f, s, d, m, e);
  }

  lemma {:induction false} ExponentRun(f: Numeral, s: string, d: nat, m: nat, e: nat)
    requires f.Whole? || f.Fraction?
    requires d <= e <= |s| && IsExponent(s, d, m, e) && AreBlanks(s, e, |s|)
    ensures Accepting(RunFrom(f, s, d))
  {
    hide AreDigits;
    var x := if d == e then f else ExpDigits;
    if d < e {
      var y := if m == d + 1 then Exp else ExpSigned;
      assert RunFrom(f, s, d) == RunFrom(Exp, s, d + 1) == RunFrom(y, s, m);
      DigitsRun(y, s, m, e);
    }
    assert RunFrom(f, s, d) == RunFrom(x, s, e);
    BlanksAtEnd(x, s, e);
  }

  /** What is accepted behind the digits and the point is an exponent and blanks. */
  lemma {:induction false} RestIsExponent(f: Numeral, s: string, d: nat) returns (m: nat, e: nat)
    requires f.Whole? || f.Fraction?
    requires d <= |s| && Accepting(RunFrom(f, s, d))
    requires d < |s| ==> !('0' <= s[d] <= '9') && (f.Whole? ==> s[d] != '.')
    ensures d <= e <= |s| && IsExponent(s, d, m, e) && AreBlanks(s, e, |s|)
  {
    m, e := d, d;
    if d < |s| {
      var y := Next(f, s[d]);
      assert RunFrom(f, s, d) == RunFrom(y, s, d + 1);
      if y.Dead? {
        DeadStays(s, d + 1);
        assert false;
      } else if y.Trailing? {
        TrailingRun(s, d + 1);
      } else {
        m := SignEnd(s, d + 1);
        e := ExponentDigits(s, d + 1, m);
      }
    }
  }

  lemma {:induction false} ExponentDigits(s: string, i: nat, m: nat) returns (e: nat)
    requires i <= |s| && m == SignEnd(s, i) && Accepting(RunFrom(Exp, s, i))
    ensures m < e <= |s| && AreDigits(s, m, e) && AreBlanks(s, e, |s|)
  {
    hide AreDigits, AreBlanks;
    var y := if m == i then Exp else ExpSigned;
    assert RunFrom(Exp, s, i) == RunFrom(y, s, m);
    e := DigitsEnd(s, m);
    DigitsRun(y, s, m, e);
    if e == m {
      if e < |s| {
        DeadStays(s, e + 1);
      }
      assert false;
    } else {
      BlanksOnly(ExpDigits, s, e);
    }
  }

  lemma {:induction false} BlanksOnly(x: Numeral, s: string, e: nat)
    requires x.ExpDigits? && e <= |s| && Accepting(RunFrom(x, s, e))
    requires e < |s| ==> !('0' <= s[e] <= '9')
    ensures AreBlanks(s, e, |s|)
  {
    if e < |s| {
      if IsBlank(s[e]) {
        TrailingRun(s, e + 1);
      } else {
        DeadStays(s, e + 1);
        assert false;
      }
    }
  }

  lemma {:induction false} NumericIsSpelled(s: string) returns (a: nat, b: nat, c: nat, d: nat, m: nat, e: nat)
    requires IsNumeric(s)
    ensures SpellsNumber(s, a, b, c, d, m, e)
  {
    hide AreBlanks, AreDigits;
    a := BlanksEnd(s, 0);
    BlanksRun(s, 0, a);
    b := SignEnd(s, a);
    var n := if a < b then Signed else Start;
    assert RunFrom(Start, s, a) == RunFrom(n, s, b);
    c := DigitsEnd(s, b);
    DigitsRun(n, s, b, c);
    d := c;
    if b < c {
      if c < |s| && s[c] == '.' {
        d := DigitsEnd(s, c + 1);
        DigitsRun(Fraction, s, c + 1, d);
        m, e := RestIsExponent(Fraction, s, d);
      } else {
        m, e := RestIsExponent(Whole, s, d);
      }
    } else {
      d := PointFirst(n, s, c);
      m, e := RestIsExponent(Fraction, s, d);
    }
  }

  lemma {:induction false} PointFirst(n: Numeral, s: string, c: nat) returns (d: nat)
    requires n.Start? || n.Signed?
    requires c <= |s| && Accepting(RunFrom(n, s, c))
    requires c < |s| ==> !('0' <= s[c] <= '9')
    requires n.Start? && c < |s| ==> !IsBlank(s[c]) && s[c] != '+' && s[c] != '-'
    ensures c + 1 < d <= |s| && s[c] == '.' && AreDigits(s, c + 1, d)
    ensures Accepting(RunFrom(Fraction, s, d)) && (d < |s| ==> !('0' <= s[d] <= '9'))
  {
    hide AreDigits;
    assert c < |s|;
    if s[c] != '.' {
      DeadStays(s, c + 1);
      assert false;
    } else {
      assert RunFrom(n, s, c) == RunFrom(Point, s, c + 1);
      d := DigitsEnd(s, c + 1);
      DigitsRun(Point, s, c + 1, d);
      if d == c + 1 {
        if d < |s| {
          DeadStays(s, d + 1);
        }
        assert false;
      }
    }
  }

  /** The texts accepted are exactly those that are spelled so. */
  lemma {:induction false} NumericExactly(s: string)
    ensures IsNumeric(s) <==> exists a: nat, b: nat, c: nat, d: nat, m: nat, e: nat :: SpellsNumber(s, a, b, c, d, m, e)
  {
    hide SpellsNumber;
    if IsNumeric(s) {
      var a, b, c, d, m, e := NumericIsSpelled(s);
    }
    if a: nat, b: nat, c: nat, d: nat, m: nat, e: nat :| SpellsNumber(s, a, b, c, d, m, e) {
      SpelledIsNumeric(s, a, b, c, d, m, e);
    }
  }
}
