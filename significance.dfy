/** The three-valued significance test the `If` and `BasedOn` evaluators
    apply to their first argument: strings are trimmed, numeric strings
    and numbers count by whether they are zero, `''` and `null` are not
    significant, and everything else counts by its PHP truthiness. */
module Significance {
  import opened Php
  import opened Values

  datatype Sig = Affirmative | Negative | NonSignificant

  /** The characters `trim` removes by default: space, tab, newline,
      carriage return, NUL and vertical tab. */
  predicate IsTrimChar(c: char)
  {
    c == ' ' || c == '\t' || c == '\n' || c == '\r' || c == '\0' || c as int == 11
  }

  /** The whitespace `is_numeric` allows around a number: space, tab,
      newline, carriage return, vertical tab and form feed. */
  predicate IsNumericSpace(c: char)
  {
    c == ' ' || c == '\t' || c == '\n' || c == '\r' || c as int == 11 || c as int == 12
  }

  predicate AllTrimChars(s: string)
  {
    forall i :: 0 <= i < |s| ==> IsTrimChar(s[i])
  }

  function TrimLeft(s: string): (r: string)
    ensures |r| <= |s|
  {
    if s != [] && IsTrimChar(s[0]) then TrimLeft(s[1..]) else s
  }

  function TrimRight(s: string): (r: string)
    ensures |r| <= |s|
  {
    if s != [] && IsTrimChar(s[|s| - 1]) then TrimRight(s[..|s| - 1]) else s
  }

  /** `trim($s)` */
  function Trim(s: string): string
  {
    TrimRight(TrimLeft(s))
  }

  lemma {:induction false} TrimLeftSpec(s: string)
    ensures var r := TrimLeft(s);
      && (r == [] || !IsTrimChar(r[0]))
      && |r| <= |s| && s[|s| - |r|..] == r && AllTrimChars(s[..|s| - |r|])
  {
    if s != [] && IsTrimChar(s[0]) {
      TrimLeftSpec(s[1..]);
      var r := TrimLeft(s);
      assert s[1..][|s| - 1 - |r|..] == s[|s| - |r|..];
      assert s[..|s| - |r|] == [s[0]] + s[1..][..|s| - 1 - |r|];
    }
  }

  lemma {:induction false} TrimRightSpec(s: string)
    ensures var r := TrimRight(s);
      && (r == [] || !IsTrimChar(r[|r| - 1]))
      && s[..|r|] == r && AllTrimChars(s[|r|..])
  {
    if s != [] && IsTrimChar(s[|s| - 1]) {
      var s' := s[..|s| - 1];
      TrimRightSpec(s');
      var r := TrimRight(s);
      assert s[|r|..] == s'[|r|..] + [s[|s| - 1]];
    }
  }

  lemma {:induction false} TrimLeftKeepsLast(s: string)
    requires TrimLeft(s) != []
    ensures TrimLeft(s)[|TrimLeft(s)| - 1] == s[|s| - 1]
  {
    TrimLeftSpec(s);
    var r := TrimLeft(s);
    assert r[|r| - 1] == s[|s| - |r|..][|r| - 1];
  }

  /** `trim` removes exactly the trim characters at both ends: the result
      neither starts nor ends with one, and the input is the result padded
      on each side by trim characters only. */
  lemma {:induction false} TrimSpec(s: string)
    ensures var r := Trim(s);
      && (r == [] || (!IsTrimChar(r[0]) && !IsTrimChar(r[|r| - 1])))
      && exists i :: 0 <= i <= |s| - |r| && s[i..i + |r|] == r
           && AllTrimChars(s[..i]) && AllTrimChars(s[i + |r|..])
  {
    var l := TrimLeft(s);
    var r := Trim(s);
    TrimLeftSpec(s);
    TrimRightSpec(l);
    var i := |s| - |l|;
    assert s[i..] == l;
    assert s[i..i + |r|] == l[..|r|];
    assert s[i + |r|..] == l[|r|..];
    if r != [] {
      assert r[0] == l[0];
    }
  }

  lemma {:induction false} TrimLeftPad(p: string, s: string)
    requires AllTrimChars(p)
    ensures TrimLeft(p + s) == TrimLeft(s)
  {
    if p != [] {
      assert (p + s)[1..] == p[1..] + s;
      TrimLeftPad(p[1..], s);
    } else {
      assert p + s == s;
    }
  }

  lemma {:induction false} TrimRightPad(s: string, q: string)
    requires AllTrimChars(q)
    ensures TrimRight(s + q) == TrimRight(s)
  {
    if q != [] {
      assert (s + q)[..|s + q| - 1] == s + q[..|q| - 1];
      TrimRightPad(s, q[..|q| - 1]);
    } else {
      assert s + q == s;
    }
  }

  /** Trimming a left-trimmed string does not touch its left end again. */
  lemma {:induction false} TrimLeftOfTrimRight(s: string)
    requires s == [] || !IsTrimChar(s[0])
    ensures TrimLeft(TrimRight(s)) == TrimRight(s)
  {
    TrimRightSpec(s);
    var r := TrimRight(s);
    if r != [] {
      assert r[0] == s[0];
    }
  }

  /** Padding a string with trim characters on either side does not change
      what `trim` gives. */
  lemma {:induction false} TrimPad(p: string, s: string, q: string)
    requires AllTrimChars(p) && AllTrimChars(q)
    ensures Trim(p + s + q) == Trim(s)
  {
    TrimLeftPad(p, s + q);
    assert p + s + q == p + (s + q);
    var l := TrimLeft(s);
    TrimLeftSpec(s);
    var i := |s| - |l|;
    assert s == s[..i] + l;
    assert s + q == s[..i] + (l + q);
    TrimLeftPad(s[..i], l + q);
    if l != [] {
      assert (l + q)[0] == l[0];
      assert TrimLeft(l + q) == l + q;
    } else {
      assert l + q == q;
      TrimLeftPad(q, []);
      assert q + [] == q;
      assert TrimLeft(q) == [];
      TrimRightPad([], q);
      assert [] + q == q;
    }
    TrimRightPad(l, q);
  }

  /** `trim` is idempotent. */
  lemma {:induction false} TrimTwice(s: string)
    ensures Trim(Trim(s)) == Trim(s)
  {
    var l := TrimLeft(s);
    TrimLeftSpec(s);
    TrimLeftOfTrimRight(l);
    TrimRightSpec(l);
    var r := TrimRight(l);
    if r != [] {
      assert r[|r| - 1] != '\0' && !IsTrimChar(r[|r| - 1]);
    }
  }

  // ---------------------------------------------------------------------------
  // `is_numeric` and the value of a numeric string, as far as significance
  // needs it: whether the number is zero.

  /** The end of the run of characters satisfying the digit test from `i` on. */
  function DigitsEnd(s: string, i: nat): (r: nat)
    requires i <= |s|
    ensures i <= r <= |s| && AllDigits(s[i..r]) && (r == |s| || !IsDigit(s[r]))
    decreases |s| - i
  {
    if i < |s| && IsDigit(s[i]) then
      var r := DigitsEnd(s, i + 1);
      assert s[i..r] == [s[i]] + s[i + 1..r];
      r
    else i
  }

  function SpaceEnd(s: string, i: nat): (r: nat)
    requires i <= |s|
    ensures i <= r <= |s|
    decreases |s| - i
  {
    if i < |s| && IsNumericSpace(s[i]) then SpaceEnd(s, i + 1) else i
  }

  predicate AllZeroDigits(s: string)
  {
    forall i :: 0 <= i < |s| ==> s[i] == '0'
  }

  /** The parts of a numeric string: integer digits, fraction digits and
      whether an exponent follows. */
  datatype Number = Number(intDigits: string, fracDigits: string)

  /** `is_numeric($s)` in PHP 8: optional whitespace, an optional sign, digits
      with an optional decimal point (at least one digit in all), an optional
      exponent with at least one digit, optional trailing whitespace. `None`
      when `s` is not numeric; otherwise the digits of the mantissa. */
  function ParseNumber(s: string): Option<Number>
  {
    var a := SpaceEnd(s, 0);
    var b := if a < |s| && (s[a] == '+' || s[a] == '-') then a + 1 else a;
    var c := DigitsEnd(s, b);
    var hasPoint := c < |s| && s[c] == '.';
    var d := if hasPoint then DigitsEnd(s, c + 1) else c;
    var fracStart := if hasPoint then c + 1 else c;
    var e :=
      if d < |s| && (s[d] == 'e' || s[d] == 'E') then
        var x := if d + 1 < |s| && (s[d + 1] == '+' || s[d + 1] == '-') then d + 2 else d + 1;
        var y := DigitsEnd(s, x);
        if y > x then y else d
      else d;
    if c - b + (d - fracStart) >= 1 && SpaceEnd(s, e) == |s| then
      Some(Number(s[b..c], s[fracStart..d]))
    else None
  }

  /** A numeric string denotes zero when all its mantissa digits are zero. */
  predicate IsZero(n: Number)
  {
    AllZeroDigits(n.intDigits) && AllZeroDigits(n.fracDigits)
  }

  /** `significance($input)`: trim a string, turn a numeric one (or a number)
      into its float value, then `null` for `''` and `null`, else truthiness. */
  function SignificanceOf(v: Value): Sig
  {
    match v
    case Null => NonSignificant
    case Bool(b) => if b then Affirmative else Negative
    case Int(i) => if i != 0 then Affirmative else Negative
    case Str(s) =>
      var t := Trim(s);
      var n := ParseNumber(t);
      if n.Some? then (if IsZero(n.value) then Negative else Affirmative)
      else if t == "" then NonSignificant
      else Affirmative
    case Arr(es) => if es != [] then Affirmative else Negative
    case Sub(_) => Affirmative
  }

  /** A string that trims to nothing parses as no number. */
  lemma EmptyNotNumeric()
    ensures ParseNumber("") == None
  {
  }

  /** Not significant exactly for `null` and for strings that trim to `''`. */
  lemma {:induction false} NonSignificantIff(v: Value)
    ensures SignificanceOf(v) == NonSignificant <==> v == Null || (v.Str? && Trim(v.s) == "")
  {
    if v.Str? && Trim(v.s) == "" {
      EmptyNotNumeric();
    }
  }

  /** Negative exactly for `false`, `0`, `[]` and numeric strings denoting
      zero (such as `"0"`, `" 0.0 "` or `"-0e5"`). */
  lemma {:induction false} NegativeIff(v: Value)
    ensures SignificanceOf(v) == Negative <==>
      || v == Bool(false) || v == Int(0) || v == Arr([])
      || (v.Str? && ParseNumber(Trim(v.s)).Some? && IsZero(ParseNumber(Trim(v.s)).value))
  {
  }

  /** A non-numeric string is significant and affirmative unless it trims to `''`:
      `"0"` is the only short-cut to falsity for strings, through the numeric path. */
  lemma {:induction false} TextAffirmative(s: string)
    requires ParseNumber(Trim(s)).None? && Trim(s) != ""
    ensures SignificanceOf(Str(s)) == Affirmative
  {
  }

  /** Surrounding a string with trim characters does not change its significance. */
  lemma {:induction false} SignificancePadded(p: string, s: string, q: string)
    requires AllTrimChars(p) && AllTrimChars(q)
    ensures SignificanceOf(Str(p + s + q)) == SignificanceOf(Str(s))
  {
    TrimPad(p, s, q);
  }

  lemma {:induction false} DigitsEndAll(s: string, i: nat)
    requires i <= |s| && AllDigits(s[i..])
    ensures DigitsEnd(s, i) == |s|
    decreases |s| - i
  {
    if i < |s| {
      assert s[i..][0] == s[i];
      assert s[i + 1..] == s[i..][1..];
      DigitsEndAll(s, i + 1);
    }
  }

  /** A plain run of digits is numeric, all of it integer digits. */
  lemma {:induction false} DigitsNumeric(s: string)
    requires s != [] && AllDigits(s)
    ensures ParseNumber(s) == Some(Number(s, ""))
  {
    assert s[0..] == s;
    DigitsEndAll(s, 0);
    assert !IsNumericSpace(s[0]);
    assert SpaceEnd(s, 0) == 0;
    assert s[0] != '+' && s[0] != '-';
    assert SpaceEnd(s, |s|) == |s|;
    assert s[0..|s|] == s;
    assert s[|s|..|s|] == "";
  }

  /** A string free of trim characters at its ends is its own trim. */
  lemma {:induction false} TrimmedAlready(s: string)
    requires s != [] && !IsTrimChar(s[0]) && !IsTrimChar(s[|s| - 1])
    ensures Trim(s) == s
  {
  }

  /** `"0"` is negative, `"1"` affirmative: the numeric path decides. */
  lemma {:induction false} SignificanceDigit(d: char)
    requires IsDigit(d)
    ensures SignificanceOf(Str([d])) == if d == '0' then Negative else Affirmative
  {
    TrimmedAlready([d]);
    DigitsNumeric([d]);
  }

  /** `"  "` is as insignificant as `""`. */
  lemma {:induction false} SignificanceBlank(s: string)
    requires AllTrimChars(s)
    ensures SignificanceOf(Str(s)) == NonSignificant
  {
    TrimPad(s, "", []);
    assert s + "" + [] == s;
    EmptyNotNumeric();
  }
}
