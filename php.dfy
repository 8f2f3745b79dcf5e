/** The pieces of PHP's string semantics the condition compiler depends on:
    the character classes of PCRE without the `u` flag, `lcfirst`/`ucfirst`/
    `strtolower` on ASCII letters, `explode`, `preg_split('/\D+/', …)`
    and the decimal form of an integer. */
module Php {

  predicate IsUpper(c: char) { 'A' <= c <= 'Z' }
  predicate IsLower(c: char) { 'a' <= c <= 'z' }
  predicate IsDigit(c: char) { '0' <= c <= '9' }

  /** `\w` of PCRE in the default (non-Unicode) mode. */
  predicate IsWordChar(c: char) { IsUpper(c) || IsLower(c) || IsDigit(c) || c == '_' }

  predicate AllWordChars(s: string) { forall i :: 0 <= i < |s| ==> IsWordChar(s[i]) }

  predicate AllDigits(s: string) { forall i :: 0 <= i < |s| ==> IsDigit(s[i]) }

  predicate StartsWith(s: string, prefix: string) { |prefix| <= |s| && s[..|prefix|] == prefix }

  function ToLowerChar(c: char): char { if IsUpper(c) then (c as int + 32) as char else c }

  function ToUpperChar(c: char): char { if IsLower(c) then (c as int - 32) as char else c }

  /** `lcfirst` */
  function LcFirst(s: string): string { if s == [] then s else [ToLowerChar(s[0])] + s[1..] }

  /** `ucfirst` */
  function UcFirst(s: string): string { if s == [] then s else [ToUpperChar(s[0])] + s[1..] }

  /** `strtolower` (PHP 8: ASCII only) */
  function Lower(s: string): string { seq(|s|, i requires 0 <= i < |s| => ToLowerChar(s[i])) }

  /** `ucfirst` undoes `lcfirst` on a string that starts with an upper-case letter. */
  lemma UcFirstLcFirst(s: string)
    requires s != [] && IsUpper(s[0])
    ensures UcFirst(LcFirst(s)) == s
  {
  }

  /** Concatenation of a list of strings (`implode('', …)`). */
  function Concat(parts: seq<string>): string
  {
    if parts == [] then "" else parts[0] + Concat(parts[1..])
  }

  lemma ConcatAppend(a: seq<string>, b: seq<string>)
    ensures Concat(a + b) == Concat(a) + Concat(b)
  {
    if a != [] {
      assert (a + b)[1..] == a[1..] + b;
      ConcatAppend(a[1..], b);
      assert Concat(a + b) == a[0] + Concat(a[1..] + b);
    } else {
      assert a + b == b;
    }
  }

  lemma AppendAssoc(a: string, b: string, c: string)
    ensures (a + b) + c == a + (b + c)
  {
  }

  /** `implode(sep, parts)` */
  function JoinWith(sep: char, parts: seq<string>): string
    requires parts != []
  {
    if |parts| == 1 then parts[0] else parts[0] + [sep] + JoinWith(sep, parts[1..])
  }

  /** `explode(sep, s)`: the pieces between the separators of `s`. */
  function Explode(sep: char, s: string): (r: seq<string>)
    ensures r != []
    ensures forall k :: 0 <= k < |r| ==> sep !in r[k]
  {
    if s == [] then [""]
    else
      var rest := Explode(sep, s[1..]);
      if s[0] == sep then [""] + rest else [[s[0]] + rest[0]] + rest[1..]
  }

  /** Joining the pieces of `explode` with the separator gives the string back. */
  lemma {:induction false} ExplodeJoin(sep: char, s: string)
    ensures JoinWith(sep, Explode(sep, s)) == s
  {
    if s != [] {
      var rest := Explode(sep, s[1..]);
      ExplodeJoin(sep, s[1..]);
      if s[0] == sep {
        assert Explode(sep, s) == [""] + rest;
        assert ([""] + rest)[1..] == rest;
      } else {
        var r := [[s[0]] + rest[0]] + rest[1..];
        assert Explode(sep, s) == r;
        if |rest| == 1 {
          assert s == [s[0]] + s[1..];
        } else {
          assert r[1..] == rest[1..];
          assert JoinWith(sep, rest) == rest[0] + [sep] + JoinWith(sep, rest[1..]);
          assert s == [s[0]] + s[1..];
        }
      }
    }
  }

  /** A string without the separator explodes into itself alone. */
  lemma {:induction false} ExplodeNoSep(sep: char, s: string)
    requires sep !in s
    ensures Explode(sep, s) == [s]
  {
    if s != [] {
      assert sep !in s[1..] by {
        forall k | 0 <= k < |s| - 1 ensures s[1..][k] != sep { assert s[1..][k] == s[k + 1]; }
      }
      ExplodeNoSep(sep, s[1..]);
      assert s == [s[0]] + s[1..];
    }
  }

  /** Cutting at a separator that ends the first piece. */
  lemma {:induction false} ExplodeFirst(sep: char, a: string, rest: string)
    requires sep !in a
    ensures Explode(sep, a + [sep] + rest) == [a] + Explode(sep, rest)
  {
    if a == [] {
      assert a + [sep] + rest == [sep] + rest;
      assert ([sep] + rest)[1..] == rest;
    } else {
      assert sep !in a[1..] by {
        forall k | 0 <= k < |a| - 1 ensures a[1..][k] != sep { assert a[1..][k] == a[k + 1]; }
      }
      ExplodeFirst(sep, a[1..], rest);
      assert (a + [sep] + rest)[1..] == a[1..] + [sep] + rest;
      assert [a[0]] + a[1..] == a;
    }
  }

  /** `explode` takes apart what `implode` put together, when no piece holds the separator. */
  lemma {:induction false} JoinExplode(sep: char, parts: seq<string>)
    requires parts != [] && forall k :: 0 <= k < |parts| ==> sep !in parts[k]
    ensures Explode(sep, JoinWith(sep, parts)) == parts
    decreases |parts|
  {
    if |parts| == 1 {
      ExplodeNoSep(sep, parts[0]);
    } else {
      assert forall k :: 0 <= k < |parts| - 1 ==> sep !in parts[1..][k] by {
        forall k | 0 <= k < |parts| - 1 ensures sep !in parts[1..][k] { assert parts[1..][k] == parts[k + 1]; }
      }
      JoinExplode(sep, parts[1..]);
      ExplodeFirst(sep, parts[0], JoinWith(sep, parts[1..]));
      assert [parts[0]] + parts[1..] == parts;
    }
  }

  /** The digits of `s`, in order. */
  function DigitsOf(s: string): string
  {
    if s == [] then "" else (if IsDigit(s[0]) then [s[0]] else "") + DigitsOf(s[1..])
  }

  /** `preg_split('/\D+/', s)`: the (possibly empty) digit runs between the
      maximal runs of non-digits, including an empty first or last piece when
      `s` starts or ends with a non-digit. */
  function SplitNonDigits(s: string): (r: seq<string>)
    ensures r != []
  {
    if s == [] then [""]
    else if IsDigit(s[0]) then
      var rest := SplitNonDigits(s[1..]);
      [[s[0]] + rest[0]] + rest[1..]
    else if |s| > 1 && !IsDigit(s[1]) then SplitNonDigits(s[1..])
    else [""] + SplitNonDigits(s[1..])
  }

  /** Every piece of `preg_split('/\D+/', s)` is made of digits only, and the
      pieces together are exactly the digits of `s`, in order. */
  lemma {:induction false} SplitNonDigitsPieces(s: string)
    ensures forall k :: 0 <= k < |SplitNonDigits(s)| ==> AllDigits(SplitNonDigits(s)[k])
    ensures Concat(SplitNonDigits(s)) == DigitsOf(s)
  {
    if s != [] {
      var rest := SplitNonDigits(s[1..]);
      SplitNonDigitsPieces(s[1..]);
      if IsDigit(s[0]) {
        var r := [[s[0]] + rest[0]] + rest[1..];
        assert SplitNonDigits(s) == r;
        assert r[1..] == rest[1..];
        assert Concat(rest) == rest[0] + Concat(rest[1..]);
        forall k | 0 <= k < |r| ensures AllDigits(r[k]) {
          if k == 0 { assert AllDigits(rest[0]); } else { assert r[k] == rest[k]; }
        }
      } else if |s| > 1 && !IsDigit(s[1]) {
      } else {
        var r := [""] + rest;
        assert SplitNonDigits(s) == r;
        assert r[1..] == rest;
        forall k | 0 <= k < |r| ensures AllDigits(r[k]) {
          if k > 0 { assert r[k] == rest[k - 1]; }
        }
      }
    }
  }

  predicate NoDigits(s: string) { forall i :: 0 <= i < |s| ==> !IsDigit(s[i]) }

  lemma {:induction false} DigitsHaveNoSeparators(ds: seq<string>)
    requires forall k :: 0 <= k < |ds| ==> AllDigits(ds[k])
    ensures forall k :: 0 <= k < |ds| ==> ',' !in ds[k] && '\n' !in ds[k]
  {
    forall k | 0 <= k < |ds| ensures ',' !in ds[k] && '\n' !in ds[k] {
      assert forall i :: 0 <= i < |ds[k]| ==> ds[k][i] != ',' && ds[k][i] != '\n';
    }
  }

  /** `implode(glue, parts)` */
  function Implode(glue: string, parts: seq<string>): string
    requires parts != []
  {
    if |parts| == 1 then parts[0] else parts[0] + glue + Implode(glue, parts[1..])
  }

  lemma {:induction false} ImplodeHead(glue: string, parts: seq<string>)
    requires parts != [] && parts[0] != []
    ensures Implode(glue, parts) != [] && Implode(glue, parts)[0] == parts[0][0]
  {
    if |parts| > 1 {
      assert Implode(glue, parts) == parts[0] + (glue + Implode(glue, parts[1..]));
    }
  }

  /** A leading run of digits joins the first piece of what follows it. */
  lemma {:induction false} SplitDigitsPrefix(d: string, t: string)
    requires AllDigits(d)
    ensures SplitNonDigits(d + t) == [d + SplitNonDigits(t)[0]] + SplitNonDigits(t)[1..]
    decreases |d|
  {
    var st := SplitNonDigits(t);
    if d == [] {
      assert d + t == t && d + st[0] == st[0];
      assert [st[0]] + st[1..] == st;
    } else {
      var s := d + t;
      assert s[0] == d[0] && s[1..] == d[1..] + t;
      SplitDigitsPrefix(d[1..], t);
      assert [d[0]] + (d[1..] + st[0]) == d + st[0];
    }
  }

  /** A run of non-digits before a digit (or before the end) opens a new, empty first piece. */
  lemma {:induction false} SplitSepPrefix(sep: string, t: string)
    requires sep != [] && NoDigits(sep) && (t == [] || IsDigit(t[0]))
    ensures SplitNonDigits(sep + t) == [""] + SplitNonDigits(t)
    decreases |sep|
  {
    var s := sep + t;
    assert s[0] == sep[0] && s[1..] == sep[1..] + t;
    if |sep| == 1 {
      assert sep[1..] + t == t;
    } else {
      assert s[1] == sep[1];
      SplitSepPrefix(sep[1..], t);
    }
  }

  /** `preg_split('/\D+/')` cuts exactly at the separators: digit strings
      joined by any run of non-digits are split back into those strings. */
  lemma {:induction false} SplitNonDigitsImplode(glue: string, ds: seq<string>)
    requires glue != [] && NoDigits(glue)
    requires ds != [] && forall k :: 0 <= k < |ds| ==> ds[k] != [] && AllDigits(ds[k])
    ensures SplitNonDigits(Implode(glue, ds)) == ds
    decreases |ds|
  {
    if |ds| == 1 {
      SplitDigitsPrefix(ds[0], "");
      assert ds[0] + "" == ds[0];
      assert [ds[0]] == ds;
    } else {
      var rest := Implode(glue, ds[1..]);
      SplitNonDigitsImplode(glue, ds[1..]);
      ImplodeHead(glue, ds[1..]);
      SplitSepPrefix(glue, rest);
      assert Implode(glue, ds) == ds[0] + (glue + rest);
      SplitDigitsPrefix(ds[0], glue + rest);
      assert ds[0] + "" == ds[0];
      assert [ds[0]] + ds[1..] == ds;
    }
  }

  function DigitChar(d: nat): char
    requires d < 10
  {
    ('0' as int + d) as char
  }

  function NatToString(n: nat): (r: string)
    ensures r != [] && AllDigits(r)
  {
    if n < 10 then [DigitChar(n)] else NatToString(n / 10) + [DigitChar(n % 10)]
  }

  /** PHP's decimal string form of an integer. */
  function IntToString(i: int): string
  {
    if i < 0 then "-" + NatToString(-i) else NatToString(i)
  }
}
