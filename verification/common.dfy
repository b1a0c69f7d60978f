/**
 * Small building blocks shared by the rest of the model: an Option type for
 * Java's nullable references, and the handful of java.lang.String / Long /
 * Integer behaviours the modelled code relies on (split on a one-character
 * separator, trim, blank test, decimal parsing and printing).
 */
module Common {

  /** A Java reference that may be null. */
  datatype Option<+T> = None | Some(value: T)

  const MinLong: int := -0x8000_0000_0000_0000
  const MaxLong: int := 0x7FFF_FFFF_FFFF_FFFF
  const MinInt: int := -0x8000_0000
  const MaxInt: int := 0x7FFF_FFFF

  /** A value of Java's 64-bit `long`. */
  type Long = x: int | MinLong <= x <= MaxLong

  // ---------------------------------------------------------------------------
  // Splitting
  // ---------------------------------------------------------------------------

  /**
   * The pieces of `s` between occurrences of `sep`, keeping every empty piece:
   * one more piece than there are separators.
   */
  function SplitAll(s: string, sep: char): (parts: seq<string>)
    ensures |parts| >= 1
    ensures forall i :: 0 <= i < |parts| ==> sep !in parts[i]
    decreases |s|
  {
    if |s| == 0 then [""]
    else
      var rest := SplitAll(s[1..], sep);
      if s[0] == sep then [""] + rest
      else [[s[0]] + rest[0]] + rest[1..]
  }

  /** The inverse of SplitAll: the pieces glued back together with `sep`. */
  function Join(parts: seq<string>, sep: char): string
    decreases |parts|
  {
    if |parts| == 0 then ""
    else if |parts| == 1 then parts[0]
    else parts[0] + [sep] + Join(parts[1..], sep)
  }

  /** Drops empty pieces from the end, as `String.split` does with limit 0. */
  function DropTrailingEmpty(parts: seq<string>): (r: seq<string>)
    ensures |r| <= |parts|
    ensures r == parts[..|r|]
    ensures |r| > 0 ==> r[|r| - 1] != ""
    ensures forall i :: |r| <= i < |parts| ==> parts[i] == ""
    decreases |parts|
  {
    if |parts| == 0 then []
    else if parts[|parts| - 1] == "" then DropTrailingEmpty(parts[..|parts| - 1])
    else parts
  }

  /**
   * Java's `s.split(x)` where the regular expression `x` is the single literal
   * character `sep`: no occurrence gives `[s]` (even for the empty string);
   * otherwise every piece is kept except the empty ones at the end.
   */
  function JavaSplit(s: string, sep: char): seq<string>
  {
    if sep !in s then [s] else DropTrailingEmpty(SplitAll(s, sep))
  }

  /** Splitting a piece free of `sep` yields that piece alone. */
  lemma {:induction false} SplitAllNoSep(a: string, sep: char)
    requires sep !in a
    ensures SplitAll(a, sep) == [a]
    decreases |a|
  {
    if |a| > 0 {
      assert sep !in a[1..];
      SplitAllNoSep(a[1..], sep);
      assert [a[0]] + a[1..] == a;
    }
  }

  /** A leading piece free of `sep`, then `sep`, splits off as the first part. */
  lemma {:induction false} SplitAllCons(a: string, sep: char, t: string)
    requires sep !in a
    ensures SplitAll(a + [sep] + t, sep) == [a] + SplitAll(t, sep)
    decreases |a|
  {
    var s := a + [sep] + t;
    if |a| == 0 {
      assert s == [sep] + t;
      assert s[1..] == t;
    } else {
      assert s[1..] == a[1..] + [sep] + t;
      assert sep !in a[1..];
      SplitAllCons(a[1..], sep, t);
      assert [a[0]] + a[1..] == a;
    }
  }

  /** Splitting the join of separator-free pieces gives the pieces back. */
  lemma {:induction false} SplitJoin(parts: seq<string>, sep: char)
    requires |parts| >= 1
    requires forall i :: 0 <= i < |parts| ==> sep !in parts[i]
    ensures SplitAll(Join(parts, sep), sep) == parts
    decreases |parts|
  {
    if |parts| == 1 {
      SplitAllNoSep(parts[0], sep);
    } else {
      SplitJoin(parts[1..], sep);
      SplitAllCons(parts[0], sep, Join(parts[1..], sep));
      assert [parts[0]] + parts[1..] == parts;
    }
  }

  /** Joining the pieces of a split gives the string back. */
  lemma {:induction false} JoinSplit(s: string, sep: char)
    ensures Join(SplitAll(s, sep), sep) == s
    decreases |s|
  {
    if |s| > 0 {
      var rest := SplitAll(s[1..], sep);
      JoinSplit(s[1..], sep);
      if s[0] == sep {
        assert SplitAll(s, sep) == [""] + rest;
        assert ([""] + rest)[1..] == rest;
        assert [s[0]] + s[1..] == s;
      } else {
        var parts := SplitAll(s, sep);
        assert parts == [[s[0]] + rest[0]] + rest[1..];
        if |rest| == 1 {
          assert Join(rest, sep) == rest[0];
        } else {
          assert Join(rest, sep) == rest[0] + [sep] + Join(rest[1..], sep);
          assert parts[1..] == rest[1..];
        }
        assert [s[0]] + s[1..] == s;
      }
    }
  }

  // ---------------------------------------------------------------------------
  // Trimming and blank strings
  // ---------------------------------------------------------------------------

  /** `String.trim` drops every leading and trailing char at or below U+0020. */
  function Trim(s: string): (r: string)
    decreases |s|
  {
    if |s| == 0 then s
    else if s[0] <= ' ' then Trim(s[1..])
    else if s[|s| - 1] <= ' ' then Trim(s[..|s| - 1])
    else s
  }

  /** `StringUtil.isBlank`: null, or nothing left after trimming. */
  predicate IsBlank(s: Option<string>)
  {
    s.None? || forall i :: 0 <= i < |s.value| ==> s.value[i] <= ' '
  }

  predicate StartsWith(s: string, prefix: string)
  {
    |prefix| <= |s| && s[..|prefix|] == prefix
  }

  /** ASCII case folding (see README for the Unicode cases left out). */
  function UpperAscii(c: char): char
  {
    if 'a' <= c <= 'z' then (c as int - 32) as char else c
  }

  /** `String.equalsIgnoreCase` against a possibly-null argument. */
  predicate EqualsIgnoreCase(s: string, t: Option<string>)
  {
    t.Some? && |s| == |t.value| &&
    forall i :: 0 <= i < |s| ==> UpperAscii(s[i]) == UpperAscii(t.value[i])
  }

  /** The string with every ASCII letter upper-cased. */
  function UpperString(s: string): (u: string)
    ensures |u| == |s|
    ensures forall i :: 0 <= i < |s| ==> u[i] == UpperAscii(s[i])
    decreases |s|
  {
    if |s| == 0 then [] else [UpperAscii(s[0])] + UpperString(s[1..])
  }

  /** Two strings are equal ignoring ASCII case exactly when their upper-cased forms are equal. */
  lemma EqualsIgnoreCaseIffUpper(s: string, t: string)
    ensures EqualsIgnoreCase(s, Some(t)) <==> UpperString(s) == UpperString(t)
  {
    if UpperString(s) == UpperString(t) {
      assert forall i :: 0 <= i < |s| ==> UpperString(s)[i] == UpperString(t)[i];
    }
  }

  // ---------------------------------------------------------------------------
  // Decimal numbers
  // ---------------------------------------------------------------------------

  predicate IsDigit(c: char)
  {
    '0' <= c <= '9'
  }

  predicate AllDigits(s: string)
  {
    forall i :: 0 <= i < |s| ==> IsDigit(s[i])
  }

  function DigitChar(d: nat): char
    requires d < 10
  {
    ('0' as int + d) as char
  }

  /** The number a run of decimal digits denotes (leading zeros allowed). */
  function DigitsValue(ds: string): nat
    requires AllDigits(ds)
    decreases |ds|
  {
    if |ds| == 0 then 0
    else DigitsValue(ds[..|ds| - 1]) * 10 + (ds[|ds| - 1] as int - '0' as int)
  }

  /** The shortest decimal digits of `n`. */
  function NatDigits(n: nat): (ds: string)
    ensures |ds| >= 1 && AllDigits(ds)
    decreases n
  {
    if n < 10 then [DigitChar(n)] else NatDigits(n / 10) + [DigitChar(n % 10)]
  }

  /** `Long.toString` / `Integer.toString` in radix 10. */
  function DecimalString(n: int): string
  {
    if n < 0 then "-" + NatDigits(-n) else NatDigits(n)
  }

  /**
   * `Long.parseLong` / `Integer.parseInt` in radix 10 for the range [lo, hi]:
   * an optional '-' or '+' followed by at least one digit, with the value in
   * range; anything else is the NumberFormatException case (None).
   */
  function ParseInteger(s: string, lo: int, hi: int): (r: Option<int>)
    ensures r.Some? ==> lo <= r.value <= hi
  {
    if |s| == 0 then None
    else if s[0] == '-' || s[0] == '+' then
      var ds := s[1..];
      if |ds| == 0 || !AllDigits(ds) then None
      else
        var v: int := if s[0] == '-' then -(DigitsValue(ds) as int) else DigitsValue(ds);
        if lo <= v <= hi then Some(v) else None
    else if !AllDigits(s) then None
    else
      var v := DigitsValue(s);
      if lo <= v <= hi then Some(v) else None
  }

  function ParseLong(s: string): Option<int>
  {
    ParseInteger(s, MinLong, MaxLong)
  }

  function ParseInt(s: string): Option<int>
  {
    ParseInteger(s, MinInt, MaxInt)
  }

  /** Reading back the digits of `n` gives `n`. */
  lemma {:induction false} DigitsValueOfNatDigits(n: nat)
    ensures DigitsValue(NatDigits(n)) == n
    decreases n
  {
    var ds := NatDigits(n);
    if n < 10 {
      assert ds[..0] == [];
    } else {
      DigitsValueOfNatDigits(n / 10);
      assert ds[..|ds| - 1] == NatDigits(n / 10);
    }
  }

  /** Parsing what DecimalString printed gives the number back. */
  lemma ParseDecimalString(n: int, lo: int, hi: int)
    requires lo <= n <= hi
    ensures ParseInteger(DecimalString(n), lo, hi) == Some(n)
  {
    var s := DecimalString(n);
    if n < 0 {
      var ds := NatDigits(-n);
      assert s == "-" + ds;
      assert s[0] == '-';
      assert s[1..] == ds;
      DigitsValueOfNatDigits(-n);
    } else {
      var ds := NatDigits(n);
      assert s == ds;
      DigitsValueOfNatDigits(n);
      assert IsDigit(ds[0]);
      assert s[0] != '-' && s[0] != '+';
    }
  }

  /** A string with a char outside digits and signs never parses. */
  lemma ParseRejectsNonNumeric(s: string, i: nat, lo: int, hi: int)
    requires i < |s| && !IsDigit(s[i]) && s[i] != '-' && s[i] != '+'
    ensures ParseInteger(s, lo, hi) == None
  {
    if s[0] == '-' || s[0] == '+' {
      assert i > 0 && s[1..][i - 1] == s[i];
    }
  }
}
