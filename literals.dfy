/**
  Converting a query-string argument to an integer, as Python's int() does
  for text: surrounding white space is ignored, an optional sign may come
  first, and at least one decimal digit must follow; anything else is an
  error. ShowInt is the inverse direction, used to state the round trip.
*/
module IntLiterals {
  import opened Wrappers

  predicate IsSpace(c: char)
  {
    c == ' ' || 9 <= c as int <= 13
  }

  predicate IsDigit(c: char)
  {
    '0' <= c <= '9'
  }

  predicate AllDigits(s: string)
  {
    forall k :: 0 <= k < |s| ==> IsDigit(s[k])
  }

  /** `s` without its leading white space. */
  function TrimStart(s: string): (r: string)
    ensures |r| <= |s| && r == s[|s| - |r|..]
    ensures r == [] || !IsSpace(r[0])
  {
    if |s| > 0 && IsSpace(s[0]) then TrimStart(s[1..]) else s
  }

  /** `s` without its trailing white space. */
  function TrimEnd(s: string): (r: string)
    ensures |r| <= |s| && r == s[..|r|]
    ensures r == [] || !IsSpace(r[|r| - 1])
  {
    if |s| > 0 && IsSpace(s[|s| - 1]) then TrimEnd(s[..|s| - 1]) else s
  }

  /** The value of a string of decimal digits, most significant first. */
  function DigitsValue(s: string): nat
    requires AllDigits(s)
  {
    if |s| == 0 then 0
    else DigitsValue(s[..|s| - 1]) * 10 + (s[|s| - 1] as int - '0' as int)
  }

  /** int(s) for a string argument; None where int() raises ValueError. */
  function ParseInt(s: string): Option<int>
  {
    ParseTrimmed(TrimEnd(TrimStart(s)))
  }

  /** An optional sign followed by one or more digits, and nothing else. */
  function ParseTrimmed(t: string): (r: Option<int>)
    ensures r.Some? ==> |t| > 0 && (IsDigit(t[0]) || t[0] == '-' || t[0] == '+')
  {
    if |t| > 0 && (t[0] == '-' || t[0] == '+') then
      var d := t[1..];
      if |d| > 0 && AllDigits(d) then
        Some(if t[0] == '-' then -(DigitsValue(d) as int) else DigitsValue(d) as int)
      else None
    else if |t| > 0 && AllDigits(t) then
      Some(DigitsValue(t))
    else None
  }

  function DigitChar(d: nat): (c: char)
    requires d < 10
    ensures IsDigit(c) && c as int - '0' as int == d
  {
    ('0' as int + d) as char
  }

  /** The decimal digits of n, most significant first, without leading zeros. */
  function ShowNat(n: nat): (s: string)
    ensures |s| > 0 && AllDigits(s)
  {
    if n < 10 then [DigitChar(n)] else ShowNat(n / 10) + [DigitChar(n % 10)]
  }

  /** The decimal literal of n, with a leading minus sign when n is negative. */
  function ShowInt(n: int): string
  {
    if n < 0 then "-" + ShowNat(-n) else ShowNat(n)
  }

  lemma {:induction false} DigitsValueOfShowNat(n: nat)
    ensures DigitsValue(ShowNat(n)) == n
  {
    var s := ShowNat(n);
    if n >= 10 {
      DigitsValueOfShowNat(n / 10);
      assert s[..|s| - 1] == ShowNat(n / 10);
    }
  }

  /** A string that starts and ends with something other than white space is its own trimmed form. */
  lemma TrimUnpadded(s: string)
    requires |s| > 0 && !IsSpace(s[0]) && !IsSpace(s[|s| - 1])
    ensures TrimEnd(TrimStart(s)) == s
  {
  }

  lemma ParseTrimmedLiteral(d: string)
    requires |d| > 0 && AllDigits(d)
    ensures ParseTrimmed(d) == Some(DigitsValue(d))
    ensures ParseTrimmed("-" + d) == Some(-(DigitsValue(d) as int))
  {
    assert ("-" + d)[1..] == d;
  }

  /** int() reads back every literal that ShowInt writes. */
  lemma ParseShowInt(n: int)
    ensures ParseInt(ShowInt(n)) == Some(n)
  {
    var m: nat := if n < 0 then -n else n;
    var digits := ShowNat(m);
    DigitsValueOfShowNat(m);
    ParseTrimmedLiteral(digits);
    if n < 0 {
      var s := "-" + digits;
      assert s[0] == '-' && s[|s| - 1] == digits[|digits| - 1];
      TrimUnpadded(s);
    } else {
      TrimUnpadded(digits);
    }
  }

  /** White space around a literal does not change what int() makes of it. */
  lemma ParseIgnoresPadding(s: string)
    ensures ParseInt(" " + s + " ") == ParseInt(s)
  {
    var padded := " " + s + " ";
    assert padded[1..] == s + " ";
    assert TrimStart(padded) == TrimStart(s + " ");
    TrimStartPadded(s);
    if TrimStart(s) != [] {
      TrimEndPadded(TrimStart(s));
    }
  }

  lemma {:induction false} TrimStartPadded(s: string)
    ensures TrimStart(s + " ") == if TrimStart(s) == [] then [] else TrimStart(s) + " "
  {
    if |s| == 0 {
      assert s + " " == " ";
      assert TrimStart(" ") == TrimStart([]);
    } else if IsSpace(s[0]) {
      assert (s + " ")[0] == s[0];
      assert (s + " ")[1..] == s[1..] + " ";
      assert TrimStart(s + " ") == TrimStart(s[1..] + " ");
      assert TrimStart(s) == TrimStart(s[1..]);
      TrimStartPadded(s[1..]);
    } else {
      assert (s + " ")[0] == s[0];
    }
  }

  lemma TrimEndPadded(s: string)
    ensures TrimEnd(s + " ") == TrimEnd(s)
  {
    assert (s + " ")[..|s|] == s;
  }
}
