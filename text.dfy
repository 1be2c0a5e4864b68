/** The string operations the catalog relies on: `str.isdigit`, `int`, `str`,
    `str.lower`, `str.strip` and the substring test `in`.

    Assumptions of this model: digits are the ASCII digits '0'..'9' (Python's
    `isdigit` also accepts other Unicode digits); lowering covers ASCII letters and
    the basic Cyrillic block U+0400..U+042F (which holds the catalog's own texts);
    whitespace is what Python counts as whitespace among the ASCII characters. */
module Text {
  import opened Books

  predicate IsDigitChar(c: char) { '0' <= c <= '9' }

  /** Every character is a decimal digit (the empty string included). */
  predicate AllDigits(s: string) {
    forall i :: 0 <= i < |s| ==> IsDigitChar(s[i])
  }

  /** `s.isdigit()`: a non-empty string of decimal digits. It holds no whitespace and no
      sign anywhere, so a year typed as " 2024" or "-5" is asked for again. */
  predicate IsDigits(s: string)
    ensures IsDigits(s) ==> |s| > 0 && forall i :: 0 <= i < |s| ==> !IsSpace(s[i]) && s[i] != '-' && s[i] != '+'
  {
    |s| > 0 && AllDigits(s)
  }

  /** `int(s)` for a string of decimal digits, most significant digit first;
      leading zeros are allowed, as in Python. */
  function DigitsValue(s: string): nat
    requires AllDigits(s)
  {
    if s == [] then 0 else DigitsValue(s[..|s| - 1]) * 10 + (s[|s| - 1] as int - '0' as int)
  }

  /** `str(n)` for a natural number: its decimal representation without leading zeros. */
  function NatToString(n: nat): (s: string)
    ensures IsDigits(s)
    ensures s[0] == '0' <==> n == 0
    ensures |s| == 1 <==> n < 10
  {
    if n < 10 then [('0' as int + n) as char]
    else NatToString(n / 10) + [('0' as int + n % 10) as char]
  }

  /** `str(n)` for any integer: a minus sign before the digits of a negative number. */
  function IntToString(n: int): (s: string)
    ensures n >= 0 ==> IsDigits(s)
    ensures n < 0 ==> |s| > 1 && s[0] == '-' && IsDigits(s[1..])
  {
    if n < 0 then "-" + NatToString(-n) else NatToString(n)
  }

  /** A digit string in the form `str` produces: no leading zero unless it is "0". */
  predicate IsCanonicalDigits(s: string) {
    IsDigits(s) && (s[0] != '0' || |s| == 1)
  }

  /** Reading back what `str` wrote gives the number again. */
  lemma {:induction false} DigitsOfNatToString(n: nat)
    ensures DigitsValue(NatToString(n)) == n
  {
    var s := NatToString(n);
    if n < 10 {
      assert s[..|s| - 1] == [];
    } else {
      assert s[..|s| - 1] == NatToString(n / 10);
      DigitsOfNatToString(n / 10);
    }
  }

  /** A digit string whose first digit is not zero denotes a positive number. */
  lemma {:induction false} DigitsValuePositive(s: string)
    requires IsDigits(s)
    ensures s[0] != '0' ==> DigitsValue(s) > 0
  {
    if |s| > 1 {
      var t := s[..|s| - 1];
      assert t[0] == s[0];
      assert AllDigits(t);
      DigitsValuePositive(t);
    }
  }

  /** Writing a canonical digit string's value gives the same string back. */
  lemma {:induction false} NatToStringOfDigits(s: string)
    requires IsCanonicalDigits(s)
    ensures NatToString(DigitsValue(s)) == s
  {
    if |s| > 1 {
      var t := s[..|s| - 1];
      assert t[0] == s[0] && AllDigits(t);
      DigitsValuePositive(t);
      NatToStringOfDigits(t);
      var d := s[|s| - 1] as int - '0' as int;
      var n := DigitsValue(s);
      assert n == DigitsValue(t) * 10 + d && 0 <= d < 10;
      assert n / 10 == DigitsValue(t) && n % 10 == d;
      assert s == t + [s[|s| - 1]];
    }
  }

  predicate IsUpperChar(c: char) {
    ('A' <= c <= 'Z') || ('\U{0400}' <= c <= '\U{042F}')
  }

  /** `str.lower` on one character: A-Z, А-Я and Ѐ-Џ (Ё among them) to their lower-case forms. */
  function LowerChar(c: char): (d: char)
    ensures !IsUpperChar(d)
    ensures !IsUpperChar(c) ==> d == c
  {
    if 'A' <= c <= 'Z' then (c as int + 32) as char
    else if '\U{0410}' <= c <= '\U{042F}' then (c as int + 32) as char
    else if '\U{0400}' <= c <= '\U{040F}' then (c as int + 80) as char
    else c
  }

  /** `s.lower()`: the same length, each character lowered, no upper-case letter left. */
  function Lower(s: string): (r: string)
    ensures |r| == |s|
    ensures forall i :: 0 <= i < |s| ==> r[i] == LowerChar(s[i])
    ensures forall i :: 0 <= i < |r| ==> !IsUpperChar(r[i])
  {
    if s == [] then [] else [LowerChar(s[0])] + Lower(s[1..])
  }

  /** Lowering twice is lowering once. */
  lemma LowerIdempotent(s: string)
    ensures Lower(Lower(s)) == Lower(s)
  {
    var l := Lower(s);
    assert forall i :: 0 <= i < |l| ==> Lower(l)[i] == l[i];
  }

  /** Whitespace as `str.strip()` sees it among the ASCII characters: space, \t \n \v \f \r
      and the separators U+001C..U+001F. */
  predicate IsSpace(c: char) {
    c == ' ' || ('\t' <= c <= '\r') || ('\U{001C}' <= c <= '\U{001F}')
  }

  /** Lowering never creates or removes whitespace. */
  lemma LowerKeepsSpaces(s: string)
    ensures forall i :: 0 <= i < |s| ==> (IsSpace(Lower(s)[i]) <==> IsSpace(s[i]))
  {
  }

  /** The number of whitespace characters at the start of `s`. */
  function LeadingSpaces(s: string): (k: nat)
    ensures k <= |s|
    ensures forall i :: 0 <= i < k ==> IsSpace(s[i])
    ensures k < |s| ==> !IsSpace(s[k])
  {
    if s == [] || !IsSpace(s[0]) then 0 else 1 + LeadingSpaces(s[1..])
  }

  /** The number of whitespace characters at the end of `s`. */
  function TrailingSpaces(s: string): (k: nat)
    ensures k <= |s|
    ensures forall i :: |s| - k <= i < |s| ==> IsSpace(s[i])
    ensures k < |s| ==> !IsSpace(s[|s| - 1 - k])
  {
    if s == [] || !IsSpace(s[|s| - 1]) then 0 else 1 + TrailingSpaces(s[..|s| - 1])
  }

  /** `s.strip()`: the part of `s` between its leading and its trailing whitespace. */
  function Strip(s: string): (r: string)
    ensures LeadingSpaces(s) + |r| <= |s|
    ensures r == [] <==> forall i :: 0 <= i < |s| ==> IsSpace(s[i])
    ensures r != [] ==> !IsSpace(r[0]) && !IsSpace(r[|r| - 1])
    ensures r != [] ==> r == s[LeadingSpaces(s) .. LeadingSpaces(s) + |r|]
    ensures r != [] ==> forall i :: LeadingSpaces(s) + |r| <= i < |s| ==> IsSpace(s[i])
  {
    var a := LeadingSpaces(s);
    if a == |s| then [] else s[a .. |s| - TrailingSpaces(s)]
  }

  /** Stripping twice is stripping once. */
  lemma StripIdempotent(s: string)
    ensures Strip(Strip(s)) == Strip(s)
  {
    var r := Strip(s);
    if r != [] {
      assert LeadingSpaces(r) == 0;
      assert TrailingSpaces(r) == 0;
    }
  }

  /** `sub in s`: `sub` occurs in `s` at some position. A substring is never longer
      than the string, the empty string occurs in every string, and so does any prefix. */
  predicate Contains(s: string, sub: string)
    ensures Contains(s, sub) ==> |sub| <= |s|
    ensures sub == [] ==> OccursAt(s, sub, 0) && Contains(s, sub)
    ensures OccursAt(s, sub, 0) ==> Contains(s, sub)
  {
    exists i | 0 <= i <= |s| - |sub| :: OccursAt(s, sub, i)
  }

  /** `sub` is the slice of `s` that starts at position `i`. */
  predicate OccursAt(s: string, sub: string, i: int) {
    0 <= i <= |s| - |sub| && s[i..i + |sub|] == sub
  }

  /** `int(s)` on a line typed by the user: surrounding whitespace is ignored, then an
      optional sign and at least one decimal digit; anything else is a ValueError (None). */
  function ParseInt(s: string): (r: Option<int>)
    ensures r.Some? ==> Strip(s) != []
    ensures r.Some? <==>
              var t := Strip(s);
              IsDigits(t) || (|t| > 1 && (t[0] == '-' || t[0] == '+') && IsDigits(t[1..]))
  {
    var t := Strip(s);
    if |t| > 1 && (t[0] == '-' || t[0] == '+') && IsDigits(t[1..]) then
      Some(if t[0] == '-' then 0 - DigitsValue(t[1..]) else DigitsValue(t[1..]))
    else if IsDigits(t) then Some(DigitsValue(t))
    else None
  }

  /** A string with no whitespace at either end is its own strip. */
  lemma StripUntrimmed(s: string)
    requires s != [] && !IsSpace(s[0]) && !IsSpace(s[|s| - 1])
    ensures Strip(s) == s
  {
    assert LeadingSpaces(s) == 0 && TrailingSpaces(s) == 0;
  }

  /** `int(str(n)) == n`: the id text the program prints parses back to that id. */
  lemma {:induction false} ParseIntOfIntToString(n: int)
    ensures ParseInt(IntToString(n)) == Some(n)
  {
    if n < 0 {
      ParseIntOfNegative(n);
    } else {
      ParseIntOfDigits(NatToString(n));
      DigitsOfNatToString(n);
    }
  }

  /** `int(str(n)) == n` for a negative number, read as a minus sign and digits. */
  lemma ParseIntOfNegative(n: int)
    requires n < 0
    ensures ParseInt(IntToString(n)) == Some(n)
  {
    var d := NatToString(-n);
    assert IntToString(n) == ['-'] + d;
    ParseIntOfSigned('-', d);
    DigitsOfNatToString(-n);
  }

  /** Whitespace around the text does not change what it parses to. */
  lemma ParseIntIgnoresSpaces(s: string)
    ensures ParseInt(Strip(s)) == ParseInt(s)
  {
    StripIdempotent(s);
  }

  /** An empty or all-whitespace line, a lone sign and a word are not numbers. */
  lemma ParseIntRejects()
    ensures ParseInt("") == None && ParseInt("   ") == None
    ensures ParseInt("-") == None && ParseInt("abc") == None
  {
    assert !IsDigits("abc") by { assert !IsDigitChar("abc"[0]); }
    assert Strip("abc") == "abc" by { StripUntrimmed("abc"); }
    assert Strip("-") == "-" by { StripUntrimmed("-"); }
  }

  /** A digit string parses to its value. */
  lemma ParseIntOfDigits(s: string)
    requires IsDigits(s)
    ensures ParseInt(s) == Some(DigitsValue(s))
  {
    StripUntrimmed(s);
  }

  /** A sign before a digit string negates it ('-') or keeps it ('+'). */
  lemma ParseIntOfSigned(sign: char, s: string)
    requires IsDigits(s) && (sign == '-' || sign == '+')
    ensures ParseInt([sign] + s) == Some(if sign == '-' then 0 - DigitsValue(s) else DigitsValue(s))
  {
    var t := [sign] + s;
    StripUntrimmed(t);
    assert t[1..] == s;
  }
}
