/** The string primitives the query handlers rely on: `toLowerCase`, `startsWith`,
    `parseInt` and the decimal rendering of a number inside a template literal. */
module Text {
  import opened Wrappers

  /** Upper-case letters that the model lowers: ASCII A-Z and the Latin-1 capitals
      U+00C0..U+00DE (which include the Spanish Á, É, Í, Ó, Ú, Ñ, Ü), except the
      multiplication sign U+00D7. */
  predicate IsUpper(c: char) {
    ('A' <= c <= 'Z') || ('\U{00C0}' <= c <= '\U{00DE}' && c != '\U{00D7}')
  }

  function LowerChar(c: char): (d: char)
    ensures !IsUpper(d)
    ensures !IsUpper(c) ==> d == c
  {
    if IsUpper(c) then (c as int + 32) as char else c
  }

  predicate IsLowerCase(s: string) {
    forall i :: 0 <= i < |s| ==> !IsUpper(s[i])
  }

  /** `s.toLowerCase()`: lowers every character, keeps the length, and leaves
      already lower-case text as it is (so lowering twice is lowering once). */
  function Lower(s: string): (r: string)
    ensures |r| == |s| && IsLowerCase(r)
    ensures IsLowerCase(s) ==> r == s
    ensures forall i :: 0 <= i < |s| && !IsUpper(s[i]) ==> r[i] == s[i]
  {
    seq(|s|, i requires 0 <= i < |s| => LowerChar(s[i]))
  }

  lemma LowerIdempotent(s: string)
    ensures Lower(Lower(s)) == Lower(s)
  {
  }

  /** `s.startsWith(prefix)`. */
  function StartsWith(s: string, prefix: string): (b: bool)
    ensures b <==> |prefix| <= |s| && forall i :: 0 <= i < |prefix| ==> s[i] == prefix[i]
  {
    |prefix| <= |s| && s[..|prefix|] == prefix
  }

  /** Every string starts with itself and with the empty string, and a prefix of a
      prefix is a prefix. */
  lemma StartsWithFacts(s: string, p: string, q: string)
    ensures StartsWith(s, s) && StartsWith(s, "")
    ensures StartsWith(s, p) && StartsWith(p, q) ==> StartsWith(s, q)
  {
    if StartsWith(s, p) && StartsWith(p, q) {
      assert s[..|q|] == s[..|p|][..|q|];
    }
  }

  predicate IsDigit(c: char) {
    '0' <= c <= '9'
  }

  predicate AllDigits(s: string) {
    forall i :: 0 <= i < |s| ==> IsDigit(s[i])
  }

  /** The longest prefix of `s` made of decimal digits. */
  function LeadingDigits(s: string): (ds: string)
    ensures AllDigits(ds) && |ds| <= |s| && ds == s[..|ds|]
    ensures |ds| < |s| ==> !IsDigit(s[|ds|])
  {
    if s != [] && IsDigit(s[0]) then [s[0]] + LeadingDigits(s[1..]) else []
  }

  /** The digit run stops at the first character that is not a digit. */
  lemma {:induction false} LeadingDigitsOfDigits(ds: string, rest: string)
    requires AllDigits(ds) && (rest == [] || !IsDigit(rest[0]))
    ensures LeadingDigits(ds + rest) == ds
  {
    if ds != [] {
      assert (ds + rest)[1..] == ds[1..] + rest;
      LeadingDigitsOfDigits(ds[1..], rest);
    }
  }

  /** The number a string of decimal digits denotes. */
  function DigitsValue(ds: string): (n: nat)
    requires AllDigits(ds)
    ensures ds == [] ==> n == 0
  {
    if ds == [] then 0 else DigitsValue(ds[..|ds| - 1]) * 10 + (ds[|ds| - 1] as int - '0' as int)
  }

  /** `parseInt(s)` for the decimal grammar: an optional sign, then the longest run
      of decimal digits, anything after it ignored; no digit at all is NaN (`None`). */
  function ParseInt(s: string): (r: Option<int>)
    ensures r.Some? <==> LeadingDigits(if s != [] && (s[0] == '-' || s[0] == '+') then s[1..] else s) != []
  {
    if s != [] && (s[0] == '-' || s[0] == '+') then
      var ds := LeadingDigits(s[1..]);
      if ds == [] then None
      else if s[0] == '-' then Some(-(DigitsValue(ds) as int))
      else Some(DigitsValue(ds))
    else
      var ds := LeadingDigits(s);
      if ds == [] then None else Some(DigitsValue(ds))
  }

  function DigitChar(d: nat): (c: char)
    requires d < 10
    ensures IsDigit(c) && c as int - '0' as int == d
  {
    ('0' as int + d) as char
  }

  /** The shortest decimal numeral of `n`: never empty, all digits, no leading zero. */
  function NatToString(n: nat): (s: string)
    ensures s != [] && AllDigits(s)
    ensures |s| > 1 ==> s[0] != '0'
  {
    if n < 10 then [DigitChar(n)] else NatToString(n / 10) + [DigitChar(n % 10)]
  }

  /** The text of an integer as JavaScript writes it in a template literal. */
  function IntToString(n: int): (s: string)
    ensures s != [] && (n < 0 <==> s[0] == '-')
    ensures var d := if n < 0 then s[1..] else s; d != [] && AllDigits(d) && (|d| > 1 ==> d[0] != '0')
  {
    if n < 0 then "-" + NatToString(-n) else NatToString(n)
  }

  lemma {:induction false} NatToStringValue(n: nat)
    ensures DigitsValue(NatToString(n)) == n
  {
    if n >= 10 {
      NatToStringValue(n / 10);
      var s := NatToString(n);
      assert s[..|s| - 1] == NatToString(n / 10);
    }
  }

  /** A digit run followed by non-digit text parses to its value. */
  lemma ParseIntOfDigits(ds: string, rest: string)
    requires ds != [] && AllDigits(ds) && (rest == [] || !IsDigit(rest[0]))
    ensures ParseInt(ds + rest) == Some(DigitsValue(ds))
  {
    var text := ds + rest;
    LeadingDigitsOfDigits(ds, rest);
    assert text[0] == ds[0] && IsDigit(text[0]);
    assert !(text[0] == '-' || text[0] == '+');
  }

  /** A minus sign, a digit run and non-digit text parse to the negated value. */
  lemma ParseIntOfNegativeDigits(ds: string, rest: string)
    requires ds != [] && AllDigits(ds) && (rest == [] || !IsDigit(rest[0]))
    ensures ParseInt("-" + ds + rest) == Some(-(DigitsValue(ds) as int))
  {
    var tail := ds + rest;
    var text := "-" + tail;
    assert "-" + ds + rest == text;
    assert text[0] == '-' && text[1..] == tail;
    LeadingDigitsOfDigits(ds, rest);
    assert LeadingDigits(text[1..]) == ds;
  }

  /** Rendering an integer and parsing the text back gives the integer, whatever
      non-digit text follows it. */
  lemma ParseIntOfIntToString(n: int, rest: string)
    requires rest == [] || !IsDigit(rest[0])
    ensures ParseInt(IntToString(n) + rest) == Some(n)
  {
    var m: nat := if n < 0 then -n else n;
    NatToStringValue(m);
    if n < 0 {
      ParseIntOfNegativeDigits(NatToString(m), rest);
    } else {
      ParseIntOfDigits(NatToString(m), rest);
    }
  }
}
