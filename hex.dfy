/**
 * Hexadecimal rendering of an address, as the format specification `:X`
 * produces it (upper-case digits, no `0x` prefix, no leading zeros), and
 * the reading of such a digit string back into a number.
 */
module Hex {
  import opened Wrappers

  const Digits: string := "0123456789ABCDEF"

  function DigitChar(d: nat): char
    requires d < 16
  {
    Digits[d]
  }

  /** The value of one hexadecimal digit of either case. */
  function DigitValue(c: char): (r: Option<nat>)
    ensures r.Some? ==> r.value < 16
  {
    if '0' <= c <= '9' then Some(c as int - '0' as int)
    else if 'A' <= c <= 'F' then Some(c as int - 'A' as int + 10)
    else if 'a' <= c <= 'f' then Some(c as int - 'a' as int + 10)
    else None
  }

  /** `f"{n:X}"`: upper-case hexadecimal without prefix or leading zeros. */
  function Upper(n: nat): (s: string)
    ensures |s| >= 1
    ensures forall i :: 0 <= i < |s| ==> s[i] in Digits
    ensures s[0] == '0' ==> n == 0 && s == "0"
    decreases n
  {
    if n < 16 then [DigitChar(n)] else Upper(n / 16) + [DigitChar(n % 16)]
  }

  /** The value of a string of hexadecimal digits (the empty string is 0). */
  function Value(s: string): Option<nat>
    decreases |s|
  {
    if |s| == 0 then Some(0)
    else match (Value(s[..|s| - 1]), DigitValue(s[|s| - 1]))
      case (Some(p), Some(d)) => Some(16 * p + d)
      case _ => None
  }

  /** Reading a non-empty string of hexadecimal digits as a number. */
  function Parse(s: string): Option<nat>
  {
    if |s| == 0 then None else Value(s)
  }

  /** A string in the form that `Upper` produces: non-empty, upper-case
      digits only, and no leading zero unless it is "0" itself. */
  predicate Canonical(s: string)
  {
    |s| >= 1 && (forall i :: 0 <= i < |s| ==> s[i] in Digits) && (s[0] == '0' ==> |s| == 1)
  }

  lemma DigitRoundTrip(d: nat)
    requires d < 16
    ensures DigitValue(DigitChar(d)) == Some(d)
  {
  }

  lemma DigitCharOfValue(c: char)
    requires c in Digits
    ensures DigitValue(c).Some? && DigitChar(DigitValue(c).value) == c
  {
  }

  /** A number and its split into a last hexadecimal digit and the rest. */
  lemma DivMod16(p: nat, d: nat)
    requires d < 16
    ensures (16 * p + d) / 16 == p && (16 * p + d) % 16 == d
  {
  }

  /** Rendering a number of two or more digits appends its last digit to
      the rendering of the rest. */
  lemma UpperStep(p: nat, d: nat)
    requires 0 < p && d < 16
    ensures Upper(16 * p + d) == Upper(p) + [DigitChar(d)]
  {
    DivMod16(p, d);
  }

  /** Appending a digit multiplies the value by 16 and adds the digit. */
  lemma ValueSnoc(t: string, c: char)
    requires Value(t).Some? && DigitValue(c).Some?
    ensures Value(t + [c]) == Some(16 * Value(t).value + DigitValue(c).value)
  {
    assert (t + [c])[..|t|] == t;
  }

  /** A one-digit rendering reads back as its number. */
  lemma ParseDigit(d: nat)
    requires d < 16
    ensures Parse(Upper(d)) == Some(d)
  {
    DigitRoundTrip(d);
    var e: string := [];
    assert Value(e) == Some(0);
    ValueSnoc(e, DigitChar(d));
    assert e + [DigitChar(d)] == Upper(d);
  }

  /** If the rendering of `q` reads back as `q`, so does that of `16 * q + d`. */
  lemma ParseUpperStep(q: nat, d: nat)
    requires 0 < q && d < 16
    requires Parse(Upper(q)) == Some(q)
    ensures Parse(Upper(16 * q + d)) == Some(16 * q + d)
  {
    UpperStep(q, d);
    DigitRoundTrip(d);
    ValueSnoc(Upper(q), DigitChar(d));
  }

  /** Rendering an address and reading it back yields the address. */
  lemma {:induction false} ParseUpper(n: nat)
    ensures Parse(Upper(n)) == Some(n)
    decreases n
  {
    if n < 16 {
      ParseDigit(n);
    } else {
      var q, d := n / 16, n % 16;
      assert n == 16 * q + d;
      ParseUpper(q);
      ParseUpperStep(q, d);
    }
  }

  /** A canonical digit string with a non-zero leading digit has a positive value. */
  lemma {:induction false} ValuePositive(s: string)
    requires |s| >= 1 && forall i :: 0 <= i < |s| ==> s[i] in Digits
    requires s[0] != '0'
    ensures Value(s).Some? && Value(s).value > 0
    decreases |s|
  {
    var t := s[..|s| - 1];
    DigitCharOfValue(s[|s| - 1]);
    if |s| == 1 {
      assert t == [];
    } else {
      assert t[0] == s[0];
      ValuePositive(t);
    }
  }

  /** A single digit reads as its value and renders back to itself. */
  lemma UpperParseDigit(s: string)
    requires |s| == 1 && s[0] in Digits
    ensures Parse(s).Some? && Upper(Parse(s).value) == s
  {
    DigitCharOfValue(s[0]);
    var d := DigitValue(s[0]).value;
    assert s[..0] == [];
    assert Value(s) == Some(16 * 0 + d);
    assert s == [DigitChar(d)];
  }

  /** Appending a digit to a rendered positive number renders the number
      with that digit appended. */
  lemma UpperParseAppend(t: string, c: char)
    requires |t| >= 1 && Value(t).Some? && Value(t).value > 0 && Upper(Value(t).value) == t
    requires c in Digits
    ensures Parse(t + [c]).Some? && Upper(Parse(t + [c]).value) == t + [c]
  {
    DigitCharOfValue(c);
    var p, d := Value(t).value, DigitValue(c).value;
    ValueSnoc(t, c);
    UpperStep(p, d);
  }

  /** Reading a canonical digit string and rendering the number gives the string back. */
  lemma {:induction false} UpperParse(s: string)
    requires Canonical(s)
    ensures Parse(s).Some? && Upper(Parse(s).value) == s
    decreases |s|
  {
    if |s| == 1 {
      UpperParseDigit(s);
    } else {
      var t := s[..|s| - 1];
      assert Canonical(t) && t[0] != '0' by {
        forall i | 0 <= i < |t| ensures t[i] == s[i] { }
      }
      ValuePositive(t);
      UpperParse(t);
      assert s == t + [s[|s| - 1]];
      UpperParseAppend(t, s[|s| - 1]);
    }
  }
}
