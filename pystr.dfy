/**
 * The handful of Python string operations the plug-in script relies on,
 * stated for strings as sequences of characters: `find` and `rfind` of a
 * single character, slicing with Python's bound rules, ASCII `lower`,
 * substring `in`, and `replace` with one-character patterns.
 */
module PyStr {

  /** `s.find(c)`: the index of the first `c` in `s`, or -1 when there is none. */
  function Find(s: string, c: char): (r: int)
    ensures -1 <= r < |s|
    ensures r == -1 <==> c !in s
    ensures r >= 0 ==> s[r] == c && c !in s[..r]
  {
    if |s| == 0 then -1
    else if s[0] == c then 0
    else
      var k := Find(s[1..], c);
      assert s[1..][..k + 1] == s[1..k + 2] by { if k >= 0 { } }
      if k == -1 then -1 else k + 1
  }

  /** `s.rfind(c)`: the index of the last `c` in `s`, or -1 when there is none. */
  function RFind(s: string, c: char): (r: int)
    ensures -1 <= r < |s|
    ensures r == -1 <==> c !in s
    ensures r >= 0 ==> s[r] == c && c !in s[r + 1..]
  {
    if |s| == 0 then -1
    else if s[|s| - 1] == c then |s| - 1
    else
      var t := s[..|s| - 1];
      var k := RFind(t, c);
      assert s == t + [s[|s| - 1]];
      assert k >= 0 ==> s[k + 1..] == t[k + 1..] + [s[|s| - 1]];
      k
  }

  /** `find` returns an index no later than any occurrence. */
  lemma FindFirst(s: string, c: char, k: int)
    requires 0 <= k < |s| && s[k] == c
    ensures 0 <= Find(s, c) <= k
  {
    assert s[k] in s;
  }

  /** `rfind` returns an index no earlier than any occurrence. */
  lemma RFindLast(s: string, c: char, k: int)
    requires 0 <= k < |s| && s[k] == c
    ensures k <= RFind(s, c) < |s|
  {
    assert s[k] in s;
  }

  /** How Python normalises one bound of a slice of a string of length `n`:
      a negative bound counts from the end, and the result is clamped to 0..n. */
  function SliceBound(i: int, n: nat): (r: nat)
    ensures r <= n
    ensures 0 <= i <= n ==> r == i
  {
    if i < 0 then (if i + n < 0 then 0 else i + n)
    else if i > n then n
    else i
  }

  /** `s[a:b]` with Python's rules for negative and out-of-range bounds. */
  function Slice(s: string, a: int, b: int): (r: string)
    ensures |r| <= |s|
  {
    var i, j := SliceBound(a, |s|), SliceBound(b, |s|);
    if i < j then s[i..j] else []
  }

  /** Bounds already inside the string are taken as they are. */
  lemma SliceWithin(s: string, a: int, b: int)
    requires 0 <= a < b <= |s|
    ensures Slice(s, a, b) == s[a..b]
  {
  }

  /** ASCII case folding of one character. */
  function LowerChar(c: char): char
  {
    if 'A' <= c <= 'Z' then (c as int + 32) as char else c
  }

  /** `s.lower()`, restricted to ASCII letters: no capital is left, and
      only capitals change, each to its own small letter. */
  function Lower(s: string): (r: string)
    ensures |r| == |s|
    ensures forall i :: 0 <= i < |r| ==> !('A' <= r[i] <= 'Z')
    ensures forall i :: 0 <= i < |s| && r[i] != s[i] ==> 'A' <= s[i] <= 'Z' && r[i] as int == s[i] as int + 32
    ensures forall i :: 0 <= i < |s| ==> r[i] == LowerChar(s[i])
  {
    seq(|s|, i requires 0 <= i < |s| => LowerChar(s[i]))
  }

  /** Lower-casing an already lower-cased string changes nothing. */
  lemma LowerIdempotent(s: string)
    ensures Lower(Lower(s)) == Lower(s)
  {
    var l := Lower(s);
    assert forall i :: 0 <= i < |l| ==> LowerChar(l[i]) == l[i];
  }

  /** `needle` occurs in `hay` starting at index `i`. */
  predicate OccursAt(needle: string, hay: string, i: int)
  {
    0 <= i && i + |needle| <= |hay| && hay[i..i + |needle|] == needle
  }

  /** Python's `needle in hay` for strings, scanning left to right. */
  predicate Contains(hay: string, needle: string)
    decreases |hay|
  {
    if |hay| < |needle| then false
    else hay[..|needle|] == needle || Contains(hay[1..], needle)
  }

  /** The scan finds `needle` exactly when it occurs somewhere in `hay`. */
  lemma {:induction false} ContainsIff(hay: string, needle: string)
    ensures Contains(hay, needle) <==> exists i :: OccursAt(needle, hay, i)
    decreases |hay|
  {
    if |hay| < |needle| {
    } else if hay[..|needle|] == needle {
      assert OccursAt(needle, hay, 0);
    } else {
      ContainsIff(hay[1..], needle);
      if Contains(hay[1..], needle) {
        var i :| OccursAt(needle, hay[1..], i);
        assert hay[1..][i..i + |needle|] == hay[i + 1..i + 1 + |needle|];
        assert OccursAt(needle, hay, i + 1);
      } else {
        forall i | OccursAt(needle, hay, i) ensures false {
          if i != 0 {
            assert hay[1..][i - 1..i - 1 + |needle|] == hay[i..i + |needle|];
            assert OccursAt(needle, hay[1..], i - 1);
          }
        }
      }
    }
  }

  /** The number of occurrences of `c` in `s`. */
  function Count(s: string, c: char): (r: nat)
    ensures r <= |s|
  {
    if s == [] then 0 else (if s[0] == c then 1 else 0) + Count(s[1..], c)
  }

  /** Occurrences in a concatenation add up. */
  lemma {:induction false} CountAppend(a: string, b: string, c: char)
    ensures Count(a + b, c) == Count(a, c) + Count(b, c)
    decreases |a|
  {
    if a != [] {
      assert (a + b)[1..] == a[1..] + b;
      CountAppend(a[1..], b, c);
    } else {
      assert a + b == b;
    }
  }

  /** `s.replace(a, b)` for one-character `a` and `b`. */
  function ReplaceChar(s: string, a: char, b: char): (r: string)
    ensures |r| == |s|
    ensures forall i :: 0 <= i < |s| ==> r[i] == (if s[i] == a then b else s[i])
  {
    if s == [] then [] else [if s[0] == a then b else s[0]] + ReplaceChar(s[1..], a, b)
  }

  /** `s.replace(c, "")`: every `c` deleted, every other character kept
      as often as it occurs. */
  function DeleteChar(s: string, c: char): (r: string)
    ensures c !in r
    ensures forall x :: x in r ==> x in s
    ensures forall x :: x != c ==> Count(r, x) == Count(s, x)
    ensures |r| == |s| - Count(s, c)
    decreases |s|
  {
    if s == [] then []
    else
      var h := if s[0] == c then [] else [s[0]];
      var t := DeleteChar(s[1..], c);
      assert forall x :: Count(h + t, x) == Count(h, x) + Count(t, x) by {
        forall x { CountAppend(h, t, x); }
      }
      h + t
  }

  /** Deletion works piecewise, so the kept characters stay in their order. */
  lemma {:induction false} DeleteCharAppend(a: string, b: string, c: char)
    ensures DeleteChar(a + b, c) == DeleteChar(a, c) + DeleteChar(b, c)
    decreases |a|
  {
    if a == [] {
      assert a + b == b;
    } else {
      assert (a + b)[1..] == a[1..] + b;
      DeleteCharAppend(a[1..], b, c);
    }
  }
}
