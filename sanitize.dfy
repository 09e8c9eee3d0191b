/**
 * Sanitisation of a proposed variable name (test.py:74):
 * `str(new_name).replace(" ", "_").replace("*", "")` on a string value.
 */
module VariableName {
  import opened PyStr

  /** Spaces become underscores, then asterisks are deleted. */
  function Sanitize(s: string): (r: string)
    ensures ' ' !in r && '*' !in r
    ensures |r| == |s| - Count(s, '*')
  {
    ReplaceKeepsCount(s, ' ', '_', '*');
    DeleteChar(ReplaceChar(s, ' ', '_'), '*')
  }

  /** Replacing one character by another, both different from `x`, keeps the count of `x`. */
  lemma {:induction false} ReplaceKeepsCount(s: string, a: char, b: char, x: char)
    requires a != x && b != x
    ensures Count(ReplaceChar(s, a, b), x) == Count(s, x)
  {
    if s != [] {
      ReplaceKeepsCount(s[1..], a, b, x);
      var r := ReplaceChar(s, a, b);
      assert r[1..] == ReplaceChar(s[1..], a, b);
    }
  }

  /** The image of one character: a space is `_`, an asterisk nothing, any
      other character itself. */
  function SanitizeChar(c: char): string
  {
    if c == ' ' then "_" else if c == '*' then [] else [c]
  }

  /** A single left-to-right pass applying `SanitizeChar` to every character. */
  function ByChar(s: string): string
  {
    if s == [] then [] else SanitizeChar(s[0]) + ByChar(s[1..])
  }

  /** The two chained replacements act character by character: each space
      becomes `_`, each `*` is dropped, and every other character is kept in
      order. */
  lemma {:induction false} SanitizeIsByChar(s: string)
    ensures Sanitize(s) == ByChar(s)
  {
    if s != [] {
      SanitizeIsByChar(s[1..]);
      var t := ReplaceChar(s, ' ', '_');
      assert t == [t[0]] + ReplaceChar(s[1..], ' ', '_');
      assert ([t[0]] + ReplaceChar(s[1..], ' ', '_'))[1..] == ReplaceChar(s[1..], ' ', '_');
    }
  }

  /** A name with no space and no asterisk is left unchanged. */
  lemma {:induction false} SanitizeFixesClean(s: string)
    requires ' ' !in s && '*' !in s
    ensures Sanitize(s) == s
  {
    SanitizeIsByChar(s);
    if s != [] {
      assert ' ' !in s[1..] && '*' !in s[1..] by {
        forall k | 0 <= k < |s| - 1 ensures s[1..][k] == s[k + 1] { }
      }
      SanitizeFixesClean(s[1..]);
      SanitizeIsByChar(s[1..]);
      assert s == [s[0]] + s[1..];
    }
  }

  /** Sanitising twice is the same as sanitising once. */
  lemma SanitizeIdempotent(s: string)
    ensures Sanitize(Sanitize(s)) == Sanitize(s)
  {
    SanitizeFixesClean(Sanitize(s));
  }

  lemma ByCharExample()
    ensures ByChar("idx *") == "idx_"
  {
    assert "idx *"[1..] == "dx *" && "dx *"[1..] == "x *" && "x *"[1..] == " *" && " *"[1..] == "*";
    assert ByChar("*") == [] by { assert "*"[1..] == []; }
    assert ByChar(" *") == "_";
    assert ByChar("x *") == "x_";
    assert ByChar("dx *") == "dx_";
  }

  /** A trailing " *" leaves an underscore behind: the space is not
      deleted but becomes `_`, and only the asterisk goes. */
  lemma SanitizeExample()
    ensures Sanitize("idx *") == "idx_"
  {
    SanitizeIsByChar("idx *");
    ByCharExample();
  }
}
