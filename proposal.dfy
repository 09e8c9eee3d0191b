/**
 * Extraction of the rename proposal from the model's reply (test.py:58-60):
 * the reply is cut from its first `{` through its last `}` and the cut is
 * handed to the JSON decoder. The decoder itself is not modelled; its
 * answer for the cut is a parameter. The one fact about JSON the model
 * relies on concerns the only unframed cuts the slice can produce, `""`
 * and `"}"`: neither decodes, while a brace-framed cut gets the decoder's
 * answer.
 */
module Proposal {
  import opened PyStr

  /** The `function_name` member as `result.get("function_name")` sees it. */
  datatype NameField =
    | NoName                  // absent or null: get() gives None
    | NameStr(s: string)      // a JSON string
    | NameOther(truthy: bool) // any other JSON value, with its Python truthiness

  /** The `variables` member as `result.get("variables", {})` sees it. */
  datatype VarsField =
    | VarsAbsent                               // missing: the default {} is used
    | VarsMap(entries: seq<(string, string)>)  // an object, in key order
    | VarsOther                                // present but not an object (null, a list, ...)

  /** The outcome of `json.loads` on the extracted cut. */
  datatype Decoded = DecodeError | Object(functionName: NameField, variables: VarsField)

  /** Some `{` in the text comes before some `}`. */
  predicate HasBracePair(text: string)
  {
    exists i, j :: 0 <= i < j < |text| && text[i] == '{' && text[j] == '}'
  }

  /** A text framed by braces: the only shape a JSON object can have once
      surrounding prose has been cut away. */
  predicate Braced(s: string)
  {
    |s| >= 2 && s[0] == '{' && s[|s| - 1] == '}'
  }

  /** A `{` precedes a `}` exactly when both searches succeed and the first
      `{` lies before the last `}`. */
  lemma BracePositions(text: string)
    ensures HasBracePair(text) <==> 0 <= Find(text, '{') < RFind(text, '}')
  {
    if HasBracePair(text) {
      var i0, j0 :| 0 <= i0 < j0 < |text| && text[i0] == '{' && text[j0] == '}';
      FindFirst(text, '{', i0);
      RFindLast(text, '}', j0);
    }
  }

  /** Without a `{` before a `}`, the slice is empty or the single
      character `}`: it starts at the last character at best (`find` gave
      -1), or it starts after where it ends. */
  lemma SliceUnframed(text: string, i: int, j: int)
    requires -1 <= i < |text| && -1 <= j < |text|
    requires i >= 0 ==> text[i] == '{'
    requires j >= 0 ==> text[j] == '}'
    requires !(0 <= i < j)
    ensures Slice(text, i, j + 1) == [] || Slice(text, i, j + 1) == "}"
  {
    if i == -1 && 0 <= j && j + 1 == |text| {
      assert Slice(text, i, j + 1) == text[j..j + 1];
    }
  }

  /** `ai_msg[ai_msg.find('{') : ai_msg.rfind('}') + 1]`. When a `{` precedes
      a `}`, the cut is exactly the text from the first `{` through the last
      `}`, with no `{` before it and no `}` after it; otherwise it is empty or
      the single character `}`. */
  function BraceSpan(text: string): (r: string)
    ensures HasBracePair(text) ==> 0 <= Find(text, '{') < RFind(text, '}') < |text|
    ensures HasBracePair(text) ==> r == text[Find(text, '{')..RFind(text, '}') + 1]
    ensures HasBracePair(text) ==> '{' !in text[..Find(text, '{')] && '}' !in text[RFind(text, '}') + 1..]
    ensures !HasBracePair(text) ==> r == [] || r == "}"
  {
    var i, j := Find(text, '{'), RFind(text, '}');
    BracePositions(text);
    if 0 <= i < j then
      SliceWithin(text, i, j + 1);
      Slice(text, i, j + 1)
    else
      SliceUnframed(text, i, j);
      Slice(text, i, j + 1)
  }

  /** In that case the cut starts with `{` and ends with `}`. */
  lemma BraceSpanBraced(text: string)
    requires HasBracePair(text)
    ensures Braced(BraceSpan(text))
  {
    var i, j := Find(text, '{'), RFind(text, '}');
    var cut := text[i..j + 1];
    assert cut[0] == text[i] && cut[|cut| - 1] == text[j];
  }

  /** The cut is framed by braces exactly when a `{` precedes a `}`. */
  lemma BracedIff(text: string)
    ensures Braced(BraceSpan(text)) <==> HasBracePair(text)
  {
    if HasBracePair(text) {
      BraceSpanBraced(text);
    }
  }

  /** Prose without braces on either side of an object is cut away exactly. */
  lemma CutOfWrapped(before: string, obj: string, after: string)
    requires '{' !in before && '}' !in after
    requires Braced(obj)
    ensures BraceSpan(before + obj + after) == obj
  {
    var text := before + obj + after;
    var i, j := |before|, |before| + |obj| - 1;
    assert text[i] == obj[0] && text[j] == obj[|obj| - 1];
    FindFirst(text, '{', i);
    RFindLast(text, '}', j);
    assert text[i..j + 1] == obj;
  }

  /** `json.loads(cut)` on a cut the slice can produce: `decoded` is what
      the library answers for a braced cut, and the unframed cuts `""` and
      `"}"` fail to decode. */
  function Loads(cut: string, decoded: Decoded): (r: Decoded)
    ensures r.Object? ==> Braced(cut)
    ensures Braced(cut) ==> r == decoded
    ensures r == decoded || r == DecodeError
  {
    if Braced(cut) then decoded else DecodeError
  }

  /** Proposal extraction from a reply (test.py:58-60). Without a `{` before
      a `}` the decode fails, which the handler at test.py:96 reports. */
  function Extract(reply: string, decoded: Decoded): (r: Decoded)
    ensures !HasBracePair(reply) ==> r == DecodeError
    ensures HasBracePair(reply) ==> r == decoded
  {
    BracedIff(reply);
    Loads(BraceSpan(reply), decoded)
  }
}
