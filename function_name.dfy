/**
 * Whether a proposed function name is applied, and the name the symbol at
 * the function's address receives (test.py:62-65).
 */
module FunctionName {
  import opened Wrappers
  import opened PyStr
  import Hex
  import opened Proposal

  /** The marker of the decompiler's default names, in lower case. */
  const Marker: string := "sub_"


  /** `sub_` in any mix of cases starts at index `i` of `name`. */
  predicate MarkerAt(name: string, i: int)
  {
    0 <= i && i + 3 < |name|
    && (name[i] == 's' || name[i] == 'S')
    && (name[i + 1] == 'u' || name[i + 1] == 'U')
    && (name[i + 2] == 'b' || name[i + 2] == 'B')
    && name[i + 3] == '_'
  }

  lemma LowerCharIs(c: char, l: char)
    requires 'a' <= l <= 'z' || l == '_'
    ensures LowerChar(c) == l <==> c == l || (l != '_' && c as int == l as int - 32)
  {
  }

  lemma LowerSlice(name: string, i: int)
    requires 0 <= i && i + 3 < |name|
    ensures Lower(name)[i..i + 4] == Marker <==> MarkerAt(name, i)
  {
    var w := Lower(name)[i..i + 4];
    assert w == [LowerChar(name[i]), LowerChar(name[i + 1]), LowerChar(name[i + 2]), LowerChar(name[i + 3])];
    LowerCharIs(name[i], 's');
    LowerCharIs(name[i + 1], 'u');
    LowerCharIs(name[i + 2], 'b');
    LowerCharIs(name[i + 3], '_');
    assert w == Marker <==> w[0] == 's' && w[1] == 'u' && w[2] == 'b' && w[3] == '_';
  }

  /** The lower-cased name contains `sub_` exactly when `sub_`, in some
      mix of upper and lower case, starts at some index of the name. */
  lemma LowerContainsMarker(name: string)
    ensures Contains(Lower(name), Marker) <==> exists i :: MarkerAt(name, i)
  {
    ContainsIff(Lower(name), Marker);
    if exists i :: MarkerAt(name, i) {
      var i :| MarkerAt(name, i);
      LowerSlice(name, i);
      assert OccursAt(Marker, Lower(name), i);
    }
    if exists i :: OccursAt(Marker, Lower(name), i) {
      var i :| OccursAt(Marker, Lower(name), i);
      LowerSlice(name, i);
    }
  }

  /** `new_fname and "sub_" not in new_fname.lower()` for a string name: a
      name is applied exactly when it is non-empty and contains no `sub_` in
      any mix of upper and lower case. */
  predicate Accepted(name: string)
    ensures Accepted(name) <==> name != "" && forall i :: !MarkerAt(name, i)
  {
    LowerContainsMarker(name);
    name != "" && !Contains(Lower(name), Marker)
  }

  /** A name with `sub_` at some position, in any case, is refused. */
  lemma RefusedAt(name: string, i: int)
    requires MarkerAt(name, i)
    ensures !Accepted(name)
  {
  }

  /** A non-empty name without any underscore is always applied. */
  lemma AcceptedWithoutUnderscore(name: string)
    requires name != "" && '_' !in name
    ensures Accepted(name)
  {
  }

  /** Placeholder-like names in any case are refused; a descriptive one is applied. */
  lemma AcceptedExamples()
    ensures !Accepted("SUB_x") && !Accepted("Sub_1") && !Accepted("MySub_init")
    ensures !Accepted("")
    ensures Accepted("CheckEula")
  {
    RefusedAt("SUB_x", 0);
    RefusedAt("Sub_1", 0);
    RefusedAt("MySub_init", 2);
    AcceptedWithoutUnderscore("CheckEula");
  }

  /** `f"AI_{new_fname}_{ea:X}"`: the tag `AI_`, the proposed name as it
      is, a `_`, and then the address digits, none of which is `_`. */
  function Final(name: string, ea: nat): (r: string)
    ensures |r| > 4 + |name|
    ensures r[..3] == "AI_" && r[3..3 + |name|] == name && r[3 + |name|] == '_'
    ensures r[4 + |name|..] == Hex.Upper(ea) && '_' !in r[4 + |name|..]
  {
    "AI_" + name + "_" + Hex.Upper(ea)
  }

  /** Splitting a synthesised name into the proposed name and the address;
      the address part follows the last `_`, since hex digits contain none. */
  function ParseFinal(s: string): Option<(string, nat)>
  {
    if |s| < 3 || s[..3] != "AI_" then None
    else
      var p := RFind(s, '_');
      if p < 3 then None
      else match Hex.Parse(s[p + 1..])
        case Some(ea) => Some((s[3..p], ea))
        case None => None
  }

  lemma HexHasNoUnderscore(ea: nat)
    ensures '_' !in Hex.Upper(ea)
  {
  }

  /** The `_` before the address is the last one in the synthesised name. */
  lemma SeparatorIsLast(name: string, ea: nat)
    ensures RFind(Final(name, ea), '_') == 3 + |name|
  {
    var h := Hex.Upper(ea);
    var s := Final(name, ea);
    var p := 3 + |name|;
    assert s[p] == '_';
    HexHasNoUnderscore(ea);
    RFindLast(s, '_', p);
  }

  /** The synthesised name keeps the proposed name verbatim, in its original
      case, between the `AI_` tag and the `_` before the address, and the
      address can be read back from it: the name and the address are both
      recovered from the result. */
  lemma FinalRoundTrip(name: string, ea: nat)
    ensures ParseFinal(Final(name, ea)) == Some((name, ea))
  {
    var s := Final(name, ea);
    var p := 3 + |name|;
    SeparatorIsLast(name, ea);
    assert s[..3] == "AI_";
    assert s[3..p] == name;
    assert s[p + 1..] == Hex.Upper(ea);
    Hex.ParseUpper(ea);
  }

  /** Two accepted proposals give the same symbol name only when the names
      and the addresses coincide. */
  lemma FinalInjective(n1: string, e1: nat, n2: string, e2: nat)
    requires Final(n1, e1) == Final(n2, e2)
    ensures n1 == n2 && e1 == e2
  {
    FinalRoundTrip(n1, e1);
    FinalRoundTrip(n2, e2);
  }

  /** What `rename_with_ai` does with `result.get("function_name")`. */
  datatype Step =
    | Keep                   // nothing proposed, or the proposal is refused
    | SetName(final: string) // `idc.set_name(ea, final, ...)`
    | Raise                  // `.lower()` on a truthy non-string raises

  /** The symbol is set exactly when the field is a non-empty string with
      no `sub_` in any case, and then to the tagged name; only a truthy
      non-string raises. */
  function Decide(field: NameField, ea: nat): (r: Step)
    ensures r.SetName? <==> field.NameStr? && field.s != "" && forall i :: !MarkerAt(field.s, i)
    ensures r.SetName? ==> r.final == "AI_" + field.s + "_" + Hex.Upper(ea)
    ensures r.Raise? <==> field.NameOther? && field.truthy
  {
    match field
    case NoName => Keep
    case NameStr(s) => if Accepted(s) then SetName(Final(s, ea)) else Keep
    case NameOther(truthy) => if truthy then Raise else Keep
  }
}
