/**
 * Two replies followed through the model of `rename_with_ai`: a bare
 * object proposing a placeholder name and no renames, and an object wrapped
 * in prose that proposes `Init` for the function and `idx *` for `v3`. Each
 * is followed through the contract of `Plugin.Database.RenameWithAi` alone.
 */
module Scenarios {
  import opened Wrappers
  import opened Proposal
  import opened FunctionName
  import opened Lvars
  import opened VariableName
  import Hex
  import opened Plugin

  /** The object a chat model proposes for a function at 0x4A10. */
  const InitObject: string := "{" + "\"function_name\":\"Init\",\"variables\":{\"v3\":\"idx *\"}" + "}"

  /** The same object, wrapped in prose. */
  const InitReply: string := "Sure! " + InitObject + " hope this helps"

  /** A proposal that keeps a placeholder name and renames nothing. */
  const PlaceholderReply: string := "{" + "\"function_name\":\"sub_1234\",\"variables\":{}" + "}"

  /** The prose around the object is cut away and the object is decoded. */
  lemma ProseWrappedReply(d: Decoded)
    ensures BraceSpan(InitReply) == InitObject
    ensures Extract(InitReply, d) == d
  {
    assert Braced(InitObject);
    CutOfWrapped("Sure! ", InitObject, " hope this helps");
    BracedIff(InitReply);
  }

  /** A reply that is nothing but the object is decoded as it is. */
  lemma BareReply(d: Decoded)
    ensures BraceSpan(PlaceholderReply) == PlaceholderReply
    ensures Extract(PlaceholderReply, d) == d
  {
    assert Braced(PlaceholderReply);
    CutOfWrapped("", PlaceholderReply, "");
    assert "" + PlaceholderReply + "" == PlaceholderReply;
    BracedIff(PlaceholderReply);
  }

  lemma HexExample()
    ensures Hex.Upper(0x4A10) == "4A10"
  {
    assert Hex.Upper(4) == "4";
    assert Hex.Upper(0x4A) == "4A";
    assert Hex.Upper(0x4A1) == "4A1";
  }

  lemma ProseRenames(bs: seq<Binding>, es: seq<Entry>)
    requires bs == [Binding("v3", false), Binding("v4", false)]
    requires es == [("v3", "idx *")]
    ensures RenameAll(bs, es) == Renamed([Binding("idx_", true), Binding("v4", false)], 1)
  {
    assert es[..0] == [];
    assert FirstMatch(bs, "v3") == 0;
    SanitizeExample();
  }

  /** At an address rendered as `4A10`, the proposal `Init` is applied as
      `AI_Init_4A10`. */
  lemma InitIsApplied(ea: nat)
    requires Hex.Upper(ea) == "4A10"
    ensures Decide(NameStr("Init"), ea) == SetName("AI_Init_4A10")
  {
    AcceptedWithoutUnderscore("Init");
  }

  /** A placeholder function name is refused, an empty map renames nothing,
      and nothing is saved. */
  method PlaceholderScenario()
  {
    var db := new Database(0x1234, "sub_1234", [Binding("a1", false)]);
    var decoded := Object(NameStr("sub_1234"), VarsMap([]));
    BareReply(decoded);
    RefusedAt("sub_1234", 0);
    var outcome := db.RenameWithAi(Some(PlaceholderReply), decoded, true, true);
    assert outcome == Completed(None, 0, false);
    assert db.symbolName == "sub_1234" && db.savedLvars == None;
  }

  /** The `{...}` part of a prose-wrapped reply is used; "idx *" becomes
      "idx_"; the function is renamed with its address and the variables are
      saved. */
  method ProseScenario()
  {
    var db := new Database(0x4A10, "sub_4A10", [Binding("v3", false), Binding("v4", false)]);
    var decoded := Object(NameStr("Init"), VarsMap([("v3", "idx *")]));
    ProseWrappedReply(decoded);
    HexExample();
    InitIsApplied(0x4A10);
    ProseRenames(db.lvars[..], EntriesOf(decoded.variables));
    var outcome := db.RenameWithAi(Some(InitReply), decoded, true, true);
    assert outcome == Completed(Some("AI_Init_4A10"), 1, true);
    assert db.symbolName == "AI_Init_4A10";
    assert db.lvars[..] == [Binding("idx_", true), Binding("v4", false)];
    assert db.savedLvars == Some(db.lvars[..]);
  }
}
