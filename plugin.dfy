/**
 * One invocation of `rename_with_ai` (test.py:58-97) against the part of
 * the disassembler's state it touches: the symbol name at the function's
 * address, the decompiled function's local variables, and the user
 * variable settings stored for the function. The chat request is reduced
 * to its reply (or its failure), the JSON decoder to its answer, and each
 * host call to the state update it performs.
 */
module Plugin {
  import opened Wrappers
  import opened Proposal
  import opened FunctionName
  import opened Lvars

  /** The reasons an invocation stops early; the handler at test.py:96
      reports each and nothing further happens. */
  datatype Failure =
    | RequestFailed   // the chat request or the indexing of its answer raised
    | ParseFailed     // `json.loads` on the extracted cut raised
    | NameNotString   // `.lower()` on a truthy non-string `function_name` raised

  datatype Outcome =
    | Aborted(failure: Failure)
    | Completed(nameSet: Option<string>, renamedCount: nat, saveAttempted: bool)

  /** The map the loop runs over: `result.get("variables", {})` when it is
      an object; a non-object skips the loop, which leaves the same state as
      an empty map. */
  function EntriesOf(v: VarsField): (r: seq<Entry>)
    ensures v.VarsMap? ==> r == v.entries
    ensures !v.VarsMap? ==> r == []
  {
    match v
    case VarsMap(es) => es
    case VarsAbsent => []
    case VarsOther => []
  }

  /** The disassembler's state for one decompiled function. */
  class Database {
    /** `cfunc.entry_ea`, the address the script was started on. */
    const entryEa: nat
    /** The naming-table entry at `entryEa`. */
    var symbolName: string
    /** `cfunc.get_lvars()`: the live list of local variables. */
    const lvars: array<Binding>
    /** What `hx_save_user_lvar_settings` stored last, if anything. */
    var savedLvars: Option<seq<Binding>>

    constructor (ea: nat, name: string, vars: seq<Binding>)
      ensures entryEa == ea && symbolName == name && savedLvars == None
      ensures fresh(lvars) && lvars[..] == vars
    {
      entryEa := ea;
      symbolName := name;
      lvars := new Binding[|vars|](i requires 0 <= i < |vars| => vars[i]);
      savedLvars := None;
    }

    /** `idc.set_name(ea, name, SN_CHECK | SN_NOWARN)`; `applied` is the
        host's verdict, which the script ignores. */
    method SetSymbolName(name: string, applied: bool)
      modifies this
      ensures symbolName == (if applied then name else old(symbolName))
      ensures savedLvars == old(savedLvars)
    {
      if applied {
        symbolName := name;
      }
    }

    /** `hx_save_user_lvar_settings(entry_ea, lvars)`; when the host raises
        (`stored` false) the script's `except: pass` drops the error. */
    method SaveLvarSettings(stored: bool)
      modifies this
      ensures savedLvars == (if stored then Some(lvars[..]) else old(savedLvars))
      ensures symbolName == old(symbolName)
    {
      if stored {
        savedLvars := Some(lvars[..]);
      }
    }

    /** `rename_with_ai` from the model's reply onwards. `reply` is the
        reply text, or None when the request failed; `decoded` is the JSON
        decoder's answer for the extracted cut; `nameApplied` and
        `saveStored` are the host's answers to the two writes. */
    method RenameWithAi(reply: Option<string>, decoded: Decoded, nameApplied: bool, saveStored: bool)
      returns (outcome: Outcome)
      modifies this, lvars
      ensures reply.None? ==> outcome == Aborted(RequestFailed)
      ensures reply.Some? && Extract(reply.value, decoded).DecodeError? ==> outcome == Aborted(ParseFailed)
      ensures reply.Some? && Extract(reply.value, decoded).Object?
        && Decide(Extract(reply.value, decoded).functionName, entryEa).Raise?
        ==> outcome == Aborted(NameNotString)
      ensures reply.Some? && Extract(reply.value, decoded).Object?
        && !Decide(Extract(reply.value, decoded).functionName, entryEa).Raise?
        ==> outcome.Completed?
      ensures outcome.Aborted? ==>
        symbolName == old(symbolName) && savedLvars == old(savedLvars) && lvars[..] == old(lvars[..])
      ensures outcome.Completed? ==>
        reply.Some? && Extract(reply.value, decoded).Object?
        && var d := Extract(reply.value, decoded);
           var step := Decide(d.functionName, entryEa);
           var r := RenameAll(old(lvars[..]), EntriesOf(d.variables));
           && !step.Raise?
           && outcome.nameSet == (if step.SetName? then Some(step.final) else None)
           && symbolName == (if step.SetName? && nameApplied then step.final else old(symbolName))
           && lvars[..] == r.bindings
           && outcome.renamedCount == r.count
           && outcome.saveAttempted == (r.count > 0)
           && savedLvars == (if r.count > 0 && saveStored then Some(r.bindings) else old(savedLvars))
    {
      if reply.None? {
        return Aborted(RequestFailed);
      }
      var result := Extract(reply.value, decoded);
      if result.DecodeError? {
        return Aborted(ParseFailed);
      }

      var nameSet: Option<string> := None;
      match result.functionName {
        case NoName =>
        case NameOther(truthy) =>
          if truthy {
            return Aborted(NameNotString);
          }
        case NameStr(newName) =>
          if Accepted(newName) {
            var finalName := Final(newName, entryEa);
            SetSymbolName(finalName, nameApplied);
            nameSet := Some(finalName);
          }
      }

      var renamedCount := 0;
      match result.variables {
        case VarsOther =>
        case VarsAbsent =>
          renamedCount := ApplyRenames(lvars, []);
        case VarsMap(entries) =>
          renamedCount := ApplyRenames(lvars, entries);
      }
      if renamedCount > 0 {
        SaveLvarSettings(saveStored);
      }
      outcome := Completed(nameSet, renamedCount, renamedCount > 0);
    }
  }
}
