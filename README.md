# rename_with_ai, modelled in Dafny

`rename_with_ai` is a disassembler plug-in script. It decompiles one function, asks a chat model to propose names, and applies them. The proposal is a JSON object with a `function_name` and a `variables` map from old variable names to new ones. This project models what the script does with the model's reply (test.py:58-97):

- **Slicing.** It cuts the reply from its first `{` through its last `}` and decodes the cut. Python's `find`/`rfind` return -1 on a miss, slices have their own bound rules, and the model includes both.
- **Function name.** It refuses the proposed name when the name is empty or its lower-case form contains `sub_`. Otherwise it sets the symbol at the function's address to `AI_<name>_<address in upper-case hex>`.
- **Variable names.** It sanitises each proposed name: spaces become `_` and asterisks are deleted.
- **Rename loop.** For each map entry, in key order, it renames the first local variable whose *current* name equals the key and marks it as user-named. It counts the entries that found a variable. It saves the variable settings only when the count is positive.

Modules, one per piece:

- `PyStr` (pystr.dfy): the Python string operations the script uses.
- `Hex` (hex.dfy): `:X` formatting and reading it back.
- `Proposal` (proposal.dfy): the brace cut and the decoder boundary.
- `FunctionName` (function_name.dfy): acceptance and the synthesised name.
- `VariableName` (sanitize.dfy): sanitisation.
- `Lvars` (lvars.dfy): the rename loop, as a method over an `array<Binding>` changed in place and proved against the function `RenameAll`.
- `Plugin` (plugin.dfy): a `Database` class holding the symbol name, the live variable array and the stored variable settings, and the method `RenameWithAi` for one invocation.
- `Scenarios` (scenarios.dfy): two replies followed through the contract of `RenameWithAi`. One is a bare object proposing the placeholder `sub_1234` and no renames. The other wraps, in prose, an object proposing `Init` and renaming `v3` to `idx *`.
- `Wrappers` (wrappers.dfy): an `Option` type.

Host inputs become parameters of `RenameWithAi`:

- `reply`: the reply text, or `None` when the request failed.
- `decoded`: what `json.loads` answers for the cut.
- `nameApplied`: whether `idc.set_name` accepted the name.
- `saveStored`: whether `hx_save_user_lvar_settings` succeeded.

The only JSON fact the model builds in concerns the cut. When no `{` precedes a `}`, the cut is `""` or `"}"` (`Proposal.BraceSpan`), and neither of these decodes.

Points of the code's behaviour that are easy to get wrong:

- **`"idx *"`.** Sanitising gives `"idx_"`, not `"idx"`. The space is not deleted but becomes `_`, and only the asterisk goes (`VariableName.SanitizeExample`).
- **Whitespace.** Only the space character `' '` is replaced. Tabs and newlines are kept.
- **The counter.** It counts the entries that find a variable *at their turn*, matched against names that earlier entries may already have rewritten. It equals the number of keys naming a variable before the loop at least when the keys are distinct and no sanitised value is itself a key (`Lvars.CountIsInitialHits`). When a value is also a key, the two can differ (`Lvars.ChainedRenameExample`).
- **Non-string names.** A truthy non-string `function_name` makes `.lower()` raise. The handler at test.py:96 then catches it, so the variable renames that follow are skipped too (`Failure.NameNotString`).

## Model

| member | source | states |
|---|---|---|
| PyStr.Find | test.py:58 | `find` gives -1 exactly when the character is absent; otherwise an index holding it with no earlier occurrence |
| PyStr.RFind | test.py:59 | `rfind` gives -1 exactly when the character is absent; otherwise an index holding it with no later occurrence |
| PyStr.FindFirst | test.py:58 | `find` is at or before every occurrence |
| PyStr.RFindLast | test.py:59 | `rfind` is at or after every occurrence |
| PyStr.SliceWithin | test.py:60 | a slice whose bounds lie inside the string is the plain subsequence |
| PyStr.SliceBound | test.py:60 | a slice bound is normalised into 0..length, and a bound already inside is kept as it is |
| PyStr.Slice | test.py:60 | Python slicing, with negative and out-of-range bounds normalised, never yields more than the string |
| PyStr.Lower | test.py:63 | `lower()` keeps the length and leaves no ASCII capital; a character changes only when it is a capital, and then into its own small letter |
| PyStr.LowerIdempotent | test.py:63 | lower-casing twice equals lower-casing once |
| PyStr.ContainsIff | test.py:63 | substring `in` holds exactly when the needle occurs at some index |
| PyStr.CountAppend | test.py:74 | occurrence counts of a concatenation add up |
| PyStr.ReplaceChar | test.py:74 | `replace(a, b)` keeps the length and changes exactly the positions holding `a` |
| PyStr.DeleteChar | test.py:74 | `replace(c, "")` leaves no `c`, keeps every other character exactly as often as it occurs, and shortens the string by the number of `c` |
| PyStr.DeleteCharAppend | test.py:74 | deletion works piecewise on a concatenation, so the kept characters keep their order |
| Proposal.BracePositions | test.py:58-59 | a `{` precedes a `}` exactly when both searches succeed and `find('{')` is below `rfind('}')` |
| Proposal.SliceUnframed | test.py:60 | when `find` gave -1 or the first `{` does not precede the last `}`, the Python slice is empty or the single character `}` |
| Proposal.BraceSpan | test.py:58-60 | when a `{` precedes a `}`, the cut is exactly the text from the first `{` through the last `}`, with no `{` before it and no `}` after it; otherwise it is empty or just `"}"` |
| Proposal.BraceSpanBraced | test.py:58-60 | when a `{` precedes a `}`, the cut starts with `{` and ends with `}` |
| Proposal.BracedIff | test.py:58-60 | the cut is brace-framed if and only if some `{` precedes some `}` |
| Proposal.CutOfWrapped | test.py:58-60 | prose without `{` before an object and without `}` after it is cut away exactly |
| Proposal.Loads | test.py:60 | only a brace-framed cut can decode to an object, and for such a cut the decoder's answer is taken as it is |
| Proposal.Extract | test.py:58-60 | without a `{` before a `}` the decode fails (caught at test.py:96); otherwise the decoder's answer is used |
| Hex.Upper | test.py:64 | `f"{ea:X}"` is non-empty, upper-case hex digits only, and starts with `0` only for 0 (then it is `"0"`) |
| Hex.ParseUpper | test.py:64 | reading the rendered address back as hex yields the address |
| Hex.UpperParse | test.py:64 | every canonical upper-case hex string is the rendering of the number it denotes |
| FunctionName.LowerContainsMarker | test.py:63 | the lower-cased name contains `sub_` exactly when `sub_` in some mix of cases starts at some index |
| FunctionName.Accepted | test.py:63 | a name is applied if and only if it is non-empty and has no `sub_` in any mix of cases at any position |
| FunctionName.RefusedAt | test.py:63 | a name holding `sub_` in any case at some position is refused |
| FunctionName.AcceptedWithoutUnderscore | test.py:63 | a non-empty name with no `_` is always applied |
| FunctionName.AcceptedExamples | test.py:63 | `SUB_x`, `Sub_1`, `MySub_init` and the empty name are refused; `CheckEula` is applied |
| FunctionName.Final | test.py:64 | the synthesised name is `AI_`, the proposed name verbatim, a `_`, then the address digits, none of which is `_` |
| FunctionName.SeparatorIsLast | test.py:64 | the `_` before the address is the last `_` of the synthesised name |
| FunctionName.FinalRoundTrip | test.py:64 | the synthesised name splits back into the proposed name, unchanged in case, and the address |
| FunctionName.FinalInjective | test.py:64 | different (name, address) pairs never give the same symbol name |
| FunctionName.Decide | test.py:62-65 | the symbol is set if and only if the field is a non-empty string with no `sub_` in any case at any position, and then to `"AI_" + name + "_" + Hex.Upper(ea)`; it raises if and only if the field is a truthy non-string |
| VariableName.Sanitize | test.py:74 | the result has no space and no `*`, and its length is the input's minus the number of `*` |
| VariableName.ReplaceKeepsCount | test.py:74 | the space-to-underscore pass keeps the number of `*` |
| VariableName.SanitizeIsByChar | test.py:74 | the two chained replacements equal one pass that maps each space to `_`, drops each `*`, and keeps every other character in order |
| VariableName.SanitizeFixesClean | test.py:74 | a name with no space and no `*` is unchanged |
| VariableName.SanitizeIdempotent | test.py:74 | sanitising twice equals sanitising once |
| VariableName.SanitizeExample | test.py:74 | `"idx *"` becomes `"idx_"` |
| Lvars.FirstMatch | test.py:76-82 | the scan stops at the lowest index whose name equals the key, or at the end exactly when no name does |
| Lvars.RenameAll | test.py:73-82 | the loop keeps the number of variables, and the counter is at most the number of entries |
| Lvars.RenameFirst | test.py:76-82 | the inner scan reports a hit exactly when some variable is called the key, and then renames and marks the first such variable only |
| Lvars.RenameAllStep | test.py:73-82 | each further entry extends the fold by one first-match rename, and adds one to the counter exactly when its key names a variable at its turn |
| Lvars.ApplyRenames | test.py:71-82 | the in-place loop over the entries, each one scanned by `RenameFirst`, leaves exactly `RenameAll`'s variables and returns its counter |
| Lvars.RenameEntry | test.py:76-82 | one entry keeps the number of variables and changes only variables called the key; with no such variable nothing changes, and otherwise some variable is now user-named with the sanitised value |
| Lvars.RenameEntryAt | test.py:76-82 | one entry changes only the first variable currently called the key, which gets the sanitised name and the user flag; with no such variable nothing changes |
| Lvars.RenameEntryChangesOne | test.py:76-82 | one entry changes at most one position |
| Lvars.UntouchedKept | test.py:73-82 | a variable whose name is not a key keeps its name and flag |
| Lvars.NeverMatchedKept | test.py:73-82 | a variable that no entry's scan stops at keeps its name and flag, even when its name is a key held by an earlier duplicate |
| Lvars.DuplicateNameExample | test.py:73-82 | with two variables called `a1`, `{"a1":"x","x":"y"}` renames the first one twice, counts 2, and leaves the second `a1` as it was |
| Lvars.ChangedIsRenamed | test.py:73-82 | a changed variable is user-named with some entry's sanitised value; a user-named variable stays user-named |
| Lvars.NoCountNoChange | test.py:80-84 | a zero counter means the variables are as before, so the skipped save loses nothing |
| Lvars.PresenceKeptByEntry | test.py:76-82 | one entry neither creates nor removes a name other than its key and its new name |
| Lvars.PresenceKept | test.py:73-82 | the same holds across all entries, for a name that is no key and no new name |
| Lvars.CountIsInitialHits | test.py:73-82 | with distinct keys and no new name equal to a key, the counter is the number of keys naming a variable before the loop |
| Lvars.ChainedRenameExample | test.py:73-82 | `{"a1":"v3","v3":"x"}` renames the variable first called `a1` twice and counts 2, while only one of the two keys names a variable before the loop |
| Plugin.EntriesOf | test.py:68-69 | the loop runs over the object's items in key order; a `variables` that is absent (default `{}`) or not an object gives no entries |
| Plugin.Database.constructor | test.py:16-20 | a fresh state for one decompiled function: its address, symbol name and variables |
| Plugin.Database.SetSymbolName | test.py:65 | the symbol name becomes the given name when the host accepts it; the stored settings are untouched |
| Plugin.Database.SaveLvarSettings | test.py:86-89 | a successful save stores the current variables; a failed one is ignored |
| Plugin.Database.RenameWithAi | test.py:58-97 | a failed request, failed decode or truthy non-string name changes nothing (a falsy non-string such as `false`, `0`, `[]` or `{}` is skipped like a missing name); otherwise the symbol is set exactly when the name is accepted (independently of the variables), the variables become `RenameAll` of the map (none when `variables` is absent or not an object), and the save is attempted exactly when the counter is positive |
| Scenarios.ProseWrappedReply | test.py:58-60 | for `Sure! {"function_name":"Init","variables":{"v3":"idx *"}} hope this helps` the cut is exactly the object, and the decoder's answer for it is used |
| Scenarios.BareReply | test.py:58-60 | a reply that is only the object `{"function_name":"sub_1234","variables":{}}` is cut to itself and decoded |
| Scenarios.InitIsApplied | test.py:63-64 | `Init` at an address rendered as `4A10` becomes `AI_Init_4A10` |
| Scenarios.HexExample | test.py:64 | 0x4A10 renders as `4A10` |
| Scenarios.ProseRenames | test.py:73-82 | `{"v3":"idx *"}` renames `v3` to `idx_` and counts 1 |

## Left out

- PyStr.Slice: its own contract only bounds the length of the result. The cut it produces from a reply is characterised exactly by the contract of `Proposal.BraceSpan`.
- PyStr.SliceBound: its own contract does not say where a negative or out-of-range bound lands. The only such bound the script produces is `find('{') == -1`, and its effect on the cut is stated by `Proposal.BraceSpan`.
- The address field `entryEa` of `Plugin.Database`: it stands both for the argument `ea` used to name the symbol (test.py:64-65) and for `cfunc.entry_ea` used to save the variables (test.py:87). They coincide because the `__main__` entry passes `func.start_ea` (test.py:103).

- The chat request, the prompt, the headers and the indexing of the reply envelope (test.py:21-56). These are network I/O; `reply` is `None` when any of it raises. It is also `None` when the reply's `content` is not a string (JSON `null`, say): then `ai_msg.find` raises at test.py:58, and again nothing changes.
- `init_hexrays_plugin` and `decompile`, with their early returns (test.py:13-19), and the `__main__` entry (test.py:99-103). These belong to the host; a `Database` always stands for a function that did decompile.
- `json.loads` itself (test.py:60). It is a library call, given here as the parameter `decoded`. What happens to duplicate JSON keys is the decoder's business: the model takes the entries in the order the decoder gives them.
- `cfunc.get_pseudocode()` (test.py:85) and the view refresh (test.py:92-94). Neither changes any modelled state. The refresh runs whether or not anything was renamed.
- The flags `SN_CHECK | SN_NOWARN` of `idc.set_name` (test.py:65). The host's verdict is the parameter `nameApplied`, and the script ignores it.
- All `print` output (test.py:18, 45, 56, 66, 81, 90, 97).
- Python's full Unicode `lower()`. `Lower` folds ASCII letters only.
- `str(new_name)` on non-string JSON values (test.py:74). The entries of `VarsMap` are string pairs.
- Other attributes of a local variable. A `Binding` holds only the name and the user-named flag.
