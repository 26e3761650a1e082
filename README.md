# Macro editor tab of vial-gui, modelled in Dafny

This project models the macro editor tab of the Vial keyboard configurator
(`src/main/python/macro_tab.py`, class `MacroTab`). The tab holds an ordered
list of macro lines. Each line holds one action: press keys (`down`), release
keys (`up`), tap keys (`tap`), type text (`text`) or wait (`delay`). The tab
appends, removes, swaps and clears lines, and emits a `changed` signal after
each edit. It also saves the macro to a `.vim` file and loads one back.

Files:

- `wrappers.dfy`: the `Option`, `Result` and `Outcome` values.
- `actions.dfy`: the `Action` datatype, the action kinds, and the table that maps tag strings to kinds.
- `documents.dfy`: a parsed JSON value (`Doc`). Also Python's `d[0]` on such a value (`First`), the tag lookup (`LookupTag`) and the classification of a record (`Classify`). The Python exceptions they raise are returned as `Error` values.
- `persistence.dfy`: the saved document `[[record, ...]]`, the loader's record loop as a function (`LoadRecords`), and the lemmas about loading and the save/load round trip.
- `macro_tab.dfy`: the classes `MacroLine` and `MacroTab`. `MacroTab.lines` is the list of lines and `MacroTab.changes` counts the `changed` signals. The module also holds the specification functions for removal (`Removed`) and moving (`Moved`), and the lemmas about them.

How the model follows the code:

- Lines are objects, and the tab tells them apart by identity. `on_remove` and `on_move` take a line, not an index. `MacroLine` is therefore a class. The tab's invariant `Valid()` says that no line occurs twice: `add_action` always makes a new line.
- A Python exception becomes a returned `Error`. Examples: `list.remove` or `list.index` on a line that is not in the list (ValueError), and `[0]` on an empty list (IndexError).
- `ActionTap` is built from a list of keycodes (`macro_tab.py:188`). So `Down`, `Up` and `Tap` each carry a `seq<Keycode>`, not a single key.
- When element 0 of the loaded document is not a list, the load returns silently and changes nothing (`macro_tab.py:159-160`). It does not report a malformed document. The model does the same.
- A record can raise during the load loop: an empty list or empty string (IndexError), an object (KeyError), a number, `true`, `false` or `null` (TypeError), or a list whose first element is a list or an object (TypeError, an unhashable key). The loop has already run `clear()` at that point. The exception therefore leaves the macro holding the actions loaded before that record (`Persistence.LoadStopsAtBroken`). A file that cannot be read raises before anything changes.
- `on_move` swaps the line with the line `offset` places away. It does not shift the lines in between.

## Model

| member | source | states |
|---|---|---|
| `Actions.KindOfTag` | src/main/python/macro_tab.py:161-167 | exactly the five tags `down`, `up`, `tap`, `text`, `delay` are known, and each selects the action kind whose tag it is |
| `Documents.First` | src/main/python/macro_tab.py:158 | `d[0]` succeeds exactly on a non-empty list (giving its first element) or a non-empty string (giving its first character); an empty list or string raises IndexError, an object KeyError, anything else TypeError |
| `Documents.LookupTag` | src/main/python/macro_tab.py:177 | `key in tag_to_action` raises TypeError exactly for unhashable keys (lists, objects), and finds kind `k` exactly for the string that is `k`'s tag |
| `Documents.Classify` | src/main/python/macro_tab.py:176-177 | a record raises exactly when it is neither a non-empty list with a hashable head nor a non-empty string; a known record is a list headed by a string; a string record is always skipped |
| `Documents.ClassifyKnown` | src/main/python/macro_tab.py:161-177 | a record is known as kind `k` if and only if it is a list whose first element is `k`'s tag string |
| `Persistence.SaveRecord` | src/main/python/macro_tab.py:146 | a saved record is classified on load as the kind of the action it was saved from |
| `Persistence.SaveRecords` | src/main/python/macro_tab.py:146 | one record per action, the i-th record being the i-th action's |
| `Persistence.SaveDocument` | src/main/python/macro_tab.py:145-146 | the saved document is a one-element list whose element 0 is the record list |
| `Persistence.Restore` | src/main/python/macro_tab.py:178-180 | the restored action has the kind its tag selected |
| `Persistence.LoadRecords` | src/main/python/macro_tab.py:176-181 | a load appends at most one action per record |
| `Persistence.LoadFailure` | src/main/python/macro_tab.py:176-181 | a load ends in an exception if and only if some record raises, and then with an exception that a record raised |
| `Persistence.LoadOne` | src/main/python/macro_tab.py:177-181 | loading a single record gives its one restored action, nothing, or its exception |
| `Persistence.LoadAppend` | src/main/python/macro_tab.py:176-181 | loading `a + b` loads `a`, then, unless `a` raised, appends what `b` loads after it, so records keep their relative order |
| `Persistence.LoadSkipsUnknown` | src/main/python/macro_tab.py:177 | inserting a record with an unknown tag anywhere does not change what is loaded |
| `Persistence.LoadStopsAtBroken` | src/main/python/macro_tab.py:176-181 | the first record that raises ends the load with its exception, keeping exactly the actions of the records before it |
| `Persistence.LoadSaved` | src/main/python/macro_tab.py:145-181 | loading the records saved from a macro (element 0 of the saved document, by `SaveDocument`) gives back exactly that macro, without error |
| `Persistence.KeycodeFormatRoundTrips` | src/main/python/macro_tab.py:145-181 | when keycodes are saved by a name that identifies them (the qmk id, read back by lookup, as at line 188), the record layout tag-then-keys, tag-then-text, tag-then-delay reads back every record it writes, so the round trip `LoadSaved` assumes holds for some format |
| `Macro.IndexOf` | src/main/python/macro_tab.py:127 | `list.index` gives the first position holding the value, or signals absence exactly when the value is not in the list |
| `Macro.ActionsOf` | src/main/python/macro_tab.py:206-207 | `actions()` has one action per line, the i-th being the i-th line's action |
| `Macro.Swapped` | src/main/python/macro_tab.py:133 | the two positions exchange their lines and every other position keeps its line |
| `Macro.SwappedPermutes` | src/main/python/macro_tab.py:133 | the exchange keeps the multiset of lines |
| `Macro.Removed` | src/main/python/macro_tab.py:113 | `list.remove` fails with ValueError exactly when the line is absent, and otherwise shortens the list by one |
| `Macro.IndexOfDistinct` | src/main/python/macro_tab.py:130 | among distinct lines, `index(lines[p])` is `p`, so `other` is `index + offset` |
| `Macro.RemovedIsWithout` | src/main/python/macro_tab.py:113-117 | removing a present line from distinct lines equals filtering it out: the other lines keep their relative order |
| `Macro.RemoveAfterAppend` | src/main/python/macro_tab.py:98-113 | removing the line just appended restores the previous list |
| `Macro.RemovedDistinct` | src/main/python/macro_tab.py:113 | removal keeps the lines distinct |
| `Macro.SwappedDistinct` | src/main/python/macro_tab.py:133 | the exchange keeps the lines distinct |
| `Macro.Moved` | src/main/python/macro_tab.py:124-136 | the move raises ValueError exactly when the offset is non-zero and the line is not in the list; otherwise the new list holds the same lines, rearranged only (a permutation) |
| `Macro.MovedNoOp` | src/main/python/macro_tab.py:124-129 | with a zero offset, or a target outside `[0, len)`, the move leaves the list as it is |
| `Macro.MovedSwaps` | src/main/python/macro_tab.py:130-136 | otherwise exactly the line and the line `offset` places away exchange places, and the lines stay distinct |
| `Macro.MoveBack` | src/main/python/macro_tab.py:124-136 | moving a line by `offset` and then by `-offset` swaps the same pair and restores the original list |
| `Macro.MacroTab.constructor` | src/main/python/macro_tab.py:33 | a new tab has no lines and has emitted nothing |
| `Macro.MacroTab.Actions` | src/main/python/macro_tab.py:206-207 | `actions()` has one action per line of the tab, the i-th being the i-th line's action |
| `Macro.MacroTab.OnSaveFile` | src/main/python/macro_tab.py:138-148 | the written document is a one-element list holding one record per line, in line order, each the record of that line's action |
| `Macro.MacroTab.AddAction` | src/main/python/macro_tab.py:98-103 | one new line holding the action is appended at the end, earlier lines are unchanged and in order, and `changed` is emitted once |
| `Macro.MacroTab.OnTapEnter` | src/main/python/macro_tab.py:187-188 | appends one new line holding a tap of the Enter key, keeping every earlier line in place, with one `changed` |
| `Macro.MacroTab.OnChange` | src/main/python/macro_tab.py:184-185 | an edit inside a line emits one `changed` and leaves the list as it is |
| `Macro.MacroTab.OnRemove` | src/main/python/macro_tab.py:108-118 | a present line is removed, the others keep their order, and `changed` is emitted once; an absent line raises ValueError with nothing changed or emitted |
| `Macro.MacroTab.Clear` | src/main/python/macro_tab.py:120-122 | the list ends empty, with one `changed` per removed line, so nothing is emitted on an empty list |
| `Macro.MacroTab.OnMove` | src/main/python/macro_tab.py:124-136 | the list becomes the `Moved` result; `changed` is emitted exactly when two lines were swapped; an absent line raises ValueError unless the offset is zero |
| `Macro.MacroTab.OnLoadFile` | src/main/python/macro_tab.py:150-182 | if element 0 raises or is not a list, nothing changes; otherwise the macro is cleared and its lines are all new objects (the old ones are gone) whose actions are exactly what `LoadRecords` gives, with `changed` once per removed and once per appended line |
| `Macro.MacroTab.Replace` | src/main/python/macro_tab.py:175-181 | the clear-then-append loop leaves only new lines, whose actions are exactly the `LoadRecords` actions, and returns the exception of the record that stopped it |

## Left out

- Qt widgets and layout: buttons, menus, the scroll area, style sheets, `pre_record`/`post_record`, and the `record`/`record_stop` signals (`macro_tab.py:28-96`, `190-204`). They have no effect on the macro.
- Grid placement of lines: `MacroLine.insert`, `remove` and `delete`. They only move widgets. `macro_line.py` is not part of this model.
- `on_add`: its default action is built by `ActionTextUI`. `macro_action_ui.py` is not part of this model.
- Edits made inside a line's widgets can change its action in place. Here a line's action is constant. `OnChange` counts only the signal such an edit triggers.
- File dialogs, reading and writing files, UTF-8 decoding and JSON parsing: the document is given already parsed, as a `Doc`. A file that fails to decode or parse raises before anything changes. JSON numbers are integers here. A fractional number acts like an integer wherever the loader inspects it: it raises TypeError under `[0]` and is never a tag.
- The payload layout of each action class's `save` and `restore`: `macro_action.py` is not part of this model. The layout is the `RecordFormat` parameter. `SaveRecord` takes `save` to write its kind's tag string as the record's first element, followed by the `RecordFormat` payload; the loader's tag lookup and the round trip rely on this. The round trip assumes `RoundTrips(fmt)`, meaning each class restores what it saved. Exceptions raised inside `restore` are not modelled.
- `Keycode.find_by_qmk_id`: the keycode table is not part of this model. `Keycode` is an abstract type, and `OnTapEnter` receives the resolved Enter key as a parameter.
- The firmware byte encoding (`SS_*` constants) and `macro_optimize` are imported but never used in this file. Their sources are not part of this model.
