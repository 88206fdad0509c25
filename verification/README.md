# Find Missing Keys — a Dafny model of the key finder

Find Missing Keys is a VS Code extension. Its one command reads two i18n
translation files, `en` (the reference) and `tr` (the comparison). It lists
every dotted key path of the reference that the comparison lacks. Then it
highlights those keys in the active editor. This project models the three
algorithms inside that command, all in `src/extension.ts`, and proves what
they do:

1. **Key flattener** (`getKeys` / `walk`, `key_flattener.dfy`). The walk is
   depth-first and pushes onto a shared array. `Walk` is a recursive method
   with a `for` loop. The shared array is threaded through as an accumulator.
   `Walked`/`Flatten` are the specification functions.
2. **Key differencer** (the `refKeys.forEach` loop, `key_differ.dfy`). `Find`
   models `Array.prototype.find`. `DiffKeys` is the loop. `Missing` is its
   specification.
3. **Position locator** (`updateDecorations`, `position_locator.dfy`).
   `PushKeyRange` is the per-key callback with its loop over the segments of
   `longKey.split(".")`. `BuildRanges` is the loop over missing keys.
   `Locate`/`Ranges` are the specification.

`text_search.dfy` models `split(".")` and first-occurrence search. The
program never joins segments. `JoinDot` exists only to state the split round
trip (`JoinSplit`, `SplitJoin`) and to build dotted paths in lemmas.
`json_value.dfy` gives the parsed JSON as a tagged value. Its `Entries`
function is what `for...in` enumerates. `extension.dfy` holds the
extension's `missingKeys` state as a class. It also replays the defect
recorded in the source's TODO comment.

Behaviour kept exactly as the code has it:

- `parent ? parent + "." + k : k` treats the empty parent as absent. So
  children of a top-level `""` key get no leading dot
  (`EmptyKeyChildrenUnprefixed`).
- `walk` only descends into plain objects. A top-level array or string is
  still enumerated by index (`TopLevelArrayIndices`). So the key list is empty
  exactly when the document has no members, not only when it is an empty
  object.
- `!compKeys.find(key => key == refKey)` is also true when the match is the
  falsy `""`. An empty reference path is therefore always reported missing
  (`Kept`, `MissingOfSelf`).
- `capturingGroup` is re-declared from the whole text for every segment. The
  highlight is therefore the first `"<last segment>"` anywhere in the text,
  whatever its parents (`LocateIgnoresParents`, `MarksFirstParent`).

## Model

| member | source | states |
|---|---|---|
| JsonValue.IndexName | src/extension.ts:30 | The name `for...in` gives index `n` is a non-empty run of decimal digits, so it holds no `.`, and it starts with `0` only for index 0. |
| JsonValue.IndexNameValue | src/extension.ts:30 | Read back as a decimal number, the name of index `n` is `n`: the name is `n`'s decimal rendering. |
| JsonValue.IndexNameInjective | src/extension.ts:30 | Two different indices never get the same name. |
| JsonValue.EntriesIndexNames | src/extension.ts:30 | For a top-level array or string, `for...in` yields dot-free digit names, and no two elements share a name. |
| KeyFlattener.Join | src/extension.ts:31 | Under a non-empty parent, the path starts with the parent and a dot and is one character longer than parent and key together. Under the empty (falsy) parent, the path is the key itself. |
| KeyFlattener.Walk | src/extension.ts:29-42 | `walk(o, parent)` appends to the shared key array exactly `Flatten(o, parent)`: each member's path, then the paths of its descendants when the value is a plain object, member by member. |
| KeyFlattener.GetKeys | src/extension.ts:26-47 | `getKeys(doc)` starts from an empty array and returns the keys `walk(doc)` pushes with no parent. |
| KeyFlattener.WalkedGrows | src/extension.ts:30-41 | Later loop iterations only append. The keys pushed after `i` members are a prefix of those pushed after `j >= i` members. |
| KeyFlattener.FlattenPreOrder | src/extension.ts:29-41 | Pre-order. Member `i`'s path follows everything pushed for members `0..i-1`. The paths of member `i`'s descendants come right after it. The whole block is a prefix of the output. |
| KeyFlattener.FlattenSiblingOrder | src/extension.ts:30-32 | For siblings `i < j`, member `i`'s path sits at a strictly smaller index than member `j`'s, in the object's iteration order. |
| KeyFlattener.WalkedLength | src/extension.ts:32-40 | The output has exactly one entry per key at every object depth (`KeyCount`). Arrays, strings, numbers and null add no entries below their key. |
| KeyFlattener.KeysOfLength | src/extension.ts:44-46 | `getKeys(doc)` has `KeyCount` entries. It is `[]` iff the document has no members, and for an object iff the object is empty. |
| KeyFlattener.WalkedParentFirst | src/extension.ts:30-39 | Each pushed path is one of two kinds. Either it is the path of a direct member of `o` under `parent`, carrying that member's value. Or an object is stored under an earlier entry `j`, and the path is `out[j]` joined with the name of one of that object's members, carrying that member's value. Entry `j` is therefore its parent, and the parent comes first. |
| KeyFlattener.KeysOfParentFirst | src/extension.ts:31-39 | On the whole document, every key is either a top-level member's path, or its parent's path joined with the key's own member name. The parent is an earlier entry whose value is an object holding that member. |
| KeyFlattener.WalkedUnderParent | src/extension.ts:31-39 | Below a non-empty parent, every pushed path starts with the parent's path followed by a dot. |
| KeyFlattener.EmptyKeyChildrenUnprefixed | src/extension.ts:31 | `{"": {"x": 1}}` flattens to `["", "x"]`, because the empty parent is falsy. |
| KeyFlattener.TopLevelArrayIndices | src/extension.ts:44 | `[{"x": 1}, 2]` flattens to `["0", "0.x", "1"]`. |
| KeyDiffer.Kept | src/extension.ts:82 | A reference key is kept exactly when what `find` returns is falsy, with JavaScript truthiness as `Truthy` defines it (`undefined` and `""` are falsy). `find` returns the equal entry, or `undefined` when there is none. |
| KeyDiffer.Find | src/extension.ts:82 | `find(key => key == refKey)` returns something iff `refKey` is in the list, and then the equal entry. |
| KeyDiffer.DiffKeys | src/extension.ts:80-85 | The loop starts `missingKeys` from `[]` and ends with exactly `Missing(refKeys, compKeys)`. |
| KeyDiffer.Missing | src/extension.ts:80-85 | The missing list is never longer than the reference list. |
| KeyDiffer.MissingIsSubsequence | src/extension.ts:81-84 | The missing list is the reference list with exactly the non-kept entries removed. It is therefore a subsequence in reference order. |
| KeyDiffer.MissingMembership | src/extension.ts:81-83 | A path is missing iff it is in the reference list and is either absent from the comparison list or `""`. |
| KeyDiffer.MissingCounts | src/extension.ts:81-84 | Duplicates are preserved. A kept path is missing exactly as many times as it occurs in the reference list; a non-kept path, zero times. |
| KeyDiffer.MissingEmptyCases | src/extension.ts:80-85 | `diff([], B) == []` and `diff(A, []) == A`. |
| KeyDiffer.MissingOfSelf | src/extension.ts:82 | `diff(A, A) == []` when `""` is not in `A`. When `""` is in `A` it is reported missing all the same. |
| TextSearch.IndexOf | src/extension.ts:110-111 | The first-match index of the pattern: an occurrence with no earlier one, or none when the pattern occurs nowhere. |
| TextSearch.Split | src/extension.ts:105 | `longKey.split(".")` has at least one piece, and no piece contains a dot. |
| TextSearch.JoinSplit | src/extension.ts:105 | Joining the pieces with `.` gives back the key. |
| TextSearch.SplitJoin | src/extension.ts:105 | Splitting a dot-join of dot-free pieces gives back the pieces. |
| TextSearch.LastSegment | src/extension.ts:109 | The segment the final iteration searches for has no dot. |
| TextSearch.LastSegmentOfPath | src/extension.ts:105-109 | For a path `p1. … .pn.last` of dot-free pieces, the final segment is `last`, whatever the parents. |
| PositionLocator.FindToken | src/extension.ts:110-118 | A range found for a segment ends inside the text, as many characters after its start as the segment's length plus 2 for the quotes. |
| PositionLocator.FindTokenFirstOccurrence | src/extension.ts:110-118 | A range starts at the first occurrence of `"segment"`. Its length is the segment's length plus 2. The text it covers is the quoted segment. There is no range only if the token occurs nowhere. |
| PositionLocator.Locate | src/extension.ts:105-118 | The range for a path, if any, covers the path's last segment in quotes. |
| PositionLocator.BraceAfterRun | src/extension.ts:121 | It finds the length of a run of `s`/`S` letters closed by `}` at the front of the text. It reports none only when no such prefix exists. |
| PositionLocator.NarrowIndex | src/extension.ts:121-122 | The index at which `exec` matches, from `i` on, is the first occurrence of the opening that is followed by a `[sS]*?}` run: no earlier occurrence from `i` on is followed by one. There is none only when no occurrence from `i` on is followed by such a run. |
| PositionLocator.NarrowMatch | src/extension.ts:121-125 | A narrowed group starts with `"key": {` and ends with `}`. |
| PositionLocator.PushKeyRange | src/extension.ts:104-127 | One callback run appends to `ranges` exactly the range of the last segment's token, or nothing. The non-final segments' narrowing is discarded. |
| PositionLocator.BuildRanges | src/extension.ts:102-128 | The loop over `missingKeys` produces exactly `Ranges(text, missingKeys)`. |
| PositionLocator.Ranges | src/extension.ts:104-119 | At most one range per missing path. |
| PositionLocator.LocateIgnoresParents | src/extension.ts:105-126 | Non-final segments never change the result. `p1. … .pn.last` is located exactly where `last` is (the defect of lines 57-67). |
| PositionLocator.RangesAppend | src/extension.ts:104 | Ranges of `A + B` are the ranges of `A`, then those of `B`. Each key is handled on its own, in order, and a key with no match is skipped without affecting the others. |
| PositionLocator.RangesSplitAt | src/extension.ts:104 | The ranges of a list are the ranges before key `i`, then key `i`'s own, then the ranges after it. |
| PositionLocator.RangesCoverQuotedKeys | src/extension.ts:110-118 | Every produced range comes from some missing path. It covers that path's quoted last segment inside the text. |
| PositionLocator.RangesCompleteness | src/extension.ts:111-119 | A missing path whose quoted last segment occurs in the text does get its range. |
| FindMissingKeys.Extension.constructor | src/extension.ts:11 | `missingKeys` starts empty at activation. |
| FindMissingKeys.Extension.RunCommand | src/extension.ts:77-87 | After a run, `missingKeys` is the diff of the flattened reference and comparison documents, whatever it was before. So running twice on the same inputs gives the same state. The returned ranges are those of the new list. |
| FindMissingKeys.Extension.UpdateDecorations | src/extension.ts:96-128 | The ranges for the current `missingKeys` in the editor's text, at most one per key. |
| FindMissingKeys.ScenarioMissingKeys | src/extension.ts:57-67 | Reference `{"a":{"c":…},"b":{"c":…}}` against comparison `{"a":{"c":…},"b":{}}` leaves exactly `["b.c"]` missing. |
| FindMissingKeys.ScenarioRange | src/extension.ts:57-67 | In `{"a":{"c":1},"b":{"c":2}}` the range for `b.c` is offsets 6-9, while the `"c"` under `b` sits at 18-21. |
| FindMissingKeys.MarksFirstParent | src/extension.ts:57-67 | End to end: the one missing key `b.c` is highlighted at the `"c"` under `a`, as the TODO comment records. |

## Left out

- VS Code plumbing is not modelled. This covers command registration, `showInformationMessage`, `createTextEditorDecorationType` and `setDecorations`. The ranges are returned instead of being applied.
- The `activeEditor` guards are left out (lines 97-99 and 112). So is the fact that `activeEditor` is captured once at activation (line 10). The editor's text is a parameter.
- Offsets count Unicode code points, not UTF-16 code units. JavaScript's `match.index`, `match[0].length` and `for...in` over a string count UTF-16 units, so in a text with characters outside the Basic Multilingual Plane (an emoji, say) the source's offsets and a top-level string's indices are larger than the model's.
- `positionAt` is left out: spans are raw character offsets into the text, not line/column positions.
- File I/O is left out. This covers `fs.readFileSync`, the hard-coded `/src/assets/i18n/{en,tr}.json` paths and the `workspaceFolders` guard (lines 49-55 and 69-78).
- `JSON.parse` is left out: the parsed documents are inputs. Duplicate keys in the JSON text are assumed already resolved in the member list.
- `for...in`'s own ordering rule (integer-like keys first) is left out. Member order is taken as given.
- Regular-expression semantics are left out. Segments are matched literally, so a key containing a metacharacter behaves differently in the source. A key that makes an invalid pattern throws in the source and aborts the whole update.
- NarrowMatch models the non-final pattern of line 121 as JavaScript sees it: inside a template literal, `\s` and `\S` lose their backslash. Its result is assigned to `capturingGroup` and then discarded, so no lemma connects it to the ranges. Its contract gives only the group's shape. That the group is the first match rests on `NarrowIndex`'s contract, which it calls.
- KeysOfParentFirst: a key extends its parent's path by the member's own name. That name is a single dot-separated segment only when member names contain no `.`. JSON allows a `.` inside a key, and then the flattened paths are ambiguous, in the source as in the model.
- The YAML mode, batch directory mode, configuration, enable/disable toggling and debouncing are not part of this model. None of them exists in `src/extension.ts`.
