# yaml-key-replace: key paths, YAML navigation and the paste command

yaml-key-replace is an editor extension that converts a YAML document's nested keys into dotted key paths (`a.b.c`) and back. Two commands use it:

- **Copy** flattens the key under the cursor into its path.
- **Paste** expands a path from the clipboard into nested keys. If the path already exists, the cursor moves to its key. If only a prefix exists, paste inserts just the missing keys under that prefix. In both inserting cases it keeps the new lines indented like their sibling keys.

This project models the three pieces of logic behind those commands and proves what each promises.

- **`KeyPath`** (`key_path.dfy`) covers `keyPath.ts`:
  - validation against `^[a-zA-Z0-9_-]+(\.[a-zA-Z0-9_-]+)*$`, written as a two-state automaton `PatternAccepts`;
  - `split('.')`, `join('.')` and `trim()`.
  - The JavaScript string built-ins these use are in `JsString` (`js_string.dfy`): `trim`, `split`, `join`, `repeat`, and the `\s` class, written out as the ECMAScript WhiteSpace and LineTerminator code points (`IsWhitespace`). `TrimStart` and `TrimEnd` there are helpers of the model: `trim` is defined through them, and `TrimStart` also states what follows the indentation matched by the regex `^(\s*)`. The code itself calls neither `trimStart` nor `trimEnd`.
- **`YamlAst`** (`yaml_ast.dfy`) covers `yamlAst.ts`.
  - The parsed document is a datatype: `Node = Scalar(value, range) | Map(items) | Other`, with `Pair(key, value)`.
  - A scalar's value is either a string (`Str`) or a non-string (`NonStr`, with its `String(...)` rendering).
  - The `yaml` library's line counter is `LineCounter` (`line_counter.dfy`): a strictly increasing table of line starts, beginning at 0.
  - The loops of `findKeyPath` and `findPartialKeyPath` are methods, each proved equal to a specification function: `KeyPathLocation` and `PartialKeyPath`.
  - So are the recursive `visit` of `getKeyPathAtPosition`, which pushes into the outer `path`, and `traverse` of `findLastLineOfNode`, which updates the closure variable `lastLine`.
  - `isPositionOnKey` is plain boolean recursion, so it is a function.
  - The properties are lemmas about these functions:
    - first-match chains;
    - the pre-order "first covering key" characterisation;
    - the maximum end line;
    - the insertion anchors.
- **`PasteKeyPath`** (`paste_key_path.dfy`) covers `pasteKeyPath.ts`.
  - The document is a sequence of lines.
  - `editBuilder.insert` is `ApplyInsert`: a pure update that cuts the line at the position, inserts the text, and splits at line breaks.
  - The command's decision is one function, `PlanPaste`, with one outcome per case: default paste, navigate, insert the remaining segments, insert the full structure.
  - The command itself is `Editor.PasteKeyPath`, on an `Editor` class whose `lines` and `selection` fields it updates.
  - The lemmas state, per branch, exactly which lines the document has afterwards and where the cursor is. In both insert cases, the original lines stay unchanged and in order around the inserted lines.
- **`YamlExamples`** (`yaml_examples.dfy`) works through small documents with the trees written out.

The model follows the code where its comments differ from it:

- **`a-b-c`.** The documentation comment of `isValidKeyPath` (`src/yaml/keyPath.ts:8`) lists it among the invalid paths. The pattern accepts it, and so does the model (`KeyPath.AcceptedExamples`).
- **`isPositionOnKey` versus `getKeyPathAtPosition`.**
  - `isPositionOnKey` is not equivalent to "`getKeyPathAtPosition` is non-null". It descends into the value of a pair whose key is not a ranged scalar; `visit` does not.
  - One direction holds, and the converse holds when every key is a ranged scalar. `YamlAst.OnKeyWithoutKeyPath` is a document where the converse fails.
- **Branch 2 of `findPartialKeyPath`** (the empty-mapping case at lines 299-313) can never be taken. Every match sets `lastValidMap`, so an empty mapping gives no insertion point at all (`YamlExamples.EmptyMappingNoAnchor`).
- **The cursor after a full insert** (`src/commands/pasteKeyPath.ts:185-191`) goes to column `lastLine.length`. The comment says "after the last colon", but on a one-line insert at a column above 0 the cursor falls short of it. The model keeps the code's column; see "## Findings".
- **Numeric keys.** `getKeyPathAtPosition` names a key by `String(value)`, but `findKeyPath` and `findPartialKeyPath` match a segment only against a string key. A path copied through a numeric or boolean key is therefore never found again (`YamlExamples.NumericKeyNotFound`).
- **A path whose first segment is missing still gets an anchor** from `findPartialKeyPath` (`existingDepth = 0`). The paste command does not use that anchor, because it requires `existingDepth > 0`.

## Model

| member | source | states |
|---|---|---|
| KeyPath.ValidIffPattern | src/yaml/keyPath.ts:10-18 | the empty and trim guards reject nothing the pattern accepts: a text is valid exactly when the pattern matches it |
| KeyPath.ValidIffAllPartsSegments | src/yaml/keyPath.ts:10-26 | a text is valid exactly when every dot-separated part of it is a non-empty run of `[A-Za-z0-9_-]` |
| KeyPath.ValidIffJoinOfSegments | src/yaml/keyPath.ts:10-34 | a text is valid exactly when it is one or more segments joined by single dots (both directions) |
| KeyPath.JoinOfSegmentsValid | src/yaml/keyPath.ts:16-34 | joining a non-empty list of segments gives a valid path |
| KeyPath.ValidSplitSegments | src/yaml/keyPath.ts:10-26 | splitting a valid path gives a non-empty list of segments, each in the allowed charset and free of dots |
| KeyPath.JoinSplitKeyPath | src/yaml/keyPath.ts:24-34 | joining the split of any string gives the string back |
| KeyPath.SplitJoinKeyPath | src/yaml/keyPath.ts:24-34 | splitting the join of a non-empty list of dot-free parts gives the list back |
| KeyPath.SplitJoinKeyPathEmpty | src/yaml/keyPath.ts:24-34 | for the empty list the round trip gives `[""]` instead |
| KeyPath.NormalizeIdempotent | src/yaml/keyPath.ts:39-41 | normalising twice equals normalising once, and the result has no whitespace at either end |
| KeyPath.SegmentValid | src/yaml/keyPath.ts:16-17 | a single segment is a valid path |
| KeyPath.AcceptedExamples | src/yaml/keyPath.ts:7-17 | `a`, `a.b` and `a-b-c` are valid |
| KeyPath.AcceptedLongExample | src/yaml/keyPath.ts:7-17 | `listing.api.endpoint` is valid |
| KeyPath.RejectedExamples | src/yaml/keyPath.ts:8-17 | `""`, `a.`, `.b`, `a..b`, `a b` and ` a` are invalid |
| YamlAst.FindPair | src/yaml/yamlAst.ts:48-53 | the index found is the first pair whose key is a string scalar equal to the segment; none means that no pair's key equals it |
| YamlAst.KeyStartLocation | src/yaml/yamlAst.ts:59-70 | a location exists exactly when the key is a scalar with a range; its line is the 0-based line of the range start |
| YamlAst.LocateKey | src/yaml/yamlAst.ts:61-69 | the 1-based `linePos` of the range start, converted to 0-based, equals `KeyStartLocation` |
| YamlAst.FindKeyPath | src/yaml/yamlAst.ts:33-78 | the loop over the segments returns exactly `KeyPathLocation` |
| YamlAst.KeyPathLocationEmpty | src/yaml/yamlAst.ts:41-77 | an empty segment list gives null |
| YamlAst.KeyPathLocationChain | src/yaml/yamlAst.ts:41-74 | the walk's pairs form a first-match chain; the result is non-null exactly when every segment matched and the last key is a ranged scalar; it then holds that key's 0-based line and column |
| YamlAst.KeyPathLocationStuck | src/yaml/yamlAst.ts:44-57 | if the chain reaches a node that is not a mapping, or a mapping where no key equals the next segment, the result is null |
| YamlAst.DescendIsLongestChain | src/yaml/yamlAst.ts:41-75 | each matched pair is the first match for its segment in the value of the pair before it, and the walk stops only where the next lookup cannot succeed |
| YamlAst.FirstMatchChainsAgree | src/yaml/yamlAst.ts:48-53 | two first-match chains for the same segments agree on their common length, and the shorter one has not stopped: first match is deterministic |
| YamlAst.FirstMatchUnique | src/yaml/yamlAst.ts:48-53 | a mapping has at most one first pair for a segment |
| YamlAst.Visit | src/yaml/yamlAst.ts:94-120 | the recursive walk with its loop over the items reports success, and pushes the path, exactly as `VisitNode` does |
| YamlAst.GetKeyPathAtPosition | src/yaml/yamlAst.ts:84-127 | the result equals `KeyPathAt`, and a non-null path is never empty |
| YamlAst.FirstCovering | src/yaml/yamlAst.ts:96-106 | the result is non-null exactly when some entry's inclusive range covers the offset; it is the path of the first such entry |
| YamlAst.VisitIsFirstCoveringKey | src/yaml/yamlAst.ts:94-120 | `visit` returns the ancestor chain plus the key of the first ranged key in pre-order whose `[start, end]` contains the offset |
| YamlAst.VisitPathExtends | src/yaml/yamlAst.ts:104-111 | a path found extends the current path by at least one key |
| YamlAst.KeyPathAtImpliesOnKey | src/yaml/yamlAst.ts:132-161 | whenever `getKeyPathAtPosition` finds a path, `isPositionOnKey` is true |
| YamlAst.CheckImpliesVisit | src/yaml/yamlAst.ts:139-159 | the converse holds when every key in the tree is a ranged scalar |
| YamlAst.OnKeyWithoutKeyPath | src/yaml/yamlAst.ts:143-154 | a document where `isPositionOnKey` is true and `getKeyPathAtPosition` is null: an unranged key whose value holds a ranged key |
| YamlAst.Greatest | src/yaml/yamlAst.ts:176-184 | no line for an empty list; otherwise a member of the list that no member exceeds |
| YamlAst.GreatestConcat | src/yaml/yamlAst.ts:197-201 | the greatest line of two non-empty lists is the later of their greatest lines |
| YamlAst.TraverseNode | src/yaml/yamlAst.ts:187-202 | after `traverse` of a node, `lastLine` is the later of its old value and the greatest end line in the subtree |
| YamlAst.TraversePair | src/yaml/yamlAst.ts:190-196 | the same for a pair: its key's end line and then its value's |
| YamlAst.FindLastLineOfNode | src/yaml/yamlAst.ts:168-206 | the greatest 0-based end line over the ranged keys and scalars of the subtree, and null exactly when there are none |
| YamlAst.OtherHasNoEndLine | src/yaml/yamlAst.ts:187-202 | sequences and other nodes contribute no line |
| YamlAst.FindPartialKeyPath | src/yaml/yamlAst.ts:215-321 | the loop and the anchor code return exactly `PartialKeyPath`; `existingDepth <= n` and `remainingSegments == keySegments[existingDepth..]` |
| YamlAst.PlaceAnchors | src/yaml/yamlAst.ts:264-313 | the anchor code computes `Anchors`; its second branch is never entered once the walk has set `lastValidMap` |
| YamlAst.PartialPrefixIsChain | src/yaml/yamlAst.ts:226-262 | the first `existingDepth` segments form a first-match chain, the same one `findKeyPath` follows, and it stops only where the next lookup cannot succeed |
| YamlAst.KeyPathLocationIffFullDepth | src/yaml/yamlAst.ts:41-74 | `findKeyPath` is non-null exactly when the path is non-empty, `findPartialKeyPath` matches every segment, and the last key is a ranged scalar |
| YamlAst.MatchSetsLastMap | src/yaml/yamlAst.ts:250-256 | once any segment has matched, `lastValidMap` is set |
| YamlAst.DescendLastMap | src/yaml/yamlAst.ts:240-256 | `lastValidMap` is the mapping where the walk stopped, or the mapping of the last match |
| YamlAst.ParentKeyBranchUnreachable | src/yaml/yamlAst.ts:269-313 | the anchors are those of the last item of `lastValidMap` when segments remain, and null otherwise; the empty-mapping branch never decides them |
| YamlAst.NothingRemainsNoAnchors | src/yaml/yamlAst.ts:264-269 | when no segment remains, both locations are null |
| YamlAst.InsertAnchorsShape | src/yaml/yamlAst.ts:269-298 | an insertion point means segments remain and `lastValidMap` has a last item with a ranged scalar key; the sibling is that key's start, and the insertion point is column 0 of `findLastLineOfNode` of that item |
| YamlAst.InsertNotAboveSibling | src/yaml/yamlAst.ts:279-295 | in a document whose ranges follow the text order, the insertion line is never above the sibling key's line |
| YamlAst.InsertIffSibling | src/yaml/yamlAst.ts:275-295 | there is an insertion point exactly when there is a sibling location |
| YamlExamples.FullPathFound | src/yaml/yamlAst.ts:33-78 | in `a:` / `b:` / `c: 1`, `a.b.c` is found on line 2, column 4 |
| YamlExamples.PositionOnKeyAndValue | src/yaml/yamlAst.ts:84-162 | the cursor on `c` gives `a.b.c` and is on a key; the cursor on the value `1` gives neither |
| YamlExamples.PartialPathAnchors | src/yaml/yamlAst.ts:215-321 | `a.b.d`: depth 2, remaining `d`, insertion and sibling anchors at `c` |
| YamlExamples.InsertBelowSubtree | src/yaml/yamlAst.ts:286-295 | the insertion line is below the whole subtree of the last sibling, while the sibling stays on the key's own line |
| YamlExamples.EmptyMappingNoAnchor | src/yaml/yamlAst.ts:269-313 | `a: {}` with `a.b` gives depth 1 and no insertion point |
| YamlExamples.TopLevelAnchor | src/yaml/yamlAst.ts:264-298 | a missing first segment still gets the last top-level item as its anchor |
| YamlExamples.NumericKeyNotFound | src/yaml/yamlAst.ts:48-53 | in `1: a`, the cursor on the key names the path `1` (its `String(...)` rendering), and looking up `1` finds nothing, because the key's value is a number and not the string `"1"` |
| PasteKeyPath.IndentUnit | src/commands/pasteKeyPath.ts:12-22 | `tabSize` spaces when `insertSpaces` is set, otherwise one tab |
| PasteKeyPath.BaseIndent | src/commands/pasteKeyPath.ts:27-35 | the longest whitespace prefix of the line: whitespace, a prefix, and followed by the line with its leading whitespace trimmed |
| PasteKeyPath.GenerateYamlStructure | src/commands/pasteKeyPath.ts:40-61 | the loop that pushes one line per segment returns `Structure`, the lines joined by line breaks |
| PasteKeyPath.StructureLineNesting | src/commands/pasteKeyPath.ts:47-57 | line `i` is indented by the base indent plus `i` units, and what follows is the segment and a colon |
| PasteKeyPath.StructureSplits | src/commands/pasteKeyPath.ts:40-61 | splitting the generated text at line breaks gives exactly its `n` lines |
| PasteKeyPath.StructureEmpty | src/commands/pasteKeyPath.ts:40-61 | no segments give the empty text |
| PasteKeyPath.ApplyInsertKeepsLines | src/commands/pasteKeyPath.ts:151-153 | an insert keeps the document non-empty with no line break inside any line |
| PasteKeyPath.SplitSplice | src/commands/pasteKeyPath.ts:180-182 | text inserted into a line splits into the inserted lines, the first prefixed by the text before the cut and the last followed by the text after it |
| PasteKeyPath.PasteDefaultIff | src/commands/pasteKeyPath.ts:70-79 | the default paste happens exactly when the normalised text is not a valid key path |
| PasteKeyPath.PlanKeyPathNavigatesIff | src/commands/pasteKeyPath.ts:89-107 | for the split segments, the command navigates exactly when `findKeyPath` finds the key, and to its line and column |
| PasteKeyPath.PasteNavigatesIff | src/commands/pasteKeyPath.ts:70-107 | the paste navigates exactly when the path is valid and exists, and it targets the key's location |
| PasteKeyPath.PlanInsertIff | src/commands/pasteKeyPath.ts:110-182 | for a missing path, the remaining segments are inserted exactly when `existingDepth > 0`, something remains and there is an insertion point; otherwise the full structure goes in at the cursor |
| PasteKeyPath.PasteRemainingIff | src/commands/pasteKeyPath.ts:70-182 | the same decision stated for the whole command, both directions, for the partial and the full insert |
| PasteKeyPath.PlanPasteOfValid | src/commands/pasteKeyPath.ts:74-90 | for a valid path, the outcome is decided on its split segments with the editor's indentation unit |
| PasteKeyPath.SiblingIndent | src/commands/pasteKeyPath.ts:126-136 | the base indent is that of the sibling key's line, clamped into the document, or else that of the clamped insertion line |
| PasteKeyPath.RemainingEdit | src/commands/pasteKeyPath.ts:119-165 | the insertion position, text and new cursor are those of `PlanRemaining` |
| PasteKeyPath.InsertBelowLine | src/commands/pasteKeyPath.ts:146-153 | inserting at `(safe + 1, 0)` with the line break before the text when `safe` is the last line, and after it otherwise, puts the text's lines right after line `safe` in both cases |
| PasteKeyPath.RemainingInsertLines | src/commands/pasteKeyPath.ts:122-153 | the partial insert leaves the lines up to `safe = min(insertLine, lineCount - 1)`, then the generated lines, then the rest |
| PasteKeyPath.RemainingInsertShape | src/commands/pasteKeyPath.ts:119-166 | the same, and the new cursor is at the end of the last generated line, on line `safe + n` |
| PasteKeyPath.PlanPasteRemaining | src/commands/pasteKeyPath.ts:110-124 | a partial-insert outcome arises only for a valid path with an insertion point and at least one remaining segment, and it is the plan for those segments |
| PasteKeyPath.RemainingEffect | src/commands/pasteKeyPath.ts:119-166 | the document after a partial insert, and a cursor at the end of the last generated line |
| PasteKeyPath.PasteRemainingEffect | src/commands/pasteKeyPath.ts:110-166 | when the paste inserts the remaining segments, they land right after line `safe`, every original line stays unchanged and in order around them, and the cursor ends at the end of the last new line |
| PasteKeyPath.FullInsertShape | src/commands/pasteKeyPath.ts:171-191 | the full insert splices the structure lines into the cursor's line at the cursor; the new cursor is on the last inserted line at column `lastLine.length`, and that line is the last structure line (after the old text before the cursor on a one-line insert) followed by the old rest of the line |
| PasteKeyPath.PlanPasteFull | src/commands/pasteKeyPath.ts:171-182 | a full-insert outcome arises only for a valid path, and it is the plan for all of its segments at the cursor |
| PasteKeyPath.FullEffect | src/commands/pasteKeyPath.ts:171-191 | the document after a full insert at the cursor, and the selection at column `lastLine.length` of the last inserted line; it has exactly the last structure line before it when the structure has several lines or the cursor was at column 0 |
| PasteKeyPath.IntendedFullEffect | src/commands/pasteKeyPath.ts:185-191 | with the corrected cursor the document is the same, and the selection has the whole inserted text before it (after the old text before the cursor on a one-line insert) and the old rest of the line after it |
| PasteKeyPath.PasteFullEffect | src/commands/pasteKeyPath.ts:171-191 | when the paste inserts the full structure, the original lines before and after the cursor's line are unchanged and the cursor's line is split around the structure; the cursor ends at column `lastLine.length` of the last inserted line, which is right after the last colon when the structure has several lines or the cursor was at column 0 |
| PasteKeyPath.PasteIntendedFullEffect | src/commands/pasteKeyPath.ts:185-191 | with the corrected cursor, the paste leaves the same document and the cursor right after the last colon in every case |
| PasteKeyPath.FullInsertCursorFormulas | src/commands/pasteKeyPath.ts:185-191 | the source's cursor formula and the corrected one agree on a structure of several lines and differ by the old column on a one-line structure |
| PasteKeyPath.AsWrittenCursorShort | src/commands/pasteKeyPath.ts:185-191 | on a one-segment full insert, the command's cursor is at the column equal to the inserted text's length, while the old text before the cursor and the inserted text end at the old column plus that length: the cursor falls short whenever the old column is above 0 |
| PasteKeyPath.AsWrittenCursorMisplaced | src/commands/pasteKeyPath.ts:171-191 | pasting `x` at the end of the line `"  "` inserts `"  x:"` with the command's cursor at column 4; the corrected formula `FullInsertCursor` puts it at column 6 |
| PasteKeyPath.InsertX | src/commands/pasteKeyPath.ts:180-182 | that insert gives the line `"    x:"`, whose text from column 4 is `x:` |
| PasteKeyPath.EmptyDocumentInsertsFull | src/commands/pasteKeyPath.ts:89-182 | in a document with no contents, a valid path is always inserted in full at the cursor |
| PasteKeyPath.EmptyDocumentPaste | src/commands/pasteKeyPath.ts:171-191 | pasting `x.y` into an empty document gives the lines `x:` and `  y:` with the cursor at `(1, 4)` |
| PasteKeyPath.Editor.Insert | src/commands/pasteKeyPath.ts:151-153 | the document becomes the insert's result and the selection the validated new cursor |
| PasteKeyPath.Editor.InsertRemaining | src/commands/pasteKeyPath.ts:119-166 | the partial branch changes the document and the selection as `PlanRemaining` says |
| PasteKeyPath.Editor.InsertFull | src/commands/pasteKeyPath.ts:171-191 | the full branch changes the document and the selection as `PlanFull` says, the new column being the length of the structure's last line |
| PasteKeyPath.Editor.NavigateOrInsert | src/commands/pasteKeyPath.ts:89-191 | for the split segments, the editor ends in the state `PlanKeyPath` describes: navigated, or one of the two inserts |
| PasteKeyPath.Editor.PasteKeyPath | src/commands/pasteKeyPath.ts:66-192 | the command's outcome is `PlanPaste`, and the editor's lines and selection become `LinesAfter` and `SelectionAfter` of it |

## Left out

- Parsing. `parseYamlDocument` and the `yaml` library's `parseDocument` are a foreign library. The model takes the parsed tree and the table of line starts as inputs.
- `LineCounter.linePos`. The library's binary search is replaced by its specification, `LineIndex`: the last line that starts at or before the offset.
- Ranges. A node's range is kept as its first two elements, its start and the end of its value. The third element, the end of the node including trailing whitespace and comments, is never read by the code modelled here.
- An out-of-range line in `getKeyPathAtPosition` and `isPositionOnKey`. Reading `lineStarts` beyond its end makes the offset `NaN`. The model represents that offset as `None`, which no range covers.
- Node kinds. Only mappings, scalars and "anything else" (`Other`) are told apart, which is all the code tests. Sequences, aliases and documents with several roots are `Other`.
- Editor calls, which are I/O:
  - reading the clipboard;
  - `executeCommand('editor.action.clipboardPasteAction')`, modelled as the `DefaultPaste` outcome with no change to the document;
  - `revealRange` and `showInformationMessage`;
  - the `async`/`await` sequencing.
- `ValidatePosition`. `editBuilder.insert` and the selection setter are modelled with VS Code's position validation: a position past the end of the document, or past the end of its line, is moved to that end. This describes the editor, not the extension. The partial insert at `(lastLine + 1, 0)` relies on it.
- The document text. It is modelled as its lines; a final line break gives an empty last line. Carriage returns and UTF-16 code units are not modelled: a character is a Unicode scalar value.
- The `try`/`catch` around the command, and its fallback to the default paste (`src/commands/pasteKeyPath.ts:193-197`). An exception can only come from the editor or the parser, and neither is modelled.
- Logging, `src/logger.ts`, `src/commands/copyKeyPath.ts` and `src/extension.ts`. These are console output, command registration and glue around the functions modelled here. They are not part of this model.
- `String(keyNode.value)` of a non-string key. It is the `NonStr` rendering, taken as given. Number formatting is not modelled.

## Findings

The command model (`PlanPaste`, `PlanFull`, `Editor.PasteKeyPath`) keeps the cursor formula as written. The corrected formula is `FullInsertCursor`; `PlanFullIntended` and `PlanPasteIntended` are the full-insert branch and the command with it, and `IntendedFullEffect` and `PasteIntendedFullEffect` prove that they put the cursor after the last colon.


| source | as written | input that shows it | evidently intended | confidence | as-written member | corrected member |
|---|---|---|---|---|---|---|
| src/commands/pasteKeyPath.ts:185-191 | after a full insert the cursor column is the length of the last inserted line, whatever the column it was inserted at | the line `"  "` with the cursor at `(0, 2)`, pasting `x`: the line becomes `"    x:"` and the cursor lands at column 4, before `x:` | the comment says the cursor goes after the last colon: on a one-line insert, add the insertion column (column 6 here) | not executed | PasteKeyPath.AsWrittenCursorShort | PasteKeyPath.PasteIntendedFullEffect |
