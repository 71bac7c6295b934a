# Tab indentation for a draft-js editor, modelled in Dafny

The wysiwyg editor makes Tab work at the level of blocks. `src/utils.js`
holds the engine. A caret gets a tab inserted at it. A range inside one
block goes through `indentBlock`. A range over several blocks gets a
leading tab on every block from the start block through the end block.
Outdent removes the leading tab from each block of the range that starts
with one and leaves the other blocks as they are. Indent moves each
selection boundary one column right, except that a boundary pinned at
column 0 stays there. Outdent moves both boundaries one column left,
whether or not it removed anything. `mergeBlockData` splits the caret's block on Return and carries
the block's data over to the new block.

The project models all of this as pure functions over plain values, as
the JavaScript does:

- `draft_model.dfy` (module `DraftModel`) defines content blocks. A
  document is a sequence of blocks in document order. It also defines
  selections, `ContentState`, `EditorState`, and `EditorState.push` /
  `acceptSelection`.
- `draft_engine.dfy` (module `DraftEngine`) gives minimal hand-written
  models of the draft-js calls the engine makes:
  `ContentState.createFromBlockArray`, `Modifier.insertText`,
  `Modifier.replaceWithFragment`, `Modifier.splitBlock` and
  `Modifier.mergeBlockData`. Each states only what the engine relies on.
- `utils.dfy` (module `Utils`) models `src/utils.js` function by function.
  The Immutable.js `skipUntil` / `takeUntil` / `concat` / `toArray` / `map`
  pipeline is modelled step by step. JavaScript's `substr` is modelled with
  its clamping rules.
- `utils_properties.dfy` (module `UtilsProperties`) proves the properties
  that relate these functions.

Conventions of the model:

- `getBlocksKeysBetween` calls `getKey()` on an absent block when no block
  has `endKey`, and JavaScript throws there. The model returns `None` in
  that case.
- The random key that `splitBlock` draws is the parameter `newKey`.
- `getData()` returns an Immutable Map, which is truthy even when empty.
  So the `!blockData` guard of `mergeBlockData` fires only when there is
  no block with that key. A block with empty data is still split and
  merged. The model follows the code here, not the reading "no metadata,
  no change".

Behaviour of the code that the model proves:

- `indentBlock` on a range that starts at column 0 leaves the whole block
  text behind one tab.
- `indentBlock` on a range that starts anywhere else replaces the selected
  text with a single tab. It still shifts both selection ends right, so
  the focus can land past the end of the text. In `"hello"` with columns 2
  to 4 selected, the result is `"he\to"` with the focus at column 5.
- `mergeOutdentSelection` subtracts one from both offsets even when no tab
  was removed, and even at column 0, where the offset becomes -1.
- Over several blocks, outdent after indent gives back the document
  exactly. It gives back the selection exactly when no boundary was pinned
  at column 0.

## Model

| member | source | states |
|---|---|---|
| Utils.GetBlockDataForKey | src/utils.js:12-16 | a value exactly when some block has the key, and then it is that block's data |
| Utils.Substr | src/utils.js:162-163 | JavaScript `substr(start, length)`: never longer than the string or than `length`; for an in-range start it is the slice from `start` of at most `length` characters |
| Utils.SkipUntil | src/utils.js:24 | the suffix starting at the first block with the key; empty when no block has it |
| Utils.TakeUntil | src/utils.js:25 | the prefix before the first block with the key; everything when no block has it |
| Utils.BlocksMapBetween | src/utils.js:21-27 | ends with the entry `[endKey, blockMap.get(endKey)]`, whose block is absent when no block has `endKey`; every earlier entry holds a block under its own key |
| Utils.BlocksBetween | src/utils.js:32-38 | the last element is the block keyed `endKey` or absent; all earlier elements are present |
| Utils.BlocksKeysBetween | src/utils.js:43-49 | has a value exactly when some block has `endKey` (otherwise `getKey` is called on nothing), and that value ends with `endKey` |
| UtilsProperties.BlocksBetweenSlice | src/utils.js:21-49 | with distinct keys and `startKey` at or before `endKey`, the blocks and the keys are exactly the run from `startKey` through `endKey` in document order; it starts with `startKey`, ends with `endKey`, and is `[startKey]` when both keys are equal |
| UtilsProperties.BlocksKeysBetweenReversed | src/utils.js:21-27 | when `endKey` comes before `startKey`, the keys run from `startKey` to the end of the document, followed by `endKey` |
| UtilsProperties.BlocksKeysBetweenMissingStart | src/utils.js:21-27 | without a block keyed `startKey`, only the appended `endKey` is left, or there is no value when `endKey` is missing too |
| Utils.MergeOutdentSelection | src/utils.js:103-108 | both offsets drop by exactly one with no clamping; keys, direction and collapsedness are unchanged |
| Utils.MergeIndentSelection | src/utils.js:116-139 | the keys and direction are unchanged; the start stays at column 0, otherwise it gains one; the end gains one unless the selection is backward and the end is at column 0; each offset grows by at most one |
| UtilsProperties.MergeOutdentUndoesMergeIndent | src/utils.js:103-139 | outdenting the indented selection gives back the selection exactly when the anchor is off column 0 and, for a backward selection, so is the focus |
| UtilsProperties.OutdentFromColumnZeroGoesNegative | src/utils.js:103-108 | a selection starting at column 0 gets start offset -1 from outdent, which is not a valid selection |
| Utils.CloneContentBlock | src/utils.js:141-148 | the same key, type and data with the given text; over the fields the model has, the block itself when the text is unchanged (the source clone also drops the character list and depth) |
| Utils.IndentIfKeyed | src/utils.js:189-195 | a block keyed in `blockKeys` gets `"\t"` in front of its text, and any other block is returned as it is; the key, type and data are kept |
| Utils.OutdentIfKeyed | src/utils.js:246-252 | a block keyed in `blockKeys` whose text starts with a tab loses exactly that character, and any other block is returned as it is; the key, type and data are kept |
| Utils.IndentBlocks | src/utils.js:187-195 | the same length, with each block replaced by that block's indent callback result |
| Utils.OutdentBlocks | src/utils.js:244-252 | the same length, with each block replaced by that block's outdent callback result |
| UtilsProperties.OutdentBlocksUndoesIndentBlocks | src/utils.js:244-252 | outdenting the same keys after indenting them gives back the blocks |
| Utils.InsertText | src/utils.js:69-75 | the pushed content and selection are those of `Modifier.insertText` |
| Utils.ReplaceWithFragment | src/utils.js:80-90 | the pushed content and selection are those of `Modifier.replaceWithFragment`: a caret after the inserted fragment text |
| Utils.PushContentStateFromArray | src/utils.js:92-98 | the pushed content is exactly the given blocks, and the selection is a caret at the start of the first block |
| Utils.IndentFragmentText | src/utils.js:160-165 | a lone tab off column 0; at column 0, a tab followed by the first `end` characters of the text |
| UtilsProperties.SubstrTakesLength | src/utils.js:162-163 | `substr(1, 3)` on `"hello"` is `"ell"`, not the characters from column 1 to column 3, and the fragment off column 0 is a lone tab anyway |
| Utils.IndentBlock | src/utils.js:153-176 | the keys are kept and every other block is untouched; the block gets `"\t"` + its text from column 0, or has the selected span replaced by `"\t"` otherwise, keeping its type and data; the selection is `mergeIndentSelection`'s |
| Utils.IndentBlocksForKeys | src/utils.js:181-204 | the keys and order are kept; the blocks keyed in `blockKeys` get a leading tab with the same type and data; the selection is `mergeIndentSelection`'s |
| Utils.IndentSelection | src/utils.js:209-233 | for every valid selection, no block is created, removed or reordered, and the installed selection names only blocks of the result |
| UtilsProperties.IndentCaret | src/utils.js:232 | a caret gets a tab inserted at its column and moves one column right; nothing else changes and the selection stays valid |
| UtilsProperties.IndentSingleBlockRange | src/utils.js:214-222 | a range inside one block changes only that block, as `indentBlock` states; the selection is `mergeIndentSelection`'s and is valid when the range starts at column 0 |
| UtilsProperties.IndentMidBlockRangeLeavesSelectionPastText | src/utils.js:162-174 | on `"hello"` with columns 2 to 4 selected, the block becomes `"he\to"` and the selection goes to columns 3 to 5, past the end of the text |
| UtilsProperties.IndentMultiBlock | src/utils.js:224-229 | a range over several blocks tabs exactly the blocks from the start block through the end block and leaves every other block untouched; the selection is `mergeIndentSelection`'s and stays valid |
| Utils.OutdentBlocksForKeys | src/utils.js:238-261 | the keys and order are kept; the blocks keyed in `blockKeys` that start with a tab lose exactly that tab while keeping type and data; the selection is `mergeOutdentSelection`'s |
| Utils.OutdentSelection | src/utils.js:266-277 | the keys are kept, the selection is `mergeOutdentSelection`'s, and it names only blocks of the result |
| UtilsProperties.OutdentRange | src/utils.js:266-277 | with `startKey` at or before `endKey`, exactly the blocks of the range that start with a tab lose it, and every other block is untouched |
| UtilsProperties.OutdentBareTextMovesOnlySelection | src/utils.js:244-259 | when no block of the range starts with a tab, the content is unchanged but the selection still moves one column left |
| UtilsProperties.IndentThenOutdent | src/utils.js:209-277 | over several blocks, outdent after indent gives back the content exactly; it gives back the selection exactly when no boundary was pinned at column 0 |
| Utils.MergeBlockData | src/utils.js:282-305 | the input state comes back when no block has the key or the selection is a range; otherwise there is one more block and a caret at the start of the new block, which is a valid selection when keys are distinct |
| UtilsProperties.MergeBlockDataNoOp | src/utils.js:283-288 | the state comes back unchanged exactly when no block has the key or the selection is not collapsed; empty data does not stop the split |
| UtilsProperties.MergeBlockDataPropagates | src/utils.js:290-305 | Return at a caret splits its block there; the split block keeps its data, the new block holds the rest of the text with the same type and the same data, nothing else changes, and the caret is at the start of the new block |
| DraftEngine.CreateFromBlockArray | src/utils.js:95 | the content is the given blocks, with a caret at the start of the first block |
| DraftEngine.InsertText | src/utils.js:72 | the text is spliced into the caret's block at its column, nothing else changes, and the caret moves past the inserted text |
| DraftEngine.ReplaceWithFragment | src/utils.js:83-87 | the selected span of the block is replaced by the one-block fragment's text, the fragment's data replaces the block's, and the caret lands after the inserted text |
| DraftEngine.SplitBlock | src/utils.js:292 | the block keeps the text before the caret; a new block with the fresh key, the same type, the rest of the text and empty data follows it; the caret moves to the new block |
| DraftEngine.MergeBlockData | src/utils.js:298-302 | every block from the selection's start block through its end block gets the data merged over its own; the selection is kept |
| DraftModel.BlockForKey | src/utils.js:14 | `getBlockForKey`: a block exactly when some block has the key, and then the first block with it |
| DraftModel.Selection.StartKey | src/utils.js:211-213 | `getStartKey` / `getEndKey`: a forward selection starts at the anchor and ends at the focus, a backward one the other way round |
| DraftModel.Selection.StartOffset | src/utils.js:163 | `getStartOffset` / `getEndOffset`: the offsets that go with the start and end keys, by the same direction rule |
| DraftModel.Selection.IsCollapsed | src/utils.js:214 | `isCollapsed`: anchor and focus coincide, which is the same as start and end coinciding whatever the direction |
| DraftModel.Caret | src/utils.js:95 | `SelectionState.createEmpty` and the carets the engine installs: collapsed, forward, starting at the given key and column |
| Utils.Values | src/utils.js:37 | `toArray()`: the same length, each element the block of the entry at that position |
| Utils.KeysOf | src/utils.js:48 | `.map(getKey)`: has a value exactly when every element is present, and then the keys of the elements in order |
| Utils.StartsWithTab | src/utils.js:247 | `substr(0, 1) === '\t'` holds exactly when the text is non-empty and its first character is a tab |
| DraftModel.Push | src/utils.js:290-294 | the new content and its selection-after become current |
| DraftModel.AcceptSelection | src/utils.js:167-175 | the content stays and the selection is replaced |

## Left out

- `src/Editor/Editor.tsx` is not part of this model. It is React glue: key bindings, a focus `setTimeout`, and the Return-key call into `mergeBlockData`. Shift+Tab there calls `indentSelection` with an extra `'decrease'` argument, which `indentSelection` ignores, so `outdentSelection` is never reached from the editor. The model has no direction parameter.
- `blockStyleFn`, the toggle-button components and the documentation examples are rendering and UI code with no engine logic.
- `setBlockData` (src/utils.js:54-64) is a one-line pass-through to `Modifier.setBlockData`, which nothing in the engine calls.
- Draft-js internals are minimal models, not verified implementations. `Modifier.replaceWithFragment` is modelled only for a one-block fragment over a range inside one block, which is the only way `indentBlock` calls it. Inline styles, entities and character metadata are not modelled.
- `EditorState.push` keeps no undo history and no change type. The `'insert-characters'`, `'split-block'` and similar tags are dropped.
- The random block key of `splitBlock` is the parameter `newKey`. `Utils.MergeBlockData` requires that key to be unused and the caret to lie inside an existing block, as draft-js assumes of its own selections.
- `Utils.IndentSelection`: its own contract states only what holds on every path: keys kept, selection well keyed. Each path's full effect is stated by `UtilsProperties.IndentCaret`, `UtilsProperties.IndentSingleBlockRange` and `UtilsProperties.IndentMultiBlock`.
- `UtilsProperties.IndentMultiBlock`, `UtilsProperties.OutdentRange`: the two end positions of the range are passed as parameters and required to equal the positions of the start and end keys. The properties are the same; the split keeps each proof small.
- A thrown JavaScript exception (the `getKey` call on a missing end block) is modelled as the `None` result. Exception propagation through the callers is not modelled. Instead, `Utils.IndentSelection` requires a valid selection (both keys present, offsets within their texts, start at or before end) and `Utils.OutdentSelection` requires a well-keyed one (both keys present in a document with distinct keys).
- `Utils.CloneContentBlock`: the source builds a new `ContentBlock` from key, type, data and text only. So every block that `indentBlocksForKeys` or `outdentBlocksForKeys` rewrites loses its character list (inline styles and entities) and gets depth 0. The model's `Block` has neither field, so it does not show that loss. Its clause "the block itself when the text is unchanged" holds only over the fields the model has.
- Text is `seq<char>`, one element per character. Draft-js offsets and `substr` count UTF-16 code units, so text outside the Basic Multilingual Plane is measured differently.
