/** The block-level tab indent/outdent engine of src/utils.js: block range
    extraction, block cloning, the selection offset adjusters, the
    indent/outdent transforms and the merge-on-split of block data. Every
    function builds new values; nothing is updated in place. */
module Utils {
  import opened DraftModel
  import DraftEngine

  function Min(a: int, b: int): int { if a < b then a else b }
  function Max(a: int, b: int): int { if a < b then b else a }

  /** JavaScript's `String.prototype.substr(start, length)`: a negative start
      counts from the end, and start and length are clamped to the string. */
  function Substr(s: string, start: int, length: int): (r: string)
    ensures |r| <= |s| && |r| <= Max(length, 0)
    ensures 0 <= start <= |s| && 0 <= length ==> r == s[start..Min(start + length, |s|)]
  {
    var intStart := if start < 0 then Max(|s| + start, 0) else Min(start, |s|);
    var intLength := Min(Max(length, 0), |s|);
    s[intStart..Min(intStart + intLength, |s|)]
  }

  // ---------------------------------------------------------------------------
  // Block range extraction

  /** `getBlockDataForKey`: the data of the block with key `blockKey`, or no
      value when there is no such block. */
  function GetBlockDataForKey(contentState: Document, blockKey: Key): (r: Option<BlockData>)
    ensures r.Some? <==> blockKey in Keys(contentState)
    ensures r.Some? ==> r.value == contentState[IndexOf(contentState, blockKey)].data
  {
    match BlockForKey(contentState, blockKey)
    case None => None
    case Some(b) => Some(b.data)
  }

  /** Immutable's `skipUntil(k === startKey)`: drop blocks up to the first one
      keyed `startKey`. */
  function SkipUntil(blocks: Document, startKey: Key): (r: Document)
    ensures startKey in Keys(blocks) ==> r == blocks[IndexOf(blocks, startKey)..]
    ensures startKey !in Keys(blocks) ==> r == []
  {
    if blocks == [] then []
    else
      KeysCons(blocks);
      if blocks[0].key == startKey then blocks else SkipUntil(blocks[1..], startKey)
  }

  /** Immutable's `takeUntil(k === endKey)`: keep blocks up to, and excluding,
      the first one keyed `endKey`. */
  function TakeUntil(blocks: Document, endKey: Key): (r: Document)
    ensures endKey in Keys(blocks) ==> r == blocks[..IndexOf(blocks, endKey)]
    ensures endKey !in Keys(blocks) ==> r == blocks
  {
    if blocks == [] then []
    else
      KeysCons(blocks);
      if blocks[0].key == endKey then [] else [blocks[0]] + TakeUntil(blocks[1..], endKey)
  }

  /** Blocks as the (key, block) entries of a keyed sequence. */
  function Entries(blocks: Document): (r: seq<(Key, Option<Block>)>)
    ensures |r| == |blocks|
    ensures forall i :: 0 <= i < |blocks| ==> r[i] == (blocks[i].key, Some(blocks[i]))
  {
    if blocks == [] then [] else [(blocks[0].key, Some(blocks[0]))] + Entries(blocks[1..])
  }

  /** `getBlocksMapBetween`: the entries from `startKey` up to `endKey`, then the
      entry `[endKey, blockMap.get(endKey)]`, whose block is absent when no block
      has that key. */
  function BlocksMapBetween(blockMap: Document, startKey: Key, endKey: Key): (r: seq<(Key, Option<Block>)>)
    ensures |r| >= 1 && r[|r| - 1] == (endKey, BlockForKey(blockMap, endKey))
    ensures forall i :: 0 <= i < |r| - 1 ==> r[i].1.Some? && r[i].0 == r[i].1.value.key
  {
    Entries(TakeUntil(SkipUntil(blockMap, startKey), endKey)) + [(endKey, BlockForKey(blockMap, endKey))]
  }

  /** `toArray()` of a keyed sequence: its values in order. */
  function Values(entries: seq<(Key, Option<Block>)>): (r: seq<Option<Block>>)
    ensures |r| == |entries|
    ensures forall i :: 0 <= i < |entries| ==> r[i] == entries[i].1
  {
    if entries == [] then [] else [entries[0].1] + Values(entries[1..])
  }

  /** `getBlocksBetween`: the blocks of `getBlocksMapBetween` as an array; only
      the last element can be absent, and only when `endKey` has no block. */
  function BlocksBetween(contentState: Document, startKey: Key, endKey: Key): (r: seq<Option<Block>>)
    ensures |r| >= 1 && r[|r| - 1] == BlockForKey(contentState, endKey)
    ensures forall i :: 0 <= i < |r| - 1 ==> r[i].Some?
  {
    Values(BlocksMapBetween(contentState, startKey, endKey))
  }

  /** `.map(contentBlock => contentBlock.getKey())`: the keys of the blocks, or
      no value when an element is absent (the JavaScript call throws there). */
  function KeysOf(blocks: seq<Option<Block>>): (r: Option<seq<Key>>)
    ensures r.Some? <==> forall i :: 0 <= i < |blocks| ==> blocks[i].Some?
    ensures r.Some? ==> |r.value| == |blocks| && forall i :: 0 <= i < |blocks| ==> r.value[i] == blocks[i].value.key
  {
    if blocks == [] then Some([])
    else match blocks[0]
      case None => None
      case Some(b) =>
        match KeysOf(blocks[1..])
        case None => None
        case Some(ks) => Some([b.key] + ks)
  }

  /** `getBlocksKeysBetween`: the keys of `getBlocksBetween`. It has a value
      exactly when some block is keyed `endKey`, and then ends with `endKey`. */
  function BlocksKeysBetween(contentState: Document, startKey: Key, endKey: Key): (r: Option<seq<Key>>)
    ensures r.Some? <==> endKey in Keys(contentState)
    ensures r.Some? ==> |r.value| >= 1 && r.value[|r.value| - 1] == endKey
  {
    KeysOf(BlocksBetween(contentState, startKey, endKey))
  }

  // ---------------------------------------------------------------------------
  // Selection offset adjusters

  /** `mergeOutdentSelection`: both offsets recede by one, with no clamping at
      zero; keys and direction are kept. */
  function MergeOutdentSelection(selection: Selection): (r: Selection)
    ensures r.anchorKey == selection.anchorKey && r.focusKey == selection.focusKey
    ensures r.isBackward == selection.isBackward
    ensures r.anchorOffset == selection.anchorOffset - 1 && r.focusOffset == selection.focusOffset - 1
    ensures r.StartKey() == selection.StartKey() && r.EndKey() == selection.EndKey()
    ensures r.StartOffset() == selection.StartOffset() - 1 && r.EndOffset() == selection.EndOffset() - 1
    ensures r.IsCollapsed() == selection.IsCollapsed()
  {
    selection.(anchorOffset := selection.anchorOffset - 1, focusOffset := selection.focusOffset - 1)
  }

  /** `mergeIndentSelection`: every boundary moves right by the inserted tab,
      except that an anchor at column 0 stays there, and so does a focus at
      column 0 of a backward selection. Keys and direction are kept. */
  function MergeIndentSelection(selection: Selection): (r: Selection)
    ensures r.anchorKey == selection.anchorKey && r.focusKey == selection.focusKey
    ensures r.isBackward == selection.isBackward
    ensures r.StartKey() == selection.StartKey() && r.EndKey() == selection.EndKey()
    // the start of a selection that begins at column 0 is pinned there
    ensures r.StartOffset() == if selection.StartOffset() == 0 then 0 else selection.StartOffset() + 1
    // a forward selection's end always moves; a backward one's only off column 0
    ensures r.EndOffset() == if selection.isBackward && selection.EndOffset() == 0 then 0 else selection.EndOffset() + 1
    ensures selection.anchorOffset <= r.anchorOffset <= selection.anchorOffset + 1
    ensures selection.focusOffset <= r.focusOffset <= selection.focusOffset + 1
  {
    var focusOffset :=
      if selection.isBackward then (if selection.focusOffset != 0 then selection.focusOffset + 1 else selection.focusOffset)
      else selection.focusOffset + 1;
    // the anchor rule is the same in both branches of the source
    var anchorOffset := if selection.anchorOffset != 0 then selection.anchorOffset + 1 else selection.anchorOffset;
    selection.(anchorOffset := anchorOffset, focusOffset := focusOffset)
  }

  // ---------------------------------------------------------------------------
  // Block cloning and the per-block transforms

  /** `cloneContentBlock`: the same key, type and data with new text. */
  function CloneContentBlock(contentBlock: Block, text: string): (r: Block)
    ensures r.key == contentBlock.key && r.blockType == contentBlock.blockType && r.data == contentBlock.data
    ensures r.text == text
    ensures text == contentBlock.text ==> r == contentBlock
  {
    Block(contentBlock.key, contentBlock.blockType, text, contentBlock.data)
  }

  /** True when a block's first character is a tab (`text.substr(0, 1) === '\t'`). */
  predicate StartsWithTab(b: Block)
    ensures StartsWithTab(b) <==> |b.text| > 0 && b.text[0] == '\t'
  {
    Substr(b.text, 0, 1) == "\t"
  }

  /** The callback of `indentBlocksForKeys`'s `.map`: a block keyed in
      `blockKeys` is cloned with a leading tab, any other is returned as it is. */
  function IndentIfKeyed(b: Block, blockKeys: seq<Key>): (r: Block)
    ensures r.key == b.key && r.blockType == b.blockType && r.data == b.data
    ensures r.text == if b.key in blockKeys then "\t" + b.text else b.text
    ensures b.key !in blockKeys ==> r == b
  {
    if b.key in blockKeys then CloneContentBlock(b, "\t" + b.text) else b
  }

  /** The callback of `outdentBlocksForKeys`'s `.map`: a block keyed in
      `blockKeys` whose text starts with a tab is cloned without that
      character, any other is returned as it is. */
  function OutdentIfKeyed(b: Block, blockKeys: seq<Key>): (r: Block)
    ensures r.key == b.key && r.blockType == b.blockType && r.data == b.data
    ensures r.text == if b.key in blockKeys && |b.text| > 0 && b.text[0] == '\t' then b.text[1..] else b.text
    ensures b.key !in blockKeys || !StartsWithTab(b) ==> r == b
  {
    // `substr(1)` has no length; |b.text| clamps the same way
    if b.key in blockKeys && StartsWithTab(b) then CloneContentBlock(b, Substr(b.text, 1, |b.text|)) else b
  }

  /** The `.map` of `indentBlocksForKeys`: blocks keyed in `blockKeys` get a
      leading tab, all others are returned as they are. */
  function IndentBlocks(blocks: Document, blockKeys: seq<Key>): (r: Document)
    ensures |r| == |blocks|
    ensures forall i :: 0 <= i < |blocks| ==> r[i] == IndentIfKeyed(blocks[i], blockKeys)
  {
    if blocks == [] then []
    else [IndentIfKeyed(blocks[0], blockKeys)] + IndentBlocks(blocks[1..], blockKeys)
  }

  /** The `.map` of `outdentBlocksForKeys`: blocks keyed in `blockKeys` whose
      text starts with a tab lose exactly that character; all others are
      returned as they are. */
  function OutdentBlocks(blocks: Document, blockKeys: seq<Key>): (r: Document)
    ensures |r| == |blocks|
    ensures forall i :: 0 <= i < |blocks| ==> r[i] == OutdentIfKeyed(blocks[i], blockKeys)
  {
    if blocks == [] then []
    else [OutdentIfKeyed(blocks[0], blockKeys)] + OutdentBlocks(blocks[1..], blockKeys)
  }

  // ---------------------------------------------------------------------------
  // The editor-state wrappers around the engine

  /** `insertText`: push the content with `text` inserted at the caret. */
  function InsertText(editorState: EditorState, contentState: Document, selection: Selection, text: string): (r: EditorState)
    requires selection.IsCollapsed() && DraftEngine.CaretInBounds(contentState, selection)
    ensures r.content == DraftEngine.InsertText(contentState, selection, text).blocks
    ensures r.selection == DraftEngine.InsertText(contentState, selection, text).selectionAfter
  {
    Push(editorState, DraftEngine.InsertText(contentState, selection, text))
  }

  /** `replaceWithFragment`: push the content with the selection replaced by `blocks`. */
  function ReplaceWithFragment(editorState: EditorState, contentState: Document, selection: Selection, blocks: Document): (r: EditorState)
    requires |blocks| == 1 && DraftEngine.SingleBlockRange(contentState, selection)
    ensures r.content == DraftEngine.ReplaceWithFragment(contentState, selection, blocks).blocks
    ensures r.selection == DraftEngine.ReplaceWithFragment(contentState, selection, blocks).selectionAfter
  {
    Push(editorState, DraftEngine.ReplaceWithFragment(contentState, selection, blocks))
  }

  /** `pushContentStateFromArray`: push a content made of `contentBlocks`. */
  function PushContentStateFromArray(editorState: EditorState, contentBlocks: Document): (r: EditorState)
    requires |contentBlocks| > 0
    ensures r.content == contentBlocks
    ensures r.selection == Caret(contentBlocks[0].key, 0)
  {
    Push(editorState, DraftEngine.CreateFromBlockArray(contentBlocks))
  }

  // ---------------------------------------------------------------------------
  // Indent and outdent

  /** `indentBlock` on a range inside one block. The fragment is a clone of the
      block with text `'\t' + text.substr(start, end)` when the range starts at
      column 0 and just `'\t'` otherwise (`substr` takes a length, not an end,
      but its result is only kept at start 0). After the fragment replaces the
      range, a range from column 0 leaves the block's whole text behind one
      tab, and any other range is replaced by a single tab. The selection is
      `mergeIndentSelection`'s. */
  function IndentBlock(editorState: EditorState, contentState: Document, selection: Selection, blockKey: Key): (r: EditorState)
    requires blockKey in Keys(contentState) && DraftEngine.SingleBlockRange(contentState, selection)
    ensures Keys(r.content) == Keys(contentState)
    ensures r.selection == MergeIndentSelection(selection)
    ensures var i, s, e := IndexOf(contentState, selection.StartKey()), selection.StartOffset(), selection.EndOffset();
            && (forall k :: 0 <= k < |contentState| && k != i ==> r.content[k] == contentState[k])
            && (blockKey == selection.StartKey() ==>
                  var b := contentState[i];
                  && r.content[i].blockType == b.blockType && r.content[i].data == b.data
                  && r.content[i].text == if s == 0 then "\t" + b.text else b.text[..s] + "\t" + b.text[e..])
  {
    var contentBlock := BlockForKey(contentState, blockKey).value;
    var text := IndentFragmentText(contentBlock.text, selection.StartOffset(), selection.EndOffset());
    var pushed := ReplaceWithFragment(editorState, contentState, selection, [CloneContentBlock(contentBlock, text)]);
    var t := contentBlock.text;
    var e := selection.EndOffset();
    assert blockKey == selection.StartKey() && selection.StartOffset() == 0 ==> text + t[e..] == "\t" + t by {
      if blockKey == selection.StartKey() && selection.StartOffset() == 0 { assert text == "\t" + t[..e]; }
    }
    AcceptSelection(pushed, MergeIndentSelection(selection))
  }

  /** The fragment text of `indentBlock`: `'\t' + text.substr(start, end)` when
      the range starts at column 0, where it is the tab followed by the first
      `end` characters; a lone tab from any other column. */
  function IndentFragmentText(text: string, start: int, end: int): (r: string)
    ensures start != 0 ==> r == "\t"
    ensures start == 0 && 0 <= end ==> r == "\t" + text[..Min(end, |text|)]
  {
    // recover only the text of the selection
    var endText := Substr(text, start, end);
    if start != 0 then "\t" else "\t" + endText
  }

  /** `indentBlocksForKeys`: push the whole block sequence with a tab in front
      of every block keyed in `blockKeys`, then install `mergeIndentSelection`'s
      selection. */
  function IndentBlocksForKeys(editorState: EditorState, selection: Selection, contentState: Document, blockKeys: seq<Key>): (r: EditorState)
    requires |contentState| > 0
    ensures Keys(r.content) == Keys(contentState)
    ensures forall i :: 0 <= i < |contentState| ==>
              && r.content[i].blockType == contentState[i].blockType && r.content[i].data == contentState[i].data
              && r.content[i].text == if contentState[i].key in blockKeys then "\t" + contentState[i].text else contentState[i].text
    ensures r.selection == MergeIndentSelection(selection)
  {
    var contentBlocks := IndentBlocks(contentState, blockKeys);
    AcceptSelection(PushContentStateFromArray(editorState, contentBlocks), MergeIndentSelection(selection))
  }

  /** `indentSelection`: a caret gets a tab inserted at it; a range inside one
      block goes to `indentBlock`; a range over several blocks indents every
      block from its start block through its end block. No block is created,
      removed or reordered and the selection names only keys of the result. */
  function IndentSelection(editorState: EditorState, contentState: Document): (r: EditorState)
    requires ValidSelection(contentState, editorState.selection)
    ensures Keys(r.content) == Keys(contentState)
    ensures WellKeyed(r.content, r.selection)
  {
    var selection := editorState.selection;
    var startKey := selection.StartKey();
    var endKey := selection.EndKey();
    assert TextOf(contentState, startKey) == contentState[IndexOf(contentState, startKey)].text;
    var r :=
      if !selection.IsCollapsed() then
        if startKey == endKey then IndentBlock(editorState, contentState, selection, startKey)
        else IndentBlocksForKeys(editorState, selection, contentState, BlocksKeysBetween(contentState, startKey, endKey).value)
      else InsertText(editorState, contentState, selection, "\t");
    SameKeysDistinct(contentState, r.content);
    SameKeys(contentState, r.content, selection.anchorKey);
    SameKeys(contentState, r.content, selection.focusKey);
    r
  }

  /** `outdentBlocksForKeys`: push the whole block sequence with the leading tab
      removed from every block keyed in `blockKeys` that has one, then install
      `mergeOutdentSelection`'s selection, whether or not any tab was removed. */
  function OutdentBlocksForKeys(editorState: EditorState, selection: Selection, contentState: Document, blockKeys: seq<Key>): (r: EditorState)
    requires |contentState| > 0
    ensures Keys(r.content) == Keys(contentState)
    ensures forall i :: 0 <= i < |contentState| ==>
              && r.content[i].blockType == contentState[i].blockType && r.content[i].data == contentState[i].data
              && r.content[i].text ==
                   if contentState[i].key in blockKeys && |contentState[i].text| > 0 && contentState[i].text[0] == '\t'
                   then contentState[i].text[1..] else contentState[i].text
    ensures r.selection == MergeOutdentSelection(selection)
  {
    var contentBlocks := OutdentBlocks(contentState, blockKeys);
    AcceptSelection(PushContentStateFromArray(editorState, contentBlocks), MergeOutdentSelection(selection))
  }

  /** `outdentSelection`: outdent every block from the selection's start block
      through its end block, for every selection shape. */
  function OutdentSelection(editorState: EditorState, contentState: Document): (r: EditorState)
    requires WellKeyed(contentState, editorState.selection)
    ensures Keys(r.content) == Keys(contentState)
    ensures WellKeyed(r.content, r.selection)
    ensures r.selection == MergeOutdentSelection(editorState.selection)
  {
    var selection := editorState.selection;
    var startKey := selection.StartKey();
    var endKey := selection.EndKey();
    var r := OutdentBlocksForKeys(editorState, selection, contentState, BlocksKeysBetween(contentState, startKey, endKey).value);
    SameKeysDistinct(contentState, r.content);
    SameKeys(contentState, r.content, selection.anchorKey);
    SameKeys(contentState, r.content, selection.focusKey);
    r
  }

  // ---------------------------------------------------------------------------
  // Merge-on-split of block data

  /** What `Modifier.splitBlock` needs at a caret: it lies in an existing block
      and `newKey` is not yet used. */
  predicate SplitAllowed(contentState: Document, selection: Selection, newKey: Key)
  {
    DraftEngine.CaretInBounds(contentState, selection) && newKey !in Keys(contentState)
  }

  /** `mergeBlockData`: when there is no block keyed `blockKey` or the selection
      is a range, the state is returned as it is. Otherwise the caret's block is
      split and `blockKey`'s data is merged onto the block at the new caret,
      the block the split created. `getData()` yields an Immutable Map, which is
      truthy even when empty, so a block with empty data is still split.
      `newKey` stands for the key draft-js draws at random. */
  function MergeBlockData(editorState: EditorState, contentState: Document, blockKey: Key, newKey: Key): (r: EditorState)
    requires GetBlockDataForKey(contentState, blockKey).Some? && editorState.selection.IsCollapsed() ==>
               SplitAllowed(contentState, editorState.selection, newKey)
    ensures blockKey !in Keys(contentState) || !editorState.selection.IsCollapsed() ==> r == editorState
    ensures blockKey in Keys(contentState) && editorState.selection.IsCollapsed() ==>
              && |r.content| == |contentState| + 1
              && r.selection == Caret(newKey, 0)
              && (DistinctKeys(contentState) ==> ValidSelection(r.content, r.selection))
  {
    var blockData := GetBlockDataForKey(contentState, blockKey);
    var selection := editorState.selection;
    if blockData.None? || !selection.IsCollapsed() then editorState
    else
      var splitState := Push(editorState, DraftEngine.SplitBlock(contentState, selection, newKey));
      var i := IndexOf(contentState, selection.StartKey());
      assert splitState.content[i + 1].key == newKey;
      assert newKey in Keys(splitState.content) by { assert Keys(splitState.content)[i + 1] == newKey; }
      var r := Push(editorState, DraftEngine.MergeBlockData(splitState.content, splitState.selection, blockData.value));
      assert Keys(r.content) == Keys(splitState.content);
      assert DistinctKeys(contentState) ==> ValidSelection(r.content, r.selection) by {
        if DistinctKeys(contentState) {
          SplitDistinct(contentState, selection, newKey);
          SameKeysDistinct(splitState.content, r.content);
          IndexOfDistinct(r.content, i + 1);
        }
      }
      r
  }

  lemma SplitDistinct(contentState: Document, selection: Selection, newKey: Key)
    requires DistinctKeys(contentState)
    requires selection.IsCollapsed() && SplitAllowed(contentState, selection, newKey)
    ensures DistinctKeys(DraftEngine.SplitBlock(contentState, selection, newKey).blocks)
  {
    var d := DraftEngine.SplitBlock(contentState, selection, newKey).blocks;
    var i := IndexOf(contentState, selection.StartKey());
    // every position of d but i + 1 carries the key of a block of contentState
    forall a | 0 <= a < |d| && a != i + 1
      ensures d[a].key == contentState[if a <= i then a else a - 1].key
    {
      if a < i { assert d[a] == d[..i][a]; }
      else if a > i + 1 { assert d[a] == d[i + 2..][a - i - 2]; }
    }
    forall a | 0 <= a < |contentState| ensures contentState[a].key != newKey {
      assert Keys(contentState)[a] == contentState[a].key;
    }
  }
}
