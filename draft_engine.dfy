/** Minimal models of the draft-js primitives the tab-indent core calls
    (`ContentState.createFromBlockArray`, `Modifier.insertText`,
    `Modifier.replaceWithFragment`, `Modifier.splitBlock`,
    `Modifier.mergeBlockData`). Each is written for the selection shapes the
    core hands it and states only what the core relies on. */
module DraftEngine {
  import opened DraftModel

  /** `ContentState.createFromBlockArray`: the blocks become the block map and
      the selection after is a caret at the start of the first block (draft-js
      reads the first block's key, so an empty array is refused). */
  function CreateFromBlockArray(blocks: Document): (c: ContentState)
    requires |blocks| > 0
    ensures c.blocks == blocks && c.selectionAfter == Caret(blocks[0].key, 0)
  {
    ContentState(blocks, Caret(blocks[0].key, 0))
  }

  /** The selection's start lies inside the text of an existing block. */
  predicate CaretInBounds(content: Document, sel: Selection)
  {
    sel.StartKey() in Keys(content) && 0 <= sel.StartOffset() <= |TextOf(content, sel.StartKey())|
  }

  /** The selection covers a range of one existing block's text. */
  predicate SingleBlockRange(content: Document, sel: Selection)
  {
    && CaretInBounds(content, sel)
    && sel.StartKey() == sel.EndKey()
    && sel.StartOffset() <= sel.EndOffset() <= |TextOf(content, sel.StartKey())|
  }

  /** `Modifier.insertText` at a caret: `text` is spliced into the caret's block
      and the caret moves past it. */
  function InsertText(content: Document, sel: Selection, text: string): (c: ContentState)
    requires sel.IsCollapsed() && CaretInBounds(content, sel)
    ensures var i, o := IndexOf(content, sel.StartKey()), sel.StartOffset();
            && |c.blocks| == |content|
            && c.blocks[i] == content[i].(text := content[i].text[..o] + text + content[i].text[o..])
            && (forall k :: 0 <= k < |content| && k != i ==> c.blocks[k] == content[k])
            && c.selectionAfter == sel.(anchorOffset := o + |text|, focusOffset := o + |text|)
  {
    var i := IndexOf(content, sel.StartKey());
    var b := content[i];
    var o := sel.StartOffset();
    ContentState(content[i := b.(text := b.text[..o] + text + b.text[o..])],
                 sel.(anchorOffset := o + |text|, focusOffset := o + |text|))
  }

  /** `Modifier.replaceWithFragment` for a one-block fragment over a range inside
      one block: the range is removed, the fragment's text is inserted in its
      place and the fragment's data replaces the block's (draft-js's default
      "replace with new data"); the caret lands after the inserted text. */
  function ReplaceWithFragment(content: Document, sel: Selection, fragment: Document): (c: ContentState)
    requires |fragment| == 1 && SingleBlockRange(content, sel)
    ensures var i, s, e := IndexOf(content, sel.StartKey()), sel.StartOffset(), sel.EndOffset();
            && |c.blocks| == |content|
            && c.blocks[i] == content[i].(text := content[i].text[..s] + fragment[0].text + content[i].text[e..],
                                          data := fragment[0].data)
            && (forall k :: 0 <= k < |content| && k != i ==> c.blocks[k] == content[k])
            && c.selectionAfter == Caret(sel.StartKey(), s + |fragment[0].text|)
  {
    var i := IndexOf(content, sel.StartKey());
    var b := content[i];
    var s, e := sel.StartOffset(), sel.EndOffset();
    ContentState(content[i := b.(text := b.text[..s] + fragment[0].text + b.text[e..], data := fragment[0].data)],
                 Caret(b.key, s + |fragment[0].text|))
  }

  /** `Modifier.splitBlock` at a caret: the caret's block keeps the text before
      the caret, a new block with key `newKey` (draft-js draws it at random)
      takes the rest with the same type and empty data, and the caret moves to
      the start of the new block. */
  function SplitBlock(content: Document, sel: Selection, newKey: Key): (c: ContentState)
    requires sel.IsCollapsed() && CaretInBounds(content, sel) && newKey !in Keys(content)
    ensures var i, o := IndexOf(content, sel.StartKey()), sel.StartOffset();
            && |c.blocks| == |content| + 1
            && c.blocks[..i] == content[..i] && c.blocks[i + 2..] == content[i + 1..]
            && c.blocks[i] == content[i].(text := content[i].text[..o])
            && c.blocks[i + 1] == Block(newKey, content[i].blockType, content[i].text[o..], map[])
            && c.selectionAfter == Caret(newKey, 0)
  {
    var i := IndexOf(content, sel.StartKey());
    var b := content[i];
    var o := sel.StartOffset();
    ContentState(content[..i] + [b.(text := b.text[..o]), Block(newKey, b.blockType, b.text[o..], map[])] + content[i + 1..],
                 Caret(newKey, 0))
  }

  /** `Modifier.mergeBlockData`: every block from the selection's start block
      through its end block gets `data` merged over its own (entries of `data`
      win); the selection is kept. */
  function MergeBlockData(content: Document, sel: Selection, data: BlockData): (c: ContentState)
    requires sel.StartKey() in Keys(content) && sel.EndKey() in Keys(content)
    ensures |c.blocks| == |content| && c.selectionAfter == sel
    ensures forall k :: 0 <= k < |content| ==>
              c.blocks[k] == if IndexOf(content, sel.StartKey()) <= k <= IndexOf(content, sel.EndKey())
                             then content[k].(data := content[k].data + data) else content[k]
  {
    var lo, hi := IndexOf(content, sel.StartKey()), IndexOf(content, sel.EndKey());
    ContentState(seq(|content|, k requires 0 <= k < |content| =>
                       if lo <= k <= hi then content[k].(data := content[k].data + data) else content[k]),
                 sel)
  }
}
