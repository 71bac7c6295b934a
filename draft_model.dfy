/** The draft-js document model as the tab-indent core sees it: content blocks,
    documents as ordered block sequences, selections and editor states.
    Inline styles, entities and undo history are not part of this model. */
module DraftModel {

  datatype Option<T> = None | Some(value: T)

  type Key = string

  /** Block-level metadata (text alignment and the like). */
  type BlockData = map<string, string>

  /** A ContentBlock: a stable key, a block type, its text and its data. */
  datatype Block = Block(key: Key, blockType: string, text: string, data: BlockData)

  /** The block map of a ContentState, in document order. */
  type Document = seq<Block>

  /** The keys of a document, in document order. */
  function Keys(doc: Document): (ks: seq<Key>)
    ensures |ks| == |doc|
    ensures forall i {:trigger ks[i]} :: 0 <= i < |doc| ==> ks[i] == doc[i].key
  {
    seq(|doc|, i requires 0 <= i < |doc| => doc[i].key)
  }

  lemma KeysCons(doc: Document)
    requires doc != []
    ensures Keys(doc) == [doc[0].key] + Keys(doc[1..])
  {
  }

  /** The document invariant: no key occurs twice. */
  predicate DistinctKeys(doc: Document)
  {
    forall i, j :: 0 <= i < j < |doc| ==> doc[i].key != doc[j].key
  }

  /** The position of the first block with key `k`. */
  function IndexOf(doc: Document, k: Key): (i: nat)
    requires k in Keys(doc)
    ensures i < |doc| && doc[i].key == k
    ensures forall j :: 0 <= j < i ==> doc[j].key != k
    decreases |doc|
  {
    if doc[0].key == k then 0 else KeysCons(doc); 1 + IndexOf(doc[1..], k)
  }

  /** `ContentState.getBlockForKey`: the block with key `k`, if any. */
  function BlockForKey(doc: Document, k: Key): (r: Option<Block>)
    ensures r.Some? <==> k in Keys(doc)
    ensures r.Some? ==> r.value == doc[IndexOf(doc, k)]
  {
    if doc == [] then None
    else
      KeysCons(doc);
      if doc[0].key == k then Some(doc[0]) else BlockForKey(doc[1..], k)
  }

  /** The text of the block with key `k`. */
  function TextOf(doc: Document, k: Key): string
    requires k in Keys(doc)
  {
    doc[IndexOf(doc, k)].text
  }

  /** A SelectionState. Start and end are the anchor and focus put in
      document order according to `isBackward`. */
  datatype Selection = Selection(anchorKey: Key, anchorOffset: int, focusKey: Key, focusOffset: int, isBackward: bool)
  {
    /** `getStartKey`: the focus's key for a backward selection, else the anchor's. */
    function StartKey(): (k: Key)
      ensures !isBackward ==> k == anchorKey && EndKey() == focusKey
      ensures isBackward ==> k == focusKey && EndKey() == anchorKey
    { if isBackward then focusKey else anchorKey }

    /** `getStartOffset`: the offset that goes with `StartKey`. */
    function StartOffset(): (o: int)
      ensures !isBackward ==> o == anchorOffset && EndOffset() == focusOffset
      ensures isBackward ==> o == focusOffset && EndOffset() == anchorOffset
    { if isBackward then focusOffset else anchorOffset }

    /** `getEndKey`: the boundary that is not the start. */
    function EndKey(): Key { if isBackward then anchorKey else focusKey }

    /** `getEndOffset`: the offset that goes with `EndKey`. */
    function EndOffset(): int { if isBackward then anchorOffset else focusOffset }

    /** `isCollapsed`: anchor and focus coincide, so start and end do too,
        whatever the direction. */
    predicate IsCollapsed()
      ensures IsCollapsed() <==> StartKey() == EndKey() && StartOffset() == EndOffset()
    { anchorKey == focusKey && anchorOffset == focusOffset }
  }

  /** A collapsed forward selection; `SelectionState.createEmpty(key)` is `Caret(key, 0)`. */
  function Caret(key: Key, offset: int): (c: Selection)
    ensures c.IsCollapsed() && !c.isBackward
    ensures c.StartKey() == key && c.StartOffset() == offset
  {
    Selection(key, offset, key, offset, false)
  }

  /** A ContentState: a block map and the selection to install after the change. */
  datatype ContentState = ContentState(blocks: Document, selectionAfter: Selection)

  /** An EditorState: the current content and the current selection. */
  datatype EditorState = EditorState(content: Document, selection: Selection)

  /** `EditorState.push`: the new content and its selectionAfter become current.
      The undo stack and change type are not modelled, so `editorState` is only
      carried for the shape of the call. */
  function Push(editorState: EditorState, content: ContentState): (r: EditorState)
    ensures r.content == content.blocks && r.selection == content.selectionAfter
  {
    EditorState(content.blocks, content.selectionAfter)
  }

  /** `EditorState.acceptSelection`: the content stays, the selection is replaced. */
  function AcceptSelection(editorState: EditorState, selection: Selection): (r: EditorState)
    ensures r.content == editorState.content && r.selection == selection
  {
    editorState.(selection := selection)
  }

  /** Every key the selection names belongs to a document with distinct keys. */
  predicate WellKeyed(doc: Document, sel: Selection)
  {
    DistinctKeys(doc) && sel.anchorKey in Keys(doc) && sel.focusKey in Keys(doc)
  }

  /** A selection draft-js would hand out: well keyed, offsets within their
      blocks' texts, and start at or before end in document order. */
  predicate ValidSelection(doc: Document, sel: Selection)
  {
    && WellKeyed(doc, sel)
    && 0 <= sel.anchorOffset <= |TextOf(doc, sel.anchorKey)|
    && 0 <= sel.focusOffset <= |TextOf(doc, sel.focusKey)|
    && (|| IndexOf(doc, sel.StartKey()) < IndexOf(doc, sel.EndKey())
        || (sel.StartKey() == sel.EndKey() && sel.StartOffset() <= sel.EndOffset()))
  }

  // Facts about keys and positions used throughout.

  lemma IndexOfDistinct(doc: Document, i: nat)
    requires DistinctKeys(doc) && i < |doc|
    ensures doc[i].key in Keys(doc) && IndexOf(doc, doc[i].key) == i
  {
    assert Keys(doc)[i] == doc[i].key;
  }

  lemma AppendLast<T>(s: seq<T>, i: nat, j: nat)
    requires i <= j < |s|
    ensures s[i..j] + [s[j]] == s[i..j + 1]
  {
  }

  lemma DistinctSuffix(doc: Document, i: nat)
    requires DistinctKeys(doc) && i <= |doc|
    ensures DistinctKeys(doc[i..])
  {
    forall a, b | 0 <= a < b < |doc| - i ensures doc[i..][a].key != doc[i..][b].key {
      assert doc[i..][a] == doc[i + a] && doc[i..][b] == doc[i + b];
    }
  }

  /** Two documents with the same key sequence agree on every key's position. */
  lemma SameKeys(d1: Document, d2: Document, k: Key)
    requires Keys(d1) == Keys(d2) && k in Keys(d1)
    ensures k in Keys(d2) && IndexOf(d1, k) == IndexOf(d2, k)
  {
    var m1 := IndexOf(d1, k);
    assert Keys(d1)[m1] == k;
    var m2 := IndexOf(d2, k);
    assert Keys(d2)[m2] == Keys(d1)[m2] && Keys(d2)[m1] == Keys(d1)[m1];
  }

  lemma SameKeysDistinct(d1: Document, d2: Document)
    requires Keys(d1) == Keys(d2) && DistinctKeys(d1)
    ensures DistinctKeys(d2)
  {
    forall a, b | 0 <= a < b < |d2| ensures d2[a].key != d2[b].key {
      assert d2[a].key == Keys(d2)[a] == Keys(d1)[a] == d1[a].key;
      assert d2[b].key == Keys(d2)[b] == Keys(d1)[b] == d1[b].key;
    }
  }
}
