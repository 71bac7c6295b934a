/** Properties of the tab indent/outdent engine of src/utils.js, stated over
    the functions of module Utils. */
module UtilsProperties {
  import opened DraftModel
  import opened Utils
  import DraftEngine

  // ---------------------------------------------------------------------------
  // Block range extraction

  /** A run of blocks as array elements, each present. */
  function Somes(blocks: Document): seq<Option<Block>>
  {
    if blocks == [] then [] else [Some(blocks[0])] + Somes(blocks[1..])
  }

  lemma {:induction false} SomesAppend(a: Document, b: Document)
    ensures Somes(a + b) == Somes(a) + Somes(b)
  {
    if a == [] {
      assert a + b == b;
    } else {
      assert (a + b)[1..] == a[1..] + b;
      SomesAppend(a[1..], b);
    }
  }

  lemma {:induction false} ValuesOfEntries(blocks: Document, last: (Key, Option<Block>))
    ensures Values(Entries(blocks) + [last]) == Somes(blocks) + [last.1]
  {
    if blocks != [] {
      assert (Entries(blocks) + [last])[1..] == Entries(blocks[1..]) + [last];
      ValuesOfEntries(blocks[1..], last);
    }
  }

  lemma {:induction false} KeysOfSomes(blocks: Document)
    ensures KeysOf(Somes(blocks)) == Some(Keys(blocks))
  {
    if blocks != [] {
      KeysCons(blocks);
      assert Somes(blocks)[1..] == Somes(blocks[1..]);
      KeysOfSomes(blocks[1..]);
    }
  }

  /** Skipping to `startKey` (at position `i`) and taking until `endKey` (at
      position `j`) leaves the blocks from `startKey` up to, and excluding,
      `endKey`. */
  lemma TakeSkip(doc: Document, startKey: Key, endKey: Key, i: nat, j: nat)
    requires DistinctKeys(doc) && startKey in Keys(doc) && endKey in Keys(doc)
    requires i == IndexOf(doc, startKey) <= j == IndexOf(doc, endKey)
    ensures TakeUntil(SkipUntil(doc, startKey), endKey) == doc[i..j]
  {
    assert SkipUntil(doc, startKey) == doc[i..];
    DistinctSuffix(doc, i);
    TakeUntilAt(doc[i..], endKey, j - i);
    PrefixOfSuffix(doc, i, j);
  }

  /** With distinct keys, taking until the key at position `m` keeps the
      first `m` blocks. */
  lemma TakeUntilAt(blocks: Document, endKey: Key, m: nat)
    requires DistinctKeys(blocks) && m < |blocks| && blocks[m].key == endKey
    ensures TakeUntil(blocks, endKey) == blocks[..m]
  {
    IndexOfDistinct(blocks, m);
  }

  lemma PrefixOfSuffix(doc: Document, i: nat, j: nat)
    requires i <= j <= |doc|
    ensures doc[i..][..j - i] == doc[i..j]
  {
  }

  /** Once skipping and taking leave the blocks `i` up to `j`, the range is
      the run `i` through `j`, and its keys are that run's keys. */
  lemma BlocksBetweenOfRun(doc: Document, startKey: Key, endKey: Key, i: nat, j: nat)
    requires i <= j < |doc|
    requires TakeUntil(SkipUntil(doc, startKey), endKey) == doc[i..j]
    requires BlockForKey(doc, endKey) == Some(doc[j])
    ensures BlocksBetween(doc, startKey, endKey) == Somes(doc[i..j + 1])
    ensures BlocksKeysBetween(doc, startKey, endKey) == Some(Keys(doc[i..j + 1]))
  {
    ValuesOfEntries(doc[i..j], (endKey, BlockForKey(doc, endKey)));
    SomesAppend(doc[i..j], [doc[j]]);
    AppendLast(doc, i, j);
    KeysOfSomes(doc[i..j + 1]);
  }

  /** With distinct keys and `startKey` (at position `i`) at or before
      `endKey` (at position `j`), the range is the contiguous run of blocks
      from `startKey` through `endKey`, in document order; for
      `startKey == endKey` it is that one block. */
  lemma BlocksBetweenSlice(doc: Document, startKey: Key, endKey: Key, i: nat, j: nat)
    requires DistinctKeys(doc) && startKey in Keys(doc) && endKey in Keys(doc)
    requires i == IndexOf(doc, startKey) <= j == IndexOf(doc, endKey)
    ensures BlocksBetween(doc, startKey, endKey) == Somes(doc[i..j + 1])
    ensures BlocksKeysBetween(doc, startKey, endKey) == Some(Keys(doc[i..j + 1]))
    ensures Keys(doc[i..j + 1])[0] == startKey && Keys(doc[i..j + 1])[j - i] == endKey
    ensures startKey == endKey ==> Keys(doc[i..j + 1]) == [startKey]
  {
    TakeSkip(doc, startKey, endKey, i, j);
    BlocksBetweenOfRun(doc, startKey, endKey, i, j);
    assert Keys(doc[i..j + 1])[0] == doc[i..j + 1][0].key;
    assert Keys(doc[i..j + 1])[j - i] == doc[i..j + 1][j - i].key;
    if startKey == endKey {
      assert i == j;
      assert |Keys(doc[i..j + 1])| == 1;
    }
  }

  /** When `endKey` comes before `startKey`, `takeUntil` never stops: the range
      runs from `startKey` to the end of the document and `endKey` is appended. */
  lemma BlocksKeysBetweenReversed(doc: Document, startKey: Key, endKey: Key)
    requires DistinctKeys(doc) && startKey in Keys(doc) && endKey in Keys(doc)
    requires IndexOf(doc, endKey) < IndexOf(doc, startKey)
    ensures BlocksKeysBetween(doc, startKey, endKey) == Some(Keys(doc[IndexOf(doc, startKey)..]) + [endKey])
  {
    var i, j := IndexOf(doc, startKey), IndexOf(doc, endKey);
    var tail := SkipUntil(doc, startKey);
    assert tail == doc[i..];
    assert endKey !in Keys(tail) by {
      forall m | 0 <= m < |tail| ensures Keys(tail)[m] != endKey {
        assert tail[m] == doc[i + m];
      }
    }
    var ks := BlocksKeysBetween(doc, startKey, endKey).value;
    assert ks == Keys(doc[i..]) + [endKey] by {
      forall k | 0 <= k < |ks| - 1 ensures ks[k] == Keys(doc[i..])[k] {
        assert BlocksBetween(doc, startKey, endKey)[k] == Entries(tail)[k].1;
      }
    }
  }

  /** Without a block keyed `startKey`, `skipUntil` drops everything and only the
      appended `endKey` entry is left. */
  lemma BlocksKeysBetweenMissingStart(doc: Document, startKey: Key, endKey: Key)
    requires startKey !in Keys(doc)
    ensures BlocksKeysBetween(doc, startKey, endKey) == if endKey in Keys(doc) then Some([endKey]) else None
  {
    var bs := BlocksBetween(doc, startKey, endKey);
    assert bs == [BlockForKey(doc, endKey)];
    if endKey in Keys(doc) {
      assert bs[0].value.key == endKey;
      assert KeysOf(bs).value == [endKey];
    } else {
      assert bs[0].None?;
    }
  }

  /** With distinct keys, a block's key lies in the keys of the run from `i`
      through `j` exactly when the block lies in that run. */
  lemma KeyInRun(doc: Document, i: nat, j: nat, k: nat)
    requires DistinctKeys(doc) && i <= j < |doc| && k < |doc|
    ensures doc[k].key in Keys(doc[i..j + 1]) <==> i <= k <= j
  {
    if i <= k <= j {
      assert Keys(doc[i..j + 1])[k - i] == doc[k].key;
    }
  }

  // ---------------------------------------------------------------------------
  // Selection offset adjusters

  /** Outdenting the selection undoes indenting it exactly when no boundary was
      pinned at column 0: the anchor must be off column 0, and so must the
      focus of a backward selection. */
  lemma MergeOutdentUndoesMergeIndent(selection: Selection)
    ensures MergeOutdentSelection(MergeIndentSelection(selection)) == selection
            <==> selection.anchorOffset != 0 && (selection.isBackward ==> selection.focusOffset != 0)
  {
  }

  // ---------------------------------------------------------------------------
  // Block transforms

  /** Outdenting the blocks just indented for the same keys gives them back. */
  lemma OutdentBlocksUndoesIndentBlocks(blocks: Document, blockKeys: seq<Key>)
    ensures OutdentBlocks(IndentBlocks(blocks, blockKeys), blockKeys) == blocks
  {
    var r := OutdentBlocks(IndentBlocks(blocks, blockKeys), blockKeys);
    forall k | 0 <= k < |blocks| ensures r[k] == blocks[k] {
      assert Keys(r)[k] == Keys(blocks)[k];
      assert ("\t" + blocks[k].text)[1..] == blocks[k].text;
    }
  }

  // ---------------------------------------------------------------------------
  // indentSelection, path by path

  /** A caret gets a tab inserted at it and moves past it; nothing else
      changes and the selection stays valid. */
  lemma IndentCaret(editorState: EditorState, contentState: Document)
    requires ValidSelection(contentState, editorState.selection) && editorState.selection.IsCollapsed()
    ensures var sel, r := editorState.selection, IndentSelection(editorState, contentState);
            var i, o := IndexOf(contentState, sel.StartKey()), sel.StartOffset();
            && |r.content| == |contentState|
            && r.content[i] == contentState[i].(text := contentState[i].text[..o] + "\t" + contentState[i].text[o..])
            && (forall k :: 0 <= k < |contentState| && k != i ==> r.content[k] == contentState[k])
            && r.selection == Caret(sel.StartKey(), o + 1).(isBackward := sel.isBackward)
            && ValidSelection(r.content, r.selection)
  {
    var sel, r := editorState.selection, IndentSelection(editorState, contentState);
    var i := IndexOf(contentState, sel.StartKey());
    SameKeys(contentState, r.content, sel.StartKey());
  }

  /** A range inside one block: from column 0 the block's whole text ends up
      behind one tab (as on the multi-block path); from anywhere else the
      selected text is replaced by a tab. Other blocks are untouched and the
      selection is `mergeIndentSelection`'s, which is valid from column 0. */
  lemma IndentSingleBlockRange(editorState: EditorState, contentState: Document)
    requires ValidSelection(contentState, editorState.selection)
    requires !editorState.selection.IsCollapsed() && editorState.selection.StartKey() == editorState.selection.EndKey()
    ensures var sel, r := editorState.selection, IndentSelection(editorState, contentState);
            var i, s, e := IndexOf(contentState, sel.StartKey()), sel.StartOffset(), sel.EndOffset();
            var b := contentState[i];
            && Keys(r.content) == Keys(contentState)
            && r.content[i] == b.(text := if s == 0 then "\t" + b.text else b.text[..s] + "\t" + b.text[e..])
            && (forall k :: 0 <= k < |contentState| && k != i ==> r.content[k] == contentState[k])
            && r.selection == MergeIndentSelection(sel)
            && (s == 0 ==> ValidSelection(r.content, r.selection))
  {
    var sel, r := editorState.selection, IndentSelection(editorState, contentState);
    var i := IndexOf(contentState, sel.StartKey());
    assert Keys(r.content)[i] == Keys(contentState)[i];
    SameKeys(contentState, r.content, sel.StartKey());
  }

  /** `substr` takes a length: `"hello".substr(1, 3)` is `"ell"`, not the
      characters from column 1 to column 3. `indentBlock` discards that value
      off column 0, so the quirk never reaches the document. */
  lemma SubstrTakesLength()
    ensures Substr("hello", 1, 3) == "ell" && Substr("hello", 1, 3) != "hello"[1..3]
    ensures IndentFragmentText("hello", 1, 3) == "\t"
  {
    assert "hello"[1..3] == "el";
  }

  /** The mid-block range case leaves the selection past the end of the text:
      on "hello" with columns 2 to 4 selected the block becomes "he\to" (four
      characters) and the focus lands at column 5. */
  lemma IndentMidBlockRangeLeavesSelectionPastText()
    ensures var doc := [Block("b1", "unstyled", "hello", map[])];
            var es := EditorState(doc, Selection("b1", 2, "b1", 4, false));
            && ValidSelection(doc, es.selection)
            && var r := IndentSelection(es, doc);
            && r.content == [Block("b1", "unstyled", "he\to", map[])]
            && r.selection == Selection("b1", 3, "b1", 5, false)
            && !ValidSelection(r.content, r.selection)
  {
    var doc := [Block("b1", "unstyled", "hello", map[])];
    var es := EditorState(doc, Selection("b1", 2, "b1", 4, false));
    assert Keys(doc) == ["b1"];
    IndentSingleBlockRange(es, doc);
    var r := IndentSelection(es, doc);
    assert r.content[0].text == "he" + "\t" + "o";
    assert Keys(r.content) == ["b1"];
    assert TextOf(r.content, "b1") == "he\to";
  }

  /** `indented` is `doc` with a tab in front of every block at positions `i`
      through `j` and nothing else changed. */
  predicate TabbedRun(doc: Document, indented: Document, i: nat, j: nat)
  {
    && |indented| == |doc|
    && forall k :: 0 <= k < |doc| ==>
         indented[k] == if i <= k <= j then doc[k].(text := "\t" + doc[k].text) else doc[k]
  }

  /** `outdented` is `doc` with the leading tab removed from every block at
      positions `i` through `j` that has one, and nothing else changed. */
  predicate UntabbedRun(doc: Document, outdented: Document, i: nat, j: nat)
  {
    && |outdented| == |doc|
    && forall k :: 0 <= k < |doc| ==>
         var t := doc[k].text;
         outdented[k] == if i <= k <= j && |t| > 0 && t[0] == '\t' then doc[k].(text := t[1..]) else doc[k]
  }

  /** A range over several blocks: every block from the start block (position
      `i`) through the end block (position `j`) gets a leading tab, every other
      block is untouched, and the selection is `mergeIndentSelection`'s and
      stays valid. */
  lemma IndentMultiBlock(editorState: EditorState, contentState: Document, i: nat, j: nat)
    requires ValidSelection(contentState, editorState.selection)
    requires editorState.selection.StartKey() != editorState.selection.EndKey()
    requires i == IndexOf(contentState, editorState.selection.StartKey())
    requires j == IndexOf(contentState, editorState.selection.EndKey())
    ensures var r := IndentSelection(editorState, contentState);
            && Keys(r.content) == Keys(contentState)
            && TabbedRun(contentState, r.content, i, j)
            && r.selection == MergeIndentSelection(editorState.selection)
            && ValidSelection(r.content, r.selection)
  {
    IndentRunContent(editorState, contentState, i, j);
    var r := IndentSelection(editorState, contentState);
    IndentedRunKeepsSelectionValid(contentState, r.content, editorState.selection, i, j);
  }

  /** The content half of `IndentMultiBlock`. */
  lemma IndentRunContent(editorState: EditorState, contentState: Document, i: nat, j: nat)
    requires ValidSelection(contentState, editorState.selection)
    requires editorState.selection.StartKey() != editorState.selection.EndKey()
    requires i == IndexOf(contentState, editorState.selection.StartKey())
    requires j == IndexOf(contentState, editorState.selection.EndKey())
    ensures var r := IndentSelection(editorState, contentState);
            && TabbedRun(contentState, r.content, i, j)
            && r.selection == MergeIndentSelection(editorState.selection)
  {
    var sel := editorState.selection;
    IndentSelectionOnRange(editorState, contentState);
    BlocksBetweenSlice(contentState, sel.StartKey(), sel.EndKey(), i, j);
    IndentBlocksForRun(editorState, sel, contentState, i, j);
  }

  /** A range over several blocks takes the `indentBlocksForKeys` path. */
  lemma IndentSelectionOnRange(editorState: EditorState, contentState: Document)
    requires ValidSelection(contentState, editorState.selection)
    requires editorState.selection.StartKey() != editorState.selection.EndKey()
    ensures var sel := editorState.selection;
            IndentSelection(editorState, contentState)
            == IndentBlocksForKeys(editorState, sel, contentState, BlocksKeysBetween(contentState, sel.StartKey(), sel.EndKey()).value)
  {
  }

  /** `indentBlocksForKeys` with the keys of a run tabs exactly that run. */
  lemma IndentBlocksForRun(editorState: EditorState, sel: Selection, contentState: Document, i: nat, j: nat)
    requires DistinctKeys(contentState) && i <= j < |contentState|
    ensures TabbedRun(contentState, IndentBlocksForKeys(editorState, sel, contentState, Keys(contentState[i..j + 1])).content, i, j)
  {
    var r := IndentBlocksForKeys(editorState, sel, contentState, Keys(contentState[i..j + 1]));
    forall k | 0 <= k < |contentState|
      ensures r.content[k] == if i <= k <= j then contentState[k].(text := "\t" + contentState[k].text) else contentState[k]
    {
      KeyInRun(contentState, i, j, k);
      assert Keys(r.content)[k] == Keys(contentState)[k];
    }
  }

  /** Prefixing a tab to every block of a multi-block run keeps
      `mergeIndentSelection`'s selection within the texts. */
  lemma IndentedRunKeepsSelectionValid(doc: Document, indented: Document, sel: Selection, i: nat, j: nat)
    requires ValidSelection(doc, sel) && sel.StartKey() != sel.EndKey()
    requires i == IndexOf(doc, sel.StartKey()) && j == IndexOf(doc, sel.EndKey())
    requires Keys(indented) == Keys(doc) && TabbedRun(doc, indented, i, j)
    ensures ValidSelection(indented, MergeIndentSelection(sel))
  {
    var a, f := IndexOf(doc, sel.anchorKey), IndexOf(doc, sel.focusKey);
    assert i < j;
    assert (a == i && f == j) || (a == j && f == i);
    SameKeysDistinct(doc, indented);
    SameKeys(doc, indented, sel.anchorKey);
    SameKeys(doc, indented, sel.focusKey);
    assert |indented[a].text| == |doc[a].text| + 1;
    assert |indented[f].text| == |doc[f].text| + 1;
    assert TextOf(indented, sel.anchorKey) == indented[a].text;
    assert TextOf(indented, sel.focusKey) == indented[f].text;
  }

  // ---------------------------------------------------------------------------
  // outdentSelection

  /** Every block from the start block (position `i`) through the end block
      (position `j`) that starts with a tab loses exactly that character; every
      other block is untouched; the selection is `mergeOutdentSelection`'s
      whatever was removed. */
  lemma OutdentRange(editorState: EditorState, contentState: Document, i: nat, j: nat)
    requires WellKeyed(contentState, editorState.selection)
    requires i == IndexOf(contentState, editorState.selection.StartKey()) <= j == IndexOf(contentState, editorState.selection.EndKey())
    ensures var r := OutdentSelection(editorState, contentState);
            && Keys(r.content) == Keys(contentState)
            && UntabbedRun(contentState, r.content, i, j)
            && r.selection == MergeOutdentSelection(editorState.selection)
  {
    var sel, r := editorState.selection, OutdentSelection(editorState, contentState);
    BlocksBetweenSlice(contentState, sel.StartKey(), sel.EndKey(), i, j);
    forall k | 0 <= k < |contentState| ensures
      var t := contentState[k].text;
      r.content[k] == if i <= k <= j && |t| > 0 && t[0] == '\t' then contentState[k].(text := t[1..]) else contentState[k]
    {
      KeyInRun(contentState, i, j, k);
      assert Keys(r.content)[k] == Keys(contentState)[k];
    }
  }

  /** Outdenting a range in which no block starts with a tab leaves the content
      as it was, yet the selection still moves one column left. */
  lemma OutdentBareTextMovesOnlySelection(editorState: EditorState, contentState: Document)
    requires WellKeyed(contentState, editorState.selection)
    requires IndexOf(contentState, editorState.selection.StartKey()) <= IndexOf(contentState, editorState.selection.EndKey())
    requires forall k :: IndexOf(contentState, editorState.selection.StartKey()) <= k <= IndexOf(contentState, editorState.selection.EndKey())
               ==> !(|contentState[k].text| > 0 && contentState[k].text[0] == '\t')
    ensures OutdentSelection(editorState, contentState).content == contentState
    ensures OutdentSelection(editorState, contentState).selection == MergeOutdentSelection(editorState.selection)
    ensures OutdentSelection(editorState, contentState).selection != editorState.selection
  {
    var i, j := IndexOf(contentState, editorState.selection.StartKey()), IndexOf(contentState, editorState.selection.EndKey());
    OutdentRange(editorState, contentState, i, j);
    UntabbedRunWithoutTabs(contentState, OutdentSelection(editorState, contentState).content, i, j);
  }

  lemma UntabbedRunWithoutTabs(doc: Document, outdented: Document, i: nat, j: nat)
    requires UntabbedRun(doc, outdented, i, j) && j < |doc|
    requires forall k :: i <= k <= j ==> !(|doc[k].text| > 0 && doc[k].text[0] == '\t')
    ensures outdented == doc
  {
  }

  /** A boundary at column 0 recedes to column -1: outdent does not clamp, and
      the selection it installs is no longer valid. */
  lemma OutdentFromColumnZeroGoesNegative(editorState: EditorState, contentState: Document)
    requires WellKeyed(contentState, editorState.selection) && editorState.selection.StartOffset() == 0
    ensures OutdentSelection(editorState, contentState).selection.StartOffset() == -1
    ensures !ValidSelection(OutdentSelection(editorState, contentState).content, OutdentSelection(editorState, contentState).selection)
  {
  }

  /** Indent then outdent over several blocks: the content comes back exactly;
      the selection comes back exactly when no boundary was pinned at column 0
      (indent and outdent are not inverse on selections). */
  lemma IndentThenOutdent(editorState: EditorState, contentState: Document)
    requires ValidSelection(contentState, editorState.selection)
    requires editorState.selection.StartKey() != editorState.selection.EndKey()
    ensures var indented := IndentSelection(editorState, contentState);
            var r := OutdentSelection(indented, indented.content);
            && r.content == contentState
            && (r.selection == editorState.selection
                <==> editorState.selection.anchorOffset != 0
                     && (editorState.selection.isBackward ==> editorState.selection.focusOffset != 0))
  {
    var sel := editorState.selection;
    var i, j := IndexOf(contentState, sel.StartKey()), IndexOf(contentState, sel.EndKey());
    IndentMultiBlock(editorState, contentState, i, j);
    OutdentUndoesIndentedRun(contentState, sel, IndentSelection(editorState, contentState), i, j);
  }

  /** `IndentThenOutdent` for any state that indenting a multi-block run
      would produce. */
  lemma OutdentUndoesIndentedRun(contentState: Document, sel: Selection, indented: EditorState, i: nat, j: nat)
    requires DistinctKeys(contentState) && sel.anchorKey in Keys(contentState) && sel.focusKey in Keys(contentState)
    requires i == IndexOf(contentState, sel.StartKey()) <= j == IndexOf(contentState, sel.EndKey())
    requires Keys(indented.content) == Keys(contentState) && TabbedRun(contentState, indented.content, i, j)
    requires indented.selection == MergeIndentSelection(sel)
    ensures var r := OutdentSelection(indented, indented.content);
            && r.content == contentState
            && (r.selection == sel <==> sel.anchorOffset != 0 && (sel.isBackward ==> sel.focusOffset != 0))
  {
    SameKeysDistinct(contentState, indented.content);
    SameKeys(contentState, indented.content, sel.anchorKey);
    SameKeys(contentState, indented.content, sel.focusKey);
    OutdentRange(indented, indented.content, i, j);
    var r := OutdentSelection(indented, indented.content);
    UntabUndoesTabRun(contentState, indented.content, r.content, i, j);
    MergeOutdentUndoesMergeIndent(sel);
  }

  /** Removing the leading tab from every block of a run that was given one
      restores the run, and the blocks outside it were never touched. */
  lemma UntabUndoesTabRun(doc: Document, indented: Document, outdented: Document, i: nat, j: nat)
    requires TabbedRun(doc, indented, i, j) && UntabbedRun(indented, outdented, i, j)
    ensures outdented == doc
  {
    forall k | 0 <= k < |doc| ensures outdented[k] == doc[k] {
      if i <= k <= j {
        assert ("\t" + doc[k].text)[1..] == doc[k].text;
      }
    }
  }

  // ---------------------------------------------------------------------------
  // mergeBlockData

  /** With the editor's own content, `mergeBlockData` returns its input exactly
      when there is no block keyed `blockKey` or the selection is a range; a
      block with empty data is still split. */
  lemma MergeBlockDataNoOp(editorState: EditorState, blockKey: Key, newKey: Key)
    requires GetBlockDataForKey(editorState.content, blockKey).Some? && editorState.selection.IsCollapsed() ==>
               SplitAllowed(editorState.content, editorState.selection, newKey)
    ensures MergeBlockData(editorState, editorState.content, blockKey, newKey) == editorState
            <==> blockKey !in Keys(editorState.content) || !editorState.selection.IsCollapsed()
  {
    var r := MergeBlockData(editorState, editorState.content, blockKey, newKey);
    if blockKey in Keys(editorState.content) && editorState.selection.IsCollapsed() {
      assert |r.content| != |editorState.content|;
    }
  }

  /** Return at a caret in a block with data, as the editor issues it (the key
      is the selection's start): the block keeps the text before the caret and
      its data, the new block after it holds the rest of the text with the same
      type and the same data, nothing else changes, and the caret moves to the
      start of the new block. */
  lemma MergeBlockDataPropagates(editorState: EditorState, contentState: Document, newKey: Key)
    requires DistinctKeys(contentState) && editorState.selection.IsCollapsed()
    requires SplitAllowed(contentState, editorState.selection, newKey)
    ensures var sel, r := editorState.selection, MergeBlockData(editorState, contentState, editorState.selection.StartKey(), newKey);
            var i, o := IndexOf(contentState, sel.StartKey()), sel.StartOffset();
            var b := contentState[i];
            && |r.content| == |contentState| + 1
            && r.content[..i] == contentState[..i]
            && r.content[i + 2..] == contentState[i + 1..]
            && r.content[i] == b.(text := b.text[..o])
            && r.content[i + 1] == Block(newKey, b.blockType, b.text[o..], b.data)
            && r.content[i].text + r.content[i + 1].text == b.text
            && r.selection == Caret(newKey, 0)
  {
    var sel := editorState.selection;
    var i, o := IndexOf(contentState, sel.StartKey()), sel.StartOffset();
    var b := contentState[i];
    var split := DraftEngine.SplitBlock(contentState, sel, newKey).blocks;
    var r := MergeBlockData(editorState, contentState, sel.StartKey(), newKey);
    SplitDistinct(contentState, sel, newKey);
    assert Keys(split)[i + 1] == newKey;
    MergeOntoBlock(split, i + 1, b.data);
    assert r.content == DraftEngine.MergeBlockData(split, Caret(newKey, 0), b.data).blocks;
    assert map[] + b.data == b.data;
    UpdateOutside(split, i + 1, split[i + 1].(data := b.data), 0, i);
    UpdateOutside(split, i + 1, split[i + 1].(data := b.data), i + 2, |split|);
    assert b.text[..o] + b.text[o..] == b.text;
  }

  /** `Modifier.mergeBlockData` at a caret in the block at position `m` merges
      `data` onto that block alone. */
  lemma MergeOntoBlock(doc: Document, m: nat, data: BlockData)
    requires DistinctKeys(doc) && m < |doc| && doc[m].key in Keys(doc)
    ensures DraftEngine.MergeBlockData(doc, Caret(doc[m].key, 0), data).blocks == doc[m := doc[m].(data := doc[m].data + data)]
  {
    IndexOfDistinct(doc, m);
  }

  lemma UpdateOutside<T>(s: seq<T>, m: nat, v: T, lo: nat, hi: nat)
    requires m < |s| && lo <= hi <= |s| && !(lo <= m < hi)
    ensures s[m := v][lo..hi] == s[lo..hi]
  {
  }
}
