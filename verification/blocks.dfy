/**
 * The block-list editor: a document is a list of blocks (id, type, content)
 * with one active block id. The keyboard handler merges a block into the
 * previous one on Backspace at the start, splits a block at the caret on
 * Enter, and deletes an empty block on Backspace; the toolbar adds a block
 * after the active one and changes a block's type; leaving a block stores
 * its edited content.
 *
 * The caret offset, the selection and the block's text as the DOM shows it
 * are inputs; `Date.now()` (used for new block ids) is an input too.
 */
module Blocks {
  import opened Wrappers
  import Numbers

  datatype Block = Block(id: string, kind: string, content: string)

  /** The blocks and the active block id (`None` for `undefined`). */
  datatype Editor = Editor(blocks: seq<Block>, active: Option<string>)

  const InitialEditor := Editor([Block("title", "title", "Untitled"), Block("block-1", "paragraph", "")], Some("block-1"))

  datatype Key = Backspace | Enter | OtherKey

  /** The id given to a block created at time `now`: `block-<now>`. */
  function NewBlockId(now: nat): string {
    "block-" + Numbers.NatToString(now)
  }

  /** `blocks.findIndex(b => b.id === id)`, with -1 when no block has that id. */
  function FindIndex(blocks: seq<Block>, id: Option<string>): (k: int)
    ensures -1 <= k < |blocks|
    ensures k >= 0 ==> id == Some(blocks[k].id) && forall j | 0 <= j < k :: id != Some(blocks[j].id)
    ensures k == -1 ==> forall j | 0 <= j < |blocks| :: id != Some(blocks[j].id)
  {
    if |blocks| == 0 then -1
    else if id == Some(blocks[0].id) then 0
    else
      var k := FindIndex(blocks[1..], id);
      if k == -1 then -1 else k + 1
  }

  /** Block lists with the same ids in the same order find every id at the same position. */
  lemma FindIndexByIds(a: seq<Block>, b: seq<Block>, id: Option<string>)
    requires |a| == |b| && forall i | 0 <= i < |a| :: a[i].id == b[i].id
    ensures FindIndex(a, id) == FindIndex(b, id)
  {
  }

  /** The contents of the blocks, in order. */
  function Contents(blocks: seq<Block>): (cs: seq<string>)
    ensures |cs| == |blocks| && forall i | 0 <= i < |blocks| :: cs[i] == blocks[i].content
  {
    seq(|blocks|, i requires 0 <= i < |blocks| => blocks[i].content)
  }

  /** The ids of the blocks, in order. */
  function Ids(blocks: seq<Block>): (ids: seq<string>)
    ensures |ids| == |blocks| && forall i | 0 <= i < |blocks| :: ids[i] == blocks[i].id
  {
    seq(|blocks|, i requires 0 <= i < |blocks| => blocks[i].id)
  }

  /** `handleContentChange`: every block with the given id gets the new content; nothing else changes. */
  function UpdateContent(blocks: seq<Block>, id: string, content: string): (r: seq<Block>)
    ensures |r| == |blocks|
    ensures forall i | 0 <= i < |blocks| :: r[i].id == blocks[i].id && r[i].kind == blocks[i].kind
    ensures forall i | 0 <= i < |blocks| :: r[i].content == if blocks[i].id == id then content else blocks[i].content
  {
    seq(|blocks|, i requires 0 <= i < |blocks| => if blocks[i].id == id then blocks[i].(content := content) else blocks[i])
  }

  /** `changeBlockType`: every block with the given id gets the new type; nothing else changes. */
  function ChangeBlockType(blocks: seq<Block>, id: string, kind: string): (r: seq<Block>)
    ensures |r| == |blocks|
    ensures forall i | 0 <= i < |blocks| :: r[i].id == blocks[i].id && r[i].content == blocks[i].content
    ensures forall i | 0 <= i < |blocks| :: r[i].kind == if blocks[i].id == id then kind else blocks[i].kind
  {
    seq(|blocks|, i requires 0 <= i < |blocks| => if blocks[i].id == id then blocks[i].(kind := kind) else blocks[i])
  }

  /**
   * Edits by id compose as expected: a later content edit of the same block
   * overrides an earlier one, and a type change and a content edit commute.
   */
  lemma EditsByIdCompose(blocks: seq<Block>, id: string, id': string, c1: string, c2: string, kind: string)
    ensures UpdateContent(UpdateContent(blocks, id, c1), id, c2) == UpdateContent(blocks, id, c2)
    ensures ChangeBlockType(UpdateContent(blocks, id, c1), id', kind) == UpdateContent(ChangeBlockType(blocks, id', kind), id, c1)
    ensures Contents(ChangeBlockType(blocks, id', kind)) == Contents(blocks)
  {
  }

  /** `blocks.filter((_, i) => i !== index)`. */
  function RemoveAt(blocks: seq<Block>, index: nat): (r: seq<Block>)
    requires index < |blocks|
    ensures |r| == |blocks| - 1
    ensures r[..index] == blocks[..index] && r[index..] == blocks[index + 1..]
  {
    blocks[..index] + blocks[index + 1..]
  }

  /**
   * Backspace at the very start of a block that is not the first: the block
   * disappears and its text (as currently shown) is appended to the previous
   * block, which becomes active.
   */
  function MergeIntoPrevious(e: Editor, index: nat, current: string): (r: Editor)
    requires 0 < index < |e.blocks|
    ensures |r.blocks| == |e.blocks| - 1
    ensures r.blocks[index - 1] == e.blocks[index - 1].(content := e.blocks[index - 1].content + current)
    ensures r.blocks[..index - 1] == e.blocks[..index - 1] && r.blocks[index..] == e.blocks[index + 1..]
    ensures r.active == Some(e.blocks[index - 1].id)
  {
    var prev := e.blocks[index - 1];
    Editor(RemoveAt(e.blocks, index)[index - 1 := prev.(content := prev.content + current)], Some(prev.id))
  }

  /**
   * Enter without Shift, with a selection whose caret is at `offset`: the
   * block keeps the text left of the caret, and a new paragraph holding the
   * text right of it is inserted just after and made active. The offset is
   * clamped to the text as `slice` does.
   */
  function SplitAtCaret(e: Editor, index: nat, current: string, offset: nat, now: nat): (r: Editor)
    requires index < |e.blocks|
    ensures |r.blocks| == |e.blocks| + 1
    ensures r.blocks[index].content + r.blocks[index + 1].content == current
    ensures r.blocks[index] == e.blocks[index].(content := r.blocks[index].content)
    ensures r.blocks[index + 1] == Block(NewBlockId(now), "paragraph", r.blocks[index + 1].content)
    ensures offset <= |current| ==> |r.blocks[index].content| == offset
    ensures offset > |current| ==> r.blocks[index + 1].content == ""
    ensures r.blocks[..index] == e.blocks[..index] && r.blocks[index + 2..] == e.blocks[index + 1..]
    ensures r.active == Some(NewBlockId(now))
  {
    var cut := if offset <= |current| then offset else |current|;
    var left := e.blocks[index].(content := current[..cut]);
    var right := Block(NewBlockId(now), "paragraph", current[cut..]);
    var nb := e.blocks[..index] + [left, right] + e.blocks[index + 1..];
    assert nb[index + 2..] == e.blocks[index + 1..];
    Editor(nb, Some(right.id))
  }

  /**
   * Backspace in an empty block: the block is removed; the previous block's
   * id becomes active, or, when there is no previous block or its id is the
   * empty string, the next block's id (`undefined` when there is none).
   */
  function DeleteBlock(e: Editor, index: nat): (r: Editor)
    requires index < |e.blocks|
    ensures r.blocks == RemoveAt(e.blocks, index)
    ensures index > 0 && e.blocks[index - 1].id != "" ==> r.active == Some(e.blocks[index - 1].id)
    ensures (index == 0 || e.blocks[index - 1].id == "") && index + 1 < |e.blocks| ==> r.active == Some(e.blocks[index + 1].id)
    ensures (index == 0 || e.blocks[index - 1].id == "") && index + 1 == |e.blocks| ==> r.active.None?
  {
    var active :=
      if index > 0 && e.blocks[index - 1].id != "" then Some(e.blocks[index - 1].id)
      else if index + 1 < |e.blocks| then Some(e.blocks[index + 1].id)
      else None;
    Editor(RemoveAt(e.blocks, index), active)
  }

  /**
   * `handleKeyDown` for the block rendered at `index`: `current` is the
   * block's text as shown, `caret` the caret offset found in it, and
   * `selection` the start offset of the window selection, if there is one.
   */
  function KeyDown(e: Editor, index: nat, key: Key, shift: bool, current: string, caret: nat,
                   selection: Option<nat>, now: nat): (r: Editor)
    requires index < |e.blocks|
    ensures key == Backspace && caret == 0 && index > 0 ==> r == MergeIntoPrevious(e, index, current)
    ensures key == Enter && !shift && selection.Some? ==> r == SplitAtCaret(e, index, current, selection.value, now)
    ensures key == Backspace && (caret != 0 || index == 0) && current == "" && |e.blocks| > 1 ==> r == DeleteBlock(e, index)
    ensures |r.blocks| < |e.blocks| <==> key == Backspace && ((caret == 0 && index > 0) || (current == "" && |e.blocks| > 1))
    ensures |r.blocks| > |e.blocks| <==> key == Enter && !shift && selection.Some?
    ensures |r.blocks| == |e.blocks| ==> r == e
    ensures |r.blocks| >= 1
  {
    if key == Backspace && caret == 0 && index > 0 then MergeIntoPrevious(e, index, current)
    else if key == Enter && !shift then
      if selection.Some? then SplitAtCaret(e, index, current, selection.value, now) else e
    else if key == Backspace && current == "" && |e.blocks| > 1 then DeleteBlock(e, index)
    else e
  }

  /**
   * `addBlock`: a new empty block of the given type goes right after the
   * active block (after the first block with that id), or at the front when
   * no block has the active id; it becomes active.
   */
  function AddBlock(e: Editor, kind: string, now: nat): (r: Editor)
    ensures |r.blocks| == |e.blocks| + 1
    ensures r.active == Some(NewBlockId(now))
    ensures forall i | 0 <= i < |e.blocks| && e.active == Some(e.blocks[i].id)
                      && (forall j | 0 <= j < i :: e.active != Some(e.blocks[j].id)) ::
              && r.blocks[i + 1] == Block(NewBlockId(now), kind, "")
              && r.blocks[..i + 1] == e.blocks[..i + 1] && r.blocks[i + 2..] == e.blocks[i + 1..]
    ensures (forall i | 0 <= i < |e.blocks| :: e.active != Some(e.blocks[i].id)) ==>
              r.blocks == [Block(NewBlockId(now), kind, "")] + e.blocks
  {
    var pos := FindIndex(e.blocks, e.active) + 1;
    var nb := e.blocks[..pos] + [Block(NewBlockId(now), kind, "")] + e.blocks[pos..];
    assert nb[pos + 1..] == e.blocks[pos..];
    Editor(nb, Some(NewBlockId(now)))
  }

  /** The position `AddBlock` inserts at. */
  function InsertPosition(e: Editor): (p: nat)
    ensures p <= |e.blocks|
    ensures p > 0 ==> e.active == Some(e.blocks[p - 1].id)
  {
    FindIndex(e.blocks, e.active) + 1
  }

  /**
   * Splitting a block and then pressing Backspace at the start of the new
   * block (whose text is the right part) restores the blocks exactly, and
   * makes the split block active again.
   */
  lemma MergeUndoesSplit(e: Editor, index: nat, offset: nat, now: nat)
    requires index < |e.blocks|
    ensures var current := e.blocks[index].content;
            var s := SplitAtCaret(e, index, current, offset, now);
            MergeIntoPrevious(s, index + 1, s.blocks[index + 1].content)
              == Editor(e.blocks, Some(e.blocks[index].id))
  {
    var current := e.blocks[index].content;
    var s := SplitAtCaret(e, index, current, offset, now);
    var m := MergeIntoPrevious(s, index + 1, s.blocks[index + 1].content);
    assert m.blocks[..index] == e.blocks[..index];
    assert m.blocks[index] == e.blocks[index];
    assert m.blocks[index + 1..] == e.blocks[index + 1..];
    assert m.blocks == m.blocks[..index] + [m.blocks[index]] + m.blocks[index + 1..];
    assert e.blocks == e.blocks[..index] + [e.blocks[index]] + e.blocks[index + 1..];
  }

  /** Adding a block and then deleting it (it is empty) gives back the original blocks. */
  lemma DeleteUndoesAdd(e: Editor, kind: string, now: nat)
    ensures var a := AddBlock(e, kind, now);
            DeleteBlock(a, InsertPosition(e)).blocks == e.blocks
  {
    var a := AddBlock(e, kind, now);
    var p := InsertPosition(e);
    assert a.blocks == e.blocks[..p] + [Block(NewBlockId(now), kind, "")] + e.blocks[p..];
    assert a.blocks[..p] == e.blocks[..p];
    assert a.blocks[p + 1..] == e.blocks[p..];
  }
}
