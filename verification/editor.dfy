/**
 * The meeting editor's own rules on top of the block list: the meeting title
 * taken from the title block (falling back to "Untitled"), the notes and the
 * transcription joined by newlines, the suggested recording file name, the
 * local draft saved when a block's content changes, and what leaving the
 * editor sends to the server.
 */
module Editor {
  import opened Wrappers
  import opened Strings
  import opened Blocks
  import Transcript

  const DefaultTitle := "Untitled"
  const TitleId := "title"

  /** The title: the content of the first block with id `title`, or "Untitled" when that is empty or there is none. */
  function TitleOf(blocks: seq<Block>): (t: string)
    ensures t != []
    ensures forall k | 0 <= k < |blocks| && blocks[k].id == TitleId && blocks[k].content != []
                       && (forall j | 0 <= j < k :: blocks[j].id != TitleId) :: t == blocks[k].content
    ensures t != DefaultTitle ==> exists k | 0 <= k < |blocks| :: blocks[k].id == TitleId && blocks[k].content == t
  {
    var k := FindIndex(blocks, Some(TitleId));
    if k >= 0 && blocks[k].content != [] then blocks[k].content else DefaultTitle
  }

  /** Editing the title block's content changes the title to the new content, or to "Untitled" when the content is emptied. */
  lemma TitleFollowsTitleBlock(blocks: seq<Block>, content: string)
    requires exists k | 0 <= k < |blocks| :: blocks[k].id == TitleId
    ensures TitleOf(UpdateContent(blocks, TitleId, content)) == if content != [] then content else DefaultTitle
  {
    var r := UpdateContent(blocks, TitleId, content);
    FindIndexByIds(r, blocks, Some(TitleId));
    var k := FindIndex(blocks, Some(TitleId));
    assert k >= 0 && r[k].content == content;
  }

  /** The notes: every block's content, in order, joined by newlines. */
  function Notes(blocks: seq<Block>): string {
    Join(Contents(blocks), "\n")
  }

  /** When no block's content holds a newline, the notes split back into the block contents. */
  lemma NotesRecoverContents(blocks: seq<Block>)
    requires |blocks| >= 1
    requires forall i | 0 <= i < |blocks| :: '\n' !in blocks[i].content
    ensures Split(Notes(blocks), '\n') == Contents(blocks)
  {
    SplitJoin(Contents(blocks), '\n');
  }

  /** `toISOString().slice(0, 10)`: the first ten characters, or all of a shorter string. */
  function DatePart(isoNow: string): (d: string)
    ensures |d| == if |isoNow| < 10 then |isoNow| else 10
    ensures StartsWith(isoNow, d)
  {
    if |isoNow| < 10 then isoNow else isoNow[..10]
  }

  /** The characters a sanitised title can hold: lower-case ASCII letters, digits and '-'. */
  predicate FileNameSafe(c: char) {
    ('a' <= c <= 'z') || ('0' <= c <= '9') || c == '-'
  }

  /**
   * The suggested recording file name: the title with every character that
   * is not an ASCII letter or digit replaced by '-' and then lower-cased,
   * followed by '-', the date and `.webm`.
   */
  function RecordingFilename(title: string, isoNow: string): (name: string)
    ensures |name| == |title| + |DatePart(isoNow)| + 6
    ensures forall i | 0 <= i < |title| ::
              name[i] == (if IsAsciiAlnum(title[i]) then LowerChar(title[i]) else '-')
    ensures forall i | 0 <= i < |title| :: FileNameSafe(name[i])
    ensures name[|title|..] == "-" + DatePart(isoNow) + ".webm"
  {
    var stem := ToLower(DashNonAlnum(title));
    var name := stem + "-" + DatePart(isoNow) + ".webm";
    assert name[..|title|] == stem;
    assert name[|title|..] == "-" + DatePart(isoNow) + ".webm";
    name
  }

  /** Titles that agree up to ASCII case and up to which non-alphanumeric characters they hold get the same file name. */
  lemma FilenameIgnoresCaseAndPunctuation(a: string, b: string, isoNow: string)
    requires |a| == |b|
    requires forall i | 0 <= i < |a| :: IsAsciiAlnum(a[i]) == IsAsciiAlnum(b[i])
    requires forall i | 0 <= i < |a| :: IsAsciiAlnum(a[i]) ==> LowerChar(a[i]) == LowerChar(b[i])
    ensures RecordingFilename(a, isoNow) == RecordingFilename(b, isoNow)
  {
    var na := RecordingFilename(a, isoNow);
    var nb := RecordingFilename(b, isoNow);
    assert na[..|a|] == nb[..|b|];
    assert na == na[..|a|] + na[|a|..];
    assert nb == nb[..|b|] + nb[|b|..];
  }

  /** The meeting kept in local storage while editing: its id, title and notes (other fields are carried along untouched). */
  datatype Draft = Draft(id: string, title: string, notes: string)

  datatype ContentChangeResult = ContentChangeResult(blocks: seq<Block>, draft: Option<Draft>)

  /**
   * `handleContentChange` as written: the block is updated, and the draft is
   * saved with the new content as title when the title block changed, but
   * with the notes of the blocks as they were BEFORE the change.
   */
  function ContentChangeAsWritten(blocks: seq<Block>, draft: Option<Draft>, id: string, content: string): (r: ContentChangeResult)
    ensures r.blocks == UpdateContent(blocks, id, content)
    ensures draft.None? <==> r.draft.None?
    ensures draft.Some? ==> r.draft.value.id == draft.value.id && r.draft.value.notes == Notes(blocks)
  {
    var updated := UpdateContent(blocks, id, content);
    match draft
    case None => ContentChangeResult(updated, None)
    case Some(d) =>
      ContentChangeResult(updated, Some(d.(title := if id == TitleId then content else TitleOf(blocks), notes := Notes(blocks))))
  }

  /** Typing "hello" into the empty first paragraph saves a draft whose notes still lack "hello". */
  lemma ContentChangeDraftLags()
    ensures var r := ContentChangeAsWritten(InitialEditor.blocks, Some(Draft("m", "Untitled", "")), "block-1", "hello");
            r.draft.value.notes == "Untitled\n" && Notes(r.blocks) == "Untitled\nhello"
            && r.draft.value.notes != Notes(r.blocks)
  {
    var r := ContentChangeAsWritten(InitialEditor.blocks, Some(Draft("m", "Untitled", "")), "block-1", "hello");
    assert Contents(InitialEditor.blocks) == ["Untitled", ""];
    assert r.blocks == [Block("title", "title", "Untitled"), Block("block-1", "paragraph", "hello")];
    assert Contents(r.blocks) == ["Untitled", "hello"];
    assert "Untitled\n" != "Untitled\nhello";
  }

  /**
   * `handleContentChange` with the notes taken from the updated blocks: the
   * saved draft then always reflects the edit just made.
   */
  function ContentChange(blocks: seq<Block>, draft: Option<Draft>, id: string, content: string): (r: ContentChangeResult)
    ensures r.blocks == UpdateContent(blocks, id, content)
    ensures draft.None? <==> r.draft.None?
    ensures draft.Some? ==> r.draft.value.id == draft.value.id && r.draft.value.notes == Notes(r.blocks)
    ensures draft.Some? && id == TitleId ==> r.draft.value.title == content
  {
    var updated := UpdateContent(blocks, id, content);
    match draft
    case None => ContentChangeResult(updated, None)
    case Some(d) =>
      ContentChangeResult(updated, Some(d.(title := if id == TitleId then content else TitleOf(blocks), notes := Notes(updated))))
  }

  /** The local-storage key under which a meeting's draft is kept. */
  function DraftKey(id: string): string {
    "meeting-" + id
  }

  /** Distinct meetings keep their drafts under distinct keys. */
  lemma DraftKeyInjective(a: string, b: string)
    ensures DraftKey(a) == DraftKey(b) <==> a == b
  {
    if DraftKey(a) == DraftKey(b) {
      assert a == DraftKey(a)[8..] && b == DraftKey(b)[8..];
    }
  }

  /** What `updateMeeting` is asked to save. */
  datatype SaveRequest = SaveRequest(meetingId: string, title: string, notes: string, transcription: string)

  /**
   * What the back button leads to: the save request sent, if any; whether
   * the editor leaves; the error toast shown, if any; and local storage
   * afterwards.
   */
  datatype BackOutcome = BackOutcome(request: Option<SaveRequest>, leaves: bool, toast: Option<string>, storage: map<string, Draft>)

  const SaveFailedToast := "Failed to save meeting"

  /**
   * `handleBack`: with a meeting and a non-empty token, the title, joined
   * notes and joined transcription are sent. When the save succeeds the
   * meeting's draft is removed from local storage and the editor leaves;
   * when it is rejected a toast is shown, the draft is kept and the editor
   * stays. Without a meeting or a token the editor just leaves.
   */
  function HandleBack(draft: Option<Draft>, jwt: Option<string>, blocks: seq<Block>, history: seq<Transcript.Entry>,
                      storage: map<string, Draft>, saveFails: bool): (o: BackOutcome)
    ensures o.request.Some? <==> draft.Some? && Given(jwt)
    ensures o.request.Some? ==> o.request.value == SaveRequest(draft.value.id, TitleOf(blocks), Notes(blocks), Transcript.TranscriptionText(history))
    ensures o.leaves <==> o.request.None? || !saveFails
    ensures o.toast.Some? <==> !o.leaves
    ensures o.toast.Some? ==> o.toast.value == SaveFailedToast
    ensures o.request.Some? && !saveFails ==> o.storage == storage - {DraftKey(draft.value.id)}
    ensures o.request.None? || saveFails ==> o.storage == storage
  {
    if draft.Some? && Given(jwt) then
      var request := SaveRequest(draft.value.id, TitleOf(blocks), Notes(blocks), Transcript.TranscriptionText(history));
      if saveFails then BackOutcome(Some(request), false, Some(SaveFailedToast), storage)
      else BackOutcome(Some(request), true, None, storage - {DraftKey(draft.value.id)})
    else BackOutcome(None, true, None, storage)
  }

  /**
   * A rejected save loses nothing: the editor and local storage stay as they
   * were, so pressing back again sends the same request, and once it is
   * accepted the editor leaves with the meeting's draft removed.
   */
  lemma RejectedSaveCanBeRetried(d: Draft, jwt: string, blocks: seq<Block>, history: seq<Transcript.Entry>, storage: map<string, Draft>)
    requires jwt != []
    ensures var first := HandleBack(Some(d), Some(jwt), blocks, history, storage, true);
            var second := HandleBack(Some(d), Some(jwt), blocks, history, first.storage, false);
            && !first.leaves && first.storage == storage
            && second.request == first.request && second.leaves
            && second.storage == storage - {DraftKey(d.id)}
  {
  }

  /** Leaving after a save removes this meeting's draft only: every other meeting's draft stays as it was. */
  lemma LeavingKeepsOtherDrafts(d: Draft, jwt: Option<string>, blocks: seq<Block>, history: seq<Transcript.Entry>,
                                storage: map<string, Draft>, saveFails: bool, other: string)
    requires other != d.id && DraftKey(other) in storage
    ensures var o := HandleBack(Some(d), jwt, blocks, history, storage, saveFails);
            DraftKey(other) in o.storage && o.storage[DraftKey(other)] == storage[DraftKey(other)]
  {
    DraftKeyInjective(other, d.id);
  }

  /** After a content change, the local draft holds exactly the notes the back button would send. */
  lemma DraftAgreesWithBack(blocks: seq<Block>, d: Draft, id: string, content: string, jwt: string, history: seq<Transcript.Entry>)
    requires jwt != []
    ensures var r := ContentChange(blocks, Some(d), id, content);
            HandleBack(r.draft, Some(jwt), r.blocks, history, map[], false).request.value.notes == r.draft.value.notes
  {
  }
}
