/**
 * Transcript assembly in the editor and the live bubble of the conversation
 * panel. Each transcription update is trimmed; a non-blank one becomes the
 * live text and is appended to the history with its timestamp. The panel
 * shows the live text as a separate bubble only while recording, when it is
 * not empty and differs from the last history entry.
 */
module Transcript {
  import opened Wrappers
  import opened Strings

  datatype Entry = Entry(text: string, timestamp: int)

  /** The live transcription text and the history of entries. */
  datatype View = View(live: string, history: seq<Entry>)

  const EmptyView := View("", [])

  /** One transcription update: its text and the time it arrived. */
  datatype Update = Update(text: string, now: int)

  /** The transcription-update handler. */
  function OnTranscriptionUpdate(v: View, u: Update): (v': View)
    ensures Trim(u.text) == [] <==> v' == v
    ensures Trim(u.text) != [] ==> v'.live == Trim(u.text)
    ensures Trim(u.text) != [] ==> |v'.history| == |v.history| + 1 && v'.history[..|v.history|] == v.history
    ensures Trim(u.text) != [] ==> v'.history[|v.history|] == Entry(Trim(u.text), u.now)
  {
    var t := Trim(u.text);
    if t != [] then
      var h := v.history + [Entry(t, u.now)];
      assert h[..|v.history|] == v.history;
      View(t, h)
    else v
  }

  /** The view after a sequence of updates, in order. */
  function ApplyUpdates(v: View, us: seq<Update>): View
    decreases |us|
  {
    if |us| == 0 then v else ApplyUpdates(OnTranscriptionUpdate(v, us[0]), us[1..])
  }

  /** The history entry one update contributes: none for a blank update, else its trimmed text. */
  function KeptOne(u: Update): (es: seq<Entry>)
    ensures |es| <= 1
    ensures forall i | 0 <= i < |es| :: es[i].text != [] && es[i].timestamp == u.now
  {
    var t := Trim(u.text);
    if t != [] then [Entry(t, u.now)] else []
  }

  /** The history entries that a sequence of updates contributes: one per non-blank update, trimmed. */
  function Kept(us: seq<Update>): (es: seq<Entry>)
    ensures |es| <= |us|
    ensures forall i | 0 <= i < |es| :: es[i].text != []
    decreases |us|
  {
    if |us| == 0 then [] else KeptOne(us[0]) + Kept(us[1..])
  }

  /** One update appends exactly what it contributes. */
  lemma StepAppendsKept(v: View, u: Update)
    ensures OnTranscriptionUpdate(v, u).history == v.history + KeptOne(u)
  {
  }

  /** Updates only ever append: the history grows by exactly the kept entries. */
  lemma {:induction false} HistoryAppendsKept(v: View, us: seq<Update>)
    ensures ApplyUpdates(v, us).history == v.history + Kept(us)
    decreases |us|
  {
    if |us| > 0 {
      var v1, tail := OnTranscriptionUpdate(v, us[0]), us[1..];
      StepAppendsKept(v, us[0]);
      HistoryAppendsKept(v1, tail);
      AppendAssoc(v.history, KeptOne(us[0]), Kept(tail));
    }
  }

  lemma AppendAssoc<T>(a: seq<T>, b: seq<T>, c: seq<T>)
    ensures (a + b) + c == a + (b + c)
  {
  }

  /** The last history entry's text, or `None` for an empty history (`lastHistoryEntry` undefined). */
  function LastText(history: seq<Entry>): Option<string> {
    if |history| == 0 then None else Some(history[|history| - 1].text)
  }

  /** `shouldShowLiveTranscription`. */
  predicate ShouldShowLive(isRecording: bool, live: string, history: seq<Entry>) {
    isRecording && live != [] && (|history| == 0 || history[|history| - 1].text != live)
  }

  /** The four rules of the live bubble: it is off when not recording, off for empty text, off when the text repeats the last entry, and on for a first non-empty text. */
  lemma LiveBubbleRules(isRecording: bool, live: string, history: seq<Entry>)
    ensures !isRecording ==> !ShouldShowLive(isRecording, live, history)
    ensures live == [] ==> !ShouldShowLive(isRecording, live, history)
    ensures LastText(history) == Some(live) ==> !ShouldShowLive(isRecording, live, history)
    ensures isRecording && live != [] && history == [] ==> ShouldShowLive(isRecording, live, history)
    ensures ShouldShowLive(isRecording, live, history) <==>
              isRecording && live != [] && LastText(history) != Some(live)
  {
  }

  /** The live text always repeats the last history entry (and is empty while the history is). */
  predicate LiveIsLast(v: View) {
    if |v.history| == 0 then v.live == [] else v.live == v.history[|v.history| - 1].text
  }

  /**
   * The editor's handler keeps the live text equal to the last history
   * entry, so in every view reachable from the empty one the live bubble is
   * never shown, whether or not recording is on.
   */
  lemma {:induction false} LiveBubbleNeverShown(v: View, us: seq<Update>, isRecording: bool)
    requires LiveIsLast(v)
    ensures LiveIsLast(ApplyUpdates(v, us))
    ensures !ShouldShowLive(isRecording, ApplyUpdates(v, us).live, ApplyUpdates(v, us).history)
    decreases |us|
  {
    if |us| > 0 {
      LiveBubbleNeverShown(OnTranscriptionUpdate(v, us[0]), us[1..], isRecording);
    }
  }

  /** The texts of the history entries, in order. */
  function Texts(history: seq<Entry>): (ts: seq<string>)
    ensures |ts| == |history| && forall i | 0 <= i < |history| :: ts[i] == history[i].text
  {
    seq(|history|, i requires 0 <= i < |history| => history[i].text)
  }

  /** The transcription saved with the meeting: the history texts joined by newlines. */
  function TranscriptionText(history: seq<Entry>): string {
    Join(Texts(history), "\n")
  }

  /** When no entry holds a newline, splitting the saved transcription on newlines gives back every entry's text. */
  lemma TranscriptionRecoversEntries(history: seq<Entry>)
    requires |history| >= 1
    requires forall i | 0 <= i < |history| :: '\n' !in history[i].text
    ensures Split(TranscriptionText(history), '\n') == Texts(history)
  {
    SplitJoin(Texts(history), '\n');
  }
}
