/**
 * The recorder session (`AudioRecorder`): the single state-change callback
 * slot, the partial-merge `updateState`, the start and stop transitions,
 * the recorder's data-available and stop handlers, and the guards of
 * `saveRecording`.
 *
 * The microphone, the media recorder, file readers and the Electron bridge
 * are abstract: what they report is passed in as parameters, and what the
 * recorder asks of them comes back as a list of effects. The recorder
 * drives the shared streaming client, whose state it carries.
 */
module Recorder {
  import opened Wrappers
  import opened Strings
  import AudioStreamer
  import MainProcess

  const DefaultMimeType := "audio/webm;codecs=opus"
  const FallbackMimeType := "audio/webm"
  const DefaultBitsPerSecond := 128000
  const TimesliceMs := 100

  /** The recorded audio: the collected chunks (by size) and the container type. */
  datatype Blob = Blob(chunks: seq<nat>, mimeType: string)

  /** `RecordingState`: optional fields are `None` when absent or `undefined`. */
  datatype RecordingState = RecordingState(
    isRecording: bool,
    audioBlob: Option<Blob>,
    audioUrl: Option<string>,
    startTime: Option<int>,
    duration: Option<real>)

  /**
   * `Partial<RecordingState>`: the outer `None` means the key is absent from
   * the patch, `Some(None)` that it is present with the value `undefined`.
   */
  datatype Patch = Patch(
    isRecording: Option<bool>,
    audioBlob: Option<Option<Blob>>,
    audioUrl: Option<Option<string>>,
    startTime: Option<Option<int>>,
    duration: Option<Option<real>>)

  const EmptyPatch := Patch(None, None, None, None, None)

  /** `{ ...state, ...patch }`. */
  function Merge(st: RecordingState, p: Patch): (m: RecordingState)
    ensures p.isRecording.None? ==> m.isRecording == st.isRecording
    ensures p.isRecording.Some? ==> m.isRecording == p.isRecording.value
    ensures p.audioBlob.None? ==> m.audioBlob == st.audioBlob
    ensures p.audioBlob.Some? ==> m.audioBlob == p.audioBlob.value
    ensures p.audioUrl.None? ==> m.audioUrl == st.audioUrl
    ensures p.audioUrl.Some? ==> m.audioUrl == p.audioUrl.value
    ensures p.startTime.None? ==> m.startTime == st.startTime
    ensures p.startTime.Some? ==> m.startTime == p.startTime.value
    ensures p.duration.None? ==> m.duration == st.duration
    ensures p.duration.Some? ==> m.duration == p.duration.value
  {
    RecordingState(
      p.isRecording.GetOr(st.isRecording),
      p.audioBlob.GetOr(st.audioBlob),
      p.audioUrl.GetOr(st.audioUrl),
      p.startTime.GetOr(st.startTime),
      p.duration.GetOr(st.duration))
  }

  /** The patch that has the keys of both, `q`'s value winning where both have one. */
  function Then(p: Patch, q: Patch): Patch {
    Patch(
      if q.isRecording.Some? then q.isRecording else p.isRecording,
      if q.audioBlob.Some? then q.audioBlob else p.audioBlob,
      if q.audioUrl.Some? then q.audioUrl else p.audioUrl,
      if q.startTime.Some? then q.startTime else p.startTime,
      if q.duration.Some? then q.duration else p.duration)
  }

  /** Merging is a monoid action: the empty patch changes nothing and two merges are one merge of the combined patch. */
  lemma MergeLaws(st: RecordingState, p: Patch, q: Patch)
    ensures Merge(st, EmptyPatch) == st
    ensures Merge(Merge(st, p), q) == Merge(st, Then(p, q))
    ensures Merge(Merge(st, p), p) == Merge(st, p)
  {
  }

  /** The media recorder object: the MIME type it was created with, and whether it is recording. */
  datatype MediaRecorder = MediaRecorder(mimeType: string, active: bool)

  /** A microphone stream, by identity. */
  type StreamId = nat

  /** A registered state-change callback, by identity. */
  type CallbackId = nat

  datatype Recorder = Recorder(
    mediaRecorder: Option<MediaRecorder>,
    stopPending: bool,
    audioChunks: seq<nat>,
    stream: Option<StreamId>,
    mimeType: string,
    state: RecordingState,
    callback: Option<CallbackId>,
    pendingReads: seq<nat>,
    streamer: AudioStreamer.Streamer)

  /** What the recorder asked of its collaborators, in order. */
  datatype Effect =
    | Notify(callback: CallbackId, state: RecordingState)
    | StartMedia(timesliceMs: nat)
    | StopMedia
    | StopTracks(stream: StreamId)
    | SendChunk(size: nat, accepted: bool)
    | Streamer(out: AudioStreamer.Output)

  datatype Step = Step(next: Recorder, effects: seq<Effect>)

  /** The recorder as constructed, with the default options, driving the given streaming client. */
  function Init(streamer: AudioStreamer.Streamer): Recorder {
    Recorder(None, false, [], None, DefaultMimeType, RecordingState(false, None, None, None, None), None, [], streamer)
  }

  function StreamerEffects(out: seq<AudioStreamer.Output>): (e: seq<Effect>)
    ensures |e| == |out| && forall i | 0 <= i < |out| :: e[i] == Streamer(out[i])
  {
    seq(|out|, i requires 0 <= i < |out| => Streamer(out[i]))
  }

  /** `onStateChange`: the new callback takes the one slot, replacing any earlier one. */
  function OnStateChange(r: Recorder, cb: CallbackId): (r': Recorder)
    ensures r'.callback == Some(cb)
    ensures r' == r.(callback := Some(cb))
  {
    r.(callback := Some(cb))
  }

  /** `updateState`: merge the patch and tell the registered callback, if any, the merged state. */
  function UpdateState(r: Recorder, p: Patch): (s: Step)
    ensures s.next == r.(state := Merge(r.state, p))
    ensures r.callback.None? ==> s.effects == []
    ensures r.callback.Some? ==> s.effects == [Notify(r.callback.value, s.next.state)]
  {
    var merged := Merge(r.state, p);
    Step(r.(state := merged), if r.callback.Some? then [Notify(r.callback.value, merged)] else [])
  }

  /** Only the last registered callback is ever told about a state change. */
  lemma LastCallbackWins(r: Recorder, a: CallbackId, b: CallbackId, p: Patch)
    ensures UpdateState(OnStateChange(OnStateChange(r, a), b), p).effects
            == [Notify(b, Merge(r.state, p))]
  {
  }

  /** How far `startRecording` got before something threw, or that it succeeded. */
  datatype StartOutcome =
    | MicrophoneDenied
    | RecorderRejected(stream: StreamId)
    | StartRejected(stream: StreamId, opusSupported: bool, socketFails: bool)
    | Started(stream: StreamId, opusSupported: bool, socketFails: bool, now: int)

  /** The result of `startRecording`: the recorder after it, its effects, and whether it rethrew. */
  datatype StartResult = StartResult(next: Recorder, effects: seq<Effect>, threw: bool)

  /** The state patch of a successful start. */
  function StartPatch(now: int): Patch {
    Patch(Some(true), Some(None), Some(None), Some(Some(now)), Some(None))
  }

  /**
   * `startRecording`. The microphone stream is kept as soon as it is granted;
   * a recorder is created with the Opus type when supported; the chunk buffer
   * is emptied, the streaming client connected, and the recorder started with
   * a 100 ms timeslice. Only when all of that succeeds is the state updated;
   * any failure is rethrown and leaves the recording state untouched.
   */
  function StartRecording(r: Recorder, o: StartOutcome): (s: StartResult)
    ensures s.threw <==> !o.Started?
    ensures !o.Started? ==> s.next.state == r.state
    ensures o.MicrophoneDenied? ==> s.next == r && s.effects == []
    ensures o.RecorderRejected? ==> s.next == r.(stream := Some(o.stream)) && s.effects == []
    ensures o.StartRejected? ==> forall e | e in s.effects :: e.Streamer?
    ensures o.Started? ==> && s.next.state.isRecording
                           && s.next.state.startTime == Some(o.now)
                           && s.next.state.audioBlob.None? && s.next.state.audioUrl.None?
                           && s.next.state.duration.None?
                           && s.next.audioChunks == []
                           && s.next.stream == Some(o.stream)
                           && s.next.mediaRecorder.Some? && s.next.mediaRecorder.value.active
                           && StartMedia(TimesliceMs) in s.effects
    ensures o.Started? && !o.socketFails ==> s.next.streamer.socket == Some(AudioStreamer.Connecting)
  {
    match o
    case MicrophoneDenied => StartResult(r, [], true)
    case RecorderRejected(stream) => StartResult(r.(stream := Some(stream)), [], true)
    case StartRejected(stream, opus, socketFails) =>
      var mime := if opus then DefaultMimeType else FallbackMimeType;
      var c := AudioStreamer.Connect(r.streamer, socketFails);
      var r1 := r.(stream := Some(stream), mediaRecorder := Some(MediaRecorder(mime, false)),
                   audioChunks := [], streamer := c.next);
      StartResult(r1, StreamerEffects(c.out), true)
    case Started(stream, opus, socketFails, now) =>
      var mime := if opus then DefaultMimeType else FallbackMimeType;
      var c := AudioStreamer.Connect(r.streamer, socketFails);
      var r1 := r.(stream := Some(stream), mediaRecorder := Some(MediaRecorder(mime, true)),
                   audioChunks := [], streamer := c.next);
      var u := UpdateState(r1, StartPatch(now));
      StartResult(u.next, StreamerEffects(c.out) + [StartMedia(TimesliceMs)] + u.effects, false)
  }

  /**
   * `ondataavailable`: an empty chunk is dropped; a non-empty one is handed
   * to a file reader. The chunk is never added to the recording's buffer.
   */
  function OnDataAvailable(r: Recorder, size: nat): (r': Recorder)
    ensures size == 0 ==> r' == r
    ensures size > 0 ==> r'.pendingReads == r.pendingReads + [size]
    ensures r'.audioChunks == r.audioChunks && r'.state == r.state
  {
    if size > 0 then r.(pendingReads := r.pendingReads + [size]) else r
  }

  /** A file reader finished: its chunk is sent only if the streaming client is ready at that moment. */
  function OnReadLoaded(r: Recorder, sendThrows: bool): (s: Step)
    requires |r.pendingReads| > 0
    ensures s.next.pendingReads == r.pendingReads[1..]
    ensures s.next.streamer == r.streamer && s.next.state == r.state
    ensures AudioStreamer.IsReady(r.streamer) <==> |s.effects| == 1
    ensures AudioStreamer.IsReady(r.streamer) ==>
              s.effects == [SendChunk(r.pendingReads[0], AudioStreamer.SendAudioChunk(r.streamer, sendThrows))]
  {
    var size := r.pendingReads[0];
    var r1 := r.(pendingReads := r.pendingReads[1..]);
    if AudioStreamer.IsReady(r.streamer) then
      Step(r1, [SendChunk(size, AudioStreamer.SendAudioChunk(r.streamer, sendThrows))])
    else Step(r1, [])
  }

  /** The recording's length in seconds (exactly, without floating-point rounding). */
  function Duration(startTime: Option<int>, endTime: int): (d: real)
    ensures startTime.Some? ==> d * 1000.0 == (endTime - startTime.value) as real
    ensures startTime.None? ==> d == 0.0
  {
    if startTime.Some? then (endTime - startTime.value) as real / 1000.0 else 0.0
  }

  /** The media recorder once the browser has made it inactive. */
  function Inactive(m: Option<MediaRecorder>): (i: Option<MediaRecorder>)
    ensures i.Some? <==> m.Some?
    ensures i.Some? ==> !i.value.active && i.value.mimeType == m.value.mimeType
  {
    match m
    case Some(mr) => Some(mr.(active := false))
    case None => None
  }

  /**
   * `onstop`: the state becomes not recording, with a blob of the buffered
   * chunks, its URL and the duration; then the stream's tracks are stopped
   * and the stream dropped. The browser fires it after `stop()` and also when
   * the recorder stops on its own (the microphone track ends, or an error),
   * and in both cases it has already made the recorder inactive. The handler
   * reads no stop flag.
   */
  function OnRecorderStop(r: Recorder, url: string, endTime: int): (s: Step)
    ensures !s.next.state.isRecording
    ensures s.next.state.audioBlob == Some(Blob(r.audioChunks, r.mimeType))
    ensures s.next.state.audioUrl == Some(url)
    ensures s.next.state.startTime == r.state.startTime
    ensures s.next.state.duration == Some(Duration(r.state.startTime, endTime))
    ensures s.next == r.(state := s.next.state, stopPending := false, stream := None, mediaRecorder := Inactive(r.mediaRecorder))
    ensures s.effects == (if r.callback.Some? then [Notify(r.callback.value, s.next.state)] else [])
                         + (if r.stream.Some? then [StopTracks(r.stream.value)] else [])
  {
    var blob := Blob(r.audioChunks, r.mimeType);
    var p := Patch(Some(false), Some(Some(blob)), Some(Some(url)), None, Some(Some(Duration(r.state.startTime, endTime))));
    var u := UpdateState(r.(stopPending := false, mediaRecorder := Inactive(r.mediaRecorder)), p);
    match r.stream
    case Some(id) => Step(u.next.(stream := None), u.effects + [StopTracks(id)])
    case None => u
  }

  /**
   * `stopRecording`: a recorder that is not inactive is stopped (its stop
   * handler runs later); the streaming client is disconnected in every case.
   */
  function StopRecording(r: Recorder): (s: Step)
    ensures s.next.streamer == AudioStreamer.Disconnect(r.streamer)
    ensures (r.mediaRecorder.Some? && r.mediaRecorder.value.active) <==> s.effects == [StopMedia]
    ensures s.effects == [StopMedia] ==> s.next.stopPending && s.next.mediaRecorder.Some? && !s.next.mediaRecorder.value.active
    ensures s.effects == [] ==> s.next == r.(streamer := s.next.streamer)
    ensures s.next.state == r.state
  {
    var r1 := r.(streamer := AudioStreamer.Disconnect(r.streamer));
    match r.mediaRecorder
    case Some(m) =>
      if m.active then Step(r1.(mediaRecorder := Some(m.(active := false)), stopPending := true), [StopMedia])
      else Step(r1, [])
    case None => Step(r1, [])
  }

  /** The suggested name when the caller gives none: `recording-<ISO time with ':' as '-'>.webm`. */
  function DefaultFilename(isoNow: string): (name: string)
    ensures |name| == |isoNow| + 15 && ':' !in name
    ensures name[..10] == "recording-" && name[|name| - 5..] == ".webm"
    ensures name[10..|name| - 5] == DashColons(isoNow)
  {
    var name := "recording-" + DashColons(isoNow) + ".webm";
    assert name[..10] == "recording-";
    assert name[10..|name| - 5] == DashColons(isoNow);
    name
  }

  /** Two timestamps with their colons in the same places. */
  predicate ColonsAlike(a: string, b: string) {
    |a| == |b| && forall i | 0 <= i < |a| :: (a[i] == ':' <==> b[i] == ':')
  }

  /**
   * Replacing the colons loses nothing for timestamps of one shape: the
   * default name determines the time, so two different ISO times never get
   * the same name.
   */
  lemma DefaultNameDeterminesTime(a: string, b: string)
    requires ColonsAlike(a, b) && DefaultFilename(a) == DefaultFilename(b)
    ensures a == b
  {
    var da, db := DashColons(a), DashColons(b);
    assert da == db;
    forall i | 0 <= i < |a|
      ensures a[i] == b[i]
    {
      assert da[i] == db[i];
    }
  }

  /** The result of `saveRecording`, and the file name it offered the save dialog (if it got that far). */
  datatype SaveResult = SaveResult(path: Option<string>, offeredName: Option<string>)

  /**
   * `saveRecording`: `null` without a recording, when reading the blob throws,
   * or without the Electron bridge; otherwise the bridge is asked to save
   * under the given name, or the default name when none (or an empty one)
   * is given, and its answer is returned.
   */
  function SaveRecording(r: Recorder, filename: Option<string>, readThrows: bool, hasBridge: bool,
                         isoNow: string, dialog: MainProcess.DialogResult, writeThrows: bool): (s: SaveResult)
    ensures r.state.audioBlob.None? ==> s == SaveResult(None, None)
    ensures !hasBridge || readThrows ==> s.path.None?
    ensures s.offeredName.Some? <==> r.state.audioBlob.Some? && !readThrows && hasBridge
    ensures s.offeredName.Some? ==>
              s.offeredName.value == (if filename.Some? && filename.value != "" then filename.value else DefaultFilename(isoNow))
    ensures s.path.Some? ==> s.offeredName.Some?
    ensures s.offeredName.Some? ==> s.path == MainProcess.SaveAudioFile(dialog, writeThrows).path
  {
    if r.state.audioBlob.None? then SaveResult(None, None)
    else if readThrows then SaveResult(None, None)
    else if !hasBridge then SaveResult(None, None)
    else
      var name := if filename.Some? && filename.value != "" then filename.value else DefaultFilename(isoNow);
      SaveResult(MainProcess.SaveAudioFile(dialog, writeThrows).path, Some(name))
  }

  /**
   * Saving a recording with no name given, when the user picks a path and
   * writing succeeds, offers the timestamped default name and returns the
   * chosen path.
   */
  lemma SavedWhereChosen(r: Recorder, isoNow: string, path: string)
    requires r.state.audioBlob.Some? && path != ""
    ensures var s := SaveRecording(r, None, false, true, isoNow, MainProcess.Closed(false, Some(path)), false);
            s.path == Some(path) && s.offeredName == Some(DefaultFilename(isoNow))
            && ':' !in s.offeredName.value && s.offeredName.value[|s.offeredName.value| - 5..] == ".webm"
  {
  }

  /**
   * A whole session: start, stop, then the stop handler. Because chunks are
   * only streamed and never buffered, the blob it leaves is always empty.
   */
  lemma SessionBlobIsEmpty(r: Recorder, stream: StreamId, opus: bool, socketFails: bool, now: int, url: string, endTime: int)
    ensures var started := StartRecording(r, Started(stream, opus, socketFails, now)).next;
            var stopped := StopRecording(started).next;
            stopped.stopPending
            && OnRecorderStop(stopped, url, endTime).next.state.audioBlob == Some(Blob([], r.mimeType))
            && OnRecorderStop(stopped, url, endTime).next.state.duration == Some((endTime - now) as real / 1000.0)
            && OnRecorderStop(stopped, url, endTime).next.stream == None
  {
  }

  /**
   * The stop handler does the same whether `stopRecording` asked for the stop
   * or the recorder stopped on its own: the session ends with the buffered
   * blob and the stream released, and a later `stopRecording` has no recorder
   * left to stop.
   */
  lemma SelfStopEndsSession(r: Recorder, url: string, endTime: int)
    ensures OnRecorderStop(r.(stopPending := false), url, endTime) == OnRecorderStop(r.(stopPending := true), url, endTime)
    ensures var s := OnRecorderStop(r, url, endTime);
            && !s.next.state.isRecording
            && s.next.state.audioBlob == Some(Blob(r.audioChunks, r.mimeType))
            && s.next.stream == None
            && StopRecording(s.next).effects == []
  {
    var s := OnRecorderStop(r, url, endTime);
    assert s.next.mediaRecorder == Inactive(r.mediaRecorder);
  }

  /** Chunks arriving while recording never reach the buffer, whatever the streaming client does. */
  lemma {:induction false} ChunksNeverBuffered(r: Recorder, sizes: seq<nat>)
    ensures FeedChunks(r, sizes).audioChunks == r.audioChunks
    ensures |FeedChunks(r, sizes).pendingReads| == |r.pendingReads| + CountPositive(sizes)
    decreases |sizes|
  {
    if |sizes| > 0 {
      ChunksNeverBuffered(OnDataAvailable(r, sizes[0]), sizes[1..]);
    }
  }

  function FeedChunks(r: Recorder, sizes: seq<nat>): Recorder
    decreases |sizes|
  {
    if |sizes| == 0 then r else FeedChunks(OnDataAvailable(r, sizes[0]), sizes[1..])
  }

  function CountPositive(sizes: seq<nat>): nat
    decreases |sizes|
  {
    if |sizes| == 0 then 0 else (if sizes[0] > 0 then 1 else 0) + CountPositive(sizes[1..])
  }
}
