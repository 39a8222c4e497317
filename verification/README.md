# abogo-scribe, modelled in Dafny

abogo-scribe is a meeting-notes application. An Electron desktop client records the microphone. It streams the audio over a WebSocket for live transcription and keeps notes in a block editor. An Express backend stores users and meetings in MongoDB behind a Google sign-in.

This project models the logic of both halves as immutable datatypes and pure functions. It then proves what the code promises about them.

- **Streaming client** (`AudioStreamer`, after `src/helpers/streamAudio.ts`). This is a state machine over the socket's ready state, the reconnect counter and the reconnect timers. Timers are identified by number. Callbacks and scheduled timers come back as outputs. Old sockets whose close event is still due are counted, because their handlers keep acting on the client.
- **Recorder** (`Recorder`, after `src/helpers/audio.ts`). It covers the partial-merge state update, the single callback slot, and start, chunk, stop and save. Every collaborator call is returned as an effect. The recorder holds the streaming client's state.
- **Block editor** (`Blocks`, after `src/components/editor/index.tsx`). It covers merge on Backspace, split on Enter, delete of an empty block, add after the active block, change of type and update of content. `src/components/editor.tsx` contains the same `handleKeyDown`, so the same functions model it.
- **Meeting editor** (`Editor`, `Transcript`). These model the title fallback, the notes and transcription joined by newlines, and the sanitised recording file name. They also model the draft saved on every edit, what the back button sends, and the live-transcript bubble of `conversation.tsx`.
- **Dashboard** (`MeetingDisplay`). This covers grouping by date in first-seen order, 24-hour to 12-hour formatting, end-time arithmetic modulo a day, and the avatar overflow rule.
- **Backend**. The store is a sequence of documents in insertion order.
  - `MeetingStore` holds the schema checks, lookups, filters and the `(date, startTime)` sort.
  - `Pagination` holds the query-string defaults, skip and page count.
  - `Meetings` and `MeetingsApi` hold the two meeting controllers.
  - `Users` holds the user controller and the email normalisation.
- **Auth**. `AuthMiddleware` models the bearer-token middleware. `TokenClaims` models the payload the sign-in routes sign and the caller the meeting handlers read from it. `AuthStatus` models the one-shot pickup of a pending sign-in. `AuthContext` models the client's sign-in state and `MainProcess` the Electron window and navigation rules.
- **Support modules.** `Strings` and `Numbers` model the JavaScript built-ins the code relies on: `trim`, ASCII `toLowerCase`, `split` and `join`, `parseInt` with radix 10 and without a radix (where `0x` switches to hexadecimal), `%` truncating toward zero, `Math.ceil` of a quotient, and `padStart`. `Wrappers` holds `Option`, `Result` and JavaScript truthiness of optional strings. `Backend` holds the store-failure parameter the handlers share.

Every handler is a function from the store and the request to a status, a payload and the new store. A store that throws is an input: `Healthy`, `ReadFails` or `WriteFails`. Clocks, random ids, dialogs, sockets, JWT verification and decoding are all inputs.

## Model

| member | source | states |
|---|---|---|
| AudioStreamer.ReconnectDelaySchedule | abogo-electron/src/helpers/streamAudio.ts:95-98 | The successive reconnect delays are 2 s, 4 s, 8 s and 16 s, each double the one before. From the fifth attempt on the delay is capped at 30 s. |
| AudioStreamer.AttemptReconnect | abogo-electron/src/helpers/streamAudio.ts:95-108 | Below the budget of five, one more attempt is counted and a timer for the backed-off delay is armed and stored. An older armed timer is not cleared. At the budget nothing changes and nothing is scheduled. |
| AudioStreamer.Disconnect | abogo-electron/src/helpers/streamAudio.ts:113-124 | Only the stored timer is cleared; other armed timers stay. The socket is dropped. The client is disconnected only when it had a socket. A socket that was not yet closed still owes its close event. The attempt count is untouched. |
| AudioStreamer.Connect | abogo-electron/src/helpers/streamAudio.ts:31-90 | An existing socket is disconnected first. A new socket starts in the connecting state. When creating it throws, no socket is held and only the error callback hears "Failed to create WebSocket connection". |
| AudioStreamer.OnOpen | abogo-electron/src/helpers/streamAudio.ts:39-46 | Opening marks the client connected, resets the attempt count to 0, leaves the timers alone and tells the open callback if there is one. |
| AudioStreamer.OnMessage | abogo-electron/src/helpers/streamAudio.ts:48-64 | A parsed object delivers its transcription exactly when that property is truthy. It delivers its error exactly when that property is truthy, transcription first when both. Malformed JSON and non-objects deliver nothing. |
| AudioStreamer.OnClose | abogo-electron/src/helpers/streamAudio.ts:66-76 | Every close of the current socket leaves it closed and the client disconnected. While the budget allows, a reconnect timer is armed. |
| AudioStreamer.OnOrphanClose | abogo-electron/src/helpers/streamAudio.ts:66-76 | The close event of a socket that `disconnect` dropped still disconnects this client and still arms a reconnect, whatever the current socket is doing. |
| AudioStreamer.OnSocketError | abogo-electron/src/helpers/streamAudio.ts:78-83 | A socket error only reports "WebSocket connection error", and only when an error callback exists. |
| AudioStreamer.OnTimer | abogo-electron/src/helpers/streamAudio.ts:104-106 | A fired timer is no longer armed and reconnects. The new socket is connecting unless creation throws. |
| AudioStreamer.SendAudioChunk | abogo-electron/src/helpers/streamAudio.ts:129-141 | A chunk is accepted exactly when a socket exists in the open state and sending does not throw. In particular a ready client that does not throw always sends. |
| AudioStreamer.StepKeepsValid | abogo-electron/src/helpers/streamAudio.ts:95-97 | Every handler preserves the client invariant. The attempt count stays within the budget, timer ids stay below the next fresh id, and a connected client's socket is open or closing. |
| AudioStreamer.RunKeepsValid | abogo-electron/src/helpers/streamAudio.ts:95-97 | Along any run of events from a valid client, the invariant holds and at most five reconnect attempts are ever counted. |
| AudioStreamer.ExhaustedCloseSchedulesNothing | abogo-electron/src/helpers/streamAudio.ts:95-107 | Once five attempts are spent, a close arms no timer and schedules nothing. |
| AudioStreamer.DisconnectThenCloseReconnects | abogo-electron/src/helpers/streamAudio.ts:66-76 | An explicit disconnect does not stop reconnection. The dropped socket's close still arms a reconnect timer. |
| AudioStreamer.FailingConnectionBackoff | abogo-electron/src/helpers/streamAudio.ts:95-106 | From a fresh client, a connection that keeps closing is retried after 2, 4, 8, 16 and 30 seconds. After that it is not retried again. |
| MainProcess.WindowOpen | abogo-electron/main.js:18-33 | A new window is allowed exactly when the URL starts with one of the five listed prefixes, and denied otherwise. |
| MainProcess.CallbackPrefixRedundant | abogo-electron/main.js:21-27 | The callback prefix admits nothing the broader `/auth/google` prefix does not already admit. The allow-list means the same without it. |
| MainProcess.WillNavigate | abogo-electron/main.js:36-45 | Navigation is cancelled and the app URL loaded exactly when the target contains the OAuth callback path anywhere. |
| MainProcess.SaveAudioFile | abogo-electron/main.js:54-81 | A path comes back exactly when the dialog closed without cancelling and gave a non-empty path, and writing did not throw. A returned path is the chosen one, and the file was written. |
| MainProcess.OnReady | abogo-electron/main.js:50-51 | When the application becomes ready it opens its first window and registers the `activate` handler, once. |
| MainProcess.OnActivate | abogo-electron/main.js:83-87 | Once the handler is registered, activation leaves at least one window open. It creates a window exactly when none is open, and never closes one. |
| MainProcess.OnAllWindowsClosed | abogo-electron/main.js:90-94 | After the last window closes, the application still runs exactly when it ran before and the platform is macOS ("darwin"). |
| MainProcess.OnOpenWindow | abogo-electron/main.js:18-33 | A `window.open` from an open window adds a window exactly when the window-open handler allows its URL. Otherwise nothing changes. |
| MainProcess.GooglePopupAllowed | abogo-electron/main.js:22 | The Google sign-in page is allowed to open as a popup. |
| MainProcess.DeniedUrlOpensNothing | abogo-electron/main.js:18-33 | A URL the handler denies leaves the windows unchanged. |
| MainProcess.PopupOutlivesMainWindow | abogo-electron/main.js:18-94 | With the sign-in popup open, closing the main window leaves one window. The application keeps running on every platform, and on macOS `activate` creates no new window. |
| MainProcess.OnCloseWindow | abogo-electron/main.js:90-94 | Closing a window removes one. Closing the last one quits the application except on macOS. Closing any other window, such as the main window while a popup is open, keeps it running. |
| MainProcess.NoWindowlessAppOffMac | abogo-electron/main.js:18-94 | Away from macOS, along any run of events, a ready application that still runs always has a window open. |
| MainProcess.MacKeepsRunning | abogo-electron/main.js:90-94 | On macOS no run of events quits the application. |
| MainProcess.MacReopensOnActivate | abogo-electron/main.js:83-94 | On macOS, closing the only window leaves the application running with no window, and activating it opens one again. |
| MainProcess.ClosingLastWindowQuits | abogo-electron/main.js:90-94 | Away from macOS, closing the only window after start-up quits the application. |
| Recorder.Merge | abogo-electron/src/helpers/audio.ts:47-48 | Spreading a partial state keeps every field the patch lacks and takes every field it has, including a field present as `undefined`. |
| Recorder.MergeLaws | abogo-electron/src/helpers/audio.ts:47-52 | The empty patch changes nothing. Two merges equal one merge of the combined patch. Merging the same patch twice is merging it once. |
| Recorder.OnStateChange | abogo-electron/src/helpers/audio.ts:42-44 | Registering a callback fills the single slot and changes nothing else. |
| Recorder.UpdateState | abogo-electron/src/helpers/audio.ts:47-52 | The state becomes the merge. The registered callback, and only that one, is told the merged state. |
| Recorder.LastCallbackWins | abogo-electron/src/helpers/audio.ts:42-52 | After two registrations only the later callback hears about a state change. |
| Recorder.StartRecording | abogo-electron/src/helpers/audio.ts:55-139 | A failed start rethrows and leaves the recording state untouched. A microphone refusal changes nothing at all. A rejected recorder keeps only the stream. A successful start records from `now` with no blob, URL or duration, an empty buffer and a connecting client. |
| Recorder.OnDataAvailable | abogo-electron/src/helpers/audio.ts:82-93 | An empty chunk is dropped and a non-empty one is queued for reading. The chunk buffer and the state never change. |
| Recorder.OnReadLoaded | abogo-electron/src/helpers/audio.ts:86-90 | A read chunk is sent exactly when the streaming client is ready at that moment. The recorder's state is unchanged. |
| Recorder.Duration | abogo-electron/src/helpers/audio.ts:103-106 | The duration in seconds times 1000 is the elapsed milliseconds since the start, and 0 without a start time. |
| Recorder.OnRecorderStop | abogo-electron/src/helpers/audio.ts:96-122 | Whether or not a stop was requested, after the stop event the state is not recording and holds a blob of the buffered chunks, its URL, the original start time and the elapsed duration. Apart from the state, only the pending stop, the stream and the recorder change: the stream is dropped and the recorder is inactive. The registered callback hears the new state first, then the stream's tracks are stopped. |
| Recorder.StopRecording | abogo-electron/src/helpers/audio.ts:142-149 | The media recorder is told to stop exactly when it is not inactive. The streaming client is disconnected in every case, and the recording state is unchanged. |
| Recorder.DefaultFilename | abogo-electron/src/helpers/audio.ts:169-171 | The default name is "recording-", then the timestamp with every ':' turned into '-', then ".webm". No ':' is left in it. |
| Recorder.DefaultNameDeterminesTime | abogo-electron/src/helpers/audio.ts:169-171 | For timestamps with their colons in the same places, equal default names mean equal timestamps, so different times never share a default name. |
| Recorder.SaveRecording | abogo-electron/src/helpers/audio.ts:157-185 | The result is null without a recording, when reading the blob throws, or without the Electron bridge. Otherwise the bridge is offered the given name, or the default one when none is given, and its answer is returned. |
| Recorder.SavedWhereChosen | abogo-electron/src/helpers/audio.ts:157-185 | Saving without a name, when the user picks a path and the write succeeds, offers the default name and returns the chosen path. |
| Recorder.SelfStopEndsSession | abogo-electron/src/helpers/audio.ts:96-122 | The stop handler does the same whether `stopRecording` asked for the stop or the recorder stopped by itself. It ends the session with the buffered blob and the stream released, and a later `stopRecording` has nothing left to stop. |
| Recorder.SessionBlobIsEmpty | abogo-electron/src/helpers/audio.ts:75-100 | A full session of start, stop and stop handler always leaves an empty blob, because chunks are never buffered. |
| Recorder.ChunksNeverBuffered | abogo-electron/src/helpers/audio.ts:82-93 | Any run of chunks leaves the buffer as it was and queues exactly one read per non-empty chunk. |
| Blocks.FindIndex | abogo-electron/src/components/editor/index.tsx:148 | The result is the first block with the id, or -1 exactly when no block has it. |
| Blocks.UpdateContent | abogo-electron/src/components/editor/index.tsx:54-58 | Blocks with the id get the new content. Every other block, and every id and type, is unchanged. |
| Blocks.ChangeBlockType | abogo-electron/src/components/editor/index.tsx:159-165 | Blocks with the id get the new type. Every other block, and every id and content, is unchanged. |
| Blocks.EditsByIdCompose | abogo-electron/src/components/editor/index.tsx:54-58 | The later of two content edits to one id wins. Content edits and type changes commute. A type change never alters the contents. |
| Blocks.MergeIntoPrevious | abogo-electron/src/components/editor.tsx:158-171 | Backspace at the start of a block appends its text to the previous block, removes it, shortens the list by one and activates the previous block. Other blocks keep their order. |
| Blocks.SplitAtCaret | abogo-electron/src/components/editor/index.tsx:95-132 | Enter splits the text at the caret so that left plus right is the original. The right part becomes a new paragraph at index + 1, which is active. Other blocks keep their places. |
| Blocks.DeleteBlock | abogo-electron/src/components/editor.tsx:222-232 | An empty block is removed. The previous block becomes active when it has a truthy id, else the next one, else none. |
| Blocks.KeyDown | abogo-electron/src/components/editor/index.tsx:60-144 | The list shrinks exactly on the two Backspace cases and grows exactly on Enter with a selection. Otherwise nothing changes. The list never becomes empty. |
| Blocks.AddBlock | abogo-electron/src/components/editor/index.tsx:146-157 | One empty block of the given type is inserted right after the active block, or at the front when no block has the active id. It becomes active, and the rest is kept. |
| Blocks.InsertPosition | abogo-electron/src/components/editor/index.tsx:148-150 | The insertion point is within the list, and a non-zero one follows the active block. |
| Blocks.MergeUndoesSplit | abogo-electron/src/components/editor/index.tsx:68-132 | Splitting a block and then pressing Backspace at the start of the new block gives back the original block list, with the split block active again. |
| Blocks.DeleteUndoesAdd | abogo-electron/src/components/editor/index.tsx:133-157 | Adding a block and then deleting it gives back the original block list. |
| Transcript.OnTranscriptionUpdate | abogo-electron/src/components/editor.tsx:76-90 | An update changes the view exactly when its trimmed text is non-empty. Then the live text is the trimmed text and exactly one entry is appended, with earlier entries unchanged. |
| Transcript.HistoryAppendsKept | abogo-electron/src/components/editor.tsx:79-88 | A run of updates only appends to the history: exactly one trimmed entry per non-blank update, in order. |
| Transcript.LiveBubbleRules | abogo-electron/src/components/conversation.tsx:18-23 | The bubble is hidden when not recording, hidden for empty text, and hidden when the text repeats the last entry. It is shown for a first non-empty text, and in exactly the remaining cases. |
| Transcript.LiveBubbleNeverShown | abogo-electron/src/components/conversation.tsx:18-23 | Fed only by the update handler, the live text always equals the last entry, so the bubble is never shown. |
| Transcript.TranscriptionRecoversEntries | abogo-electron/src/components/editor.tsx:405-407 | When no entry holds a newline, splitting the saved transcription on newlines gives back every entry's text. |
| Editor.TitleOf | abogo-electron/src/components/editor.tsx:140-141 | The title is never empty. A non-empty first title block is the title. Any title other than "Untitled" is the content of a title block. |
| Editor.TitleFollowsTitleBlock | abogo-electron/src/components/editor.tsx:128-143 | Editing the title block makes the title the new content, or "Untitled" when it is emptied. |
| Editor.NotesRecoverContents | abogo-electron/src/components/editor.tsx:404 | When no block holds a newline, the saved notes split back into the block contents. |
| Editor.DatePart | abogo-electron/src/components/editor.tsx:285 | The date part is the first ten characters of the timestamp, or all of a shorter one. |
| Editor.RecordingFilename | abogo-electron/src/components/editor.tsx:281-285 | Each title character becomes its lower-case form when alphanumeric and '-' otherwise, then "-" + date + ".webm" follows. The title part holds only lower-case letters, digits and '-'. |
| Editor.FilenameIgnoresCaseAndPunctuation | abogo-electron/src/components/editor.tsx:283-285 | Titles that agree up to ASCII case and up to which non-alphanumeric characters they hold get the same file name. |
| Editor.ContentChangeAsWritten | abogo-electron/src/components/editor.tsx:128-146 | As written, the saved draft holds the notes of the blocks before the edit. |
| Editor.ContentChangeDraftLags | abogo-electron/src/components/editor.tsx:134-146 | Typing "hello" into the empty first paragraph saves notes "Untitled\n" while the blocks read "Untitled\nhello". |
| Editor.ContentChange | abogo-electron/src/components/editor.tsx:128-146 | With the corrected notes, the draft holds exactly the notes of the updated blocks. A title-block edit sets the title to the new content. |
| Editor.HandleBack | abogo-electron/src/components/editor.tsx:398-423 | A save is sent exactly when there is a meeting and the token is truthy. It carries the meeting id, the title, the joined notes and the joined transcription. When the save is accepted, `meeting-<id>` is removed from local storage and the editor leaves. When it is rejected, the toast "Failed to save meeting" is shown, storage is unchanged and the editor stays. Without a save the editor leaves and storage is unchanged. |
| Editor.DraftKeyInjective | abogo-electron/src/components/editor.tsx:26-29 | Two meetings share a draft key exactly when they are the same meeting. |
| Editor.RejectedSaveCanBeRetried | abogo-electron/src/components/editor.tsx:409-418 | After a rejected save nothing is lost. Pressing back again sends the same request, and once it is accepted the editor leaves and only this meeting's draft is removed. |
| Editor.LeavingKeepsOtherDrafts | abogo-electron/src/components/editor.tsx:411-412 | Whatever the save's fate, every other meeting's draft stays in local storage unchanged. |
| Editor.DraftAgreesWithBack | abogo-electron/src/components/editor.tsx:401-408 | After an edit, the local draft holds exactly the notes the back button would send. |
| MeetingDisplay.FromApi | abogo-electron/src/components/dashboard/meeting-list.tsx:98-106 | The server id becomes the id, participants are empty, the colour is fixed and the other fields are copied. |
| MeetingDisplay.FilterFormatted | abogo-electron/src/components/dashboard/meeting-list.tsx:98-106 | Formatting the server's meetings commutes with picking one date's meetings: the dashboard's meetings of a date are the server's meetings of that date, formatted, in the server's order. |
| MeetingDisplay.FilterAppend | abogo-electron/src/components/dashboard/meeting-list.tsx:74 | Filtering distributes over concatenation, so within a group meetings keep their input order. |
| MeetingDisplay.FilterMembership | abogo-electron/src/components/dashboard/meeting-list.tsx:70-75 | A meeting is in a date's filter exactly when it is among the meetings and has that date. |
| MeetingDisplay.Dates | abogo-electron/src/components/dashboard/meeting-list.tsx:71-74 | The group dates are distinct, and they are exactly the dates that occur. |
| MeetingDisplay.DatesInFirstSeenOrder | abogo-electron/src/components/dashboard/meeting-list.tsx:77-80 | Groups come in the order of each date's first occurrence. |
| MeetingDisplay.GroupByDate | abogo-electron/src/components/dashboard/meeting-list.tsx:67-81 | Group i has the i-th distinct date and holds exactly the meetings of that date, in input order. |
| MeetingDisplay.GroupsPartitionMeetings | abogo-electron/src/components/dashboard/meeting-list.tsx:70-75 | No group is empty. Every meeting lies in a group, and it lies in a group exactly when that group's date is its date. |
| MeetingDisplay.GroupingPreservesCount | abogo-electron/src/components/dashboard/meeting-list.tsx:70-75 | The group sizes add up to the number of meetings. |
| MeetingDisplay.FormatTimeClock | abogo-electron/src/components/dashboard/meeting-item.tsx:13-19 | For a zero-padded hour h: the 12-hour value is in 1..12 and PM holds exactly when h >= 12. Hour 0 reads 12 AM and hour 12 reads 12 PM. The reading converts back to h, and the minutes pass through unchanged. |
| MeetingDisplay.To12Hour | abogo-electron/src/components/dashboard/meeting-item.tsx:13-18 | PM holds exactly when the hour field parses to at least 12. The 12-hour value is nonzero and within (-12, 12]; an unparsable hour reads 12. The minutes are the text between the first and second ':', or "undefined" when there is no ':'. |
| MeetingDisplay.FormatTime | abogo-electron/src/components/dashboard/meeting-item.tsx:13-19 | The text is at least five characters and ends in " PM" exactly when the reading is PM, otherwise in " AM". |
| MeetingDisplay.FormatTimeReads | abogo-electron/src/components/dashboard/meeting-item.tsx:13-19 | For a zero-padded hour h < 24 and minutes mm, the displayed text is (h mod 12, with 0 shown as 12), then ':', then mm, then " PM" if h >= 12 and " AM" otherwise. |
| MeetingDisplay.FormatTimeNotANumber | abogo-electron/src/components/dashboard/meeting-item.tsx:15-17 | An hour field with no digits reads as 12 AM. |
| MeetingDisplay.CalculateEndTime | abogo-electron/src/components/dashboard/meeting-item.tsx:22-31 | The end time is always five characters with ':' in the middle. |
| MeetingDisplay.EndTimeReadsBack | abogo-electron/src/components/dashboard/meeting-item.tsx:23-31 | The two fields of the end time parse back to the hour and minute of (h·60 + m + duration) mod 1440, each zero-padded to two digits. |
| MeetingDisplay.EndTimeIgnoresWholeDays | abogo-electron/src/components/dashboard/meeting-item.tsx:27 | Adding whole days to the duration does not change the end time. |
| MeetingDisplay.ParticipantAvatars | abogo-electron/src/components/dashboard/meeting-item.tsx:62-75 | At most the first three participants are shown. A "+k" badge with k = count - 3 appears exactly when there are more than three. Shown plus badge account for everyone. |
| Pagination.QueryNumber | abogo-scribe-backend/meetings/meetings.ts:270-271 | The number `parseInt` reads without a radix is used when the parameter is present, parses and is non-zero. Otherwise the default is used. The result is never 0. |
| Pagination.QueryNumberReadsPrinted | abogo-scribe-backend/meetings/meetings.ts:270-271 | Every non-zero number the client prints is read back as itself. "0" falls back to the default. |
| Pagination.QueryNumberReadsHex | abogo-scribe-backend/meetings/meetings.ts:270-271 | A value `0x…` or `0X…` is read as the hexadecimal number that follows, so `?limit=0x10` gives pages of 16. A zero value or a bare `0x` falls back to the default. |
| Numbers.ParseIntAutoToString | abogo-scribe-backend/meetings/meetingsApi.ts:201-202 | `parseInt` without a radix reads back every integer that `toString` prints. |
| Numbers.ParseIntAutoHex | abogo-scribe-backend/meetings/meetingsApi.ts:201-202 | Without a radix, `0x` and `0X` read the hexadecimal digits that follow, where the radix-10 reading of `0x…` is 0. |
| Numbers.NegativeHexReads | abogo-scribe-backend/meetings/meetingsApi.ts:201-202 | Without a radix, `-0x` reads the hexadecimal digits that follow and negates them. |
| Numbers.ParseIntAutoBareHex | abogo-scribe-backend/meetings/meetingsApi.ts:201-202 | Without a radix, a bare `0x` or `0X` is NaN, where the radix-10 reading is 0. |
| Pagination.SkipNonNegative | abogo-scribe-backend/meetings/meetings.ts:101 | From page 1 on, with a positive limit, the skip is never negative. |
| Pagination.Pages | abogo-scribe-backend/meetings/meetings.ts:112 | With a positive limit, the page count is the least p with total <= p·limit. That is 0 for no items and at least 1 otherwise. |
| Pagination.Window | abogo-scribe-backend/meetings/meetings.ts:103-105 | A page holds at most `limit` items, the ones right after the skip. It is empty past the end and shorter only at the end. |
| Pagination.ItemOnExactlyOnePage | abogo-scribe-backend/meetings/meetings.ts:101-112 | With a positive limit, item i is on page i / limit + 1 and on no other page. That page lies between 1 and the page count. |
| Pagination.ItemInItsWindow | abogo-scribe-backend/meetings/meetingsApi.ts:92-103 | Item i appears on its page, at position i minus the skip. |
| MeetingStore.Problems | abogo-scribe-backend/meetings/meetings.ts:32-62 | A path is reported exactly when its schema rule fails: a trimmed title, required strings, and a duration of at least 1. Absent fields fail only when a whole document is validated. No problems means the document conforms. |
| MeetingStore.NewDoc | abogo-scribe-backend/meetings/meetings.ts:71-78 | A saved meeting has the generated id, the trimmed title and the given fields, and it satisfies every schema rule. |
| MeetingStore.Apply | abogo-scribe-backend/meetings/meetings.ts:155-159 | A `$set` patch replaces each present field (the title trimmed) and keeps each absent one. The id never changes. |
| MeetingStore.ApplyKeeps | abogo-scribe-backend/meetings/meetings.ts:155-159 | The empty patch, and a patch of the stored values, leave the meeting as it was. |
| MeetingStore.FirstMatch | abogo-scribe-backend/meetings/meetings.ts:81-87 | The result is the first meeting the filter matches, or -1 exactly when none matches. |
| MeetingStore.RemoveAt | abogo-scribe-backend/meetings/meetings.ts:166-172 | Deleting one meeting removes exactly that occurrence and keeps the others in order. |
| MeetingStore.SelectMembers | abogo-scribe-backend/meetings/meetings.ts:181-187 | A filter keeps exactly the meetings it selects, each as often as it is stored. |
| MeetingStore.SelectEveryone | abogo-scribe-backend/meetings/meetings.ts:131-132 | The empty filter keeps the whole store. |
| MeetingStore.KeyLeTransitive | abogo-scribe-backend/meetings/meetings.ts:106 | The (date, start time) order is transitive. |
| MeetingStore.KeyLeTotal | abogo-scribe-backend/meetings/meetings.ts:106 | Any two meetings are comparable in the (date, start time) order. |
| MeetingStore.Insert | abogo-scribe-backend/meetings/meetings.ts:106 | Inserting into a sorted list keeps it sorted and adds exactly the one meeting. |
| MeetingStore.Sort | abogo-scribe-backend/meetings/meetings.ts:106 | A sorted result is ordered by date, then start time, and is a permutation of its input. |
| MeetingStore.Query | abogo-scribe-backend/meetings/meetings.ts:189-191 | A query result is sorted and holds the selected meetings. |
| MeetingStore.QueryMembers | abogo-scribe-backend/meetings/meetings.ts:181-191 | A query returns exactly the stored meetings the filter selects, each as often as stored. |
| MeetingStore.QueryCounts | abogo-scribe-backend/meetings/meetings.ts:102-103 | `countDocuments` agrees with the number of meetings the query returns. |
| Meetings.Create | abogo-scribe-backend/meetings/meetings.ts:202-227 | The status is 401 without a caller. It is 400, with the failing paths, when the body with the caller as owner breaks the schema, and 500 when saving throws. Otherwise it is 201, and exactly the new meeting, owned by the caller, is appended. |
| Meetings.CreateIgnoresBodyOwner | abogo-scribe-backend/meetings/meetings.ts:214-215 | The owner named in the body never influences the outcome. |
| Meetings.ByIdGuard | abogo-scribe-backend/meetings/meetings.ts:237-255 | The checks run in the order 401 without a caller, 500 when the lookup throws, 404 when no meeting has the id, and 403 when the caller does not own it. The operation proceeds exactly when the caller owns the meeting. |
| Meetings.GetById | abogo-scribe-backend/meetings/meetings.ts:230-262 | The status is 200 with the meeting exactly when the caller owns it and the lookup does not throw. Otherwise the guard answers. The store never changes. |
| Meetings.UpdateById | abogo-scribe-backend/meetings/meetings.ts:307-344 | The status is 200 exactly when the owner's patch conforms and nothing throws, and then only that meeting changes. An invalid patch gives 400 with its paths and a failing write gives 500. |
| Meetings.DeleteById | abogo-scribe-backend/meetings/meetings.ts:347-379 | The status is 204 exactly when the owner asks and nothing throws, and then exactly that meeting is removed. A failing write gives 500. |
| Meetings.NonOwnerCannotChange | abogo-scribe-backend/meetings/meetings.ts:320-371 | A non-owner can neither update nor delete, and the store is unchanged. For an existing meeting and a signed-in caller, the answer is 403. |
| Meetings.UpdateThenGet | abogo-scribe-backend/meetings/meetings.ts:150-163 | After a successful update that leaves the owner alone, reading the meeting back returns the updated meeting. |
| Meetings.DeleteThenGet | abogo-scribe-backend/meetings/meetings.ts:166-172 | With unique ids, once a meeting is deleted, reading it gives 404. |
| Meetings.Fetch | abogo-scribe-backend/meetings/meetings.ts:101-106 | A negative skip is refused. Otherwise the result is the window of the sorted selection. |
| Meetings.ListPage | abogo-scribe-backend/meetings/meetings.ts:90-117 | The status is 200 exactly when the read does not throw and the skip is non-negative. The page is the window of the sorted selection, with the total count, the page and the page count. |
| Meetings.ListOwn | abogo-scribe-backend/meetings/meetings.ts:265-286 | The status is 401 exactly without a caller. Otherwise one page of the caller's meetings is returned, all the caller's and in (date, start time) order. |
| Meetings.EveryOwnMeetingOnItsPage | abogo-scribe-backend/meetings/meetings.ts:101-112 | Each of the caller's meetings, at position i in date order, is on the page i / limit + 1 that the client requests by printing those numbers. |
| Meetings.PageHoldsItem | abogo-scribe-backend/meetings/meetings.ts:101-106 | Item i of a query result is on every page whose range covers it. |
| Meetings.ListAll | abogo-scribe-backend/meetings/meetings.ts:289-304 | There is no caller check. A successful listing counts every stored meeting. |
| Meetings.EveryMeetingListed | abogo-scribe-backend/meetings/meetings.ts:289-304 | With a positive limit, the date order holds every stored meeting as often as it is stored, and the meeting at position i is on page i / limit + 1. |
| Meetings.ByDateRange | abogo-scribe-backend/meetings/meetings.ts:382-411 | A missing bound gives 400, checked before the caller. The status is 401 without a caller and 500 when the read throws. Otherwise exactly the caller's meetings dated between the bounds inclusive are returned. |
| Meetings.RangeOwnerFilter | abogo-scribe-backend/meetings/meetings.ts:181-187 | Without an owner the range returns every user's meetings in it. With an owner it returns exactly that owner's share. |
| Meetings.SingleDayRange | abogo-scribe-backend/meetings/meetings.ts:182 | Equal bounds return exactly that day's meetings. |
| MeetingsApi.UpdateByDate | abogo-scribe-backend/meetings/meetingsApi.ts:252-291 | The order is 400 for a missing date or start time (before the caller), 401, 400 for an invalid patch, 500 when the store throws, and 404 when the caller has no meeting in that slot. Otherwise that meeting is patched and returned with 200. |
| MeetingsApi.DeleteByDate | abogo-scribe-backend/meetings/meetingsApi.ts:294-327 | The order is 400 for a missing date or start time, 401, 500 and 404. Otherwise the caller's meeting in that slot is removed and 204 returned. |
| MeetingsApi.ByDateLeavesOthersAlone | abogo-scribe-backend/meetings/meetingsApi.ts:128-157 | Update and delete by date leave every meeting the caller does not own in the store, unchanged. |
| MeetingsApi.DeleteByDateRemovesOne | abogo-scribe-backend/meetings/meetingsApi.ts:147-157 | A delete by date succeeds exactly when the caller has a meeting in that slot, and then removes exactly one. |
| MeetingsApi.RangeOnlyCallers | abogo-scribe-backend/meetings/meetingsApi.ts:220-249 | The date-range listing never returns another user's meeting. |
| MeetingsApi.CreateForcesOwner | abogo-scribe-backend/meetings/meetingsApi.ts:168-193 | A created meeting is stored under the caller, whatever owner the body claimed. |
| Users.Normalize | abogo-scribe-backend/users/usersApi.ts:23-30 | A stored email has no surrounding whitespace and no upper-case ASCII letter, and it is as long as the trimmed input. |
| Users.NormalizeFixed | abogo-scribe-backend/users/usersApi.ts:23-30 | The setters leave an already-normalised email alone. |
| Users.Key | abogo-scribe-backend/users/usersApi.ts:68-74 | The lookup filter, `email.toLowerCase()` passed through the trim and lowercase setters, is exactly the form the email is stored in. |
| Users.SameKey | abogo-scribe-backend/users/usersApi.ts:68-74 | Two emails look up the same user exactly when, once trimmed, they agree up to ASCII case. |
| Users.FindEmail | abogo-scribe-backend/users/usersApi.ts:68-74 | The result is the first user with exactly this email, or -1 exactly when there is none. |
| Users.LookupIgnoresCase | abogo-scribe-backend/users/usersApi.ts:68-74 | Two emails equal up to ASCII case find the same user, because trimming and lower-casing commute. |
| Users.AppendKeepsWellFormed | abogo-scribe-backend/users/usersApi.ts:23-30 | Adding a user whose email is normalised and new keeps the emails normalised and unique. |
| Users.ReplaceKeepsWellFormed | abogo-scribe-backend/users/usersApi.ts:23-30 | Replacing a user keeps the emails normalised and unique, provided the new email is the old one or is normalised and not taken by anyone else. |
| Users.RemoveKeepsWellFormed | abogo-scribe-backend/users/usersApi.ts:23-30 | Removing a user keeps the emails normalised and unique. |
| Users.Problems | abogo-scribe-backend/users/usersApi.ts:21-49 | "email" is reported exactly when the email is missing or blank after trimming. "name" is reported exactly when the name is missing or blank. No problems means the fields are valid. |
| Users.NewUser | abogo-scribe-backend/users/usersApi.ts:58-65 | A created user has the normalised email, the trimmed name and picture, and the given Google id. |
| Users.Apply | abogo-scribe-backend/users/usersApi.ts:125-129 | A `$set` patch replaces each present field through the schema's setters and keeps each absent one. |
| Users.ApplyIdempotent | abogo-scribe-backend/users/usersApi.ts:125-129 | Applying the same patch twice equals applying it once. |
| Users.StripEmail | abogo-scribe-backend/users/usersApi.ts:120-123 | A truthy email is deleted from the patch and an empty one is kept. No other field changes. |
| Users.CreateUser | abogo-scribe-backend/users/usersApi.ts:175-196 | The status is 409 exactly when the email's stored form, trimmed and lower-cased, is taken. It is 400 for invalid fields and 500 when the store throws or the body has no email. Otherwise it is 201 and exactly the new user is appended. Emails stay normalised and unique. |
| Users.GetUser | abogo-scribe-backend/users/usersApi.ts:199-214 | The status is 500 when the read throws and 404 exactly when no user is stored under the email's trimmed, lower-cased form. Otherwise it is 200 with that user. The store never changes. |
| Users.CreateThenGet | abogo-scribe-backend/users/usersApi.ts:175-214 | A user just created can be read back under its email written in any case and with any surrounding whitespace. |
| Users.CreateTwiceConflicts | abogo-scribe-backend/users/usersApi.ts:179-184 | Creating the same email again, in any case and with any surrounding whitespace, gives 409 and leaves the store alone. |
| Users.UpdateUser | abogo-scribe-backend/users/usersApi.ts:231-253 | The status is 404 exactly when no user is stored under the email's trimmed, lower-cased form. It is 200 exactly when the stripped patch is valid and nothing throws, and then only that user changes. No update changes an email, and emails stay normalised and unique. |
| Users.UpdateNeverChangesEmail | abogo-scribe-backend/users/usersApi.ts:120-129 | Whatever the patch holds, every user keeps its email. |
| Users.DeleteUser | abogo-scribe-backend/users/usersApi.ts:256-273 | The status is 404 exactly when no user is stored under the email's trimmed, lower-cased form. It is 204 exactly when the user exists and nothing throws, and then exactly that user is removed. |
| Users.DeleteThenGet | abogo-scribe-backend/users/usersApi.ts:136-142 | In a well-formed store, once a user is deleted its email is unknown. |
| Users.NewestFirst | abogo-scribe-backend/users/usersApi.ts:101 | The listing order is creation order reversed. |
| Users.ListUsers | abogo-scribe-backend/users/usersApi.ts:86-112 | With the query defaults of 10 and 1, the page is the window of the users, newest first, with the total, the page and the page count. A negative skip or a failing read gives 500. |
| Users.FirstPageIsNewest | abogo-scribe-backend/users/usersApi.ts:96-101 | With a positive limit, the first page lists the most recently created users, newest first. |
| Users.Upsert | abogo-scribe-backend/users/usersApi.ts:145-168 | A falsy email fails before anything else. A success carries a valid patch and the normalised email. It updates the user stored under the email's trimmed, lower-cased form, or inserts one when there is none. Emails stay normalised and unique. |
| Users.UpsertNeverDuplicates | abogo-scribe-backend/users/usersApi.ts:145-168 | In a well-formed store, an upsert of valid fields always succeeds, and never hits the unique index. |
| Users.UpsertIdempotent | abogo-scribe-backend/users/usersApi.ts:145-168 | Upserting the same fields twice leaves the store as one upsert left it. |
| AuthMiddleware.BearerToken | abogo-scribe-backend/auth/middleware.ts:15 | There is a token exactly when the header has a space. The token contains no space. |
| AuthMiddleware.BearerTokenReadsSecondWord | abogo-scribe-backend/auth/middleware.ts:15 | Whatever the first word, the word after the first space is the token. |
| AuthMiddleware.Authenticate | abogo-scribe-backend/auth/middleware.ts:14-30 | `next` runs exactly when the token is truthy and verifies, and the decoded user is set first. Otherwise the request is answered with 403: "No token provided" exactly for a falsy token and "Invalid token" exactly for one that fails verification. |
| AuthMiddleware.NextRunsAtMostOnce | abogo-scribe-backend/auth/middleware.ts:22-29 | `next` runs at most once. |
| AuthMiddleware.BearerHeaderAdmits | abogo-scribe-backend/auth/middleware.ts:15-28 | "Bearer <token>" with a token the verifier accepts sets the decoded user and calls `next`. |
| TokenClaims.Signed | abogo-scribe-backend/auth/auth.ts:44-48 | The signed payload carries the email, name, picture and Google id, and no `_id`. |
| TokenClaims.SignedTokenLocksOut | abogo-scribe-backend/meetings/meetings.ts:209-212 | With a token the sign-in routes signed, create, get, update, delete and the caller's listing all answer 401 "Authentication required" and leave the store alone. The date-range listing and both by-date handlers answer 401 once their query parameters are present. |
| TokenClaims.SignedWithId | abogo-scribe-backend/auth/auth.ts:44-48 | The corrected payload is the same profile with the user's id as `_id`. |
| TokenClaims.SignedWithIdReachesHandlers | abogo-scribe-backend/meetings/meetings.ts:209-215 | With the user's id in the token the caller is authenticated. A valid meeting is created with 201 under that id, and the user reads back a meeting they own with 200. |
| AuthMiddleware.NoTokenRefused | abogo-scribe-backend/auth/middleware.ts:17-20 | A header with no space, or nothing after it, is refused with "No token provided". |
| AuthStatus.Pending | abogo-scribe-backend/auth/auth.ts:273-274 | A non-empty cookie text takes precedence over the session's sign-in, and there is nothing pending exactly when the cookie is empty or missing and the session holds nothing. |
| AuthStatus.CheckAuthStatus | abogo-scribe-backend/auth/auth.ts:271-294 | The reply is not authenticated exactly when the cookie is falsy and the session holds nothing, and then nothing changes. A session sign-in is handed out with its token and user. A cookie gives an authenticated reply with no token and no user, because the cookie is text. Either way both carriers are cleared. |
| AuthStatus.PickupIsOneShot | abogo-scribe-backend/auth/auth.ts:278-283 | Asking again right after a pickup reports not authenticated and changes nothing. |
| AuthStatus.CookieCarriesNoToken | abogo-scribe-backend/auth/auth.ts:100-111 | As written, the sign-in the callback stores in the cookie is collected, but the reply has no token and no user, and both carriers end up empty. |
| AuthStatus.CheckAuthStatusParsed | abogo-scribe-backend/auth/auth.ts:271-294 | With the cookie parsed, a cookie that parses hands out its token and user. One that does not parse counts as absent and the session is consulted. Both carriers are cleared. |
| AuthStatus.ParsedAgreesWithoutCookie | abogo-scribe-backend/auth/auth.ts:273-289 | Without a truthy cookie the parsed handler answers exactly as the handler as written does. |
| AuthStatus.CookieCollected | abogo-scribe-backend/auth/auth.ts:100-111 | With the cookie parsed, the sign-in the callback left in the cookie is collected by the next poll with its token and user, whatever the session holds, and both carriers are cleared. |
| AuthStatus.ParsedPickupIsOneShot | abogo-scribe-backend/auth/auth.ts:278-283 | With the cookie parsed, a pickup is still handed out only once. |
| AuthContext.Mount | abogo-electron/src/auth-context.tsx:34 | The provider starts with the stored token and no user. |
| AuthContext.HandleMessage | abogo-electron/src/auth-context.tsx:51-73 | Only an `AUTH_SUCCESS` message from the dev server or the backend changes anything. It stores its token and makes it the current token, and the user is untouched. |
| AuthContext.OnlyTwoOrigins | abogo-electron/src/auth-context.tsx:55-64 | A sign-in message has its effect exactly when it comes from one of the two allowed origins, unless the token was already in place. |
| AuthContext.DecodeEffect | abogo-electron/src/auth-context.tsx:36-47 | A falsy token changes nothing. A token that decodes sets the user. A token that fails to decode is removed from storage and state, and the user is left as it was. |
| AuthContext.DecodeSettles | abogo-electron/src/auth-context.tsx:36-47 | Running the decode effect a second time changes nothing. |
| AuthContext.Logout | abogo-electron/src/auth-context.tsx:102-106 | Logging out clears the stored token, the token and the user. |
| AuthContext.SignInSurvivesReload | abogo-electron/src/auth-context.tsx:66-69 | A successful sign-in message signs the user in, and a reload from storage restores the same sign-in. |
| AuthContext.RejectedTokenForgotten | abogo-electron/src/auth-context.tsx:40-45 | A token that does not decode is gone after a reload. |
| AuthContext.LogoutSticks | abogo-electron/src/auth-context.tsx:102-106 | After logging out, a reload finds nobody signed in, and a foreign message signs nobody in. |
| AuthContext.UseAuth | abogo-electron/src/auth-context.tsx:115-120 | Inside a provider its value is returned. Outside one, the error "useAuth must be used within an AuthProvider" is raised. |
| AuthContext.ConsumerSeesProvider | abogo-electron/src/auth-context.tsx:108-120 | A component inside the provider reads the provider's current user and token. After a sign-in and the decode effect it sees the decoded user and the token; after `logout` it sees neither. Outside a provider it gets the error. |

## Left out

- The browser and Electron runtime is modelled only as events and results: MediaRecorder, getUserMedia, FileReader, WebSocket transport, IPC, the save dialog and `fs`. Timers fire as explicit events, and `Date.now` and `toISOString` are inputs.
- The order in which FileReader loads finish is assumed to be the order of the chunks.
- Callback exceptions are not modelled. A callback that throws inside a socket handler would abort the handler.
- `onTranscriptionUpdate` is registered by the editor but never invoked by the recorder. The transcript model describes the handler itself, not a recorder that calls it.
- Recorder.OnRecorderStop: the duration is exact division on reals. Floating-point rounding is left out.
- MeetingDisplay.CalculateEndTime: the hour and minute are taken as integers. `Number()` parsing of the fields (NaN) and daylight-saving effects of the `Date` object are left out, so it is pure clock arithmetic modulo 1440.
- Strings.ToLower: case mapping covers ASCII letters only. Unicode case mapping is left out.
- Editor.RecordingFilename: a string is a sequence of Unicode scalar values, not of UTF-16 code units. The source's regex has no `u` flag, so it tests each code unit. A character outside the Basic Multilingual Plane then becomes two dashes: the title "a😀" gives "a--" in the source and "a-" in the model. The two agree on titles without such characters.
- Blocks.SplitAtCaret: the caret offset counts characters, while the DOM range and `slice` count UTF-16 code units. They agree on text without characters outside the Basic Multilingual Plane. `Blocks.KeyDown` inherits this.
- MeetingDisplay.GroupByDate: the model groups every date the same way. It assumes dates that are not integer-like and are not property names of `Object.prototype`. The schema accepts any non-empty date string (abogo-scribe-backend/meetings/meetings.ts:39-42), and both meeting controllers store the date the client sends, so the program does not enforce this. The client writes ISO `YYYY-MM-DD` dates (abogo-electron/src/components/editor.tsx:247). `Object.entries` lists integer-like keys (such as "5") in ascending numeric order before the other keys, where the model keeps first-seen order. For a date such as "constructor", "toString" or "__proto__", `grouped[date]` (abogo-electron/src/components/dashboard/meeting-list.tsx:71-74) is already a truthy value that is not an array, so `.push` throws a TypeError and the list does not render. The model makes a group for it instead.
- MongoDB and Mongoose internals are left out: query planning, `populate`, CastErrors on malformed ids, and `null` field values in request bodies. The store is a sequence of documents in insertion order.
- Meetings.GetById: the owner comparison uses the owner id directly, in `Meetings.ByIdGuard`, `Meetings.UpdateById` and `Meetings.DeleteById` alike. `findById` populates the owner with its name and email (abogo-scribe-backend/meetings/meetings.ts:83). So `owner.toString()` at lines 250, 327 and 366 is the text of a user object, not an id. As written, even the owner would get 403, and these success branches are unreachable. The model keeps the intended comparison.
- Meetings.Fetch: a negative limit is modelled as its absolute value, a single batch, as the MongoDB driver does.
- Meetings.ListPage: ties in the `(date, startTime)` sort keep an order the model fixes as insertion order. The database is free to order ties differently.
- Users.NewestFirst: `createdAt` ties are resolved in reverse insertion order.
- The meeting duration is an integer number of minutes. Non-integer durations are left out.
- AuthStatus.CheckAuthStatusParsed: the JSON parser is an oracle. The cookie's JSON text and the session store are not modelled beyond their presence and truthiness.
- The Google OAuth code exchange, the JWT signature and expiry (the signed payload is in `TokenClaims`), the axios calls, the HTML responses and the `JWT_SECRET` and `GOOGLE_CLIENT_ID` load errors are left out. `jwt.verify` and `jwtDecode` are oracle parameters.
- Pagination.QueryNumber: `parseInt` gives a floating-point number, so digit runs beyond 2^53 lose precision. The model reads them exactly. A query parameter given twice, which Express passes as an array, is not modelled.
- MainProcess.OnOpenWindow: every `window.open` goes through the main window's allow-list. A popup has no handler of its own, so Electron would let it open any URL. Which window closes is not tracked either, only how many are open.
- Meetings.ListAll: the listing of every meeting has no admin restriction in the source, and none is modelled.
- Speech and LLM wrappers, the client fetch wrappers, the server bootstrap, pure UI rendering, caret and DOM helpers, focus timers and type-only files are not part of this model.

## Findings

| source | as written | input that shows it | evidently intended | confidence | as-written member | corrected member |
|---|---|---|---|---|---|---|
| abogo-scribe-backend/auth/auth.ts:287-288 | The callback stores the pending sign-in in the cookie as `JSON.stringify` text (lines 100-111), and `checkAuthStatus` reads `jwt` and `user` off that text. | A poll after the callback set the cookie to `{"type":"AUTH_SUCCESS","jwt":"t",...}` replies `{ authenticated: true }` with no token and no user, and clears the cookie. | The poll hands out the token and user the callback stored. | high, not executed | AuthStatus.CheckAuthStatus, AuthStatus.CookieCarriesNoToken | AuthStatus.CheckAuthStatusParsed, AuthStatus.CookieCollected |
| abogo-scribe-backend/auth/auth.ts:44-48 | The sign-in routes sign `{ email, name, picture, googleId }` (also lines 93-97 and `index.ts` lines 45-49), while every meeting handler requires `req.user?._id`. | A token from `handleGoogleAuth`, sent as "Bearer <token>" to the meeting router's POST `/` (`createMeeting`), passes the middleware and then gets 401 "Authentication required". | The token names the user, so the handlers act for its owner. | high, not executed | TokenClaims.Signed, TokenClaims.SignedTokenLocksOut | TokenClaims.SignedWithId, TokenClaims.SignedWithIdReachesHandlers |
| abogo-electron/src/components/editor.tsx:134-146 | The draft saved to local storage takes its notes from the blocks before the edit. | Typing "hello" into the empty first paragraph saves notes "Untitled\n" while the blocks read "Untitled\nhello". | The saved notes reflect the edit just made, as the title already does. | medium, not executed | Editor.ContentChangeAsWritten, Editor.ContentChangeDraftLags | Editor.ContentChange |
