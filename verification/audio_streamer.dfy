/**
 * The WebSocket streaming client (`AudioStreamer`): connect and disconnect,
 * the socket's open/message/close/error handlers, bounded exponential
 * reconnect, and the gating of audio sends on the socket being open.
 *
 * The client is a value; every handler is a function from the client (and
 * the event's data) to the next client plus the callbacks it invoked and the
 * timers it armed. The transport is abstract: the socket is represented only
 * by its `readyState`, and the runtime's events arrive as calls of the
 * handler functions.
 */
module AudioStreamer {
  import opened Wrappers

  const MaxReconnectAttempts: nat := 5
  const BaseDelayMs: nat := 1000
  const MaxDelayMs: nat := 30000

  /** The `readyState` of a WebSocket. */
  datatype ReadyState = Connecting | Open | Closing | Closed

  /** Which of the optional callbacks the client was constructed with. */
  datatype Callbacks = Callbacks(onTranscription: bool, onError: bool, onOpen: bool, onClose: bool)

  /**
   * A property of a parsed JSON message: missing, a string, or some other
   * JSON value, of which only its JavaScript truthiness matters here.
   */
  datatype Field = Missing | Text(s: string) | OtherValue(truthy: bool) {
    predicate Truthy() {
      match this
      case Missing => false
      case Text(s) => s != ""
      case OtherValue(t) => t
    }
  }

  /** An incoming frame after `JSON.parse`: not JSON, a JSON value that is not an object, or an object. */
  datatype Incoming = Malformed | NotAnObject | Message(transcription: Field, error: Field)

  /** What a handler did besides changing the client: a callback it invoked or a reconnect it armed. */
  datatype Output =
    | Transcription(text: Field)
    | Failure(message: Field)
    | OpenNotice
    | CloseNotice
    | Scheduled(timer: nat, delayMs: nat)

  /**
   * The client's fields. `handle` is the stored `reconnectTimeout`; `armed`
   * are the reconnect timers that are scheduled and have neither fired nor
   * been cleared (`handle` may name a timer that already fired, since the
   * source never resets it after firing). `orphans` counts earlier sockets
   * that `disconnect` closed and whose close event is still to arrive: their
   * handlers still act on this client.
   */
  datatype Streamer = Streamer(
    socket: Option<ReadyState>,
    isConnected: bool,
    reconnectAttempts: nat,
    handle: Option<nat>,
    armed: set<nat>,
    nextTimer: nat,
    orphans: nat,
    callbacks: Callbacks)

  datatype Transition = Transition(next: Streamer, out: seq<Output>)

  /** A freshly constructed client. */
  function Init(callbacks: Callbacks): Streamer {
    Streamer(None, false, 0, None, {}, 0, 0, callbacks)
  }

  /** The invariant every reachable client keeps. */
  predicate Valid(s: Streamer) {
    && s.reconnectAttempts <= MaxReconnectAttempts
    && (forall t | t in s.armed :: t < s.nextTimer)
    && (s.handle.Some? ==> s.handle.value < s.nextTimer)
    && (s.isConnected ==> s.socket == Some(Open) || s.socket == Some(Closing))
  }

  /** `Math.pow(2, n)` for a whole exponent. */
  function Pow2(n: nat): nat {
    if n == 0 then 1 else 2 * Pow2(n - 1)
  }

  /** `Math.min(1000 * Math.pow(2, n), 30000)`. */
  function ReconnectDelay(n: nat): nat {
    if BaseDelayMs * Pow2(n) < MaxDelayMs then BaseDelayMs * Pow2(n) else MaxDelayMs
  }

  /** The delays double from 2 s and are capped at 30 s from the fifth attempt on (where doubling would give 32 s). */
  lemma ReconnectDelaySchedule(n: nat)
    ensures ReconnectDelay(1) == 2000 && ReconnectDelay(2) == 4000 && ReconnectDelay(3) == 8000
    ensures ReconnectDelay(4) == 16000 && ReconnectDelay(5) == 30000
    ensures 1 <= n <= 3 ==> ReconnectDelay(n + 1) == 2 * ReconnectDelay(n)
    ensures n >= 5 ==> ReconnectDelay(n) == MaxDelayMs
  {
    if n >= 5 {
      Pow2Monotone(5, n);
    }
  }

  lemma {:induction false} Pow2Monotone(m: nat, n: nat)
    requires m <= n
    ensures Pow2(m) <= Pow2(n)
    decreases n - m
  {
    if m < n {
      Pow2Monotone(m + 1, n);
    }
  }

  /**
   * `attemptReconnect`: below the attempt budget, count one more attempt and
   * arm a timer for the backed-off delay, storing it as the handle (an older
   * armed timer is not cleared); at the budget, do nothing.
   */
  function AttemptReconnect(s: Streamer): (r: Transition)
    ensures s.reconnectAttempts >= MaxReconnectAttempts ==> r == Transition(s, [])
    ensures s.reconnectAttempts < MaxReconnectAttempts ==>
      && r.next.reconnectAttempts == s.reconnectAttempts + 1
      && r.next.handle == Some(s.nextTimer)
      && r.next.armed == s.armed + {s.nextTimer}
      && r.out == [Scheduled(s.nextTimer, ReconnectDelay(r.next.reconnectAttempts))]
    ensures r.next.socket == s.socket && r.next.isConnected == s.isConnected
  {
    if s.reconnectAttempts < MaxReconnectAttempts then
      var attempts := s.reconnectAttempts + 1;
      var id := s.nextTimer;
      Transition(
        s.(reconnectAttempts := attempts, handle := Some(id), armed := s.armed + {id}, nextTimer := id + 1),
        [Scheduled(id, ReconnectDelay(attempts))])
    else Transition(s, [])
  }

  /**
   * `disconnect`: clear the stored reconnect timer, then close and drop the
   * socket and mark the client disconnected. A socket that was not yet
   * closed will still deliver its close event.
   */
  function Disconnect(s: Streamer): (r: Streamer)
    ensures r.handle == None && r.socket == None
    ensures s.handle.Some? ==> r.armed == s.armed - {s.handle.value}
    ensures s.handle.None? ==> r.armed == s.armed
    ensures s.socket.Some? ==> !r.isConnected
    ensures s.socket.None? ==> r.isConnected == s.isConnected
    ensures r.orphans == if s.socket.Some? && s.socket.value != Closed then s.orphans + 1 else s.orphans
    ensures r.reconnectAttempts == s.reconnectAttempts
  {
    var cleared := if s.handle.Some? then s.(armed := s.armed - {s.handle.value}, handle := None) else s;
    match cleared.socket
    case None => cleared
    case Some(state) =>
      cleared.(socket := None, isConnected := false,
               orphans := if state != Closed then cleared.orphans + 1 else cleared.orphans)
  }

  /**
   * `connect`: an existing socket is disconnected first; then a new socket is
   * created in the connecting state, unless creating it throws, in which case
   * the error callback is told and no socket is held.
   */
  function Connect(s: Streamer, creationFails: bool): (r: Transition)
    ensures s.socket.Some? ==> r.next.handle == None && !r.next.isConnected
    ensures s.socket.None? ==> r.next.handle == s.handle && r.next.armed == s.armed
    ensures !creationFails ==> r.next.socket == Some(Connecting) && r.out == []
    ensures creationFails ==> r.next.socket == None
    ensures creationFails ==> r.out == (if s.callbacks.onError then [Failure(Text("Failed to create WebSocket connection"))] else [])
    ensures r.next.reconnectAttempts == s.reconnectAttempts
  {
    var s1 := if s.socket.Some? then Disconnect(s) else s;
    if creationFails then
      Transition(s1, if s.callbacks.onError then [Failure(Text("Failed to create WebSocket connection"))] else [])
    else Transition(s1.(socket := Some(Connecting)), [])
  }

  /** `onopen` of the current socket: connected, with the attempt count reset. */
  function OnOpen(s: Streamer): (r: Transition)
    requires s.socket == Some(Connecting)
    ensures r.next.isConnected && r.next.socket == Some(Open) && r.next.reconnectAttempts == 0
    ensures r.next.armed == s.armed && r.next.handle == s.handle
    ensures r.out == (if s.callbacks.onOpen then [OpenNotice] else [])
  {
    Transition(s.(socket := Some(Open), isConnected := true, reconnectAttempts := 0),
               if s.callbacks.onOpen then [OpenNotice] else [])
  }

  /**
   * `onmessage`: a parsed object delivers its `transcription` when truthy and
   * its `error` when truthy, in that order; anything that fails to parse or
   * is not an object delivers nothing. The client itself never changes.
   */
  function OnMessage(s: Streamer, m: Incoming): (out: seq<Output>)
    ensures forall o | o in out :: o.Transcription? || o.Failure?
    ensures (exists o | o in out :: o.Transcription?) <==>
              m.Message? && m.transcription.Truthy() && s.callbacks.onTranscription
    ensures (exists o | o in out :: o.Failure?) <==>
              m.Message? && m.error.Truthy() && s.callbacks.onError
    ensures forall o | o in out :: (o.Transcription? ==> o.text == m.transcription)
                                && (o.Failure? ==> o.message == m.error)
    ensures |out| <= 2 && (|out| == 2 ==> out[0].Transcription?)
  {
    match m
    case Message(transcription, error) =>
      var t := if transcription.Truthy() && s.callbacks.onTranscription then [Transcription(transcription)] else [];
      var e := if error.Truthy() && s.callbacks.onError then [Failure(error)] else [];
      assert |t| > 0 ==> (t + e)[0] == t[0];
      assert |e| > 0 ==> (t + e)[|t|] == e[0];
      t + e
    case _ => []
  }

  /** The peer started the closing handshake on the current socket. */
  function OnClosing(s: Streamer): (r: Streamer)
    requires s.socket == Some(Open)
    ensures r.socket == Some(Closing) && r.isConnected == s.isConnected
  {
    s.(socket := Some(Closing))
  }

  /** The close handler's common part: disconnected, the close callback told, and a reconnect attempted. */
  function CloseHandler(s: Streamer): (r: Transition)
    ensures !r.next.isConnected
    ensures |r.out| >= 1 ==> r.out[0] == CloseNotice || r.out[0].Scheduled?
    ensures s.reconnectAttempts < MaxReconnectAttempts ==> r.next.reconnectAttempts == s.reconnectAttempts + 1
    ensures s.reconnectAttempts < MaxReconnectAttempts ==> s.nextTimer in r.next.armed
    ensures s.reconnectAttempts >= MaxReconnectAttempts ==> r.next.armed == s.armed
  {
    var s1 := s.(isConnected := false);
    var r := AttemptReconnect(s1);
    Transition(r.next, (if s.callbacks.onClose then [CloseNotice] else []) + r.out)
  }

  /** `onclose` of the current socket: it is now closed, the client disconnected, and a reconnect attempted. */
  function OnClose(s: Streamer): (r: Transition)
    requires s.socket.Some? && s.socket.value != Closed
    ensures r.next.socket == Some(Closed) && !r.next.isConnected
    ensures s.reconnectAttempts < MaxReconnectAttempts ==> s.nextTimer in r.next.armed
  {
    CloseHandler(s.(socket := Some(Closed)))
  }

  /**
   * `onclose` of a socket that `disconnect` already dropped: its handler still
   * marks this client disconnected and attempts a reconnect, whatever the
   * current socket is doing.
   */
  function OnOrphanClose(s: Streamer): (r: Transition)
    requires s.orphans > 0
    ensures r.next.orphans == s.orphans - 1 && r.next.socket == s.socket && !r.next.isConnected
    ensures s.reconnectAttempts < MaxReconnectAttempts ==> s.nextTimer in r.next.armed
  {
    CloseHandler(s.(orphans := s.orphans - 1))
  }

  /** `onerror`: only the error callback is told. */
  function OnSocketError(s: Streamer): (out: seq<Output>)
    ensures out == [] <==> !s.callbacks.onError
    ensures forall o | o in out :: o == Failure(Text("WebSocket connection error"))
  {
    if s.callbacks.onError then [Failure(Text("WebSocket connection error"))] else []
  }

  /** An armed reconnect timer fires and calls `connect`; the stored handle is left as it was. */
  function OnTimer(s: Streamer, timer: nat, creationFails: bool): (r: Transition)
    requires timer in s.armed
    ensures timer !in r.next.armed
    ensures !creationFails ==> r.next.socket == Some(Connecting)
  {
    Connect(s.(armed := s.armed - {timer}), creationFails)
  }

  /** `isReady`: connected and the current socket is open. */
  predicate IsReady(s: Streamer) {
    s.isConnected && s.socket == Some(Open)
  }

  /** `sendAudioChunk`: refused unless a socket exists in the open state; otherwise accepted unless `send` throws. */
  function SendAudioChunk(s: Streamer, sendThrows: bool): (sent: bool)
    ensures sent <==> s.socket == Some(Open) && !sendThrows
    ensures IsReady(s) && !sendThrows ==> sent
  {
    match s.socket
    case Some(Open) => !sendThrows
    case _ => false
  }

  /** Every event the runtime or the application can deliver to the client. */
  datatype Event =
    | ConnectCall(creationFails: bool)
    | DisconnectCall
    | SocketOpened
    | SocketMessage(m: Incoming)
    | SocketClosing
    | SocketClosed
    | OrphanClosed
    | SocketError
    | TimerFired(timer: nat, creationFails: bool)

  predicate Enabled(s: Streamer, e: Event) {
    match e
    case SocketOpened => s.socket == Some(Connecting)
    case SocketClosing => s.socket == Some(Open)
    case SocketClosed => s.socket.Some? && s.socket.value != Closed
    case OrphanClosed => s.orphans > 0
    case TimerFired(t, _) => t in s.armed
    case _ => true
  }

  function Step(s: Streamer, e: Event): Transition
    requires Enabled(s, e)
  {
    match e
    case ConnectCall(fails) => Connect(s, fails)
    case DisconnectCall => Transition(Disconnect(s), [])
    case SocketOpened => OnOpen(s)
    case SocketMessage(m) => Transition(s, OnMessage(s, m))
    case SocketClosing => Transition(OnClosing(s), [])
    case SocketClosed => OnClose(s)
    case OrphanClosed => OnOrphanClose(s)
    case SocketError => Transition(s, OnSocketError(s))
    case TimerFired(t, fails) => OnTimer(s, t, fails)
  }

  /** Every handler keeps the invariant; in particular the attempt count never exceeds the budget. */
  lemma StepKeepsValid(s: Streamer, e: Event)
    requires Valid(s) && Enabled(s, e)
    ensures Valid(Step(s, e).next)
  {
  }

  /** Whether each event of `events` is enabled when it arrives, starting from `s`. */
  predicate Runnable(s: Streamer, events: seq<Event>)
    decreases |events|
  {
    |events| == 0 || (Enabled(s, events[0]) && Runnable(Step(s, events[0]).next, events[1..]))
  }

  /** The client after a run of events. */
  function Run(s: Streamer, events: seq<Event>): Streamer
    requires Runnable(s, events)
    decreases |events|
  {
    if |events| == 0 then s else Run(Step(s, events[0]).next, events[1..])
  }

  /** Along any run from a valid client, at most five reconnects are ever counted. */
  lemma {:induction false} RunKeepsValid(s: Streamer, events: seq<Event>)
    requires Valid(s) && Runnable(s, events)
    ensures Valid(Run(s, events))
    ensures Run(s, events).reconnectAttempts <= MaxReconnectAttempts
    decreases |events|
  {
    if |events| > 0 {
      StepKeepsValid(s, events[0]);
      RunKeepsValid(Step(s, events[0]).next, events[1..]);
    }
  }

  /** Once the budget is spent, a close schedules nothing and leaves the timers alone. */
  lemma ExhaustedCloseSchedulesNothing(s: Streamer)
    requires s.reconnectAttempts >= MaxReconnectAttempts
    requires s.socket.Some? && s.socket.value != Closed
    ensures OnClose(s).next.armed == s.armed
    ensures forall o | o in OnClose(s).out :: !o.Scheduled?
  {
  }

  /**
   * `disconnect` does not suppress reconnection: the dropped socket's close
   * event still arms a reconnect timer when the budget allows.
   */
  lemma DisconnectThenCloseReconnects(s: Streamer)
    requires s.socket == Some(Open) && s.reconnectAttempts < MaxReconnectAttempts
    ensures Disconnect(s).orphans > 0
    ensures var r := OnOrphanClose(Disconnect(s));
            s.nextTimer in r.next.armed && r.next.handle == Some(s.nextTimer)
  {
  }

  /**
   * From a fresh client, a connection that keeps failing is retried exactly
   * five times, after 2, 4, 8, 16 and 30 seconds.
   */
  lemma FailingConnectionBackoff(cb: Callbacks)
    ensures var s0 := Connect(Init(cb), false).next;
            var s1 := OnClose(s0);
            var s2 := OnClose(OnTimer(s1.next, 0, false).next);
            var s3 := OnClose(OnTimer(s2.next, 1, false).next);
            var s4 := OnClose(OnTimer(s3.next, 2, false).next);
            var s5 := OnClose(OnTimer(s4.next, 3, false).next);
            var s6 := OnClose(OnTimer(s5.next, 4, false).next);
            && Scheduled(0, 2000) in s1.out && Scheduled(1, 4000) in s2.out
            && Scheduled(2, 8000) in s3.out && Scheduled(3, 16000) in s4.out
            && Scheduled(4, 30000) in s5.out
            && s6.next.armed == {} && s6.next.reconnectAttempts == MaxReconnectAttempts
  {
  }
}
