/**
 * The Electron main process: the window-open allow-list, the interception
 * of the OAuth callback navigation, the `save-audio-file` IPC handler and
 * the application lifecycle conditions. Dialogs, the file system and the
 * windows themselves are abstracted into the outcomes they report.
 */
module MainProcess {
  import opened Wrappers
  import opened Strings

  const AppUrl := "http://localhost:5173"
  const CallbackPath := "/auth/google/callback"

  /** The URL prefixes for which a new window may be opened, in the order they are checked. */
  const AllowedPrefixes: seq<string> := [
    "https://accounts.google.com",
    "http://localhost:3000/auth/google",
    "http://localhost:3000/auth/google/callback",
    "webauthn://",
    "http://localhost:5173"
  ]

  datatype WindowOpenAction = Allow | Deny

  /** The window-open handler: allowed iff the URL starts with one of the listed prefixes. */
  function WindowOpen(url: string): (a: WindowOpenAction)
    ensures a == Allow <==> exists i | 0 <= i < |AllowedPrefixes| :: StartsWith(url, AllowedPrefixes[i])
  {
    ghost var hits := seq(|AllowedPrefixes|, i requires 0 <= i < |AllowedPrefixes| => StartsWith(url, AllowedPrefixes[i]));
    assert hits == [hits[0], hits[1], hits[2], hits[3], hits[4]];
    if || StartsWith(url, "https://accounts.google.com")
       || StartsWith(url, "http://localhost:3000/auth/google")
       || StartsWith(url, "http://localhost:3000/auth/google/callback")
       || StartsWith(url, "webauthn://")
       || StartsWith(url, "http://localhost:5173")
    then Allow
    else Deny
  }

  lemma StartsWithTransitive(s: string, p: string, q: string)
    requires StartsWith(s, q) && StartsWith(q, p)
    ensures StartsWith(s, p)
  {
    assert s[..|p|] == s[..|q|][..|p|];
  }

  /**
   * The callback prefix adds nothing to the list: every URL it admits is
   * already admitted by the broader `/auth/google` prefix.
   */
  lemma CallbackPrefixRedundant(url: string)
    ensures StartsWith(url, AllowedPrefixes[2]) ==> StartsWith(url, AllowedPrefixes[1])
    ensures WindowOpen(url) == Allow <==>
              StartsWith(url, AllowedPrefixes[0]) || StartsWith(url, AllowedPrefixes[1])
              || StartsWith(url, AllowedPrefixes[3]) || StartsWith(url, AllowedPrefixes[4])
  {
    if StartsWith(url, AllowedPrefixes[2]) {
      assert StartsWith(AllowedPrefixes[2], AllowedPrefixes[1]);
      StartsWithTransitive(url, AllowedPrefixes[1], AllowedPrefixes[2]);
    }
  }

  datatype Navigation = Proceed | PreventAndLoad(url: string)

  /** `will-navigate`: a URL that contains the OAuth callback path is cancelled and the app URL loaded instead. */
  function WillNavigate(url: string): (n: Navigation)
    ensures n.PreventAndLoad? <==> exists i: nat :: OccursAt(url, CallbackPath, i)
    ensures n.PreventAndLoad? ==> n.url == AppUrl
  {
    if Contains(url, CallbackPath) then PreventAndLoad(AppUrl) else Proceed
  }

  /** What the save dialog reported: it threw, or it closed with a cancel flag and maybe a path. */
  datatype DialogResult = DialogThrew | Closed(canceled: bool, filePath: Option<string>)

  /** The handler's reply and whether it wrote the file. */
  datatype SaveReply = SaveReply(path: Option<string>, wrote: bool)

  /**
   * `save-audio-file`: `null` when the dialog is cancelled or yields no
   * (or an empty) path, and `null` when anything throws; otherwise the file
   * is written and the chosen path returned.
   */
  function SaveAudioFile(dialog: DialogResult, writeThrows: bool): (r: SaveReply)
    ensures r.path.Some? <==> dialog.Closed? && !dialog.canceled && dialog.filePath.Some?
                              && dialog.filePath.value != "" && !writeThrows
    ensures r.path.Some? ==> r.path == dialog.filePath && r.wrote
    ensures r.wrote ==> r.path.Some?
  {
    match dialog
    case DialogThrew => SaveReply(None, false)
    case Closed(canceled, filePath) =>
      if canceled || filePath.None? || filePath.value == "" then SaveReply(None, false)
      else if writeThrows then SaveReply(None, false)
      else SaveReply(filePath, true)
  }

  // ------------------------------------------------------------- lifecycle

  /**
   * The application as the main process sees it: how many windows are open
   * (the main window and the popups `window.open` was allowed to create),
   * whether `whenReady` has run (it creates the first window and registers
   * the `activate` handler) and whether the application still runs.
   */
  datatype App = App(windows: nat, ready: bool, running: bool)

  /**
   * `whenReady` resolving, a dock or taskbar activation, a page asking
   * `window.open(url)`, and the user closing one window.
   */
  datatype AppEvent = Ready | Activate | OpenWindow(url: string) | CloseWindow

  /** Before `whenReady`: no window, no `activate` handler yet. */
  const Launched := App(0, false, true)

  /** `whenReady`: the first window is created and the `activate` handler is registered, once. */
  function OnReady(a: App): (b: App)
    ensures a.running && !a.ready ==> b == a.(windows := a.windows + 1, ready := true)
    ensures !a.running || a.ready ==> b == a
  {
    if a.running && !a.ready then a.(windows := a.windows + 1, ready := true) else a
  }

  /** `activate`: once the handler is registered, a window is created exactly when none is open. */
  function OnActivate(a: App): (b: App)
    ensures a.running && a.ready ==> b.windows >= 1
    ensures b.windows != a.windows <==> a.running && a.ready && a.windows == 0
    ensures b.ready == a.ready && b.running == a.running
    ensures b.windows >= a.windows
  {
    if a.running && a.ready && a.windows == 0 then a.(windows := 1) else a
  }

  /** `window-all-closed`: the application quits except on macOS ("darwin"), where it keeps running with no window. */
  function OnAllWindowsClosed(a: App, platform: string): (b: App)
    ensures b.windows == a.windows && b.ready == a.ready
    ensures b.running <==> a.running && platform == "darwin"
  {
    if platform != "darwin" then a.(running := false) else a
  }

  /**
   * `window.open(url)` from an open window: the window-open handler decides,
   * and an allowed URL opens a new window, which `getAllWindows` counts.
   */
  function OnOpenWindow(a: App, url: string): (b: App)
    ensures b.windows == a.windows + 1 <==> a.running && a.windows >= 1 && WindowOpen(url) == Allow
    ensures b.windows != a.windows + 1 ==> b == a
    ensures b.ready == a.ready && b.running == a.running
  {
    if a.running && a.windows >= 1 && WindowOpen(url) == Allow then a.(windows := a.windows + 1) else a
  }

  /** Closing one window; closing the last one raises `window-all-closed`. */
  function OnCloseWindow(a: App, platform: string): (b: App)
    ensures a.windows == 0 || !a.running ==> b == a
    ensures a.running && a.windows > 0 ==> b.windows == a.windows - 1 && b.ready == a.ready
    ensures a.running && a.windows > 1 ==> b.running
    ensures a.running && a.windows == 1 ==> (b.running <==> platform == "darwin")
  {
    if !a.running || a.windows == 0 then a
    else
      var b := a.(windows := a.windows - 1);
      if b.windows == 0 then OnAllWindowsClosed(b, platform) else b
  }

  function Step(a: App, e: AppEvent, platform: string): App {
    match e
    case Ready => OnReady(a)
    case Activate => OnActivate(a)
    case OpenWindow(url) => OnOpenWindow(a, url)
    case CloseWindow => OnCloseWindow(a, platform)
  }

  function Run(a: App, events: seq<AppEvent>, platform: string): App
    decreases |events|
  {
    if |events| == 0 then a else Run(Step(a, events[0], platform), events[1..], platform)
  }

  /** Away from macOS, a running application that is ready always has a window open. */
  predicate WindowWhileRunning(a: App) {
    a.running && a.ready ==> a.windows >= 1
  }

  /** Away from macOS, every event keeps a window open while the application runs. */
  lemma StepKeepsWindow(a: App, e: AppEvent, platform: string)
    requires platform != "darwin" && WindowWhileRunning(a)
    ensures WindowWhileRunning(Step(a, e, platform))
  {
  }

  /**
   * Away from macOS, along any run from launch the application never sits
   * ready with no window: closing the last window quits it.
   */
  lemma {:induction false} NoWindowlessAppOffMac(a: App, events: seq<AppEvent>, platform: string)
    requires platform != "darwin" && WindowWhileRunning(a)
    ensures WindowWhileRunning(Run(a, events, platform))
    decreases |events|
  {
    if |events| > 0 {
      StepKeepsWindow(a, events[0], platform);
      NoWindowlessAppOffMac(Step(a, events[0], platform), events[1..], platform);
    }
  }

  /** On macOS no event ever quits a running application. */
  lemma {:induction false} MacKeepsRunning(a: App, events: seq<AppEvent>)
    requires a.running
    ensures Run(a, events, "darwin").running
    decreases |events|
  {
    if |events| > 0 {
      MacKeepsRunning(Step(a, events[0], "darwin"), events[1..]);
    }
  }

  /** On macOS, closing the only window and then activating the application brings a window back. */
  lemma MacReopensOnActivate()
    ensures var a := Run(Launched, [Ready, CloseWindow], "darwin");
            a.running && a.windows == 0 && OnActivate(a).windows == 1
  {
    var a1 := Step(Launched, Ready, "darwin");
    var a2 := Step(a1, CloseWindow, "darwin");
    assert Run(a2, [], "darwin") == a2;
    assert [Ready, CloseWindow][1..] == [CloseWindow];
  }

  /** The Google sign-in page opens as a popup. */
  lemma GooglePopupAllowed()
    ensures WindowOpen("https://accounts.google.com/o/oauth2/auth") == Allow
  {
  }

  /**
   * With the sign-in popup still open, closing the main window leaves one
   * window: the application keeps running on every platform, and on macOS
   * `activate` creates no new main window.
   */
  lemma PopupOutlivesMainWindow(platform: string)
    ensures var a := Run(Launched, [Ready, OpenWindow("https://accounts.google.com/o/oauth2/auth"), CloseWindow], platform);
            a.running && a.windows == 1 && OnActivate(a) == a
  {
  }

  /** A URL outside the allow-list never changes the windows. */
  lemma DeniedUrlOpensNothing(a: App, url: string, platform: string)
    requires WindowOpen(url) == Deny
    ensures Step(a, OpenWindow(url), platform) == a
  {
  }

  /** Elsewhere, closing the only window quits the application. */
  lemma ClosingLastWindowQuits(platform: string)
    requires platform != "darwin"
    ensures !Run(Launched, [Ready, CloseWindow], platform).running
  {
    assert [Ready, CloseWindow][1..] == [CloseWindow];
  }
}
