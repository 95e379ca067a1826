# EasyCopyPaste: a Dafny model of the event-decision layer

EasyCopyPaste is a Windows tray utility. It sends Ctrl+C after every
left-button press and release while it is enabled, whether or not the mouse
was dragged. It sends Ctrl+V on a middle click when the clipboard holds text.
Its window procedure handles the clipboard-update message WM_DRAWCLIPBOARD:
on new text it shows a small fading "Text copied" window.

This project models the decision layer of `EasyCopyPaste/Form1.cs` in Dafny.
That file holds three classes:

- `Hooks` (Hooks.dfy) models the `Hook` class, the low-level mouse hook.
  `Classify` maps a hook code and a mouse message to at most one event.
  The class `Hooks.Hook` keeps the hook handle (`hookId`, 0 when none is
  installed) and the `disposed` flag. It records every handle passed to
  UnhookWindowsHookEx in the log `unhooked`. Its state transitions are the
  functions `Stopped` and `Disposed`.
- `Notifications` (Notifications.dfy) models `CustomNotification`, the
  overlay window. `PositionWindow` computes its placement. Opacity is a
  whole number of tenths, from 10 (opaque) down to 0. The class
  `Notifications.CustomNotification` shows a message and counts the fade
  down one tenth per timer tick. Its transitions are the functions `Shown`
  and `Ticked`. `Ticks` gives the state after n undisturbed timer intervals.
- `EasyCopyPaste` (EasyCopyPaste.dfy) models `Form1`. It holds the mouse-hook
  handlers, the WM_DRAWCLIPBOARD branch of `WndProc`, the enable toggle, the
  settings and exit handlers, and the `settingsModified` flag. The class
  `EasyCopyPaste.Form1` holds these fields and owns one `Hook` and one
  `CustomNotification`. The functions `AfterMouseDown`, `AfterMouseUp`,
  `AfterMiddleClick`, `AfterWindowMessage` and `AfterToggle` specify the
  handlers on a `Controller` value. `Run` folds them over a sequence of
  inputs, and the lemmas about `Run` state the sequence-level properties.

The model treats the outside world as follows:

- Keystrokes sent with SendKeys (Ctrl+C, Ctrl+V) are appended to the log
  `sent`.
- Every ShowNotification request is appended to `notices`.
- Each set of registry values SaveSettings writes is appended to `saved`.
- The clipboard is a parameter of each handler that reads it: `None` when it
  holds no text, `Some(t)` when it holds text `t`.
- The primary screen's work area is a parameter of `ShowMessage`.
- The handle SetWindowsHookEx returns is a parameter of `Start`.
- CallNextHookEx is a function parameter of `HookCallback`.

Where the code differs from what a reader of the tool's description would
expect, the model follows the code:

- A mouse-down sets the selection flag even while the application is
  disabled.
- A mouse-up while disabled leaves the selection flag set.
- The copy keystroke is sent inside the mouse-up handler after a blocking
  100 ms sleep. It is not scheduled as a deferred action.
- The clipboard handler does nothing while the application is disabled.
- The clipboard handler ignores empty text as well as non-text content.
- The code keeps no revision counter for the clipboard text.

## Model

| member | source | states |
|---|---|---|
| `Hooks.MessageCode` | EasyCopyPaste/Form1.cs:370-372 | each event is raised by one of the three button messages 0x0201, 0x0202, 0x0207 |
| `Hooks.Classify` | EasyCopyPaste/Form1.cs:424-440 | an event is raised iff nCode >= 0 and the message is one of the three button messages, and it is the event whose message that is; otherwise none |
| `Hooks.ClassifyInvertsMessageCode` | EasyCopyPaste/Form1.cs:428-439 | for a non-negative code, classifying an event's message gives back that event (0x0201 MouseDown, 0x0202 MouseUp, 0x0207 MiddleClick) |
| `Hooks.Stopped` | EasyCopyPaste/Form1.cs:406-413 | Stop leaves the handle 0; it unhooks the old handle iff it was non-zero, and changes nothing iff it was zero; only non-zero handles are ever unhooked |
| `Hooks.Disposed` | EasyCopyPaste/Form1.cs:444-454 | Dispose marks the hook disposed; on an already disposed hook it changes nothing; otherwise it stops the hook only when disposing is true |
| `Hooks.StopIdempotent` | EasyCopyPaste/Form1.cs:406-413 | a second Stop is a no-op, and one Stop unhooks at most one handle |
| `Hooks.DisposeIdempotent` | EasyCopyPaste/Form1.cs:444-460 | any positive number of Dispose calls has exactly the effect of the first: at most one unhook, and the handle ends 0 unless the hook was already disposed |
| `Hooks.Hook.constructor` | EasyCopyPaste/Form1.cs:396-399 | a new hook has handle 0, is not disposed and has unhooked nothing |
| `Hooks.Hook.Start` | EasyCopyPaste/Form1.cs:401-404 | the handle becomes what registration returned (0 on failure); nothing else changes |
| `Hooks.Hook.Stop` | EasyCopyPaste/Form1.cs:406-413 | the new state is `Stopped` of the old one, and only non-zero handles are ever unhooked |
| `Hooks.Hook.HookCallback` | EasyCopyPaste/Form1.cs:424-442 | on every path it returns what CallNextHookEx returns for the current handle and the same arguments; it raises at most one event, exactly as `Classify` says |
| `Hooks.Hook.DisposeCore` | EasyCopyPaste/Form1.cs:444-454 | the new state is `Disposed(old state, disposing)`: Stop runs at most once over the object's life |
| `Hooks.Hook.Dispose` | EasyCopyPaste/Form1.cs:456-460 | the public Dispose is the disposing variant of `DisposeCore` |
| `Notifications.HalfTowardZero` | EasyCopyPaste/Form1.cs:337 | halving rounds toward zero as C#'s int division does: remainder in [0,1] for non-negative operands and in [-1,0] for negative ones |
| `Notifications.PositionWindow` | EasyCopyPaste/Form1.cs:333-340 | the window's bottom edge is 10 px above the work-area bottom; a window no wider than the work area lies horizontally inside it, centred with at most one extra pixel of slack on the right; a wider window overhangs by at most one more pixel on the right |
| `Notifications.Initial` | EasyCopyPaste/Form1.cs:284 | a new window is hidden, at full opacity (10 tenths, for the field and the form), with its timer stopped |
| `Notifications.Shown` | EasyCopyPaste/Form1.cs:313-331 | whatever the prior state, ShowMessage sets the text, full opacity, visibility and a running timer, and places the window as `PositionWindow` says |
| `Notifications.Ticked` | EasyCopyPaste/Form1.cs:342-354 | a tick lowers opacity by exactly one tenth; the timer stops and the window hides exactly when opacity reaches 0; otherwise the form shows the new opacity; text and place do not change |
| `Notifications.Ticks` | EasyCopyPaste/Form1.cs:342-354 | n intervals keep the window invariant and never raise opacity or change text or place |
| `Notifications.FadeCountsDown` | EasyCopyPaste/Form1.cs:342-354 | while the timer runs, k ticks lower opacity by exactly k tenths, and the window is visible and the timer runs exactly while opacity is left |
| `Notifications.StoppedStaysStopped` | EasyCopyPaste/Form1.cs:345-349 | once the timer has stopped, further intervals change nothing |
| `Notifications.FadeAfterShow` | EasyCopyPaste/Form1.cs:323-353 | after ShowMessage and k <= 10 ticks, opacity is 10 - k tenths; the window is visible for ticks 0 to 9 and hidden with the timer stopped at tick 10 |
| `Notifications.FadeEndsAfterTenTicks` | EasyCopyPaste/Form1.cs:342-354 | after ten or more intervals following ShowMessage, the window is hidden at opacity 0 and stays in the state the tenth tick left |
| `Notifications.ShowPreemptsFade` | EasyCopyPaste/Form1.cs:323-329 | ShowMessage issued at any point in a fade gives the same state as on a fresh window: the trace restarts at full opacity |
| `Notifications.CustomNotification.constructor` | EasyCopyPaste/Form1.cs:287-311 | the window starts in the `Initial` state |
| `Notifications.CustomNotification.ShowMessage` | EasyCopyPaste/Form1.cs:313-331 | the new state is `Shown(old state, message, work area)` and the fade invariant holds |
| `Notifications.CustomNotification.FadeTimerTick` | EasyCopyPaste/Form1.cs:342-354 | the new state is `Ticked(old state)` and the fade invariant holds |
| `Notifications.CustomNotification.Dispose` | EasyCopyPaste/Form1.cs:231 | disposal hides the window and stops the fade for good |
| `EasyCopyPaste.Started` | EasyCopyPaste/Form1.cs:14-18 | a new application is not selecting, has seen no text, and has sent and shown nothing |
| `EasyCopyPaste.AfterMouseDown` | EasyCopyPaste/Form1.cs:111-114 | mouse-down always sets selecting, whatever the enabled flag, and changes nothing else |
| `EasyCopyPaste.AfterMouseUp` | EasyCopyPaste/Form1.cs:101-109 | mouse-up sends exactly one Ctrl+C and ends the selection iff enabled and selecting; otherwise it changes nothing, so a disabled mouse-up leaves selecting set |
| `EasyCopyPaste.AfterMiddleClick` | EasyCopyPaste/Form1.cs:116-122 | a middle click sends one Ctrl+V iff enabled and the clipboard holds text, and otherwise sends nothing; it never changes selecting, the last copied text or the notices |
| `EasyCopyPaste.AfterWindowMessage` | EasyCopyPaste/Form1.cs:239-256 | the state changes iff the message is 0x0308, the app is enabled, the clipboard holds text, and the text is non-empty and differs from the last text seen; the change stores the text and asks for one "Text copied" notice |
| `EasyCopyPaste.AfterToggle` | EasyCopyPaste/Form1.cs:196-203 | the toggle sets enabled to the menu item's checked state and asks for an "Enabled" or "Disabled" notice |
| `EasyCopyPaste.DisabledIsSilent` | EasyCopyPaste/Form1.cs:101-122 | while disabled, no sequence of mouse and clipboard inputs sends a keystroke, stores text or asks for a notice; selecting ends set iff it was set or some mouse-down occurred |
| `EasyCopyPaste.CopiesNeedLeftDowns` | EasyCopyPaste/Form1.cs:101-114 | over any input sequence the keystroke log only grows, and each Ctrl+C is matched by a distinct mouse-down or by the selection already in progress |
| `EasyCopyPaste.PressReleaseCopiesOnce` | EasyCopyPaste/Form1.cs:101-114 | while enabled, a mouse-down followed by a mouse-up sends exactly one Ctrl+C and ends the selection |
| `EasyCopyPaste.ClipboardDedupe` | EasyCopyPaste/Form1.cs:239-256 | over any run of clipboard updates while enabled, the stored text ends as the last non-empty text; one "Text copied" notice is asked for per text that differs from the last non-empty text before it; nothing else changes |
| `EasyCopyPaste.ClipboardDedupeExample` | EasyCopyPaste/Form1.cs:243-252 | the clipboard sequence "", "Hello", "Hello", "World" asks for exactly two notices and leaves "World" stored |
| `EasyCopyPaste.Encode` | EasyCopyPaste/Form1.cs:167-178 | SaveSettings writes 1 or 0 for each flag, and LoadSettings' reading of those values gives back the same flags |
| `EasyCopyPaste.Notified` | EasyCopyPaste/Form1.cs:142-148 | ShowNotification leaves a disposed window alone and otherwise shows the message at full opacity with the fade running |
| `EasyCopyPaste.Form1.constructor` | EasyCopyPaste/Form1.cs:52-65 | the application starts with the hook installed under the returned handle and a fresh notification window; enabled and auto-start come from the registry key when it exists, and default to true |
| `EasyCopyPaste.Form1.OnMouseDown` | EasyCopyPaste/Form1.cs:111-114 | the new state is `AfterMouseDown` of the old; only the selection flag may change |
| `EasyCopyPaste.Form1.OnMouseUp` | EasyCopyPaste/Form1.cs:101-109 | the new state is `AfterMouseUp` of the old; only the selection flag and the keystroke log may change |
| `EasyCopyPaste.Form1.OnMiddleClick` | EasyCopyPaste/Form1.cs:116-122 | the new state is `AfterMiddleClick` of the old; only the keystroke log may change |
| `EasyCopyPaste.Form1.MouseHookMessage` | EasyCopyPaste/Form1.cs:424-442 | a hook call returns the next hook's result and runs exactly the handler of the event `Classify` gives, or none |
| `EasyCopyPaste.Form1.ShowNotification` | EasyCopyPaste/Form1.cs:142-148 | the request is logged, and the window is shown unless it has been disposed |
| `EasyCopyPaste.Form1.WndProc` | EasyCopyPaste/Form1.cs:239-256 | the new state is `AfterWindowMessage` of the old; the window shows "Text copied" exactly for a new copy and is otherwise untouched |
| `EasyCopyPaste.Form1.SaveSettings` | EasyCopyPaste/Form1.cs:167-178 | the current auto-start and enabled flags are written |
| `EasyCopyPaste.Form1.OnToggleEnabled` | EasyCopyPaste/Form1.cs:196-203 | enabled takes the checked state, settings are marked modified and saved with the new flag, and the matching notice is shown |
| `EasyCopyPaste.Form1.OnSettings` | EasyCopyPaste/Form1.cs:205-219 | an accepted dialog sets auto-start, marks settings modified, saves them and shows "Settings saved"; a cancelled one changes nothing |
| `EasyCopyPaste.Form1.OnExit` | EasyCopyPaste/Form1.cs:221-237 | exit saves iff settings were modified, stops the hook, disposes the notification window (hidden, timer stopped, nothing else changed) and quits; the handler state, auto-start and modified flags are untouched |
| `EasyCopyPaste.Form1.OnFormClosing` | EasyCopyPaste/Form1.cs:264-275 | a close by the user is cancelled; any other close saves iff settings were modified |

## Left out

- The P/Invoke layer is not modelled: SetWindowsHookEx, GetModuleHandle, the process-module lookup in SetHook (Form1.cs:415-422), UnhookWindowsHookEx and CallNextHookEx. These are foreign calls. The handle is a parameter of `Start`, unhooking is a log entry, and the next hook is a function parameter.
- HasSelectedText, GetGUIThreadInfo and GetForegroundWindow are not modelled. They are Win32 queries, and HasSelectedText is never called.
- SendKeys and the Clipboard API are I/O. They appear as the keystroke log and the clipboard parameter.
- The 100 ms Thread.Sleep before the copy keystroke is timing, which the model does not represent. The model only keeps its order: the keystroke is sent inside the mouse-up handler.
- The timer's 50 ms interval is not modelled. The fade is counted in ticks.
- NOTIFICATION_DURATION is declared but never read, so it is not modelled.
- Registry access is I/O and is not modelled: opening keys, SetStartup and its Run-key entry, and swallowed exceptions. LoadSettings is only the constructor's `key` parameter. SaveSettings is only the `saved` log.
- A registry value that is not an integer would make LoadSettings' cast throw, which is silently swallowed. The model does not represent that case.
- Tray-icon and menu construction are UI glue and are not modelled: UpdateTrayMenu, the menu item's Checked state, and trayIcon.Visible. The same holds for form visibility in OnLoad and OnFormClosing, and for CreateParams.
- The lock and InvokeRequired/Invoke marshaling in ShowMessage are left out. The model is single-threaded.
- Opacity is an integer count of tenths, not a float. In single-precision arithmetic, ten subtractions of 0.1f from 1.0f give a value just below zero. So the float code also hides the window on the tenth tick, as the integer model does.
- `Notifications.CustomNotification.FadeTimerTick` requires a running timer, because a stopped WinForms timer raises no Tick event.
- `Notifications.CustomNotification.Dispose`: this is the inherited Form.Dispose. The model reduces it to hidden, timer stopped and disposed.
- `Notifications.PositionWindow`: 32-bit overflow of the coordinate arithmetic is not modelled, because the integers are unbounded.
- `Hooks.Hook.HookCallback`: the cast of the IntPtr message to int is not modelled, because the message is taken as an int.
- GC.SuppressFinalize in Dispose is runtime bookkeeping with no effect on the model.
- `EasyCopyPaste.AfterWindowMessage`, `EasyCopyPaste.ClipboardDedupe` and `EasyCopyPaste.Form1.WndProc` describe what `WndProc` does if WM_DRAWCLIPBOARD arrives. Nothing in Form1.cs registers the form as a clipboard viewer (there is no SetClipboardViewer call, and the only imports are at Form1.cs:23-27 and 384-394), and the system sends that message only to windows in the viewer chain. So as written the branch at Form1.cs:243-253 is never reached; the model does not represent viewer registration.
- `EasyCopyPaste.Form1.constructor`: the constructor calls SetStartup(true) (Form1.cs:57) before LoadSettings (Form1.cs:64), so the Run registry key is rewritten to start at login on every launch, whatever setting is stored. The model sets only the `startWithWindows` field from the stored key and does not represent the Run key.
- Clipboard and SendKeys failures are not modelled. `Clipboard.ContainsText` in the middle-click handler (Form1.cs:118) and `ContainsText`/`GetText` in `WndProc` (Form1.cs:245-247) are not wrapped in a try, so a clipboard held by another process raises an exception out of the hook callback or the window procedure. A throwing `SendKeys.Send` at Form1.cs:106 would leave the selection flag set. The `Option<string>` clipboard parameter and the `sent` log cannot represent these paths; every handler in the model completes.
- `EasyCopyPaste.Form1.MouseHookMessage`: in the source the subscriber runs before CallNextHookEx. The model treats the next hook as a pure function, so it does not represent the order of the two.
- EasyCopyPaste/SettingsForm.cs is not part of this model. It is dialog layout; its outcome is the parameters of `OnSettings`.
- EasyCopyPaste/Program.cs is not part of this model. It is the single-instance mutex and a message box.
