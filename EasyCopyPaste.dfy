/**
 * Form1: the tray application's decision layer. It turns the mouse hook's
 * events into synthetic copy and paste keystrokes, handles the
 * clipboard-update message in its window procedure, and asks the
 * notification window to announce changes.
 *
 * The keystrokes SendKeys would send are recorded, in order, in the log
 * `sent`; every ShowNotification request is recorded in `notices`; every
 * set of values SaveSettings writes to the registry is recorded in `saved`.
 * The clipboard is a parameter of each handler that reads it: None when it
 * holds no text, Some(t) when it holds the text t.
 */
module EasyCopyPaste {
  import opened Options
  import opened Hooks
  import opened Notifications

  /** The clipboard-update message a clipboard viewer window receives. */
  const WM_DRAWCLIPBOARD: int := 0x0308

  /** The notification texts Form1 shows. */
  const TextCopied: string := "Text copied"
  const EnabledText: string := "Enabled"
  const DisabledText: string := "Disabled"
  const SettingsSaved: string := "Settings saved"

  /** The synthetic keystrokes: Ctrl+C and Ctrl+V. */
  datatype Command = Copy | Paste

  /**
   * The part of Form1's state the input and clipboard handlers read and
   * write, with the logs of what they emit.
   */
  datatype Controller = Controller(
    enabled: bool,
    selecting: bool,
    lastCopiedText: string,
    sent: seq<Command>,
    notices: seq<string>)

  /** The state a freshly started application has before any input. */
  function Started(enabled: bool): (c: Controller)
    ensures c.enabled == enabled && !c.selecting && c.lastCopiedText == ""
    ensures c.sent == [] && c.notices == []
  {
    Controller(enabled, false, "", [], [])
  }

  /** Left button down: marks a selection in progress, whether or not the application is enabled. */
  function AfterMouseDown(c: Controller): (r: Controller)
    ensures r.selecting
    ensures r.enabled == c.enabled && r.lastCopiedText == c.lastCopiedText
    ensures r.sent == c.sent && r.notices == c.notices
  {
    c.(selecting := true)
  }

  /**
   * Left button up: when enabled and a selection is in progress, sends one
   * Ctrl+C and ends the selection; otherwise nothing changes at all (a
   * selection begun while disabled stays in progress).
   */
  function AfterMouseUp(c: Controller): (r: Controller)
    ensures c.enabled && c.selecting <==> r.sent == c.sent + [Copy]
    ensures c.enabled && c.selecting ==> r == c.(selecting := false, sent := c.sent + [Copy])
    ensures !(c.enabled && c.selecting) ==> r == c
  {
    if c.enabled && c.selecting then c.(sent := c.sent + [Copy], selecting := false) else c
  }

  /**
   * Middle button down: sends one Ctrl+V exactly when enabled and the
   * clipboard holds text (even empty text); nothing else ever changes.
   */
  function AfterMiddleClick(c: Controller, clip: Option<string>): (r: Controller)
    ensures c.enabled && clip.Some? <==> r.sent == c.sent + [Paste]
    ensures !(c.enabled && clip.Some?) <==> r.sent == c.sent
    ensures r.selecting == c.selecting && r.lastCopiedText == c.lastCopiedText
    ensures r.enabled == c.enabled && r.notices == c.notices
  {
    if c.enabled && clip.Some? then c.(sent := c.sent + [Paste]) else c
  }

  /**
   * When a window message announces new clipboard text: the message is
   * WM_DRAWCLIPBOARD, the application is enabled, the clipboard holds text,
   * and that text is neither empty nor the last text seen.
   */
  predicate IsNewCopy(c: Controller, msg: int, clip: Option<string>)
  {
    msg == WM_DRAWCLIPBOARD && c.enabled && clip.Some? && clip.value != "" && clip.value != c.lastCopiedText
  }

  /**
   * WndProc: remembers new clipboard text and asks for a "Text copied"
   * notification; any other message, a disabled application, a clipboard
   * without text, empty text or repeated text leaves everything unchanged.
   */
  function AfterWindowMessage(c: Controller, msg: int, clip: Option<string>): (r: Controller)
    ensures r != c <==> IsNewCopy(c, msg, clip)
    ensures IsNewCopy(c, msg, clip) ==>
      r == c.(lastCopiedText := clip.value, notices := c.notices + [TextCopied])
    ensures r.lastCopiedText == c.lastCopiedText || r.lastCopiedText == clip.value
  {
    if msg == WM_DRAWCLIPBOARD && c.enabled && clip.Some? then
      var newText := clip.value;
      if newText != "" && newText != c.lastCopiedText then
        c.(lastCopiedText := newText, notices := c.notices + [TextCopied])
      else c
    else c
  }

  /** OnToggleEnabled: takes the menu item's checked state and announces it. */
  function AfterToggle(c: Controller, checked: bool): (r: Controller)
    ensures r.enabled == checked
    ensures r.notices == c.notices + [if checked then EnabledText else DisabledText]
    ensures r.selecting == c.selecting && r.lastCopiedText == c.lastCopiedText && r.sent == c.sent
  {
    c.(enabled := checked, notices := c.notices + [if checked then EnabledText else DisabledText])
  }

  /** The inputs that reach the handlers. */
  datatype Input =
    | LeftDown
    | LeftUp
    | MiddleDown(clip: Option<string>)
    | WindowMessage(msg: int, clip: Option<string>)
    | Toggle(checked: bool)

  /** The input the mouse hook delivers for each of its events. */
  function MouseInput(e: MouseEvent, clip: Option<string>): Input
  {
    match e
    case MouseDown => LeftDown
    case MouseUp => LeftUp
    case MiddleClick => MiddleDown(clip)
  }

  function Step(c: Controller, i: Input): Controller
  {
    match i
    case LeftDown => AfterMouseDown(c)
    case LeftUp => AfterMouseUp(c)
    case MiddleDown(clip) => AfterMiddleClick(c, clip)
    case WindowMessage(msg, clip) => AfterWindowMessage(c, msg, clip)
    case Toggle(checked) => AfterToggle(c, checked)
  }

  /** The state after handling `inputs` in order. */
  function Run(c: Controller, inputs: seq<Input>): Controller
    decreases |inputs|
  {
    if inputs == [] then c else Run(Step(c, inputs[0]), inputs[1..])
  }

  lemma {:induction false} RunAppend(c: Controller, a: seq<Input>, b: seq<Input>)
    decreases |a|
    ensures Run(c, a + b) == Run(Run(c, a), b)
  {
    if a == [] {
      assert a + b == b;
    } else {
      assert (a + b)[0] == a[0] && (a + b)[1..] == a[1..] + b;
      RunAppend(Step(c, a[0]), a[1..], b);
    }
  }

  predicate NoToggle(inputs: seq<Input>)
  {
    forall i :: 0 <= i < |inputs| ==> !inputs[i].Toggle?
  }

  /**
   * While the application stays disabled, no input sequence sends a
   * keystroke, records clipboard text or asks for a notification; the only
   * thing that moves is the selection flag, which is set by any left button
   * down and never cleared.
   */
  lemma {:induction false} DisabledIsSilent(c: Controller, inputs: seq<Input>)
    requires !c.enabled && NoToggle(inputs)
    decreases |inputs|
    ensures Run(c, inputs) == c.(selecting := Run(c, inputs).selecting)
    ensures Run(c, inputs).selecting <==> c.selecting || LeftDown in inputs
  {
    if inputs != [] {
      assert NoToggle(inputs[1..]) by {
        forall i | 0 <= i < |inputs[1..]| ensures !inputs[1..][i].Toggle? {
          assert inputs[1..][i] == inputs[i + 1];
        }
      }
      assert !inputs[0].Toggle?;
      DisabledIsSilent(Step(c, inputs[0]), inputs[1..]);
      assert inputs == [inputs[0]] + inputs[1..];
    }
  }

  /** The number of Ctrl+C keystrokes in a log. */
  function Copies(log: seq<Command>): nat
    decreases |log|
  {
    if log == [] then 0 else Copies(log[..|log| - 1]) + (if log[|log| - 1] == Copy then 1 else 0)
  }

  /** The number of left button downs among the inputs. */
  function LeftDowns(inputs: seq<Input>): nat
    decreases |inputs|
  {
    if inputs == [] then 0 else (if inputs[0] == LeftDown then 1 else 0) + LeftDowns(inputs[1..])
  }

  function Selecting(c: Controller): nat
  {
    if c.selecting then 1 else 0
  }

  /**
   * One step only appends to the keystroke log, and appends a Ctrl+C only on
   * a left button up that ends a selection.
   */
  lemma StepCopies(c: Controller, i: Input)
    ensures c.sent <= Step(c, i).sent
    ensures Copies(Step(c, i).sent) + Selecting(Step(c, i))
         <= Copies(c.sent) + Selecting(c) + (if i == LeftDown then 1 else 0)
  {
    var r := Step(c, i);
    if r.sent != c.sent {
      var x := r.sent[|r.sent| - 1];
      assert r.sent == c.sent + [x];
      assert r.sent[..|r.sent| - 1] == c.sent;
    }
  }

  /**
   * No duplicate copies: every Ctrl+C is paid for by a distinct left button
   * down (or by the selection already in progress at the start), whatever
   * the interleaving of inputs and toggles.
   */
  lemma {:induction false} CopiesNeedLeftDowns(c: Controller, inputs: seq<Input>)
    decreases |inputs|
    ensures c.sent <= Run(c, inputs).sent
    ensures Copies(Run(c, inputs).sent) + Selecting(Run(c, inputs))
         <= Copies(c.sent) + Selecting(c) + LeftDowns(inputs)
  {
    if inputs != [] {
      StepCopies(c, inputs[0]);
      CopiesNeedLeftDowns(Step(c, inputs[0]), inputs[1..]);
    }
  }

  /** An enabled press-and-release sends exactly one Ctrl+C and ends the selection. */
  lemma PressReleaseCopiesOnce(c: Controller)
    requires c.enabled
    ensures Run(c, [LeftDown, LeftUp]) == c.(selecting := false, sent := c.sent + [Copy])
  {
    assert [LeftDown, LeftUp][1..] == [LeftUp];
    assert [LeftUp][1..] == [];
  }

  /** The WM_DRAWCLIPBOARD messages for a succession of clipboard contents. */
  function ClipboardUpdates(clips: seq<Option<string>>): (inputs: seq<Input>)
    decreases |clips|
    ensures |inputs| == |clips|
  {
    if clips == [] then []
    else ClipboardUpdates(clips[..|clips| - 1]) + [WindowMessage(WM_DRAWCLIPBOARD, clips[|clips| - 1])]
  }

  /** The last non-empty text among the clipboard contents, or `initial` if there is none. */
  function LastText(initial: string, clips: seq<Option<string>>): string
    decreases |clips|
  {
    if clips == [] then initial
    else
      var last := clips[|clips| - 1];
      if last.Some? && last.value != "" then last.value else LastText(initial, clips[..|clips| - 1])
  }

  /**
   * How many clipboard contents hold non-empty text that differs from the
   * last non-empty text before them (or from `initial`).
   */
  function Changes(initial: string, clips: seq<Option<string>>): nat
    decreases |clips|
  {
    if clips == [] then 0
    else
      var prefix := clips[..|clips| - 1];
      var last := clips[|clips| - 1];
      Changes(initial, prefix) + (if last.Some? && last.value != "" && last.value != LastText(initial, prefix) then 1 else 0)
  }

  /** `n` "Text copied" notices. */
  function TextCopiedTimes(n: nat): (s: seq<string>)
    ensures |s| == n
    ensures forall i :: 0 <= i < n ==> s[i] == TextCopied
  {
    if n == 0 then [] else TextCopiedTimes(n - 1) + [TextCopied]
  }

  /**
   * Clipboard deduplication over any succession of clipboard updates while
   * enabled: the remembered text ends as the last non-empty text, and one
   * "Text copied" notice is asked for per change, nothing else.
   */
  lemma {:induction false} ClipboardDedupe(c: Controller, clips: seq<Option<string>>)
    requires c.enabled
    decreases |clips|
    ensures Run(c, ClipboardUpdates(clips)) ==
      c.(lastCopiedText := LastText(c.lastCopiedText, clips),
         notices := c.notices + TextCopiedTimes(Changes(c.lastCopiedText, clips)))
  {
    if clips == [] {
      assert c.notices + [] == c.notices;
    } else {
      var prefix := clips[..|clips| - 1];
      var last := clips[|clips| - 1];
      var m := WindowMessage(WM_DRAWCLIPBOARD, last);
      ClipboardDedupe(c, prefix);
      RunAppend(c, ClipboardUpdates(prefix), [m]);
      var d := Run(c, ClipboardUpdates(prefix));
      assert Run(d, [m]) == Step(d, m) by {
        assert [m][1..] == [];
      }
      var n := Changes(c.lastCopiedText, prefix);
      assert c.notices + TextCopiedTimes(n) + [TextCopied] == c.notices + TextCopiedTimes(n + 1);
    }
  }

  /** The example sequence "", "Hello", "Hello", "World" asks for exactly two notices. */
  lemma ClipboardDedupeExample(c: Controller)
    requires c.enabled && c.lastCopiedText == ""
    ensures Run(c, ClipboardUpdates([Some(""), Some("Hello"), Some("Hello"), Some("World")])) ==
      c.(lastCopiedText := "World", notices := c.notices + [TextCopied, TextCopied])
  {
    var clips := [Some(""), Some("Hello"), Some("Hello"), Some("World")];
    ClipboardDedupe(c, clips);
    assert clips[..3] == [Some(""), Some("Hello"), Some("Hello")];
    assert clips[..3][..2] == [Some(""), Some("Hello")];
    assert clips[..3][..2][..1] == [Some("")];
    assert clips[..3][..2][..1][..0] == [];
    assert LastText("", clips[..3][..2][..1]) == "";
    assert LastText("", clips[..3][..2]) == "Hello";
    assert LastText("", clips[..3]) == "Hello";
    assert Changes("", clips[..3][..2][..1]) == 0;
    assert Changes("", clips[..3][..2]) == 1;
    assert Changes("", clips[..3]) == 1;
    assert Changes("", clips) == 2;
    assert TextCopiedTimes(2) == [TextCopied, TextCopied];
  }

  /** The values SaveSettings writes under the registry key; None when a value is absent. */
  datatype StoredSettings = StoredSettings(startWithWindows: Option<int>, enabled: Option<int>)

  /** How LoadSettings reads one value: absent counts as 1, and 1 means true. */
  function FlagOf(value: Option<int>): bool
  {
    (match value case None => 1 case Some(v) => v) == 1
  }

  /** What SaveSettings writes: 1 for true, 0 for false; LoadSettings reads back the same flags. */
  function Encode(startWithWindows: bool, enabled: bool): (r: StoredSettings)
    ensures FlagOf(r.startWithWindows) == startWithWindows && FlagOf(r.enabled) == enabled
    ensures r.startWithWindows.Some? && r.enabled.Some?
  {
    StoredSettings(Some(if startWithWindows then 1 else 0), Some(if enabled then 1 else 0))
  }

  /** The notification window after ShowNotification, which skips a disposed window. */
  function Notified(s: FadeState, message: string, workingArea: Rectangle): (r: FadeState)
    ensures s.disposed ==> r == s
    ensures !s.disposed ==> r.text == message && r.visible && r.timerRunning && r.opacity == FullOpacity
  {
    if s.disposed then s else Shown(s, message, workingArea)
  }

  class Form1 {
    var isEnabled: bool
    var lastCopiedText: string
    var startWithWindows: bool
    var isSelecting: bool
    var settingsModified: bool
    var sent: seq<Command>
    var notices: seq<string>
    var saved: seq<StoredSettings>
    var exited: bool
    const mouseHook: Hook
    const notification: CustomNotification

    function State(): Controller
      reads this
    {
      Controller(isEnabled, isSelecting, lastCopiedText, sent, notices)
    }

    ghost predicate Valid()
      reads this, mouseHook, notification
    {
      mouseHook.Valid() && notification.Valid()
    }

    /**
     * Creates the notification window and the hook, installs the hook
     * (`hookHandle` is what the system returned for it) and loads the
     * settings: `key` is None when the registry key does not exist.
     */
    constructor (hookHandle: int, key: Option<StoredSettings>)
      ensures Valid() && fresh(mouseHook) && fresh(notification)
      ensures State() == Started(if key.Some? then FlagOf(key.value.enabled) else true)
      ensures startWithWindows == if key.Some? then FlagOf(key.value.startWithWindows) else true
      ensures !settingsModified && saved == [] && !exited
      ensures mouseHook.State() == HookState(hookHandle, false, [])
      ensures notification.State() == Initial()
    {
      isEnabled := true;
      lastCopiedText := "";
      startWithWindows := true;
      isSelecting := false;
      settingsModified := false;
      sent, notices, saved := [], [], [];
      exited := false;
      notification := new CustomNotification();
      mouseHook := new Hook();
      new;
      mouseHook.Start(hookHandle);
      if key.Some? {
        startWithWindows := FlagOf(key.value.startWithWindows);
        isEnabled := FlagOf(key.value.enabled);
      }
    }

    method OnMouseDown()
      modifies this`isSelecting
      ensures State() == AfterMouseDown(old(State()))
    {
      isSelecting := true;
    }

    method OnMouseUp()
      modifies this`isSelecting, this`sent
      ensures State() == AfterMouseUp(old(State()))
    {
      if isEnabled && isSelecting {
        sent := sent + [Copy];
        isSelecting := false;
      }
    }

    method OnMiddleClick(clip: Option<string>)
      modifies this`sent
      ensures State() == AfterMiddleClick(old(State()), clip)
    {
      if isEnabled && clip.Some? {
        sent := sent + [Paste];
      }
    }

    /**
     * One call of the mouse hook: the event the message raises, if any, is
     * handled by its subscriber, and the message is passed along the chain.
     * The next hook is a pure function here, so the order of the two is not
     * represented.
     */
    method MouseHookMessage(nCode: int, wParam: int, lParam: int,
                            callNextHookEx: (int, int, int, int) -> int, clip: Option<string>)
      returns (r: int)
      modifies this`isSelecting, this`sent
      ensures r == callNextHookEx(mouseHook.hookId, nCode, wParam, lParam)
      ensures State() ==
        match Classify(nCode, wParam)
        case None => old(State())
        case Some(e) => Step(old(State()), MouseInput(e, clip))
    {
      var raised;
      r, raised := mouseHook.HookCallback(nCode, wParam, lParam, callNextHookEx);
      match raised
      case None =>
      case Some(e) =>
        match e
        case MouseDown => OnMouseDown();
        case MouseUp => OnMouseUp();
        case MiddleClick => OnMiddleClick(clip);
    }

    method ShowNotification(message: string, workingArea: Rectangle)
      requires notification.Valid()
      modifies this`notices, notification
      ensures notification.Valid()
      ensures notices == old(notices) + [message]
      ensures notification.State() == Notified(old(notification.State()), message, workingArea)
    {
      notices := notices + [message];
      if !notification.disposed {
        notification.ShowMessage(message, workingArea);
      }
    }

    /** The window procedure's clipboard-change branch. */
    method WndProc(msg: int, clip: Option<string>, workingArea: Rectangle)
      requires Valid()
      modifies this`lastCopiedText, this`notices, notification
      ensures Valid()
      ensures State() == AfterWindowMessage(old(State()), msg, clip)
      ensures notification.State() ==
        if IsNewCopy(old(State()), msg, clip) then Notified(old(notification.State()), TextCopied, workingArea)
        else old(notification.State())
    {
      if msg == WM_DRAWCLIPBOARD && isEnabled {
        if clip.Some? {
          var newText := clip.value;
          if newText != "" && newText != lastCopiedText {
            lastCopiedText := newText;
            ShowNotification(TextCopied, workingArea);
          }
        }
      }
    }

    method SaveSettings()
      modifies this`saved
      ensures saved == old(saved) + [Encode(startWithWindows, isEnabled)]
    {
      saved := saved + [Encode(startWithWindows, isEnabled)];
    }

    method OnToggleEnabled(checked: bool, workingArea: Rectangle)
      requires Valid()
      modifies this, notification
      ensures Valid()
      ensures State() == AfterToggle(old(State()), checked)
      ensures settingsModified && startWithWindows == old(startWithWindows) && exited == old(exited)
      ensures saved == old(saved) + [Encode(startWithWindows, checked)]
      ensures notification.State() ==
        Notified(old(notification.State()), if checked then EnabledText else DisabledText, workingArea)
    {
      isEnabled := checked;
      settingsModified := true;
      SaveSettings();
      ShowNotification(if isEnabled then EnabledText else DisabledText, workingArea);
    }

    /**
     * The settings dialog's outcome: `accepted` when it closed with OK, and
     * the auto-start choice it returned.
     */
    method OnSettings(accepted: bool, autoStart: bool, workingArea: Rectangle)
      requires Valid()
      modifies this, notification
      ensures Valid()
      ensures accepted ==> startWithWindows == autoStart && settingsModified
      ensures accepted ==> saved == old(saved) + [Encode(autoStart, isEnabled)]
      ensures accepted ==> State() == old(State()).(notices := old(notices) + [SettingsSaved])
      ensures accepted ==> notification.State() == Notified(old(notification.State()), SettingsSaved, workingArea)
      ensures !accepted ==> unchanged(this, notification)
      ensures exited == old(exited)
    {
      if accepted {
        startWithWindows := autoStart;
        settingsModified := true;
        SaveSettings();
        ShowNotification(SettingsSaved, workingArea);
      }
    }

    /** Exit: saves only modified settings, unhooks, disposes the notification window and quits. */
    method OnExit()
      requires Valid()
      modifies this, mouseHook, notification
      ensures Valid() && exited
      ensures State() == old(State())
      ensures saved == old(saved) + (if old(settingsModified) then [Encode(startWithWindows, isEnabled)] else [])
      ensures mouseHook.State() == Stopped(old(mouseHook.State()))
      ensures startWithWindows == old(startWithWindows) && settingsModified == old(settingsModified)
      ensures notification.State() ==
        old(notification.State()).(visible := false, timerRunning := false, disposed := true)
    {
      if settingsModified {
        SaveSettings();
      }
      mouseHook.Stop();
      notification.Dispose();
      exited := true;
    }

    /**
     * Closing the form: a close by the user is cancelled (the form only
     * hides); any other close saves modified settings.
     */
    method OnFormClosing(userClosing: bool) returns (cancel: bool)
      modifies this`saved
      ensures cancel == userClosing
      ensures saved == old(saved) + (if !userClosing && settingsModified then [Encode(startWithWindows, isEnabled)] else [])
    {
      cancel := false;
      if userClosing {
        cancel := true;
      } else if settingsModified {
        SaveSettings();
      }
    }
  }
}
