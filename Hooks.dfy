/**
 * The low-level mouse hook: classification of hook messages into the three
 * mouse events the application subscribes to, and the hook handle's
 * install / uninstall / dispose life cycle.
 *
 * The operating system is abstract here: the handle SetWindowsHookEx returns
 * is a parameter of Start (0 when registration failed), CallNextHookEx is a
 * function parameter of HookCallback, and every UnhookWindowsHookEx call is
 * recorded, with the handle it was given, in the log `unhooked`.
 */
module Hooks {
  import opened Options

  /** The window messages a low-level mouse hook is called with. */
  const WM_LBUTTONDOWN: int := 0x0201
  const WM_LBUTTONUP: int := 0x0202
  const WM_MBUTTONDOWN: int := 0x0207

  /** The events Hook raises: MouseDown, MouseUp and MiddleClick. */
  datatype MouseEvent = MouseDown | MouseUp | MiddleClick

  /** The window message that raises each event. */
  function MessageCode(e: MouseEvent): (w: int)
    ensures w == WM_LBUTTONDOWN || w == WM_LBUTTONUP || w == WM_MBUTTONDOWN
  {
    match e
    case MouseDown => WM_LBUTTONDOWN
    case MouseUp => WM_LBUTTONUP
    case MiddleClick => WM_MBUTTONDOWN
  }

  /**
   * The event HookCallback raises for hook code `nCode` and message `wParam`:
   * at most one, and none at all when `nCode` is negative or the message is
   * not one of the three button messages.
   */
  function Classify(nCode: int, wParam: int): (r: Option<MouseEvent>)
    ensures r.Some? <==>
      nCode >= 0 && (wParam == WM_LBUTTONDOWN || wParam == WM_LBUTTONUP || wParam == WM_MBUTTONDOWN)
    ensures r.Some? ==> MessageCode(r.value) == wParam
  {
    if nCode < 0 then None
    else if wParam == WM_LBUTTONDOWN then Some(MouseDown)
    else if wParam == WM_LBUTTONUP then Some(MouseUp)
    else if wParam == WM_MBUTTONDOWN then Some(MiddleClick)
    else None
  }

  /** Classify inverts MessageCode on every non-negative hook code. */
  lemma ClassifyInvertsMessageCode(nCode: int, e: MouseEvent)
    requires nCode >= 0
    ensures Classify(nCode, MessageCode(e)) == Some(e)
  {
    match e
    case MouseDown =>
    case MouseUp =>
    case MiddleClick =>
  }

  /**
   * The abstract state of a Hook: the current handle (0 when none is
   * installed), the disposed flag, and the handles passed to
   * UnhookWindowsHookEx so far.
   */
  datatype HookState = HookState(hookId: int, disposed: bool, unhooked: seq<int>)

  /** Only real handles are ever passed to UnhookWindowsHookEx. */
  ghost predicate UnhooksOnlyHandles(s: HookState)
  {
    0 !in s.unhooked
  }

  /** The state after Stop. */
  function Stopped(s: HookState): (r: HookState)
    ensures r.hookId == 0 && r.disposed == s.disposed
    ensures s.hookId != 0 <==> r.unhooked == s.unhooked + [s.hookId]
    ensures s.hookId == 0 <==> r == s
    ensures UnhooksOnlyHandles(s) ==> UnhooksOnlyHandles(r)
  {
    if s.hookId != 0 then s.(unhooked := s.unhooked + [s.hookId], hookId := 0) else s
  }

  /** The state after Dispose(disposing). */
  function Disposed(s: HookState, disposing: bool): (r: HookState)
    ensures r.disposed
    ensures s.disposed ==> r == s
    ensures !s.disposed && disposing ==> r == Stopped(s).(disposed := true)
    ensures !s.disposed && !disposing ==> r == s.(disposed := true)
  {
    if !s.disposed then
      var t := if disposing then Stopped(s) else s;
      t.(disposed := true)
    else s
  }

  /** A second Stop changes nothing. */
  lemma StopIdempotent(s: HookState)
    ensures Stopped(Stopped(s)) == Stopped(s)
    ensures |Stopped(s).unhooked| <= |s.unhooked| + 1
  {
  }

  /** The state after `n` calls of Dispose(). */
  function DisposedTimes(s: HookState, n: nat): HookState
    decreases n
  {
    if n == 0 then s else DisposedTimes(Disposed(s, true), n - 1)
  }

  /**
   * Any number of Dispose() calls has the effect of the first one: the hook
   * is unhooked at most once and the handle ends up 0.
   */
  lemma {:induction false} DisposeIdempotent(s: HookState, n: nat)
    requires n > 0
    decreases n
    ensures DisposedTimes(s, n) == Disposed(s, true)
    ensures DisposedTimes(s, n).hookId == 0 || s.disposed
    ensures |DisposedTimes(s, n).unhooked| <= |s.unhooked| + 1
  {
    if n > 1 {
      DisposeIdempotent(Disposed(s, true), n - 1);
    }
  }

  class Hook {
    var hookId: int
    var disposed: bool
    var unhooked: seq<int>

    function State(): HookState
      reads this
    {
      HookState(hookId, disposed, unhooked)
    }

    ghost predicate Valid()
      reads this
    {
      UnhooksOnlyHandles(State())
    }

    constructor ()
      ensures Valid() && State() == HookState(0, false, [])
    {
      hookId, disposed, unhooked := 0, false, [];
    }

    /** Installs the hook; `handle` is what SetWindowsHookEx returned, 0 on failure. */
    method Start(handle: int)
      requires Valid()
      modifies this
      ensures Valid() && State() == old(State()).(hookId := handle)
    {
      hookId := handle;
    }

    /** Unhooks the current handle, if there is one, and forgets it. */
    method Stop()
      requires Valid()
      modifies this
      ensures Valid() && State() == Stopped(old(State()))
    {
      if hookId != 0 {
        unhooked := unhooked + [hookId];
        hookId := 0;
      }
    }

    /**
     * Called by the system for every mouse message: raises the event the
     * message stands for, if any, and passes the message on along the hook
     * chain on every path, returning what the next hook returned.
     */
    method HookCallback(nCode: int, wParam: int, lParam: int, callNextHookEx: (int, int, int, int) -> int)
      returns (r: int, raised: Option<MouseEvent>)
      ensures r == callNextHookEx(hookId, nCode, wParam, lParam)
      ensures raised.Some? <==>
        nCode >= 0 && (wParam == WM_LBUTTONDOWN || wParam == WM_LBUTTONUP || wParam == WM_MBUTTONDOWN)
      ensures raised.Some? ==> MessageCode(raised.value) == wParam
    {
      raised := Classify(nCode, wParam);
      r := callNextHookEx(hookId, nCode, wParam, lParam);
    }

    /** The dispose pattern's worker: stops the hook at most once. */
    method DisposeCore(disposing: bool)
      requires Valid()
      modifies this
      ensures Valid() && State() == Disposed(old(State()), disposing)
    {
      if !disposed {
        if disposing {
          Stop();
        }
        disposed := true;
      }
    }

    method Dispose()
      requires Valid()
      modifies this
      ensures Valid() && State() == Disposed(old(State()), true)
    {
      DisposeCore(true);
    }
  }
}
