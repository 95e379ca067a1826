/**
 * CustomNotification: the single transient overlay window that shows a
 * message, centred above the bottom of the primary screen's work area, and
 * fades it out on a timer.
 *
 * Opacity is held as a whole number of tenths (10 is fully opaque); each
 * timer tick lowers it by one tenth. The work area of the primary screen is
 * a parameter of ShowMessage.
 */
module Notifications {

  /** A screen rectangle, as System.Drawing.Rectangle: origin and size. */
  datatype Rectangle = Rectangle(x: int, y: int, width: int, height: int)
  {
    function Left(): int { x }
    function Right(): int { x + width }
    function Bottom(): int { y + height }
  }

  datatype Point = Point(x: int, y: int)

  /** The window's fixed size, in pixels. */
  const Width: int := 200
  const Height: int := 40
  /** The gap between the window's bottom edge and the work area's bottom. */
  const BottomMargin: int := 10
  /** Full opacity, in tenths. */
  const FullOpacity: int := 10

  /** Integer division by two rounding toward zero, as C#'s `/` on int. */
  function HalfTowardZero(a: int): (q: int)
    ensures a >= 0 ==> 0 <= a - 2 * q <= 1
    ensures a < 0 ==> -1 <= a - 2 * q <= 0
  {
    if a >= 0 then a / 2 else -((-a) / 2)
  }

  /**
   * Where PositionWindow places a window of the given size: its bottom edge
   * BottomMargin pixels above the work area's bottom, and horizontally
   * centred, any odd pixel of slack going to the right (to the left when the
   * window is wider than the work area, because the division truncates).
   */
  function PositionWindow(workingArea: Rectangle, width: int, height: int): (p: Point)
    ensures p.y + height == workingArea.Bottom() - BottomMargin
    ensures width <= workingArea.width ==>
      workingArea.Left() <= p.x && p.x + width <= workingArea.Right()
    ensures width <= workingArea.width ==>
      0 <= (workingArea.Right() - (p.x + width)) - (p.x - workingArea.Left()) <= 1
    ensures width > workingArea.width ==>
      -1 <= (workingArea.Right() - (p.x + width)) - (p.x - workingArea.Left()) <= 0
  {
    Point(workingArea.Left() + HalfTowardZero(workingArea.width - width),
          workingArea.Bottom() - height - BottomMargin)
  }

  /**
   * The observable state of the notification window: its text and location,
   * the `opacity` field the timer counts down, the opacity the form is
   * displayed with, whether it is shown, whether the fade timer runs, and
   * whether it has been disposed.
   */
  datatype FadeState = FadeState(
    text: string,
    location: Point,
    opacity: int,
    formOpacity: int,
    visible: bool,
    timerRunning: bool,
    disposed: bool)

  /**
   * Opacity stays between 0 and full; while the timer runs the window is
   * visible and shown with the opacity the timer has reached, which is at
   * least one tenth; a disposed window's timer is stopped.
   */
  ghost predicate FadeValid(s: FadeState)
  {
    && 0 <= s.opacity <= FullOpacity
    && 1 <= s.formOpacity <= FullOpacity
    && (s.timerRunning ==> s.visible && 1 <= s.opacity && s.formOpacity == s.opacity)
    && (s.disposed ==> !s.timerRunning)
  }

  /** The freshly constructed window: hidden, fully opaque, timer stopped. */
  function Initial(): (s: FadeState)
    ensures FadeValid(s) && !s.visible && !s.timerRunning && !s.disposed
    ensures s.opacity == FullOpacity && s.formOpacity == FullOpacity
  {
    FadeState("", Point(0, 0), FullOpacity, FullOpacity, false, false, false)
  }

  /**
   * The state after ShowMessage(message): whatever came before, including a
   * fade in progress, the window shows the new text at full opacity, placed
   * by PositionWindow, with the timer running.
   */
  function Shown(s: FadeState, message: string, workingArea: Rectangle): (r: FadeState)
    requires !s.disposed
    ensures FadeValid(r) && !r.disposed
    ensures r.text == message && r.visible && r.timerRunning
    ensures r.opacity == FullOpacity && r.formOpacity == FullOpacity
    ensures r.location.y + Height == workingArea.Bottom() - BottomMargin
    ensures Width <= workingArea.width ==>
      workingArea.Left() <= r.location.x && r.location.x + Width <= workingArea.Right()
  {
    FadeState(message, PositionWindow(workingArea, Width, Height), FullOpacity, FullOpacity, true, true, false)
  }

  /**
   * The state after one timer tick: opacity drops by one tenth; when it
   * reaches zero the timer stops and the window hides (keeping the form's
   * last displayed opacity), otherwise the form shows the new opacity.
   */
  function Ticked(s: FadeState): (r: FadeState)
    requires FadeValid(s) && s.timerRunning
    ensures FadeValid(r)
    ensures r.opacity == s.opacity - 1
    ensures r.timerRunning <==> r.opacity > 0
    ensures r.visible <==> r.opacity > 0
    ensures r.text == s.text && r.location == s.location && r.disposed == s.disposed
    ensures r.formOpacity == if r.opacity > 0 then r.opacity else s.formOpacity
  {
    var o := s.opacity - 1;
    if o <= 0 then s.(opacity := o, timerRunning := false, visible := false)
    else s.(opacity := o, formOpacity := o)
  }

  /**
   * The state after `n` timer intervals with no other call in between: a
   * stopped timer raises no further ticks.
   */
  function Ticks(s: FadeState, n: nat): (r: FadeState)
    requires FadeValid(s)
    decreases n
    ensures FadeValid(r)
    ensures r.text == s.text && r.location == s.location && r.disposed == s.disposed
    ensures r.opacity <= s.opacity
  {
    if n == 0 || !s.timerRunning then s else Ticks(Ticked(s), n - 1)
  }

  /**
   * While the timer runs, `k` ticks lower the opacity by exactly `k` tenths,
   * and the window is still visible exactly when opacity is left.
   */
  lemma {:induction false} FadeCountsDown(s: FadeState, k: nat)
    requires FadeValid(s) && s.timerRunning && k <= s.opacity
    decreases k
    ensures Ticks(s, k).opacity == s.opacity - k
    ensures Ticks(s, k).visible <==> k < s.opacity
    ensures Ticks(s, k).timerRunning <==> k < s.opacity
    ensures Ticks(s, k).formOpacity == if k < s.opacity then s.opacity - k else 1
  {
    if k > 0 {
      var t := Ticked(s);
      if k - 1 > 0 {
        FadeCountsDown(t, k - 1);
      }
    }
  }

  /** Once the timer has stopped, further intervals change nothing. */
  lemma StoppedStaysStopped(s: FadeState, n: nat)
    requires FadeValid(s) && !s.timerRunning
    ensures Ticks(s, n) == s
  {
  }

  /**
   * The fade trace after ShowMessage: after k ticks (k at most 10) the
   * opacity is 10 - k tenths; the window stays visible for the first nine
   * ticks and is hidden, with its timer stopped, by the tenth.
   */
  lemma FadeAfterShow(s: FadeState, message: string, workingArea: Rectangle, k: nat)
    requires !s.disposed && k <= FullOpacity
    ensures Ticks(Shown(s, message, workingArea), k).opacity == FullOpacity - k
    ensures Ticks(Shown(s, message, workingArea), k).visible <==> k < FullOpacity
    ensures Ticks(Shown(s, message, workingArea), k).timerRunning <==> k < FullOpacity
    ensures Ticks(Shown(s, message, workingArea), k).text == message
  {
    FadeCountsDown(Shown(s, message, workingArea), k);
  }

  /**
   * Ten ticks end the fade for good: however many more intervals pass, the
   * window stays hidden at zero opacity.
   */
  lemma {:induction false} FadeEndsAfterTenTicks(s: FadeState, message: string, workingArea: Rectangle, n: nat)
    requires !s.disposed && n >= FullOpacity
    ensures Ticks(Shown(s, message, workingArea), n) == Ticks(Shown(s, message, workingArea), FullOpacity)
    ensures !Ticks(Shown(s, message, workingArea), n).visible
    ensures Ticks(Shown(s, message, workingArea), n).opacity == 0
  {
    var t := Shown(s, message, workingArea);
    TicksSplit(t, FullOpacity, n - FullOpacity);
    FadeCountsDown(t, FullOpacity);
    StoppedStaysStopped(Ticks(t, FullOpacity), n - FullOpacity);
  }

  /** Intervals compose: m + n intervals are m intervals followed by n. */
  lemma {:induction false} TicksSplit(s: FadeState, m: nat, n: nat)
    requires FadeValid(s)
    decreases m
    ensures Ticks(s, m + n) == Ticks(Ticks(s, m), n)
  {
    if m > 0 && s.timerRunning {
      TicksSplit(Ticked(s), m - 1, n);
    }
  }

  /**
   * A second ShowMessage pre-empts a fade in progress: after any number of
   * ticks of the first message, showing a new one gives the same state as
   * showing it on a fresh window.
   */
  lemma ShowPreemptsFade(s: FadeState, first: string, second: string, workingArea: Rectangle, k: nat)
    requires !s.disposed
    ensures Ticks(Shown(s, first, workingArea), k).disposed == false
    ensures Shown(Ticks(Shown(s, first, workingArea), k), second, workingArea) == Shown(Initial(), second, workingArea)
  {
  }

  class CustomNotification {
    var text: string
    var location: Point
    var opacity: int
    var formOpacity: int
    var visible: bool
    var timerRunning: bool
    var disposed: bool

    function State(): FadeState
      reads this
    {
      FadeState(text, location, opacity, formOpacity, visible, timerRunning, disposed)
    }

    ghost predicate Valid()
      reads this
    {
      FadeValid(State())
    }

    constructor ()
      ensures Valid() && State() == Initial()
    {
      text, location := "", Point(0, 0);
      opacity, formOpacity := FullOpacity, FullOpacity;
      visible, timerRunning, disposed := false, false, false;
    }

    /** Shows `message` at full opacity and (re)starts the fade. */
    method ShowMessage(message: string, workingArea: Rectangle)
      requires Valid() && !disposed
      modifies this
      ensures Valid() && State() == Shown(old(State()), message, workingArea)
    {
      text := message;
      location := PositionWindow(workingArea, Width, Height);
      opacity := FullOpacity;
      formOpacity := opacity;
      timerRunning := false;
      visible := true;
      timerRunning := true;
    }

    /** One tick of the fade timer; the timer only ticks while it runs. */
    method FadeTimerTick()
      requires Valid() && timerRunning
      modifies this
      ensures Valid() && State() == Ticked(old(State()))
    {
      opacity := opacity - 1;
      if opacity <= 0 {
        timerRunning := false;
        visible := false;
      } else {
        formOpacity := opacity;
      }
    }

    /** Closes the window for good: hidden, timer stopped, never shown again. */
    method Dispose()
      requires Valid()
      modifies this
      ensures Valid()
      ensures State() == old(State()).(visible := false, timerRunning := false, disposed := true)
    {
      visible, timerRunning, disposed := false, false, true;
    }
  }
}
