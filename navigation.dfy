/**
 * The pure decisions of the interactive book viewer: which page a turn goes
 * to, when a turn counts as a loop back to the start, how a touch gesture is
 * classified, how clicks, keys and swipes become navigation commands, and what
 * the page indicator and the navigation arrows show.
 */
module Navigation {

  datatype Option<T> = None | Some(value: T)

  // Touch thresholds (pixels and milliseconds) of the swipe detector.
  const SwipeThreshold: int := 50    // minimum horizontal distance
  const SwipeRestraint: int := 100   // maximum vertical distance
  const SwipeAllowedTime: int := 300 // maximum duration

  // Animation lengths in milliseconds.
  const OpenDuration: int := 1000
  const CloseDuration: int := 1000
  const TurnDuration: int := 800

  // Viewports at most this wide use the mobile profile.
  const MobileBreakpoint: int := 768

  /** The mobile breakpoint test applied to the window width. */
  predicate IsMobile(width: int) {
    width <= MobileBreakpoint
  }

  // ---------------------------------------------------------------------
  // Page targets

  /** The page `nextPage` turns to: the following page, or page 0 from the last one. */
  function NextTarget(current: nat, pageCount: nat): (target: nat)
    ensures target == 0 <==> current + 1 >= pageCount
    ensures current < pageCount ==> target == (current + 1) % pageCount
  {
    if current < pageCount - 1 then current + 1 else 0
  }

  /** The page `previousPage` turns to, or None when it does nothing (at page 0). */
  function PreviousTarget(current: nat): (target: Option<nat>)
    ensures target.Some? <==> current > 0
    ensures target.Some? ==> target.value + 1 == current
  {
    if current > 0 then Some(current - 1) else None
  }

  /** The `isLooping` flag of a page turn: from the last page to page 0. */
  predicate IsLooping(from: nat, to: nat, pageCount: nat) {
    from == pageCount - 1 && to == 0
  }

  /** A turn made by `nextPage` is flagged as looping exactly when it wraps around. */
  lemma NextLoopsExactlyOnWrap(current: nat, pageCount: nat)
    requires current < pageCount
    ensures IsLooping(current, NextTarget(current, pageCount), pageCount)
            <==> NextTarget(current, pageCount) <= current
    ensures IsLooping(current, NextTarget(current, pageCount), pageCount)
            <==> current == pageCount - 1
  {
  }

  /**
   * The looping flag only looks at the indices, so a turn made by
   * `previousPage` is flagged as looping exactly in a two-page book, from page 1.
   */
  lemma PreviousLoopsOnlyInTwoPageBook(current: nat, pageCount: nat)
    requires current < pageCount && PreviousTarget(current).Some?
    ensures IsLooping(current, PreviousTarget(current).value, pageCount)
            <==> pageCount == 2 && current == 1
  {
  }

  /** The page reached by `count` successive `nextPage` targets from `start`. */
  function NextRunPage(start: nat, count: nat, pageCount: nat): nat
    decreases count
  {
    if count == 0 then start else NextRunPage(NextTarget(start, pageCount), count - 1, pageCount)
  }

  /** How many of those turns leave the last page, i.e. are flagged as looping. */
  function NextRunWraps(start: nat, count: nat, pageCount: nat): nat
    decreases count
  {
    if count == 0 then 0
    else (if start == pageCount - 1 then 1 else 0) + NextRunWraps(NextTarget(start, pageCount), count - 1, pageCount)
  }

  lemma DivModUnique(a: int, n: int, q: int, r: int)
    requires n > 0 && 0 <= r < n && a == q * n + r
    ensures a / n == q && a % n == r
  {
    var q', r' := a / n, a % n;
    assert a == q' * n + r';
    assert (q - q') * n == r' - r;
    if q > q' {
      MulAtLeast(q - q', n);
    } else if q < q' {
      MulAtLeast(q' - q, n);
    }
  }

  lemma MulAtLeast(x: int, n: int)
    requires x >= 1 && n > 0
    ensures x * n >= n
  {
  }

  /** One wrap-aware step of the closed form below. */
  lemma WrapArithmetic(s: nat, c: nat, n: nat)
    requires s < n && c >= 1
    ensures (NextTarget(s, n) + (c - 1)) % n == (s + c) % n
    ensures (if s == n - 1 then 1 else 0) + (NextTarget(s, n) + (c - 1)) / n == (s + c) / n
  {
    if s == n - 1 {
      var a := c - 1;
      assert (a / n + 1) * n == a / n * n + n;
      DivModUnique(a + n, n, a / n + 1, a % n);
    }
  }

  /**
   * From page s of an n-page book, N successive next turns reach page
   * (s + N) mod n and wrap from the last page to page 0 (s + N) div n times.
   */
  lemma {:induction false} NextRunClosedForm(start: nat, count: nat, pageCount: nat)
    requires start < pageCount
    ensures NextRunPage(start, count, pageCount) == (start + count) % pageCount
    ensures NextRunWraps(start, count, pageCount) == (start + count) / pageCount
    decreases count
  {
    if count == 0 {
      DivModUnique(start, pageCount, 0, start);
    } else {
      NextRunClosedForm(NextTarget(start, pageCount), count - 1, pageCount);
      WrapArithmetic(start, count, pageCount);
    }
  }

  // ---------------------------------------------------------------------
  // Touch gestures

  datatype TouchSample = TouchSample(x: int, y: int, time: int)

  /** Horizontal swipe direction: the finger moved right, moved left, or it was no swipe. */
  datatype Swipe = SwipeRight | SwipeLeft | NoSwipe

  function Abs(x: int): (r: nat)
    ensures r == x || r == -x
  {
    if x < 0 then -x else x
  }

  /** The swipe test of the touch-end handler, on the displacement and the elapsed time. */
  function ClassifySwipe(dx: int, dy: int, elapsed: int): (s: Swipe)
    ensures s != NoSwipe <==>
              elapsed <= SwipeAllowedTime && Abs(dx) >= SwipeThreshold && Abs(dy) <= SwipeRestraint
    ensures s == SwipeRight ==> dx >= SwipeThreshold
    ensures s == SwipeLeft ==> dx <= -SwipeThreshold
  {
    if elapsed <= SwipeAllowedTime && Abs(dx) >= SwipeThreshold && Abs(dy) <= SwipeRestraint then
      if dx > 0 then SwipeRight else SwipeLeft
    else
      NoSwipe
  }

  function Mirror(s: Swipe): Swipe {
    match s
    case SwipeRight => SwipeLeft
    case SwipeLeft => SwipeRight
    case NoSwipe => NoSwipe
  }

  /** Mirroring a gesture horizontally mirrors its classification. */
  lemma SwipeMirrorSymmetric(dx: int, dy: int, elapsed: int)
    ensures ClassifySwipe(-dx, dy, elapsed) == Mirror(ClassifySwipe(dx, dy, elapsed))
  {
  }

  /** The swipe of a touch sequence; without a recorded start it is never a swipe. */
  function TouchSwipe(start: Option<TouchSample>, end: TouchSample): (s: Swipe)
    ensures start.None? ==> s == NoSwipe
    ensures start.Some? ==>
              s == ClassifySwipe(end.x - start.value.x, end.y - start.value.y, end.time - start.value.time)
  {
    match start
    case None => NoSwipe
    case Some(b) => ClassifySwipe(end.x - b.x, end.y - b.y, end.time - b.time)
  }

  // ---------------------------------------------------------------------
  // Input routing

  datatype Command = OpenCommand | CloseCommand | NextCommand | PreviousCommand | NoCommand

  /** The click handler: ignored while animating; a hit opens a closed book and advances an open one. */
  function ClickCommand(isOpen: bool, isAnimating: bool, hit: bool): (c: Command)
    ensures c == OpenCommand <==> !isAnimating && hit && !isOpen
    ensures c == NextCommand <==> !isAnimating && hit && isOpen
    ensures c == NoCommand <==> isAnimating || !hit
  {
    if isAnimating then NoCommand
    else if !hit then NoCommand
    else if !isOpen then OpenCommand
    else NextCommand
  }

  /** The key handler: ignored while animating or closed; arrows turn, Escape closes. */
  function KeyCommand(isOpen: bool, isAnimating: bool, key: string): (c: Command)
    ensures c != NoCommand ==> isOpen && !isAnimating
    ensures isOpen && !isAnimating ==>
              (c == NextCommand <==> key == "ArrowRight") &&
              (c == PreviousCommand <==> key == "ArrowLeft") &&
              (c == CloseCommand <==> key == "Escape")
    ensures c != OpenCommand
  {
    if isAnimating || !isOpen then NoCommand
    else if key == "ArrowRight" then NextCommand
    else if key == "ArrowLeft" then PreviousCommand
    else if key == "Escape" then CloseCommand
    else NoCommand
  }

  /** The navigation a swipe asks for: a rightward swipe goes back, a leftward one forward. */
  function SwipeCommand(s: Swipe): (c: Command)
    ensures c == PreviousCommand <==> s == SwipeRight
    ensures c == NextCommand <==> s == SwipeLeft
    ensures c == NoCommand <==> s == NoSwipe
  {
    match s
    case SwipeRight => PreviousCommand
    case SwipeLeft => NextCommand
    case NoSwipe => NoCommand
  }

  /** The touch-end handler: ignored when closed or animating, otherwise the swipe's command. */
  function TouchEndCommand(isOpen: bool, isAnimating: bool, start: Option<TouchSample>, end: TouchSample): (c: Command)
    ensures c != NoCommand ==> isOpen && !isAnimating && start.Some?
    ensures c == NextCommand || c == PreviousCommand || c == NoCommand
    ensures isOpen && !isAnimating ==> c == SwipeCommand(TouchSwipe(start, end))
  {
    if !isOpen || isAnimating then NoCommand else SwipeCommand(TouchSwipe(start, end))
  }

  /** While an animation runs, no click, key or touch-end produces a command. */
  lemma RoutersIgnoreWhileAnimating(isOpen: bool, hit: bool, key: string, start: Option<TouchSample>, end: TouchSample)
    ensures ClickCommand(isOpen, true, hit) == NoCommand
    ensures KeyCommand(isOpen, true, key) == NoCommand
    ensures TouchEndCommand(isOpen, true, start, end) == NoCommand
  {
  }

  /** Worked gestures: right 80 / down 10 in 200 ms goes back, left 80 goes forward, down 150 is no swipe. */
  lemma SwipeExamples(start: TouchSample)
    ensures TouchSwipe(Some(start), TouchSample(start.x + 80, start.y + 10, start.time + 200)) == SwipeRight
    ensures TouchSwipe(Some(start), TouchSample(start.x - 80, start.y + 10, start.time + 200)) == SwipeLeft
    ensures TouchSwipe(Some(start), TouchSample(start.x + 80, start.y + 150, start.time + 200)) == NoSwipe
    ensures TouchSwipe(Some(start), TouchSample(start.x + 80, start.y + 10, start.time + 301)) == NoSwipe
  {
  }

  // ---------------------------------------------------------------------
  // Page indicator

  predicate IsDigit(c: char) {
    '0' <= c <= '9'
  }

  predicate AllDigits(s: string) {
    forall i :: 0 <= i < |s| ==> IsDigit(s[i])
  }

  function DigitChar(d: nat): (c: char)
    requires d < 10
    ensures IsDigit(c) && c as int - '0' as int == d
  {
    ('0' as int + d) as char
  }

  /** Decimal rendering of a number, as a template literal prints it. */
  function NatToString(n: nat): (s: string)
    ensures |s| >= 1 && AllDigits(s)
    ensures s[0] == '0' ==> n == 0
    decreases n
  {
    if n < 10 then [DigitChar(n)] else NatToString(n / 10) + [DigitChar(n % 10)]
  }

  /** The value of a decimal digit string. */
  function ParseNat(s: string): nat
    requires AllDigits(s)
  {
    if |s| == 0 then 0
    else 10 * ParseNat(s[..|s| - 1]) + (s[|s| - 1] as int - '0' as int)
  }

  /** Rendering a number in decimal loses nothing. */
  lemma {:induction false} ParseNatToString(n: nat)
    ensures ParseNat(NatToString(n)) == n
    decreases n
  {
    if n >= 10 {
      var p := NatToString(n / 10);
      assert NatToString(n)[..|NatToString(n)| - 1] == p;
      ParseNatToString(n / 10);
    }
  }

  /** The text of the page indicator: "Cover" when closed, "Page k of n" when open. */
  function IndicatorText(isOpen: bool, current: nat, pageCount: nat): (s: string)
    ensures !isOpen <==> s == "Cover"
  {
    if !isOpen then "Cover"
    else "Page " + NatToString(current + 1) + " of " + NatToString(pageCount)
  }

  /** Two digit strings each followed by a non-digit: equal joins mean equal digit strings. */
  lemma DigitPrefixUnique(a: string, x: string, b: string, y: string)
    requires AllDigits(a) && AllDigits(b)
    requires |x| > 0 && !IsDigit(x[0]) && |y| > 0 && !IsDigit(y[0])
    requires a + x == b + y
    ensures a == b
  {
    assert a == (a + x)[..|a|] == (b + y)[..|b|] == b;
  }

  /** The indicator text tells whether the book is open and, if it is, on which page. */
  lemma IndicatorDetermines(open1: bool, current1: nat, open2: bool, current2: nat, pageCount: nat)
    requires IndicatorText(open1, current1, pageCount) == IndicatorText(open2, current2, pageCount)
    ensures open1 == open2
    ensures open1 ==> current1 == current2
  {
    if open1 && open2 {
      var a, b := NatToString(current1 + 1), NatToString(current2 + 1);
      var tail := " of " + NatToString(pageCount);
      var s1, s2 := IndicatorText(open1, current1, pageCount), IndicatorText(open2, current2, pageCount);
      assert s1 == "Page " + (a + tail);
      assert s2 == "Page " + (b + tail);
      assert a + tail == s1[5..] == s2[5..] == b + tail;
      DigitPrefixUnique(a, tail, b, tail);
      ParseNatToString(current1 + 1);
      ParseNatToString(current2 + 1);
    }
  }

  // ---------------------------------------------------------------------
  // Navigation arrows

  datatype Arrows = Arrows(prevDisabled: bool, nextDisabled: bool)

  /**
   * `updateNavigationArrows`: when closed the arrows keep their state; when
   * open the previous arrow is disabled exactly when `previousPage` would do
   * nothing, and the next arrow is enabled.
   */
  function UpdatedArrows(isOpen: bool, current: nat, arrows: Arrows): (r: Arrows)
    ensures !isOpen ==> r == arrows
    ensures isOpen ==> (r.prevDisabled <==> PreviousTarget(current).None?) && !r.nextDisabled
  {
    if !isOpen then arrows else Arrows(current == 0, false)
  }
}
