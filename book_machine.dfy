/**
 * The state of the interactive book viewer as one value, and every way it
 * changes: the start and the completion of the open, close and page-turn
 * animations, `showPage`, the indicator and arrow updates, and the click,
 * key, touch and arrow-button handlers. Each function here is the value-level
 * meaning of a method of class Viewer.InteractiveBook: of the method of the same
 * name, or, for `HideAll`, `Click`, `Key`, `TouchStart` and `TouchEnd`, of
 * `HideAllPages`, `HandleClick`, `HandleKey`, `HandleTouchStart` and
 * `HandleTouchEnd`.
 *
 * An animation is an in-flight job, started by one call and completed by the
 * first animation frame whose elapsed time reaches the job's duration. Several
 * jobs can be in flight at once, because the arrow buttons start page turns
 * without looking at `isAnimating`.
 */
module BookMachine {
  import opened Navigation

  datatype JobKind = Opening | Closing | Turning(from: nat, to: nat, looping: bool)

  /** An animation in flight, with the time its first frame ran. */
  datatype Job = Job(kind: JobKind, start: int)

  /** What the page shows around the canvas. */
  datatype Ui = Ui(
    indicator: string,     // text of the page indicator
    arrowsShown: bool,     // the navigation arrows are displayed
    arrows: Arrows,        // their disabled flags
    hintShown: bool,       // the swipe hint is displayed
    popupShown: bool       // the purchase popup is displayed
  )

  datatype View = View(
    isOpen: bool,
    currentPage: nat,
    isAnimating: bool,
    visible: seq<bool>,             // `visible` of each page, in order
    coverVisible: bool,
    pageGroupVisible: bool,
    jobs: seq<Job>,
    touchStart: Option<TouchSample>, // the last touch start recorded while open
    ui: Ui,
    viewportWidth: int,
    mobileControls: bool,           // the control profile chosen by the breakpoint
    popups: nat                     // how many times the purchase popup was shown
  )

  function PageCount(v: View): nat {
    |v.visible|
  }

  predicate JobInRange(job: Job, pageCount: nat) {
    job.kind.Turning? ==> job.kind.from < pageCount && job.kind.to < pageCount
  }

  /**
   * The invariant: at least one page, the current page is one of them, every
   * turn in flight is between existing pages, and nothing is animating when no
   * job is in flight.
   */
  predicate Valid(v: View) {
    Shaped(v) && (v.jobs == [] ==> !v.isAnimating)
  }

  /**
   * What `isAnimating` is meant to guarantee: at most one animation in flight,
   * and the flag raised exactly while it runs. The arrow buttons can break it
   * (see BookProperties.SingleFlightKept for where it holds).
   */
  predicate SingleFlight(v: View) {
    |v.jobs| <= 1 && (v.isAnimating <==> v.jobs != [])
  }

  /** The part of the invariant that does not involve `isAnimating`. */
  predicate Shaped(v: View) {
    |v.visible| >= 1 &&
    v.currentPage < |v.visible| &&
    (forall j :: 0 <= j < |v.jobs| ==> JobInRange(v.jobs[j], |v.visible|))
  }

  /**
   * The book as it is once the page meshes are created: closed, at page 0,
   * nothing shown. The purchase popup does not exist before its first showing.
   */
  function Init(pageCount: nat, width: int, ui: Ui): (v: View)
    requires pageCount >= 1 && !ui.popupShown
    ensures Valid(v) && SingleFlight(v) && PageCount(v) == pageCount && v.popups == 0 && !v.ui.popupShown
    ensures !v.isOpen && v.currentPage == 0 && !v.isAnimating && v.jobs == []
  {
    View(false, 0, false, seq(pageCount, _ => false), true, false, [], None, ui, width, IsMobile(width), 0)
  }

  function Duration(kind: JobKind): int {
    match kind
    case Opening => OpenDuration
    case Closing => CloseDuration
    case Turning(_, _, _) => TurnDuration
  }

  /** A frame at time `now` completes the job: its progress has reached 1. */
  predicate Due(job: Job, now: int) {
    now - job.start >= Duration(job.kind)
  }

  function RemoveAt(jobs: seq<Job>, k: nat): (r: seq<Job>)
    requires k < |jobs|
    ensures |r| == |jobs| - 1
    ensures forall j :: 0 <= j < |r| ==> r[j] == (if j < k then jobs[j] else jobs[j + 1])
  {
    jobs[..k] + jobs[k + 1..]
  }

  // ---------------------------------------------------------------------
  // Pages, indicator, arrows, hint and popup

  /** Every page hidden; nothing else changes. */
  function HideAll(v: View): (r: View)
    ensures |r.visible| == |v.visible| && forall j :: 0 <= j < |r.visible| ==> !r.visible[j]
    ensures r == v.(visible := r.visible)
  {
    v.(visible := seq(|v.visible|, _ => false))
  }

  /** Only the indicator changes, and it reads "Cover" exactly when the book is closed. */
  function UpdatePageIndicator(v: View): (r: View)
    ensures r.ui.indicator == "Cover" <==> !v.isOpen
    ensures r == v.(ui := v.ui.(indicator := r.ui.indicator))
  {
    v.(ui := v.ui.(indicator := IndicatorText(v.isOpen, v.currentPage, |v.visible|)))
  }

  /** `showPage`: hide every page, then show page `index` and make it current when it exists. */
  function ShowPage(v: View, index: int): (r: View)
    ensures |r.visible| == |v.visible|
    ensures forall j :: 0 <= j < |r.visible| ==> (r.visible[j] <==> j == index)
    ensures r.currentPage == if 0 <= index < |v.visible| then index else v.currentPage
    ensures r == v.(visible := r.visible, currentPage := r.currentPage, ui := r.ui)
    ensures r.ui == v.ui.(indicator := IndicatorText(v.isOpen, r.currentPage, |v.visible|))
  {
    var w := HideAll(v);
    if 0 <= index < |w.visible| then
      UpdatePageIndicator(w.(visible := w.visible[index := true], currentPage := index))
    else
      UpdatePageIndicator(w)
  }

  /** Closed: nothing changes. Open: previous is disabled iff at page 0, next is enabled. */
  function UpdateNavigationArrows(v: View): (r: View)
    ensures !v.isOpen ==> r == v
    ensures v.isOpen ==> (r.ui.arrows.prevDisabled <==> v.currentPage == 0) && !r.ui.arrows.nextDisabled
    ensures r == v.(ui := v.ui.(arrows := r.ui.arrows))
  {
    v.(ui := v.ui.(arrows := UpdatedArrows(v.isOpen, v.currentPage, v.ui.arrows)))
  }

  function ShowNavigationArrows(v: View): (r: View)
    ensures r.ui.arrowsShown && r.ui.arrows == UpdatedArrows(v.isOpen, v.currentPage, v.ui.arrows)
    ensures r == v.(ui := v.ui.(arrowsShown := true, arrows := r.ui.arrows))
  {
    UpdateNavigationArrows(v.(ui := v.ui.(arrowsShown := true)))
  }

  function HideNavigationArrows(v: View): (r: View)
    ensures !r.ui.arrowsShown && r == v.(ui := v.ui.(arrowsShown := false))
  {
    v.(ui := v.ui.(arrowsShown := false))
  }

  /** The swipe hint is shown on mobile-width viewports only. */
  function ShowSwipeHint(v: View): (r: View)
    ensures r.ui.hintShown <==> IsMobile(v.viewportWidth) || v.ui.hintShown
    ensures r == v.(ui := v.ui.(hintShown := r.ui.hintShown))
  {
    if IsMobile(v.viewportWidth) then v.(ui := v.ui.(hintShown := true)) else v
  }

  function HideSwipeHint(v: View): (r: View)
    ensures !r.ui.hintShown && r == v.(ui := v.ui.(hintShown := false))
  {
    v.(ui := v.ui.(hintShown := false))
  }

  /** The popup is shown and counted once; nothing else changes. */
  function ShowPurchasePopup(v: View): (r: View)
    ensures r.ui.popupShown && r.popups == v.popups + 1
    ensures r == v.(ui := v.ui.(popupShown := true), popups := r.popups)
  {
    v.(ui := v.ui.(popupShown := true), popups := v.popups + 1)
  }

  function HidePurchasePopup(v: View): (r: View)
    ensures !r.ui.popupShown && r == v.(ui := v.ui.(popupShown := false))
  {
    v.(ui := v.ui.(popupShown := false))
  }

  // ---------------------------------------------------------------------
  // Starting animations

  /** `openBook` up to its first frame: animating, open, the page group shown. */
  function OpenBook(v: View, now: int): (r: View)
    ensures r.isOpen && r.isAnimating && r.pageGroupVisible && r.jobs == v.jobs + [Job(Opening, now)]
    ensures r == v.(isOpen := true, isAnimating := true, pageGroupVisible := true, jobs := r.jobs)
  {
    v.(isAnimating := true, isOpen := true, pageGroupVisible := true, jobs := v.jobs + [Job(Opening, now)])
  }

  /** `closeBook` up to its first frame: animating, closed, every page hidden, the cover shown. */
  function CloseBook(v: View, now: int): (r: View)
    ensures !r.isOpen && r.isAnimating && r.coverVisible && r.jobs == v.jobs + [Job(Closing, now)]
    ensures |r.visible| == |v.visible| && forall j :: 0 <= j < |r.visible| ==> !r.visible[j]
    ensures r == v.(isOpen := false, isAnimating := true, coverVisible := true, visible := r.visible, jobs := r.jobs)
  {
    var w := HideAll(v.(isAnimating := true, isOpen := false));
    w.(coverVisible := true, jobs := w.jobs + [Job(Closing, now)])
  }

  /** `animatePageTurn` up to its first frame: the target page shown, the source page hidden. */
  function AnimatePageTurn(v: View, from: nat, to: nat, now: int): (r: View)
    requires Valid(v) && from < |v.visible| && to < |v.visible|
    ensures Valid(r) && |r.visible| == |v.visible|
  {
    var w := v.(isAnimating := true);
    w.(visible := w.visible[to := true][from := false],
       jobs := w.jobs + [Job(Turning(from, to, IsLooping(from, to, |v.visible|)), now)])
  }

  function NextPage(v: View, now: int): (r: View)
    requires Valid(v)
    ensures Valid(r) && |r.visible| == |v.visible|
  {
    AnimatePageTurn(v, v.currentPage, NextTarget(v.currentPage, |v.visible|), now)
  }

  function PreviousPage(v: View, now: int): (r: View)
    requires Valid(v)
    ensures Valid(r) && |r.visible| == |v.visible|
  {
    match PreviousTarget(v.currentPage)
    case None => v
    case Some(t) => AnimatePageTurn(v, v.currentPage, t, now)
  }

  // ---------------------------------------------------------------------
  // Completing animations

  function CompleteOpen(v: View): (r: View)
    requires Shaped(v)
    ensures Valid(r) && |r.visible| == |v.visible|
    ensures !r.isAnimating && r.currentPage == 0
    ensures r.isOpen == v.isOpen && r.jobs == v.jobs && r.popups == v.popups && r.ui.popupShown == v.ui.popupShown
    ensures r.viewportWidth == v.viewportWidth && r.mobileControls == v.mobileControls
  {
    var w := ShowPage(v.(coverVisible := false, isAnimating := false), 0);
    ShowSwipeHint(ShowNavigationArrows(UpdatePageIndicator(w)))
  }

  function CompleteClose(v: View): (r: View)
    requires Shaped(v)
    ensures Valid(r) && |r.visible| == |v.visible|
    ensures !r.isAnimating && r.currentPage == 0
    ensures r.isOpen == v.isOpen && r.jobs == v.jobs && r.popups == v.popups && r.ui.popupShown == v.ui.popupShown
    ensures r.viewportWidth == v.viewportWidth && r.mobileControls == v.mobileControls
  {
    var w := v.(pageGroupVisible := false, isAnimating := false, currentPage := 0);
    HideSwipeHint(HideNavigationArrows(UpdatePageIndicator(w)))
  }

  function CompleteTurn(v: View, to: nat, looping: bool): (r: View)
    requires Shaped(v) && to < |v.visible|
    ensures Valid(r) && |r.visible| == |v.visible|
    ensures !r.isAnimating && r.currentPage == to
    ensures r.isOpen == v.isOpen && r.jobs == v.jobs
    ensures r.popups == v.popups + (if looping then 1 else 0) && r.ui.popupShown == (looping || v.ui.popupShown)
    ensures r.viewportWidth == v.viewportWidth && r.mobileControls == v.mobileControls
  {
    var w := UpdateNavigationArrows(UpdatePageIndicator(v.(currentPage := to, isAnimating := false)));
    if looping then ShowPurchasePopup(w) else w
  }

  function Complete(v: View, kind: JobKind): (r: View)
    requires Shaped(v) && JobInRange(Job(kind, 0), |v.visible|)
    ensures Valid(r) && |r.visible| == |v.visible| && !r.isAnimating
    ensures r.viewportWidth == v.viewportWidth && r.mobileControls == v.mobileControls
  {
    match kind
    case Opening => CompleteOpen(v)
    case Closing => CompleteClose(v)
    case Turning(_, to, looping) => CompleteTurn(v, to, looping)
  }

  /**
   * One animation frame of job `k` at time `now`. An opening frame shows the
   * page group every time; the frame whose elapsed time reaches the duration
   * completes the job and ends it.
   */
  function Frame(v: View, k: nat, now: int): (r: View)
    requires Valid(v) && k < |v.jobs|
    ensures Valid(r) && |r.visible| == |v.visible|
    ensures r.viewportWidth == v.viewportWidth && r.mobileControls == v.mobileControls
  {
    var job := v.jobs[k];
    var w := if job.kind.Opening? then v.(pageGroupVisible := true) else v;
    if !Due(job, now) then w
    else
      assert JobInRange(job, |v.visible|) && JobInRange(Job(job.kind, 0), |v.visible|);
      var u := w.(jobs := RemoveAt(w.jobs, k));
      assert forall j :: 0 <= j < |u.jobs| ==> u.jobs[j] == (if j < k then v.jobs[j] else v.jobs[j + 1]);
      Complete(u, job.kind)
  }

  // ---------------------------------------------------------------------
  // Input handlers

  function Execute(v: View, c: Command, now: int): (r: View)
    requires Valid(v)
    ensures Valid(r) && |r.visible| == |v.visible|
    ensures r.viewportWidth == v.viewportWidth && r.mobileControls == v.mobileControls
  {
    match c
    case OpenCommand => OpenBook(v, now)
    case CloseCommand => CloseBook(v, now)
    case NextCommand => NextPage(v, now)
    case PreviousCommand => PreviousPage(v, now)
    case NoCommand => v
  }

  /** `onMouseClick`, with the raycast reduced to whether the book was hit. */
  function Click(v: View, hit: bool, now: int): (r: View)
    requires Valid(v)
    ensures Valid(r) && |r.visible| == |v.visible|
    ensures v.isAnimating || !hit ==> r == v
    ensures r.isOpen == (v.isOpen || (hit && !v.isAnimating))
  {
    Execute(v, ClickCommand(v.isOpen, v.isAnimating, hit), now)
  }

  /** `onKeyDown`. */
  function Key(v: View, key: string, now: int): (r: View)
    requires Valid(v)
    ensures Valid(r) && |r.visible| == |v.visible|
    ensures v.isAnimating || !v.isOpen ==> r == v
    ensures r.isOpen == (v.isOpen && (v.isAnimating || key != "Escape"))
  {
    Execute(v, KeyCommand(v.isOpen, v.isAnimating, key), now)
  }

  /** The touch-start listener: the start of a gesture is recorded only while open. */
  function TouchStart(v: View, start: TouchSample): (r: View)
    ensures r.touchStart == if v.isOpen then Some(start) else v.touchStart
    ensures r == v.(touchStart := r.touchStart)
  {
    if !v.isOpen then v else v.(touchStart := Some(start))
  }

  /** The touch-end listener: a swipe hides the hint and turns the page. */
  function TouchEnd(v: View, end: TouchSample): (r: View)
    requires Valid(v)
    ensures Valid(r) && |r.visible| == |v.visible| && r.isOpen == v.isOpen
    ensures TouchSwipe(v.touchStart, end) == NoSwipe || !v.isOpen || v.isAnimating ==> r == v
  {
    var c := TouchEndCommand(v.isOpen, v.isAnimating, v.touchStart, end);
    if c == NoCommand then v else Execute(HideSwipeHint(v), c, end.time)
  }

  /** The resize listener's control profile switch. */
  function Resize(v: View, width: int): (r: View)
    ensures r.mobileControls <==> width <= MobileBreakpoint
    ensures r == v.(viewportWidth := width, mobileControls := r.mobileControls)
  {
    v.(viewportWidth := width, mobileControls := IsMobile(width))
  }

  // ---------------------------------------------------------------------
  // All events, for statements about every step

  datatype Event =
    | ClickEvent(hit: bool, now: int)
    | KeyEvent(key: string, now: int)
    | TouchStartEvent(sample: TouchSample)
    | TouchEndEvent(sample: TouchSample)
    | PrevArrowEvent(now: int)
    | NextArrowEvent(now: int)
    | FrameEvent(k: nat, now: int)
    | ResizeEvent(width: int)
    | DismissPopupEvent

  /**
   * A frame runs for a job in flight; a disabled arrow button delivers no
   * click (whether the arrows are displayed is up to the page's style sheet).
   */
  predicate Enabled(v: View, e: Event) {
    && (e.FrameEvent? ==> e.k < |v.jobs|)
    && (e.PrevArrowEvent? ==> !v.ui.arrows.prevDisabled)
    && (e.NextArrowEvent? ==> !v.ui.arrows.nextDisabled)
  }

  /** The effect of one event; every step keeps the invariant. */
  function Step(v: View, e: Event): (r: View)
    requires Valid(v) && Enabled(v, e)
    ensures Valid(r)
    ensures |r.visible| == |v.visible|
  {
    match e
    case ClickEvent(hit, now) => Click(v, hit, now)
    case KeyEvent(key, now) => Key(v, key, now)
    case TouchStartEvent(s) => TouchStart(v, s)
    case TouchEndEvent(s) => TouchEnd(v, s)
    case PrevArrowEvent(now) => PreviousPage(v, now)
    case NextArrowEvent(now) => NextPage(v, now)
    case FrameEvent(k, now) => Frame(v, k, now)
    case ResizeEvent(width) => Resize(v, width)
    case DismissPopupEvent => HidePurchasePopup(v)
  }
}
