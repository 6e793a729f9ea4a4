/**
 * What the viewer's state machine guarantees: what each animation does at its
 * start and at its completion, which events can change the current page, the
 * open flag and the purchase popup, how the input guards behave, and the
 * closed form of a read-through made of settled `next` turns.
 */
module BookProperties {
  import opened Navigation
  import opened BookMachine

  // ---------------------------------------------------------------------
  // showPage

  function CountVisible(s: seq<bool>): nat {
    if s == [] then 0 else CountVisible(s[..|s| - 1]) + (if s[|s| - 1] then 1 else 0)
  }

  /** Exactly the pages up to `n` equal to `index` are visible. */
  function OnlyVisible(n: nat, index: int): seq<bool> {
    seq(n, j => j == index)
  }

  lemma {:induction false} OnlyVisibleCount(n: nat, index: int)
    ensures CountVisible(OnlyVisible(n, index)) == if 0 <= index < n then 1 else 0
  {
    if n > 0 {
      assert OnlyVisible(n, index)[..n - 1] == OnlyVisible(n - 1, index);
      OnlyVisibleCount(n - 1, index);
    }
  }

  /**
   * `showPage(i)` hides every page; when `i` is a page it shows that page alone
   * and makes it current, otherwise no page is visible and the current page
   * stays. The indicator is refreshed; nothing else changes.
   */
  lemma ShowPageSpec(v: View, index: int)
    requires Valid(v)
    ensures var r := ShowPage(v, index);
      var n := |v.visible|;
      r.visible == OnlyVisible(n, index) &&
      CountVisible(r.visible) == (if 0 <= index < n then 1 else 0) &&
      r.currentPage == (if 0 <= index < n then index else v.currentPage) &&
      r.ui == v.ui.(indicator := IndicatorText(v.isOpen, r.currentPage, n)) &&
      r == v.(visible := r.visible, currentPage := r.currentPage, ui := r.ui)
  {
    var n := |v.visible|;
    OnlyVisibleCount(n, index);
    if 0 <= index < n {
      assert seq(n, _ => false)[index := true] == OnlyVisible(n, index);
    } else {
      assert seq(n, _ => false) == OnlyVisible(n, index);
    }
  }

  // ---------------------------------------------------------------------
  // Page turns

  /**
   * Starting a turn raises `isAnimating` and leaves the current page and the
   * open flag alone; it shows the target page, hides the source page (so a
   * turn from a page to itself leaves it hidden) and records the turn with its
   * looping flag.
   */
  lemma TurnStartSpec(v: View, from: nat, to: nat, now: int)
    requires Valid(v) && from < |v.visible| && to < |v.visible|
    ensures var r := AnimatePageTurn(v, from, to, now);
      r.isAnimating && r.currentPage == v.currentPage && r.isOpen == v.isOpen &&
      r.jobs == v.jobs + [Job(Turning(from, to, IsLooping(from, to, |v.visible|)), now)] &&
      |r.visible| == |v.visible| &&
      r.visible[to] == (to != from) && !r.visible[from] &&
      (forall j :: 0 <= j < |v.visible| && j != from && j != to ==> r.visible[j] == v.visible[j]) &&
      r.ui == v.ui && r.popups == v.popups
  {
  }

  /**
   * The completing frame of a turn commits the target page, clears
   * `isAnimating`, refreshes the indicator and the arrows, and shows the
   * purchase popup exactly when the turn was flagged as looping.
   */
  lemma TurnCompletionSpec(v: View, k: nat, now: int)
    requires Valid(v) && k < |v.jobs| && v.jobs[k].kind.Turning? && Due(v.jobs[k], now)
    ensures var r := Frame(v, k, now);
      var t := v.jobs[k].kind;
      r.currentPage == t.to && !r.isAnimating && r.isOpen == v.isOpen &&
      r.jobs == RemoveAt(v.jobs, k) &&
      r.ui.indicator == IndicatorText(v.isOpen, t.to, |v.visible|) &&
      r.ui.arrows == UpdatedArrows(v.isOpen, t.to, v.ui.arrows) &&
      r.ui.popupShown == (t.looping || v.ui.popupShown) &&
      r.popups == v.popups + (if t.looping then 1 else 0) &&
      r.visible == v.visible
  {
  }

  /** A turn started by `nextPage` shows the popup on completion exactly when it left the last page. */
  lemma NextTurnLoopsAtLastPage(v: View, now: int)
    requires Valid(v)
    ensures var r := NextPage(v, now);
      r.jobs[|r.jobs| - 1].kind.looping <==> v.currentPage == |v.visible| - 1
  {
    NextLoopsExactlyOnWrap(v.currentPage, |v.visible|);
  }

  /** `previousPage` at page 0 changes nothing at all. */
  lemma PreviousAtFirstPageIsNoOp(v: View, now: int)
    requires Valid(v) && v.currentPage == 0
    ensures PreviousPage(v, now) == v
  {
  }

  // ---------------------------------------------------------------------
  // Opening and closing

  /** Starting to open raises `isAnimating` and `isOpen` at once, before any frame. */
  lemma OpenStartSpec(v: View, now: int)
    requires Valid(v)
    ensures var r := OpenBook(v, now);
      r.isOpen && r.isAnimating && r.currentPage == v.currentPage && r.pageGroupVisible &&
      r.jobs == v.jobs + [Job(Opening, now)] && r.visible == v.visible
  {
  }

  /**
   * The completing frame of the opening hides the cover, clears
   * `isAnimating`, shows page 0 alone and shows the arrows and, on mobile, the
   * hint. For a book still open, the indicator and the arrows are those of
   * page 0. The frame does not look at `isOpen`: when the book was closed
   * meanwhile (possible when an arrow-started turn overlapped the opening),
   * the completion still hides the cover and shows page 0 of a closed book.
   */
  lemma OpenCompletionSpec(v: View, k: nat, now: int)
    requires Valid(v) && k < |v.jobs| && v.jobs[k].kind.Opening? && Due(v.jobs[k], now)
    ensures var r := Frame(v, k, now);
      !r.isAnimating && r.isOpen == v.isOpen && r.currentPage == 0 && !r.coverVisible && r.pageGroupVisible &&
      r.visible == OnlyVisible(|v.visible|, 0) &&
      r.ui.indicator == IndicatorText(v.isOpen, 0, |v.visible|) &&
      r.ui.arrowsShown && r.ui.arrows == UpdatedArrows(v.isOpen, 0, v.ui.arrows) &&
      (v.isOpen ==> r.ui.indicator == IndicatorText(true, 0, |v.visible|) && r.ui.arrows == Arrows(true, false)) &&
      (!v.isOpen ==> r.ui.indicator == "Cover" && r.ui.arrows == v.ui.arrows) &&
      r.ui.hintShown == (IsMobile(v.viewportWidth) || v.ui.hintShown) &&
      r.jobs == RemoveAt(v.jobs, k)
  {
    assert seq(|v.visible|, _ => false)[0 := true] == OnlyVisible(|v.visible|, 0);
  }

  /** Starting to close clears `isOpen` and hides every page at once. */
  lemma CloseStartSpec(v: View, now: int)
    requires Valid(v)
    ensures var r := CloseBook(v, now);
      !r.isOpen && r.isAnimating && r.currentPage == v.currentPage && r.coverVisible &&
      r.visible == OnlyVisible(|v.visible|, -1) && r.jobs == v.jobs + [Job(Closing, now)]
  {
    assert seq(|v.visible|, _ => false) == OnlyVisible(|v.visible|, -1);
  }

  /**
   * The completing frame of the closing resets the current page to 0, clears
   * `isAnimating`, hides the page group, the arrows and the hint.
   */
  lemma CloseCompletionSpec(v: View, k: nat, now: int)
    requires Valid(v) && k < |v.jobs| && v.jobs[k].kind.Closing? && Due(v.jobs[k], now)
    ensures var r := Frame(v, k, now);
      !r.isAnimating && r.isOpen == v.isOpen && r.currentPage == 0 && !r.pageGroupVisible &&
      r.ui.indicator == IndicatorText(v.isOpen, 0, |v.visible|) &&
      !r.ui.arrowsShown && !r.ui.hintShown && r.visible == v.visible &&
      r.jobs == RemoveAt(v.jobs, k)
  {
  }

  /** A frame before the job's duration has elapsed completes nothing. */
  lemma EarlyFrameCompletesNothing(v: View, k: nat, now: int)
    requires Valid(v) && k < |v.jobs| && !Due(v.jobs[k], now)
    ensures var r := Frame(v, k, now);
      r == v.(pageGroupVisible := r.pageGroupVisible) &&
      r.pageGroupVisible == (v.pageGroupVisible || v.jobs[k].kind.Opening?)
  {
  }

  /** Opening and then closing, each fully settled, returns a closed book at page 0 with no page shown. */
  lemma OpenThenCloseSettles(v: View, t1: int, t2: int)
    requires Valid(v) && v.jobs == [] && !v.isOpen
    requires t1 + OpenDuration <= t2
    ensures var a := Click(v, true, t1);
      |a.jobs| == 1 &&
      var b := Frame(a, 0, t1 + OpenDuration);
      b.isOpen && !b.isAnimating && b.jobs == [] && b.currentPage == 0 &&
      var c := Key(b, "Escape", t2);
      |c.jobs| == 1 &&
      var d := Frame(c, 0, t2 + CloseDuration);
      !d.isOpen && !d.isAnimating && d.jobs == [] && d.currentPage == 0 &&
      d.visible == OnlyVisible(|v.visible|, -1) && d.coverVisible &&
      d.ui.indicator == "Cover" && d.ui.popupShown == v.ui.popupShown
  {
    var n := |v.visible|;
    assert seq(n, _ => false)[0 := true] == OnlyVisible(n, 0);
    assert seq(n, _ => false) == OnlyVisible(n, -1);
  }

  // ---------------------------------------------------------------------
  // Every event

  /** Only the completing frame of an animation changes the current page. */
  lemma CurrentPageChangesOnlyOnCompletion(v: View, e: Event)
    requires Valid(v) && Enabled(v, e)
    requires Step(v, e).currentPage != v.currentPage
    ensures e.FrameEvent? && Due(v.jobs[e.k], e.now)
  {
  }

  /** Only a click on a closed book opens it, and only the Escape key closes it. */
  lemma OpenFlagChangesOnlyOnStart(v: View, e: Event)
    requires Valid(v) && Enabled(v, e)
    requires Step(v, e).isOpen != v.isOpen
    ensures (e.ClickEvent? && e.hit && !v.isOpen && !v.isAnimating) ||
            (e.KeyEvent? && e.key == "Escape" && v.isOpen && !v.isAnimating)
  {
    match e
    case FrameEvent(k, now) =>
      FrameKeepsOpenAndPopup(v, k, now);
      assert false;
    case TouchEndEvent(s) =>
      if v.isOpen && !v.isAnimating {
        TurnsKeepOpenAndPopup(HideSwipeHint(v), s.time);
      }
    case PrevArrowEvent(now) =>
      TurnsKeepOpenAndPopup(v, now);
    case NextArrowEvent(now) =>
      TurnsKeepOpenAndPopup(v, now);
    case _ =>
  }

  /** The purchase popup appears only at the completion of a looping turn, and then counts once. */
  lemma PopupOnlyOnLoopingCompletion(v: View, e: Event)
    requires Valid(v) && Enabled(v, e)
    requires Step(v, e).popups != v.popups || (!v.ui.popupShown && Step(v, e).ui.popupShown)
    ensures e.FrameEvent? && Due(v.jobs[e.k], e.now)
    ensures v.jobs[e.k].kind.Turning? && v.jobs[e.k].kind.looping
    ensures Step(v, e).popups == v.popups + 1 && Step(v, e).ui.popupShown
  {
    match e
    case FrameEvent(k, now) =>
      FrameKeepsOpenAndPopup(v, k, now);
    case ClickEvent(hit, now) =>
      TurnsKeepOpenAndPopup(v, now);
      assert false;
    case KeyEvent(key, now) =>
      TurnsKeepOpenAndPopup(v, now);
      assert false;
    case TouchEndEvent(s) =>
      if v.isOpen && !v.isAnimating {
        TurnsKeepOpenAndPopup(HideSwipeHint(v), s.time);
      }
      assert false;
    case PrevArrowEvent(now) =>
      TurnsKeepOpenAndPopup(v, now);
      assert false;
    case NextArrowEvent(now) =>
      TurnsKeepOpenAndPopup(v, now);
      assert false;
    case _ =>
  }

  /** Page-turn starts leave the open flag, the popup and its count alone. */
  lemma TurnsKeepOpenAndPopup(v: View, now: int)
    requires Valid(v)
    ensures NextPage(v, now).isOpen == v.isOpen && PreviousPage(v, now).isOpen == v.isOpen
    ensures NextPage(v, now).ui.popupShown == v.ui.popupShown && NextPage(v, now).popups == v.popups
    ensures PreviousPage(v, now).ui.popupShown == v.ui.popupShown && PreviousPage(v, now).popups == v.popups
  {
  }

  /**
   * A frame never changes the open flag, and it changes the popup only as the
   * completion of a looping turn.
   */
  lemma FrameKeepsOpenAndPopup(v: View, k: nat, now: int)
    requires Valid(v) && k < |v.jobs|
    ensures Frame(v, k, now).isOpen == v.isOpen
    ensures Frame(v, k, now).popups != v.popups || (!v.ui.popupShown && Frame(v, k, now).ui.popupShown) ==>
              Due(v.jobs[k], now) && v.jobs[k].kind.Turning? && v.jobs[k].kind.looping &&
              Frame(v, k, now).popups == v.popups + 1 && Frame(v, k, now).ui.popupShown
  {
    var job := v.jobs[k];
    if Due(job, now) && job.kind.Turning? {
      TurnCompletionSpec(v, k, now);
    }
  }

  /** The control profile follows the viewport width: every step keeps `mobileControls` in step with it. */
  lemma StepKeepsControlProfile(v: View, e: Event)
    requires Valid(v) && Enabled(v, e) && v.mobileControls == IsMobile(v.viewportWidth)
    ensures Step(v, e).mobileControls == IsMobile(Step(v, e).viewportWidth)
    ensures e.ResizeEvent? ==> Step(v, e).viewportWidth == e.width
    ensures !e.ResizeEvent? ==> Step(v, e).viewportWidth == v.viewportWidth
  {
  }

  /** While animating, clicks, keys and touch ends change nothing. */
  lemma GuardedHandlersIgnoredWhileAnimating(v: View, e: Event)
    requires Valid(v) && v.isAnimating
    requires e.ClickEvent? || e.KeyEvent? || e.TouchEndEvent?
    ensures Step(v, e) == v
  {
  }

  /**
   * Where the guards suffice: from a state with at most one animation in
   * flight and `isAnimating` raised exactly while it runs, every event keeps
   * that so, except a click on an arrow button while animating.
   */
  lemma SingleFlightKept(v: View, e: Event)
    requires Valid(v) && Enabled(v, e) && SingleFlight(v)
    requires !((e.PrevArrowEvent? || e.NextArrowEvent?) && v.isAnimating)
    ensures SingleFlight(Step(v, e))
  {
  }

  /** The arrow buttons are not guarded: the next arrow starts another turn even while animating. */
  lemma NextArrowStartsTurnWhileAnimating(v: View, now: int)
    requires Valid(v) && v.isAnimating && !v.ui.arrows.nextDisabled
    ensures |Step(v, NextArrowEvent(now)).jobs| == |v.jobs| + 1
  {
  }

  /**
   * Because of that, `isAnimating` can be false while a turn is still in
   * flight: two quick next-arrow clicks, then the first turn completes.
   */
  lemma AnimatingFlagClearedWhileTurnInFlight(v: View)
    requires Valid(v) && v.jobs == [] && |v.visible| >= 2 && !v.ui.arrows.nextDisabled
    ensures var a := Step(Step(v, NextArrowEvent(0)), NextArrowEvent(10));
      |a.jobs| == 2 &&
      var b := Step(a, FrameEvent(0, TurnDuration));
      |b.jobs| == 1 && !b.isAnimating
  {
  }

  // ---------------------------------------------------------------------
  // Reading through with settled next turns

  /** A `next` turn that runs to completion before anything else happens. */
  function SettledNext(v: View, now: int): (r: View)
    requires Valid(v) && v.jobs == []
    ensures Valid(r) && r.jobs == [] && |r.visible| == |v.visible| && r.isOpen == v.isOpen
    ensures r.currentPage == NextTarget(v.currentPage, |v.visible|)
    ensures r.popups == v.popups + (if v.currentPage == |v.visible| - 1 then 1 else 0)
  {
    var w := NextPage(v, now);
    NextLoopsExactlyOnWrap(v.currentPage, |v.visible|);
    assert |w.jobs| == 1;
    Frame(w, 0, now + TurnDuration)
  }

  /** `count` settled next turns, one after the other. */
  function ReadNext(v: View, count: nat, now: int): (r: View)
    requires Valid(v) && v.jobs == []
    ensures Valid(r) && r.jobs == [] && |r.visible| == |v.visible| && r.isOpen == v.isOpen
    decreases count
  {
    if count == 0 then v else ReadNext(SettledNext(v, now), count - 1, now + TurnDuration)
  }

  /** A run of settled next turns follows the page sequence of repeated `nextPage` targets. */
  lemma {:induction false} ReadNextFollowsTargets(v: View, count: nat, now: int)
    requires Valid(v) && v.jobs == []
    ensures ReadNext(v, count, now).currentPage == NextRunPage(v.currentPage, count, |v.visible|)
    ensures ReadNext(v, count, now).popups == v.popups + NextRunWraps(v.currentPage, count, |v.visible|)
    decreases count
  {
    if count > 0 {
      var w := SettledNext(v, now);
      assert ReadNext(v, count, now) == ReadNext(w, count - 1, now + TurnDuration);
      ReadNextFollowsTargets(w, count - 1, now + TurnDuration);
    }
  }

  /**
   * In a book of n pages, a read-through of N settled next turns from page s
   * ends at page (s + N) mod n and shows the purchase popup (s + N) div n
   * times, once per wrap from the last page to page 0.
   */
  lemma ReadNextClosedForm(v: View, count: nat, now: int)
    requires Valid(v) && v.jobs == []
    ensures ReadNext(v, count, now).currentPage == (v.currentPage + count) % |v.visible|
    ensures ReadNext(v, count, now).popups == v.popups + (v.currentPage + count) / |v.visible|
  {
    ReadNextFollowsTargets(v, count, now);
    NextRunClosedForm(v.currentPage, count, |v.visible|);
  }

  /**
   * Nine pages at the last page: next turns to page 0 and shows the popup;
   * Escape and a click on the book then reopen it at page 0 with the popup
   * still shown.
   */
  lemma NinePageScenario(v: View, t: int)
    requires Valid(v) && v.jobs == [] && v.isOpen && |v.visible| == 9 && v.currentPage == 8
    ensures var a := SettledNext(v, t);
      a.currentPage == 0 && a.ui.popupShown && a.popups == v.popups + 1 &&
      var b := Key(a, "Escape", t + 1000);
      var c := Frame(b, 0, t + 2000);
      var d := Click(c, true, t + 3000);
      var e := Frame(d, 0, t + 4000);
      e.isOpen && e.currentPage == 0 && e.ui.popupShown && e.popups == a.popups &&
      e.ui.indicator == IndicatorText(true, 0, 9)
  {
    NextLoopsExactlyOnWrap(8, 9);
  }
}
