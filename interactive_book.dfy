/**
 * The viewer object: the fields of `bookState`, the page meshes' `visible`
 * flags, the in-flight animations and the page's DOM state, updated in place
 * by the same methods as the source. Every method states its new state as the
 * matching function of module BookMachine applied to the old state.
 */
module Viewer {
  import opened Navigation
  import BookMachine

  class InteractiveBook {
    var isOpen: bool
    var currentPage: nat
    var isAnimating: bool
    const pages: array<bool>          // `visible` of each page mesh
    var coverVisible: bool
    var pageGroupVisible: bool
    var jobs: seq<BookMachine.Job>    // animations whose frames are still scheduled
    var touchStart: Option<TouchSample>
    var ui: BookMachine.Ui
    var viewportWidth: int
    var mobileControls: bool
    ghost var popups: nat

    ghost function View(): BookMachine.View
      reads this, pages
    {
      BookMachine.View(isOpen, currentPage, isAnimating, pages[..], coverVisible, pageGroupVisible,
                       jobs, touchStart, ui, viewportWidth, mobileControls, popups)
    }

    ghost predicate Valid()
      reads this, pages
    {
      BookMachine.Valid(View())
    }

    /** The book once its `pageCount` page meshes are created, all hidden. */
    constructor (pageCount: nat, width: int, initialUi: BookMachine.Ui)
      requires pageCount >= 1 && !initialUi.popupShown
      ensures Valid() && fresh(pages)
      ensures View() == BookMachine.Init(pageCount, width, initialUi)
    {
      isOpen, currentPage, isAnimating := false, 0, false;
      pages := new bool[pageCount];
      coverVisible, pageGroupVisible := true, false;
      jobs, touchStart, ui := [], None, initialUi;
      viewportWidth, mobileControls := width, IsMobile(width);
      popups := 0;
      new;
      // every page mesh is created hidden
      HideAllPages();
    }

    // -------------------------------------------------------------------
    // Pages, indicator, arrows, hint and popup

    method HideAllPages()
      modifies pages
      ensures View() == BookMachine.HideAll(old(View()))
    {
      var i := 0;
      while i < pages.Length
        invariant 0 <= i <= pages.Length
        invariant forall j :: 0 <= j < i ==> !pages[j]
      {
        pages[i] := false;
        i := i + 1;
      }
      assert pages[..] == seq(pages.Length, _ => false);
    }

    method UpdatePageIndicator()
      modifies this
      ensures View() == BookMachine.UpdatePageIndicator(old(View()))
    {
      ui := ui.(indicator := IndicatorText(isOpen, currentPage, pages.Length));
    }

    method ShowPage(index: int)
      modifies this, pages
      ensures View() == BookMachine.ShowPage(old(View()), index)
    {
      HideAllPages();
      if index >= 0 && index < pages.Length {
        pages[index] := true;
        currentPage := index;
      }
      UpdatePageIndicator();
    }

    method UpdateNavigationArrows()
      modifies this
      ensures View() == BookMachine.UpdateNavigationArrows(old(View()))
    {
      if !isOpen {
        return;
      }
      var prevDisabled := currentPage == 0;
      ui := ui.(arrows := Arrows(prevDisabled, false));
    }

    method ShowNavigationArrows()
      modifies this
      ensures View() == BookMachine.ShowNavigationArrows(old(View()))
    {
      ui := ui.(arrowsShown := true);
      UpdateNavigationArrows();
    }

    method HideNavigationArrows()
      modifies this
      ensures View() == BookMachine.HideNavigationArrows(old(View()))
    {
      ui := ui.(arrowsShown := false);
    }

    method ShowSwipeHint()
      modifies this
      ensures View() == BookMachine.ShowSwipeHint(old(View()))
    {
      if viewportWidth > MobileBreakpoint {
        return;
      }
      ui := ui.(hintShown := true);
    }

    method HideSwipeHint()
      modifies this
      ensures View() == BookMachine.HideSwipeHint(old(View()))
    {
      ui := ui.(hintShown := false);
    }

    method ShowPurchasePopup()
      modifies this
      ensures View() == BookMachine.ShowPurchasePopup(old(View()))
    {
      ui := ui.(popupShown := true);
      popups := popups + 1;
    }

    method HidePurchasePopup()
      requires Valid()
      modifies this
      ensures Valid()
      ensures View() == BookMachine.HidePurchasePopup(old(View()))
    {
      ui := ui.(popupShown := false);
    }

    // -------------------------------------------------------------------
    // Starting animations

    method OpenBook(now: int)
      modifies this
      ensures View() == BookMachine.OpenBook(old(View()), now)
    {
      isAnimating := true;
      isOpen := true;
      pageGroupVisible := true;
      jobs := jobs + [BookMachine.Job(BookMachine.Opening, now)];
    }

    method CloseBook(now: int)
      modifies this, pages
      ensures View() == BookMachine.CloseBook(old(View()), now)
    {
      isAnimating := true;
      isOpen := false;
      HideAllPages();
      coverVisible := true;
      jobs := jobs + [BookMachine.Job(BookMachine.Closing, now)];
    }

    method AnimatePageTurn(fromIndex: nat, toIndex: nat, now: int)
      requires Valid() && fromIndex < pages.Length && toIndex < pages.Length
      modifies this, pages
      ensures Valid()
      ensures View() == BookMachine.AnimatePageTurn(old(View()), fromIndex, toIndex, now)
    {
      isAnimating := true;
      var isLooping := fromIndex == pages.Length - 1 && toIndex == 0;
      pages[toIndex] := true;
      pages[fromIndex] := false;
      jobs := jobs + [BookMachine.Job(BookMachine.Turning(fromIndex, toIndex, isLooping), now)];
    }

    /** Also the listener of the next arrow, which calls it without any guard. */
    method NextPage(now: int)
      requires Valid()
      modifies this, pages
      ensures Valid()
      ensures View() == BookMachine.NextPage(old(View()), now)
    {
      if currentPage < pages.Length - 1 {
        AnimatePageTurn(currentPage, currentPage + 1, now);
      } else {
        AnimatePageTurn(currentPage, 0, now);
      }
    }

    /** Also the listener of the previous arrow, which calls it without any guard. */
    method PreviousPage(now: int)
      requires Valid()
      modifies this, pages
      ensures Valid()
      ensures View() == BookMachine.PreviousPage(old(View()), now)
    {
      if currentPage > 0 {
        AnimatePageTurn(currentPage, currentPage - 1, now);
      }
    }

    // -------------------------------------------------------------------
    // Completing animations

    method CompleteOpen()
      requires BookMachine.Shaped(View())
      modifies this, pages
      ensures View() == BookMachine.CompleteOpen(old(View()))
    {
      coverVisible := false;
      isAnimating := false;
      ShowPage(0);
      UpdatePageIndicator();
      ShowNavigationArrows();
      ShowSwipeHint();
    }

    method CompleteClose()
      requires BookMachine.Shaped(View())
      modifies this
      ensures View() == BookMachine.CompleteClose(old(View()))
    {
      pageGroupVisible := false;
      isAnimating := false;
      currentPage := 0;
      UpdatePageIndicator();
      HideNavigationArrows();
      HideSwipeHint();
    }

    method CompleteTurn(toIndex: nat, isLooping: bool)
      requires BookMachine.Shaped(View()) && toIndex < pages.Length
      modifies this
      ensures View() == BookMachine.CompleteTurn(old(View()), toIndex, isLooping)
    {
      currentPage := toIndex;
      isAnimating := false;
      UpdatePageIndicator();
      UpdateNavigationArrows();
      if isLooping {
        ShowPurchasePopup();
      }
    }

    /**
     * One animation frame of job `k` at time `now`; it completes the job when
     * the job's duration has elapsed.
     */
    method Frame(k: nat, now: int) returns (completed: bool)
      requires Valid() && k < |jobs|
      modifies this, pages
      ensures Valid()
      ensures View() == BookMachine.Frame(old(View()), k, now)
      ensures completed == BookMachine.Due(old(jobs[k]), now)
    {
      var job := jobs[k];
      if job.kind.Opening? {
        pageGroupVisible := true;
      }
      if now - job.start < BookMachine.Duration(job.kind) {
        completed := false;
        return;
      }
      Finish(k);
      completed := true;
    }

    /** The completing frame of job `k`: the job ends and its completion runs. */
    method Finish(k: nat)
      requires BookMachine.Valid(View()) && k < |jobs|
      modifies this, pages
      ensures View() == BookMachine.Complete(old(View()).(jobs := BookMachine.RemoveAt(old(jobs), k)), old(jobs[k].kind))
    {
      var kind := jobs[k].kind;
      assert BookMachine.JobInRange(jobs[k], pages.Length);
      jobs := BookMachine.RemoveAt(jobs, k);
      assert forall j :: 0 <= j < |jobs| ==> BookMachine.JobInRange(jobs[j], pages.Length);
      Complete(kind);
    }

    method Complete(kind: BookMachine.JobKind)
      requires BookMachine.Shaped(View()) && BookMachine.JobInRange(BookMachine.Job(kind, 0), pages.Length)
      modifies this, pages
      ensures View() == BookMachine.Complete(old(View()), kind)
    {
      match kind {
        case Opening => CompleteOpen();
        case Closing => CompleteClose();
        case Turning(_, toIndex, isLooping) => CompleteTurn(toIndex, isLooping);
      }
    }

    // -------------------------------------------------------------------
    // Input handlers

    /** `onMouseClick`, with the raycast reduced to whether the book was hit. */
    method HandleClick(hit: bool, now: int)
      requires Valid()
      modifies this, pages
      ensures Valid()
      ensures View() == BookMachine.Click(old(View()), hit, now)
    {
      ghost var v := View();
      if isAnimating {
        assert View() == BookMachine.Step(v, BookMachine.ClickEvent(hit, now));
        return;
      }
      if hit {
        if !isOpen {
          OpenBook(now);
        } else {
          NextPage(now);
        }
      }
      assert View() == BookMachine.Step(v, BookMachine.ClickEvent(hit, now));
    }

    /** `onKeyDown`. */
    method HandleKey(key: string, now: int)
      requires Valid()
      modifies this, pages
      ensures Valid()
      ensures View() == BookMachine.Key(old(View()), key, now)
    {
      ghost var v := View();
      if isAnimating || !isOpen {
        assert View() == BookMachine.Step(v, BookMachine.KeyEvent(key, now));
        return;
      }
      if key == "ArrowRight" {
        NextPage(now);
      } else if key == "ArrowLeft" {
        PreviousPage(now);
      } else if key == "Escape" {
        CloseBook(now);
      }
      assert View() == BookMachine.Step(v, BookMachine.KeyEvent(key, now));
    }

    method HandleTouchStart(x: int, y: int, now: int)
      requires Valid()
      modifies this
      ensures Valid()
      ensures View() == BookMachine.TouchStart(old(View()), TouchSample(x, y, now))
    {
      if !isOpen {
        return;
      }
      touchStart := Some(TouchSample(x, y, now));
    }

    method HandleTouchEnd(x: int, y: int, now: int)
      requires Valid()
      modifies this, pages
      ensures Valid()
      ensures View() == BookMachine.TouchEnd(old(View()), TouchSample(x, y, now))
    {
      ghost var v := View();
      if !isOpen || isAnimating {
        return;
      }
      var swipe := TouchSwipe(touchStart, TouchSample(x, y, now));
      if swipe != NoSwipe {
        HideSwipeHint();
        if swipe == SwipeRight {
          PreviousPage(now);
        } else {
          NextPage(now);
        }
      }
      assert View() == BookMachine.Step(v, BookMachine.TouchEndEvent(TouchSample(x, y, now)));
    }

    /** The resize listeners' choice of the control profile. */
    method Resize(width: int)
      requires Valid()
      modifies this
      ensures Valid()
      ensures View() == BookMachine.Resize(old(View()), width)
    {
      viewportWidth := width;
      mobileControls := IsMobile(width);
    }
  }
}
