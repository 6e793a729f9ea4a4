# Interactive book viewer: navigation state machine

This project models the navigation core of the `InteractiveBook` viewer in
`app.js`. The viewer is a 3D "zine" shown in a browser canvas. A click opens
the closed book. Pages are turned with clicks, the arrow keys, touch swipes
and two on-screen arrow buttons. After a turn from the last page back to
page 0, a purchase popup appears.

The model covers the viewer's `bookState` (`isOpen`, `currentPage`,
`isAnimating`, and the `visible` flag of each page mesh). It also covers the
DOM state that the core updates: the page indicator text, whether the arrows
are shown and which are disabled, the swipe hint and the purchase popup. Every
animation is split into two steps: a start, and a completing frame. A frame
completes its animation once the elapsed integer milliseconds reach the
duration: 1000 for opening and closing, 800 for a page turn.

Files:

- `navigation.dfy` (module `Navigation`): the pure decisions. These are the
  next and previous targets, the `isLooping` flag, the swipe test with
  thresholds 50 / 100 / 300, the click, key and touch-end routers, the
  indicator text, the arrow state and the 768-pixel breakpoint. It also holds
  the closed form of a run of next turns.
- `book_machine.dfy` (module `BookMachine`): the whole viewer state as one
  value (`View`). It has one function per source operation and an `Event` /
  `Step` pair that covers every input the viewer reacts to. `Valid` is the
  invariant that every step keeps.
- `book_properties.dfy` (module `BookProperties`): lemmas about the state
  machine. They cover each animation's start and completion, which events can
  change the current page, the open flag or the popup, the input guards, and
  read-throughs.
- `interactive_book.dfy` (module `Viewer`): class `InteractiveBook`. It has
  the source's fields, with the page meshes' `visible` flags in an array that
  `showPage` and `closeBook` clear in a loop. Each method states its new state
  as the matching `BookMachine` function of the old state.

Animations in flight are a sequence of jobs, not a single slot. Each handler
gets the clock reading as its `now` argument. The host may run the frame of
any live job at any time.

Three behaviours of the code are easy to overlook:

- `isAnimating` guarantees that at most one animation is in flight, and it is
  raised exactly while that animation runs (`SingleFlight`). The created book
  has this property, and every event keeps it except a click on an arrow
  button during an animation (`Init`, `SingleFlightKept`). That exception
  exists because only the click, key and touch-end handlers check
  `isAnimating`. The arrow buttons call `nextPage` / `previousPage` directly
  (app.js:353-354), so a second turn can start while one is in flight. The
  first turn to complete then clears `isAnimating` while the other is still
  running (`NextArrowStartsTurnWhileAnimating`,
  `AnimatingFlagClearedWhileTurnInFlight`).
- `isLooping` compares indices only (app.js:592). In a two-page book, a
  previous turn from page 1 is flagged too and shows the popup
  (`PreviousLoopsOnlyInTwoPageBook`). In a one-page book every next turn goes
  from page 0 to page 0. That turn is flagged as looping and leaves the page
  hidden, because the source page is hidden after the target page is shown
  (`TurnStartSpec`). With the nine pages the viewer ships, neither case
  occurs.
- `showPage` with an index outside the book hides every page and keeps
  `currentPage` (`ShowPageSpec`).

## Model

| member | source | states |
|---|---|---|
| Navigation.NextTarget | app.js:567-574 | the next page is current+1 below the last page and 0 from the last page; for a page of the book that is (current+1) mod n |
| Navigation.PreviousTarget | app.js:576-580 | previous turns to current-1 exactly when current > 0, and does nothing at page 0 |
| Navigation.NextLoopsExactlyOnWrap | app.js:592 | a next turn is flagged as looping iff it leaves the last page, iff its target is not after its source |
| Navigation.PreviousLoopsOnlyInTwoPageBook | app.js:592 | a previous turn is flagged as looping iff the book has two pages and the turn starts at page 1 |
| Navigation.NextRunClosedForm | app.js:567-574 | N next targets from page s of an n-page book reach (s+N) mod n, with (s+N) div n departures from the last page |
| Navigation.ClassifySwipe | app.js:389-403 | a touch is a swipe iff elapsed <= 300, abs(dx) >= 50 and abs(dy) <= 100; a rightward swipe has dx >= 50, a leftward one dx <= -50 |
| Navigation.SwipeMirrorSymmetric | app.js:397-403 | mirroring a gesture horizontally swaps rightward and leftward swipes and keeps non-swipes |
| Navigation.TouchSwipe | app.js:364-387 | the gesture is measured from the recorded touch start; with no recorded start it is never a swipe |
| Navigation.SwipeExamples | app.js:389-403 | (+80,+10) in 200 ms goes back, (-80,+10) goes forward, (+80,+150) and a 301 ms gesture do nothing |
| Navigation.SwipeCommand | app.js:397-403 | a rightward swipe means previous, a leftward swipe next, no swipe no command |
| Navigation.ClickCommand | app.js:438-454 | a click is ignored while animating or off the book; a hit opens a closed book and advances an open one |
| Navigation.KeyCommand | app.js:456-470 | keys are ignored while animating or closed; otherwise ArrowRight is next, ArrowLeft previous, Escape close, other keys nothing; no key opens |
| Navigation.TouchEndCommand | app.js:377-404 | a touch end is ignored when closed or animating; otherwise it yields the swipe's next or previous command, or none |
| Navigation.RoutersIgnoreWhileAnimating | app.js:439 | while animating, the click, key and touch-end routers all produce no command |
| Navigation.NatToString | app.js:669 | the decimal rendering is a non-empty digit string with no leading zero |
| Navigation.ParseNatToString | app.js:669 | reading the decimal rendering back gives the number |
| Navigation.IndicatorText | app.js:664-671 | the indicator reads "Cover" exactly when the book is closed |
| Navigation.IndicatorDetermines | app.js:664-671 | the indicator text determines whether the book is open and, if open, the current page |
| Navigation.UpdatedArrows | app.js:684-699 | closed: the arrows keep their state; open: previous is disabled iff previous would do nothing, and next is enabled |
| BookMachine.Init | app.js:257-288 | the created book is valid, closed, at page 0, not animating, with no animation in flight and the popup never shown |
| BookProperties.SingleFlightKept | app.js:353-354 | with at most one animation in flight and isAnimating raised exactly while it runs, every event keeps that so, except an arrow-button click while animating |
| BookMachine.AnimatePageTurn | app.js:582-608 | starting a turn between two pages keeps the invariant |
| BookMachine.NextPage | app.js:567-574 | a next turn keeps the invariant and the page count |
| BookMachine.PreviousPage | app.js:576-580 | a previous turn keeps the invariant and the page count |
| BookMachine.CompleteOpen | app.js:502-509 | completing the opening clears isAnimating, makes page 0 current and keeps the open flag and the popup |
| BookMachine.CompleteClose | app.js:540-548 | completing the closing clears isAnimating, resets the current page to 0 and keeps the open flag and the popup |
| BookMachine.CompleteTurn | app.js:649-657 | completing a turn commits its target page, clears isAnimating and shows the popup, counted once, iff the turn loops |
| BookMachine.HideAll | app.js:520 | every page is hidden and nothing else changes |
| BookMachine.ShowPage | app.js:554-565 | exactly page i is visible; i becomes current when it is a page, else the current page stays; only the pages, the current page and the indicator change |
| BookMachine.UpdatePageIndicator | app.js:664-671 | only the indicator changes, and it reads "Cover" exactly when the book is closed |
| BookMachine.UpdateNavigationArrows | app.js:684-699 | closed: nothing changes; open: previous is disabled iff at page 0 and next is enabled; only the arrows change |
| BookMachine.ShowNavigationArrows | app.js:673-677 | the arrows are shown and updated; nothing else changes |
| BookMachine.HideNavigationArrows | app.js:679-682 | the arrows are hidden; nothing else changes |
| BookMachine.ShowSwipeHint | app.js:701-714 | the hint is shown iff the viewport is at most 768 wide or it was shown already; nothing else changes |
| BookMachine.HideSwipeHint | app.js:716-721 | the hint is hidden; nothing else changes |
| BookMachine.ShowPurchasePopup | app.js:723-769 | the popup is shown and counted once; nothing else changes |
| BookMachine.HidePurchasePopup | app.js:771-779 | the popup is hidden; nothing else changes |
| BookMachine.OpenBook | app.js:472-498 | open and animating at once, the page group shown, an opening job added; nothing else changes (see also OpenStartSpec) |
| BookMachine.CloseBook | app.js:515-524 | closed and animating at once, every page hidden, the cover shown, a closing job added; nothing else changes (see also CloseStartSpec) |
| BookMachine.Execute | app.js:447-469 | carrying out any command keeps the invariant, the page count and the control profile |
| BookMachine.Click | app.js:438-454 | keeps the invariant; ignored while animating or off the book; the book is open afterwards iff it was, or it was hit while idle |
| BookMachine.Key | app.js:456-470 | keeps the invariant; ignored while animating or closed; the book stays open unless Escape is pressed while idle |
| BookMachine.TouchStart | app.js:364-374 | only the recorded touch start changes, and only while the book is open |
| BookMachine.TouchEnd | app.js:377-407 | keeps the invariant and the open flag; a touch end that is no swipe, or comes while closed or animating, changes nothing |
| BookMachine.Resize | app.js:331-339 | the control profile is the mobile one iff the width is at most 768; only the width and the profile change |
| BookProperties.StepKeepsControlProfile | app.js:315-339 | every event keeps the control profile equal to the breakpoint test of the current width, and only a resize changes the width |
| Navigation.IsLooping | app.js:592 | as NextLoopsExactlyOnWrap and PreviousLoopsOnlyInTwoPageBook |
| Navigation.IsMobile | app.js:315 | as Resize, ShowSwipeHint and StepKeepsControlProfile |
| BookMachine.Complete | app.js:500-509 | every completion restores the invariant with isAnimating false |
| BookMachine.Frame | app.js:610-643 | a frame of any live animation keeps the invariant |
| BookMachine.Step | app.js:341-415 | every click, key, touch, resize and popup-dismissal event, every click on an arrow button that is not disabled, and every frame of a job in flight keeps the invariant and the page count |
| BookProperties.OnlyVisibleCount | app.js:554-562 | after showPage, one page is visible if the index is a page, else none |
| BookProperties.ShowPageSpec | app.js:554-565 | showPage shows exactly page i and makes it current when i is a page; otherwise every page is hidden and the current page stays; it refreshes the indicator and changes nothing else |
| BookProperties.TurnStartSpec | app.js:582-608 | starting a turn raises isAnimating, keeps currentPage and isOpen, shows the target and hides the source page, and records the looping flag |
| BookProperties.TurnCompletionSpec | app.js:641-658 | the completing frame of a turn sets currentPage to the target, clears isAnimating, refreshes the indicator and arrows, and shows the popup iff the turn loops |
| BookProperties.NextTurnLoopsAtLastPage | app.js:592 | the turn nextPage starts is flagged as looping iff it starts at the last page |
| BookProperties.PreviousAtFirstPageIsNoOp | app.js:576-580 | previousPage at page 0 leaves the whole state unchanged |
| BookProperties.OpenStartSpec | app.js:472-498 | openBook sets isAnimating and isOpen at once, keeps the current page and shows the page group |
| BookProperties.OpenCompletionSpec | app.js:500-509 | the completing frame of the opening hides the cover, clears isAnimating, shows page 0 alone, shows the arrows and, on mobile, the hint; for a book still open the indicator reads page 1 and previous is disabled, for a book closed meanwhile the indicator reads "Cover" |
| BookProperties.CloseStartSpec | app.js:515-524 | closeBook sets isAnimating, clears isOpen, hides every page and shows the cover at once |
| BookProperties.CloseCompletionSpec | app.js:538-548 | the completing frame of the closing resets currentPage to 0, clears isAnimating, hides the page group, the arrows and the hint |
| BookProperties.EarlyFrameCompletesNothing | app.js:497-501 | a frame before the duration has elapsed changes nothing but the page group's visibility for an opening |
| BookProperties.OpenThenCloseSettles | app.js:472-552 | opening and then closing, each settled, gives a closed book at page 0 with every page hidden, the indicator "Cover" and the popup untouched |
| BookProperties.CurrentPageChangesOnlyOnCompletion | app.js:544-561 | currentPage changes only in the completing frame of an animation |
| BookProperties.OpenFlagChangesOnlyOnStart | app.js:472-517 | isOpen changes only when a click hits a closed book or Escape is pressed on an open book, both while not animating |
| BookProperties.PopupOnlyOnLoopingCompletion | app.js:654-657 | the popup is shown, and its count rises by one, only in the completing frame of a looping turn |
| BookProperties.TurnsKeepOpenAndPopup | app.js:567-580 | starting a next or previous turn leaves isOpen and the popup alone |
| BookProperties.FrameKeepsOpenAndPopup | app.js:641-658 | a frame never changes isOpen and changes the popup only when it completes a looping turn |
| BookProperties.GuardedHandlersIgnoredWhileAnimating | app.js:438-470 | while animating, a click, a key or a touch end leaves the whole state unchanged |
| BookProperties.NextArrowStartsTurnWhileAnimating | app.js:353-354 | the next arrow, when not disabled, starts another turn even while an animation is in flight |
| BookProperties.AnimatingFlagClearedWhileTurnInFlight | app.js:649-650 | after two quick clicks on an enabled next arrow, the first completion leaves one turn in flight with isAnimating false |
| BookProperties.SettledNext | app.js:567-657 | a next turn run to completion moves to the next target and counts one popup iff it left the last page |
| BookProperties.ReadNext | app.js:567-574 | a run of settled next turns keeps the invariant, the open flag and leaves nothing in flight |
| BookProperties.ReadNextFollowsTargets | app.js:582-657 | a run of settled next turns visits the successive next targets and shows the popup once per departure from the last page |
| BookProperties.ReadNextClosedForm | app.js:567-657 | N settled next turns from page s of n pages end at page (s+N) mod n with (s+N) div n popups |
| BookProperties.NinePageScenario | app.js:36-46 | nine pages at page 8: next shows page 0 with the popup; Escape then a click reopen at page 0 with the popup still shown |
| Viewer.InteractiveBook.constructor | app.js:257-291 | the book starts closed at page 0 with every page mesh hidden |
| Viewer.InteractiveBook.HideAllPages | app.js:556 | every page's visible flag is cleared in a loop over the array |
| Viewer.InteractiveBook.UpdatePageIndicator | app.js:664-671 | the indicator is set to the text for the current state |
| Viewer.InteractiveBook.ShowPage | app.js:554-565 | as ShowPageSpec, on the object |
| Viewer.InteractiveBook.UpdateNavigationArrows | app.js:684-699 | as UpdatedArrows, on the object |
| Viewer.InteractiveBook.ShowNavigationArrows | app.js:673-677 | the arrows are shown, then updated |
| Viewer.InteractiveBook.HideNavigationArrows | app.js:679-682 | the arrows are hidden |
| Viewer.InteractiveBook.ShowSwipeHint | app.js:701-714 | the hint is shown only when the viewport is at most 768 wide |
| Viewer.InteractiveBook.HideSwipeHint | app.js:716-721 | the hint is hidden |
| Viewer.InteractiveBook.ShowPurchasePopup | app.js:723-769 | the popup is shown and its count rises by one |
| Viewer.InteractiveBook.HidePurchasePopup | app.js:771-779 | the popup is hidden and nothing else changes |
| Viewer.InteractiveBook.OpenBook | app.js:472-513 | the start of the opening, as OpenStartSpec |
| Viewer.InteractiveBook.CloseBook | app.js:515-552 | the start of the closing, as CloseStartSpec |
| Viewer.InteractiveBook.AnimatePageTurn | app.js:582-608 | the start of a turn, as TurnStartSpec, keeping the invariant |
| Viewer.InteractiveBook.NextPage | app.js:567-574 | next turns to current+1 or, from the last page, to 0 |
| Viewer.InteractiveBook.PreviousPage | app.js:576-580 | previous turns to current-1, or does nothing at page 0 |
| Viewer.InteractiveBook.CompleteOpen | app.js:502-509 | the opening's completion, as OpenCompletionSpec |
| Viewer.InteractiveBook.CompleteClose | app.js:540-548 | the closing's completion, as CloseCompletionSpec |
| Viewer.InteractiveBook.CompleteTurn | app.js:644-658 | a turn's completion, as TurnCompletionSpec |
| Viewer.InteractiveBook.Frame | app.js:610-643 | one frame of a live animation, which completes it iff its duration has elapsed, keeping the invariant |
| Viewer.InteractiveBook.Finish | app.js:641-658 | the completing frame ends job k and runs its completion |
| Viewer.InteractiveBook.Complete | app.js:500-509 | the completion of an animation of the given kind |
| Viewer.InteractiveBook.HandleClick | app.js:438-454 | onMouseClick, as ClickCommand |
| Viewer.InteractiveBook.HandleKey | app.js:456-470 | onKeyDown, as KeyCommand |
| Viewer.InteractiveBook.HandleTouchStart | app.js:364-374 | a touch start is recorded only while the book is open |
| Viewer.InteractiveBook.HandleTouchEnd | app.js:377-407 | a touch end, as TouchEndCommand, hiding the hint on a swipe |
| Viewer.InteractiveBook.Resize | app.js:331-339 | the control profile is the mobile one iff the width is at most 768 |

## Left out

- Hidden arrow buttons: in `Enabled`, a click on a disabled arrow button is not delivered, as in a browser. Whether a hidden arrow (its `show` class removed, app.js:681) can still be clicked depends on the page's style sheet, which is not part of this model; the model lets the arrows be clicked while hidden.
- Scene, camera, renderer, lighting, texture loading, `enhanceTexture` and mesh construction (app.js:62-307) are library calls and rendering configuration. The model keeps only each page mesh's `visible` flag, the cover's visibility and the page group's visibility.
- The vertex curl of the turning page, the cubic ease-out, the opacity cross-fades and the idle float and rotation (app.js:488-494, 615-639, 796-799) are floating-point visual effects. They are not modelled. The temporary flip mesh and its disposal are not modelled either.
- The clock and frame scheduling (`Date.now`, `requestAnimationFrame`) become an integer `now` argument and explicit frame steps. The first, synchronous frame of an animation is folded into its start. Nothing forces time to be monotonic or frames to come in registration order.
- Timers are not modelled: the 3-second auto-hide of the swipe hint, the popup's show and hide delays, and the loading screen (app.js:710-712, 766-768, 775-777, 781-787). The popup and the hint are only shown or hidden.
- Raycasting and mouse-coordinate normalisation (app.js:423-445) become a boolean `hit` argument. The hover cursor change (app.js:423-436) is cosmetic and left out.
- OrbitControls tuning and camera resize handling (app.js:309-339, 417-421) are left out. Only the `innerWidth <= 768` choice is kept, as `mobileControls`.
- The popup's HTML and button wiring (app.js:723-762) are reduced to `popupShown` and a popup count. Its three dismissal paths (the close button, the continue button and a click on the backdrop) all become `HidePurchasePopup`.
- The calls to `preventDefault` and the touch-move scroll suppression (app.js:373, 406, 410-414) are browser scrolling behaviour, and are not modelled.
- Touch coordinates are integers. The `startX`/`startY` fields of `touchState` stay 0 and are never read, so only the handler's recorded start is modelled.
- An empty page list is not modelled. The constructor requires at least one page because the viewer creates one mesh per entry of a fixed list of nine files (app.js:36-46); with no pages, `animatePageTurn` would fail on a missing page.
- Asynchronous start-up (`init`, `loadTextures`) and its failure mode are not modelled: the model starts from the created book. The initial indicator text, arrow state, arrow and hint visibility come from the HTML document, which is not part of this model, so they are a constructor argument. The popup is required to start hidden, because it is only created by its first showing (app.js:725-750).
