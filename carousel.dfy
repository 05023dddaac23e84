// The home-page slide controller: the closures of initCarousel and
// setupCarouselFunctionality in script.js. The 3000 ms interval is a flag
// that says whether an auto-advance timer is pending.

module Carousel {

  /** A gesture moves the carousel only past this many pixels. */
  const SwipeThreshold := 50

  /** `currentSlide`: a slide position, or NaN once `(n + 1) % 0` has been
      evaluated on a carousel with no slides. */
  datatype SlideIndex = At(n: nat) | NotANumber

  /** `(currentSlide + 1) % totalSlides`. */
  function Next(i: SlideIndex, total: nat): (r: SlideIndex)
    ensures r.NotANumber? <==> total == 0 || i.NotANumber?
    ensures i.At? && 0 < total ==> r.n < total
    ensures i.At? && i.n + 1 < total ==> r == At(i.n + 1)
    ensures i.At? && i.n + 1 == total ==> r == At(0)
  {
    match i
    case NotANumber => NotANumber
    case At(n) => if total == 0 then NotANumber else At((n + 1) % total)
  }

  function Abs(x: int): nat {
    if x < 0 then -x else x
  }

  /** The release test of handleSwipe and the mouseup handler: the gesture
      advances only when it is longer than the threshold AND leftward. */
  function Advances(start: int, end: int): (b: bool)
    ensures b <==> start - end > SwipeThreshold
  {
    var diff := start - end;
    Abs(diff) > SwipeThreshold && diff > 0
  }

  /** The index after k timer ticks. */
  function AdvanceTimes(i: SlideIndex, total: nat, k: nat): SlideIndex {
    if k == 0 then i else Next(AdvanceTimes(i, total, k - 1), total)
  }

  /** Within one cycle, k ticks from position n move k slides forward and
      wrap past the last slide to the first. */
  lemma {:induction false} AdvanceWithinCycle(n: nat, total: nat, k: nat)
    requires n < total && k <= total
    ensures AdvanceTimes(At(n), total, k) == At(if n + k < total then n + k else n + k - total)
  {
    if k > 0 {
      AdvanceWithinCycle(n, total, k - 1);
    }
  }

  /** After as many ticks as there are slides the carousel is back where it
      started: every slide is shown once per cycle. */
  lemma FullCycle(n: nat, total: nat)
    requires n < total
    ensures AdvanceTimes(At(n), total, total) == At(n)
  {
    AdvanceWithinCycle(n, total, total);
  }

  /** A carousel with no slides is at NaN after its first tick and stays
      there: initCarousel has no zero-slide guard, unlike
      setupCarouselFunctionality. */
  lemma EmptyCarouselTick(i: SlideIndex, k: nat)
    requires k >= 1
    ensures AdvanceTimes(i, 0, k) == NotANumber
  {
  }

  class SlideController {
    const total: nat
    /** Only initCarousel registers mousedown/mouseup drag handlers. */
    const mouseDrag: bool
    var current: SlideIndex
    var hovered: bool
    var timerArmed: bool
    var touchStartX: int
    var dragging: bool
    var dragStartX: int

    /** The index is a slide position and only a drag-enabled carousel
        drags. */
    ghost predicate Consistent()
      reads this
    {
      (0 < total ==> current.At? && current.n < total)
      && (dragging ==> mouseDrag)
    }

    /** Consistent, and no timer is pending while the pointer is over the
        carousel. */
    ghost predicate Valid()
      reads this
    {
      Consistent() && (hovered ==> !timerArmed)
    }

    /** Closure state as both setups leave it: slide 0, not hovered, timer
        started. */
    constructor (total: nat, mouseDrag: bool)
      ensures Valid()
      ensures this.total == total && this.mouseDrag == mouseDrag
      ensures current == At(0) && !hovered && timerArmed
      ensures !dragging && touchStartX == 0 && dragStartX == 0
    {
      this.total := total;
      this.mouseDrag := mouseDrag;
      current := At(0);
      hovered := false;
      timerArmed := true;
      touchStartX := 0;
      dragging := false;
      dragStartX := 0;
    }

    /** setupCarouselFunctionality: does nothing on a track with no slides;
        otherwise a controller with touch support only. */
    static method Setup(total: nat) returns (c: SlideController?)
      ensures (c == null) <==> total == 0
      ensures c != null ==> fresh(c) && c.Valid() && c.total == total && !c.mouseDrag
      ensures c != null ==> c.current == At(0) && !c.hovered && c.timerArmed && !c.dragging
    {
      if total == 0 {
        return null;
      }
      c := new SlideController(total, false);
    }

    /** initCarousel: custom service cards on the home page hand over to
        setupCarouselFunctionality; otherwise the default slides get a
        controller with touch and mouse-drag support and no zero-slide
        guard. */
    static method Init(cardCount: nat, onAdminPage: bool, defaultSlides: nat) returns (c: SlideController?)
      ensures 0 < cardCount && !onAdminPage ==>
        c != null && fresh(c) && c.Valid() && c.total == cardCount && !c.mouseDrag
      ensures !(0 < cardCount && !onAdminPage) ==>
        c != null && fresh(c) && c.Valid() && c.total == defaultSlides && c.mouseDrag
      ensures c != null ==> c.current == At(0) && c.timerArmed
    {
      if 0 < cardCount && !onAdminPage {
        c := Setup(cardCount);
        return;
      }
      c := new SlideController(defaultSlides, true);
    }

    method StartAutoSlide()
      requires Valid()
      modifies this
      ensures Valid()
      ensures timerArmed == (old(timerArmed) || !hovered)
      ensures current == old(current) && hovered == old(hovered) && dragging == old(dragging)
      ensures touchStartX == old(touchStartX) && dragStartX == old(dragStartX)
    {
      if !hovered {
        timerArmed := true;
      }
    }

    method StopAutoSlide()
      requires Consistent()
      modifies this
      ensures Valid()
      ensures !timerArmed
      ensures current == old(current) && hovered == old(hovered) && dragging == old(dragging)
      ensures touchStartX == old(touchStartX) && dragStartX == old(dragStartX)
    {
      timerArmed := false;
    }

    /** After a reset the timer is pending exactly when not hovered. */
    method ResetAutoSlide()
      requires Valid()
      modifies this
      ensures Valid()
      ensures timerArmed == !hovered
      ensures current == old(current) && hovered == old(hovered) && dragging == old(dragging)
      ensures touchStartX == old(touchStartX) && dragStartX == old(dragStartX)
    {
      StopAutoSlide();
      if !hovered {
        StartAutoSlide();
      }
    }

    method NextSlide()
      requires Valid()
      modifies this
      ensures Valid()
      ensures current == Next(old(current), total)
      ensures timerArmed == !hovered
      ensures hovered == old(hovered) && dragging == old(dragging)
      ensures touchStartX == old(touchStartX) && dragStartX == old(dragStartX)
    {
      current := Next(current, total);
      ResetAutoSlide();
    }

    /** The interval firing: only while a timer is pending. */
    method Tick()
      requires Valid() && timerArmed
      modifies this
      ensures Valid()
      ensures current == Next(old(current), total)
      ensures timerArmed && !hovered
      ensures dragging == old(dragging)
      ensures touchStartX == old(touchStartX) && dragStartX == old(dragStartX)
    {
      NextSlide();
    }

    method MouseEnter()
      requires Valid()
      modifies this
      ensures Valid()
      ensures hovered && !timerArmed
      ensures current == old(current) && dragging == old(dragging)
      ensures touchStartX == old(touchStartX) && dragStartX == old(dragStartX)
    {
      hovered := true;
      StopAutoSlide();
    }

    method MouseLeave()
      requires Valid()
      modifies this
      ensures Valid()
      ensures !hovered && timerArmed
      ensures current == old(current) && dragging == old(dragging)
      ensures touchStartX == old(touchStartX) && dragStartX == old(dragStartX)
    {
      hovered := false;
      StartAutoSlide();
    }

    method TouchStart(x: int)
      requires Valid()
      modifies this
      ensures Valid()
      ensures touchStartX == x && !timerArmed
      ensures current == old(current) && hovered == old(hovered) && dragging == old(dragging)
      ensures dragStartX == old(dragStartX)
    {
      touchStartX := x;
      StopAutoSlide();
    }

    /** touchend: advance by one on a long leftward swipe, then reset the
        timer. */
    method TouchEnd(x: int)
      requires Valid()
      modifies this
      ensures Valid()
      ensures current == if old(touchStartX) - x > SwipeThreshold then Next(old(current), total) else old(current)
      ensures timerArmed == !hovered
      ensures hovered == old(hovered) && dragging == old(dragging)
      ensures touchStartX == old(touchStartX) && dragStartX == old(dragStartX)
    {
      if Advances(touchStartX, x) {
        NextSlide();
      }
      ResetAutoSlide();
    }

    /** mousedown on the track; no handler exists without drag support. */
    method MouseDown(x: int)
      requires Valid()
      modifies this
      ensures Valid()
      ensures mouseDrag ==> dragging && dragStartX == x && !timerArmed
      ensures !mouseDrag ==> dragging == old(dragging) && dragStartX == old(dragStartX) && timerArmed == old(timerArmed)
      ensures current == old(current) && hovered == old(hovered) && touchStartX == old(touchStartX)
    {
      if mouseDrag {
        dragging := true;
        dragStartX := x;
        StopAutoSlide();
      }
    }

    /** mouseup anywhere on the page: ends a drag that started on the track. */
    method MouseUp(x: int)
      requires Valid()
      modifies this
      ensures Valid()
      ensures !dragging
      ensures old(dragging) ==> timerArmed == !hovered
      ensures old(dragging) && old(dragStartX) - x > SwipeThreshold ==> current == Next(old(current), total)
      ensures !(old(dragging) && old(dragStartX) - x > SwipeThreshold) ==> current == old(current)
      ensures !old(dragging) ==> timerArmed == old(timerArmed)
      ensures hovered == old(hovered) && touchStartX == old(touchStartX) && dragStartX == old(dragStartX)
    {
      if dragging {
        if Advances(dragStartX, x) {
          NextSlide();
        }
        dragging := false;
        ResetAutoSlide();
      }
    }
  }

  /** Leaving the carousel in the middle of a mouse drag restarts the timer:
      the pause lasts only while the pointer stays over the carousel. */
  method DragThenLeave(total: nat)
    requires 0 < total
  {
    var c := new SlideController(total, true);
    c.MouseEnter();
    c.MouseDown(300);
    assert c.dragging && !c.timerArmed;
    c.MouseLeave();
    assert c.dragging && c.timerArmed;
  }
}
