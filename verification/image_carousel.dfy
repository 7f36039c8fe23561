/** The home page's image carousel: five slides, arrows guarded by an
    animation flag, dots that jump directly, and an autoplay interval. */
module ImageCarousel {
  import opened Cyclic

  const ImageCount := 5

  datatype Carousel = Carousel(index: int, animating: bool)

  predicate Valid(c: Carousel) {
    InRange(c.index, ImageCount)
  }

  const Start := Carousel(0, false)

  /** `nextSlide`: ignored while a transition runs, otherwise one slide
      forward and the transition starts. */
  function Next(c: Carousel): (d: Carousel)
    requires Valid(c)
    ensures Valid(d)
    ensures c.animating ==> d == c
    ensures !c.animating ==> d.animating && d.index == Succ(c.index, ImageCount)
  {
    if c.animating then c else Carousel(Succ(c.index, ImageCount), true)
  }

  /** `prevSlide`, the mirror image. */
  function Prev(c: Carousel): (d: Carousel)
    requires Valid(c)
    ensures Valid(d)
    ensures c.animating ==> d == c
    ensures !c.animating ==> d.animating && d.index == Pred(c.index, ImageCount)
  {
    if c.animating then c else Carousel(Pred(c.index, ImageCount), true)
  }

  /** The 500 ms timeout that ends a transition. */
  function Settle(c: Carousel): (d: Carousel)
    ensures d.index == c.index && !d.animating
  {
    c.(animating := false)
  }

  /** A dot: jumps to slide `k` and leaves the animation flag alone. */
  function Jump(c: Carousel, k: int): (d: Carousel)
    requires InRange(k, ImageCount)
    ensures Valid(d) && d.index == k && d.animating == c.animating
  {
    c.(index := k)
  }

  /** An autoplay tick runs the `nextSlide` of the render that installed
      the interval, so the guard it checks is the flag `seen` at that
      render, not the current one. */
  function Tick(c: Carousel, seen: bool): (d: Carousel)
    requires Valid(c)
    ensures Valid(d)
    ensures seen ==> d == c
    ensures !seen ==> d.animating && d.index == Succ(c.index, ImageCount)
  {
    Next(c.(animating := seen)).(animating := if seen then c.animating else true)
  }

  /** The interval installed at mount saw the initial flag (false), so it
      advances even in the middle of a transition, where an arrow would
      not. */
  lemma MountedTickIgnoresGuard(c: Carousel)
    requires Valid(c) && c.animating
    ensures Next(c) == c
    ensures Tick(c, Start.animating).index != c.index
  {
  }

  /** Forward then back (with the transition settled in between) returns
      to the same slide, and so does back then forward. */
  lemma ArrowsCancel(c: Carousel)
    requires Valid(c) && !c.animating
    ensures Prev(Settle(Next(c))).index == c.index
    ensures Next(Settle(Prev(c))).index == c.index
  {
    SuccPredInverse(c.index, ImageCount);
  }

  /** Pressing next `k` times, each after the transition settles. */
  function Advance(c: Carousel, k: nat): (d: Carousel)
    requires Valid(c) && !c.animating
    ensures Valid(d) && !d.animating
    ensures d.index == Steps(c.index, ImageCount, k)
    decreases k
  {
    if k == 0 then c else Settle(Next(Advance(c, k - 1)))
  }

  /** Five settled presses come back to the starting slide. */
  lemma FivePressesGoRound(c: Carousel)
    requires Valid(c) && !c.animating
    ensures Advance(c, ImageCount).index == c.index
  {
    FullTurn(c.index, ImageCount);
  }
}
