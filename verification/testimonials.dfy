/** The testimonials slider: three fixed testimonials, one shown at a
    time, rotating every eight seconds, with a dot per item and a five-star
    rating row. */
module Testimonials {
  import opened Cyclic

  datatype Testimonial = Testimonial(id: nat, name: string, rating: int)

  /** The fixed data (quote, location and image are display text only). */
  const Items := [
    Testimonial(1, "Zeynep Kaya", 5),
    Testimonial(2, "Mehmet Y\U{0131}lmaz", 5),
    Testimonial(3, "Elif Demir", 4)
  ]

  const StarCount := 5

  /** The interval's update `(prevIndex + 1) % testimonials.length`. */
  function Rotate(active: int, count: int): (next: int)
    requires InRange(active, count)
    ensures InRange(next, count)
    ensures next == if active == count - 1 then 0 else active + 1
  {
    Succ(active, count)
  }

  /** Rotating through all items comes back to the start. */
  lemma RotationReturns(active: int)
    requires InRange(active, |Items|)
    ensures Steps(active, |Items|, |Items|) == active
  {
    FullTurn(active, |Items|);
  }

  /** What one slide is animated to. */
  datatype Look = Look(opacity: int, x: int, zIndex: int)

  const Shown := Look(1, 0, 10)
  const Hidden := Look(0, 100, 0)

  function LookOf(index: int, active: int): (l: Look)
    ensures l == Shown || l == Hidden
    ensures l.opacity == 1 <==> index == active
    ensures l.zIndex == 10 <==> index == active
  {
    if index == active then Shown else Hidden
  }

  /** The indices animated to full opacity. */
  function Visible(count: nat, active: int): set<int> {
    set i | i in Below(count) && LookOf(i, active).opacity == 1
  }

  /** Exactly one slide is visible and on top at any time: the active
      one. */
  lemma ExactlyOneVisible(count: nat, active: int)
    requires InRange(active, count)
    ensures Visible(count, active) == {active}
    ensures |Visible(count, active)| == 1
  {
    assert active in Below(count);
  }

  /** `i < testimonial.rating`: star `i` (0-based) is drawn filled. */
  predicate StarFilled(i: int, rating: int) {
    i < rating
  }

  function FilledStars(rating: int): (filled: set<int>)
    ensures forall i :: i in filled <==> 0 <= i < StarCount && StarFilled(i, rating)
  {
    set i | i in Below(StarCount) && StarFilled(i, rating)
  }

  /** The row shows the rating clamped to 0..5 filled stars, filled ones
      first. */
  lemma FilledStarsCount(rating: int)
    ensures var clamped := if rating < 0 then 0 else if rating > StarCount then StarCount else rating;
            FilledStars(rating) == Below(clamped) && |FilledStars(rating)| == clamped
  {
  }

  /** The shipped ratings: five, five and four stars. */
  lemma ShippedRatings()
    ensures |FilledStars(Items[0].rating)| == 5
    ensures |FilledStars(Items[2].rating)| == 4
  {
    FilledStarsCount(Items[0].rating);
    FilledStarsCount(Items[2].rating);
  }

  /** A dot makes its own item active. */
  function PickDot(active: int, index: int): (next: int)
    requires InRange(index, |Items|)
    ensures InRange(next, |Items|)
    ensures LookOf(index, next) == Shown
  {
    index
  }
}
