/**
 * Slide navigation of the feature carousel: wrap-around next/previous with
 * JavaScript's `%`, jumping to a slide, the keyboard mapping and the swipe
 * rule of `handleTouchEnd`. `n` is `items.length`; the component needs at
 * least one item (its effect reads `items[activeIndex].heading`).
 */
module FeatureCarousel {
  import opened Wrappers

  /**
   * JavaScript's `a % b` for a positive divisor: the division truncates, so
   * the result takes the sign of `a` (Dafny's own `%` never goes negative).
   */
  function JsRem(a: int, b: int): (r: int)
    requires b > 0
    ensures a >= 0 ==> r == a % b
    ensures a < 0 ==> -b < r <= 0
  {
    if a >= 0 then a % b else -((-a) % b)
  }

  lemma MulMono(d: int, n: int)
    requires d >= 1 && n > 0
    ensures d * n >= n
  {
  }

  /** Quotient and remainder are unique. */
  lemma ModUnique(a: int, n: int, q: int, r: int)
    requires n > 0 && 0 <= r < n && a == q * n + r
    ensures a % n == r
  {
    var q0, r0 := a / n, a % n;
    assert a == q0 * n + r0;
    var d := q - q0;
    assert d * n == q * n - q0 * n;
    assert d * n == r0 - r;
    if d >= 1 {
      MulMono(d, n);
    } else if d <= -1 {
      MulMono(-d, n);
    }
  }

  /** `nextSlide`: `(prevIndex + 1) % items.length`. */
  function NextSlide(i: int, n: int): (r: int)
    requires n > 0
    ensures 0 <= i < n ==> 0 <= r < n && r == (i + 1) % n
    ensures 0 <= i < n - 1 ==> r == i + 1
    ensures i == n - 1 ==> r == 0
  {
    JsRem(i + 1, n)
  }

  /** `prevSlide`: `(prevIndex - 1 + items.length) % items.length`. */
  function PrevSlide(i: int, n: int): (r: int)
    requires n > 0
    ensures 0 <= i < n ==> 0 <= r < n && r == (i - 1 + n) % n
    ensures 0 < i < n ==> r == i - 1
    ensures i == 0 ==> r == n - 1
  {
    JsRem(i - 1 + n, n)
  }

  /** Next and previous undo each other on in-range indices. */
  lemma NextPrevInverse(i: int, n: int)
    requires 0 <= i < n
    ensures PrevSlide(NextSlide(i, n), n) == i
    ensures NextSlide(PrevSlide(i, n), n) == i
  {
  }

  /** `k` applications of nextSlide. */
  function NextTimes(i: int, n: int, k: nat): int
    requires n > 0
  {
    if k == 0 then i else NextSlide(NextTimes(i, n, k - 1), n)
  }

  lemma {:induction false} NextTimesIsShift(i: int, n: int, k: nat)
    requires 0 <= i < n
    ensures NextTimes(i, n, k) == (i + k) % n
  {
    if k > 0 {
      NextTimesIsShift(i, n, k - 1);
      var j := NextTimes(i, n, k - 1);
      assert 0 <= j < n;
      assert (j + 1) % n == (i + k) % n by {
        assert j == (i + k - 1) % n;
        ModSuccessor(i + k - 1, n);
      }
    }
  }

  /** `((a % n) + 1) % n == (a + 1) % n` for a >= 0. */
  lemma ModSuccessor(a: int, n: int)
    requires a >= 0 && n > 0
    ensures (a % n + 1) % n == (a + 1) % n
  {
    var q := a / n;
    assert a == q * n + a % n;
    if a % n + 1 < n {
      ModUnique(a % n + 1, n, 0, a % n + 1);
      ModUnique(a + 1, n, q, a % n + 1);
    } else {
      assert a + 1 == (q + 1) * n + 0;
      ModUnique(a + 1, n, q + 1, 0);
      ModUnique(n, n, 1, 0);
    }
  }

  /** n presses of "next" come back to the starting slide. */
  lemma FullCycle(i: int, n: int)
    requires 0 <= i < n
    ensures NextTimes(i, n, n) == i
  {
    NextTimesIsShift(i, n, n);
    ModUnique(i + n, n, 1, i);
  }

  /** The navigation requests the carousel issues. */
  datatype SlideAction = Next | Prev | GoTo(index: int)

  /**
   * Applying a request to the active index; `goToSlide` sets the index as
   * given, so only a jump to an out-of-range slide can leave the range.
   */
  function Apply(i: int, n: int, a: SlideAction): (r: int)
    requires n > 0
    ensures 0 <= i < n && (a.GoTo? ==> 0 <= a.index < n) ==> 0 <= r < n
  {
    match a
    case Next => NextSlide(i, n)
    case Prev => PrevSlide(i, n)
    case GoTo(k) => k
  }

  /** The keydown switch: the action for `key`, None for keys it ignores. */
  function KeyAction(key: string, n: int): (r: Option<SlideAction>)
    ensures key == "ArrowLeft" <==> r == Some(Prev)
    ensures key == "ArrowRight" <==> r == Some(Next)
    ensures key == "Home" ==> r == Some(GoTo(0))
    ensures key == "End" ==> r == Some(GoTo(n - 1))
    ensures r.None? <==> key !in {"ArrowLeft", "ArrowRight", "Home", "End"}
  {
    if key == "ArrowLeft" then Some(Prev)
    else if key == "ArrowRight" then Some(Next)
    else if key == "Home" then Some(GoTo(0))
    else if key == "End" then Some(GoTo(n - 1))
    else None
  }

  /** The keydown handler: acts only while focus is inside the carousel. */
  function HandleKeyDown(i: int, n: int, key: string, focused: bool): (r: int)
    requires n > 0
    ensures !focused ==> r == i
    ensures focused && key == "Home" ==> r == 0
    ensures focused && key == "End" ==> r == n - 1
    ensures focused && key == "ArrowLeft" ==> r == PrevSlide(i, n)
    ensures focused && key == "ArrowRight" ==> r == NextSlide(i, n)
    ensures key !in {"ArrowLeft", "ArrowRight", "Home", "End"} ==> r == i
    ensures 0 <= i < n ==> 0 <= r < n
  {
    if !focused then i
    else match KeyAction(key, n)
      case None => i
      case Some(a) => Apply(i, n, a)
  }

  /** Minimum horizontal travel, in pixels, for a touch to count as a swipe. */
  const SwipeThreshold: real := 50.0

  /** `touchStartX` and `touchEndX`; None is `null`. */
  datatype Touch = Touch(startX: Option<real>, endX: Option<real>)

  function Abs(x: real): real {
    if x < 0.0 then -x else x
  }

  /** `handleTouchStart`: records the start, forgets any end. */
  function TouchStart(t: Touch, x: real): (r: Touch)
    // a touch that ends without moving is a tap: whatever came before, the slide stays
    ensures forall i: int, n: int :: n > 0 ==> TouchEnd(i, n, r).0 == i
  {
    Touch(Some(x), None)
  }

  /** `handleTouchMove`: records the latest position. */
  function TouchMove(t: Touch, x: real): (r: Touch)
    // ending the touch here swipes by the travel from the recorded start to this position
    ensures t.startX.Some? ==> forall i: int, n: int :: n > 0 ==>
              TouchEnd(i, n, r).0 == if t.startX.value - x > SwipeThreshold then NextSlide(i, n)
                                     else if x - t.startX.value > SwipeThreshold then PrevSlide(i, n)
                                     else i
    ensures t.startX.None? ==> forall i: int, n: int :: n > 0 ==> TouchEnd(i, n, r).0 == i
  {
    t.(endX := Some(x))
  }

  /** `handleTouchEnd`: the new index and the reset coordinates. */
  function TouchEnd(i: int, n: int, t: Touch): (r: (int, Touch))
    requires n > 0
    ensures r.1 == Touch(None, None)
    ensures t.startX.None? || t.endX.None? ==> r.0 == i
    ensures t.startX.Some? && t.endX.Some? ==>
              var diff := t.startX.value - t.endX.value;
              && (diff > SwipeThreshold ==> r.0 == NextSlide(i, n))
              && (diff < -SwipeThreshold ==> r.0 == PrevSlide(i, n))
              && (-SwipeThreshold <= diff <= SwipeThreshold ==> r.0 == i)
  {
    var index :=
      if t.startX.Some? && t.endX.Some? then
        var diff := t.startX.value - t.endX.value;
        if Abs(diff) > SwipeThreshold then
          if diff > 0.0 then NextSlide(i, n) else PrevSlide(i, n)
        else i
      else i;
    (index, Touch(None, None))
  }

  /** Only the last move of a touch counts. */
  lemma LastMoveWins(t: Touch, a: real, b: real)
    ensures TouchMove(TouchMove(t, a), b) == TouchMove(t, b)
  {
  }

  /** A tap, or a drag of exactly the threshold, does not change the slide. */
  lemma ShortDragStays(i: int, n: int, x: real)
    requires n > 0
    ensures TouchEnd(i, n, TouchStart(Touch(None, None), x)).0 == i
    ensures TouchEnd(i, n, TouchMove(TouchStart(Touch(None, None), x), x - 50.0)).0 == i
  {
  }
}
