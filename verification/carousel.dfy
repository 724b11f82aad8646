/**
 * Slide navigation of src/components/knowledge/ImageCarousel.jsx: a current
 * index over `count` images and an animation lock. Every navigation is
 * refused while the lock is held; an effective one takes the lock, and only
 * the 300 ms timer that the lock schedules releases it.
 *
 * The component renders nothing for an empty image list, so the model keeps
 * `count >= 1`. Touch positions are passed in as the drag `(dx, dy)`, and the
 * `Math.sqrt` distance test is done on squares.
 */
module Carousel {

  import opened Options
  import opened Numeric

  const SwipeDistance: real := 50.0

  datatype View = View(count: nat, index: nat, animating: bool)

  predicate Valid(v: View) {
    v.count >= 1 && v.index < v.count
  }

  function Initial(count: nat): (v: View)
    requires count >= 1
    ensures Valid(v) && v.index == 0 && !v.animating
  {
    View(count, 0, false)
  }

  /** `goToPrevious`: one slide back, from the first to the last. */
  function Previous(v: View): (v': View)
    requires Valid(v)
    ensures Valid(v') && v'.count == v.count
    ensures v.animating ==> v' == v
    ensures !v.animating ==> v'.animating && v'.index == (v.index - 1) % v.count
  {
    if v.animating then v
    else v.(animating := true, index := if v.index == 0 then v.count - 1 else v.index - 1)
  }

  /** `goToNext`: one slide on, from the last back to the first. */
  function Next(v: View): (v': View)
    requires Valid(v)
    ensures Valid(v') && v'.count == v.count
    ensures v.animating ==> v' == v
    ensures !v.animating ==> v'.animating && v'.index == (v.index + 1) % v.count
  {
    if v.animating then v
    else v.(animating := true, index := if v.index == v.count - 1 then 0 else v.index + 1)
  }

  /** `goToSlide`, called by the indicator buttons with their own index. */
  function GoToSlide(v: View, k: nat): (v': View)
    requires Valid(v) && k < v.count
    ensures Valid(v') && v'.count == v.count
    ensures v.animating || k == v.index ==> v' == v
    ensures !v.animating && k != v.index ==> v'.animating && v'.index == k
  {
    if v.animating || k == v.index then v
    else v.(animating := true, index := k)
  }

  /** The reset effect: the timer started by the lock releases it. */
  function TimerExpired(v: View): (v': View)
    ensures !v'.animating
    ensures v'.index == v.index && v'.count == v.count
    ensures Valid(v) ==> Valid(v')
  {
    v.(animating := false)
  }

  datatype Key = ArrowLeft | ArrowRight | OtherKey

  /** The keyboard handler: left goes back, right goes on, anything else is ignored. */
  function KeyDown(v: View, k: Key): (v': View)
    requires Valid(v)
    ensures k == ArrowLeft ==> v' == Previous(v)
    ensures k == ArrowRight ==> v' == Next(v)
    ensures k == OtherKey ==> v' == v
  {
    match k
    case ArrowLeft => Previous(v)
    case ArrowRight => Next(v)
    case OtherKey => v
  }

  datatype Nav = Back | Forward

  /**
   * The swipe classifier of `handleTouchEnd`: a long enough, mostly
   * horizontal drag; dragging right goes back, anything else goes on.
   */
  function SwipeNav(dx: real, dy: real): (r: Option<Nav>)
    ensures r.Some? <==> dx * dx + dy * dy > SwipeDistance * SwipeDistance && Abs(dx) > Abs(dy)
    ensures r == Some(Back) <==> r.Some? && dx > 0.0
  {
    if dx * dx + dy * dy > SwipeDistance * SwipeDistance then
      if Abs(dx) > Abs(dy) then
        if dx > 0.0 then Some(Back) else Some(Forward)
      else None
    else None
  }

  /** A touch that ends: `NoTouch` when no touch ever started, else the drag. */
  datatype Touch = NoTouch | Drag(dx: real, dy: real)

  function TouchEnd(v: View, t: Touch): (v': View)
    requires Valid(v)
    ensures t.NoTouch? ==> v' == v
    ensures t.Drag? && SwipeNav(t.dx, t.dy) == Some(Back) ==> v' == Previous(v)
    ensures t.Drag? && SwipeNav(t.dx, t.dy) == Some(Forward) ==> v' == Next(v)
    ensures t.Drag? && SwipeNav(t.dx, t.dy).None? ==> v' == v
  {
    match t
    case NoTouch => v
    case Drag(dx, dy) =>
      match SwipeNav(dx, dy)
      case None => v
      case Some(Back) => Previous(v)
      case Some(Forward) => Next(v)
  }

  /** Keys and swipes only ever navigate by one slide, or not at all. */
  lemma InputsNavigate(v: View, k: Key, t: Touch)
    requires Valid(v)
    ensures KeyDown(v, k) in {v, Previous(v), Next(v)}
    ensures TouchEnd(v, t) in {v, Previous(v), Next(v)}
    ensures t.Drag? && Abs(t.dy) >= Abs(t.dx) ==> TouchEnd(v, t) == v
  {
  }

  /** Choosing the current slide does nothing and does not start an animation. */
  lemma GoToCurrentIsNoOp(v: View)
    requires Valid(v)
    ensures GoToSlide(v, v.index) == v
  {
  }

  /** Going on and then back, with the lock released in between, returns to the same slide. */
  lemma NextThenPrevious(v: View)
    requires Valid(v) && !v.animating
    ensures Previous(TimerExpired(Next(v))).index == v.index
    ensures Next(TimerExpired(Previous(v))).index == v.index
  {
  }

  /** `n` forward steps, each followed by the timer. */
  function ForwardSteps(v: View, n: nat): (v': View)
    requires Valid(v)
    ensures Valid(v') && v'.count == v.count
    decreases n
  {
    if n == 0 then v else ForwardSteps(TimerExpired(Next(v)), n - 1)
  }

  /** A further forward step is taken after the first `n`. */
  lemma {:induction false} ForwardStepsLast(v: View, n: nat)
    requires Valid(v)
    ensures ForwardSteps(v, n + 1) == TimerExpired(Next(ForwardSteps(v, n)))
    decreases n
  {
    if n > 0 {
      ForwardStepsLast(TimerExpired(Next(v)), n - 1);
    }
  }

  /** From an idle view, `n` forward steps advance the index by `n` modulo the count and leave the view idle. */
  lemma {:induction false} ForwardAdvances(v: View, n: nat)
    requires Valid(v) && !v.animating
    ensures ForwardSteps(v, n).index == (v.index + n) % v.count
    ensures !ForwardSteps(v, n).animating
    decreases n
  {
    if n == 0 {
      ModUnique(v.index, v.count, 0, v.index);
    } else {
      ForwardAdvances(v, n - 1);
      ForwardStepsLast(v, n - 1);
      ModSucc(v.index + n - 1, v.count);
    }
  }

  /** `count` forward steps come back to where they started. */
  lemma FullCycle(v: View)
    requires Valid(v) && !v.animating
    ensures ForwardSteps(v, v.count).index == v.index
  {
    var c := v.count;
    var i := v.index;
    assert i + c == 1 * c + i;
    ModUnique(i + c, c, 1, i);
    ForwardAdvances(v, c);
  }

  /** Every input the carousel reacts to. */
  datatype Event =
    | KeyEvent(key: Key)
    | TouchEvent(touch: Touch)
    | PrevButton
    | NextButton
    | Indicator(slide: nat)
    | Timer

  /** Indicators are rendered one per image, so a click names a real slide. */
  function Apply(v: View, e: Event): View
    requires Valid(v) && (e.Indicator? ==> e.slide < v.count)
  {
    match e
    case KeyEvent(k) => KeyDown(v, k)
    case TouchEvent(t) => TouchEnd(v, t)
    case PrevButton => Previous(v)
    case NextButton => Next(v)
    case Indicator(k) => GoToSlide(v, k)
    case Timer => TimerExpired(v)
  }

  /** Indicator clicks name slides below `count`. */
  predicate IndicatorsInRange(count: nat, events: seq<Event>) {
    forall i :: 0 <= i < |events| ==> (events[i].Indicator? ==> events[i].slide < count)
  }

  /**
   * Under any sequence of inputs the index stays within the slides, the count
   * never changes, and the lock is only ever released by the timer.
   */
  function Run(v: View, events: seq<Event>): (v': View)
    requires Valid(v) && IndicatorsInRange(v.count, events)
    ensures Valid(v') && v'.count == v.count
    ensures v.animating && (forall i :: 0 <= i < |events| ==> !events[i].Timer?) ==> v'.animating
    decreases |events|
  {
    if |events| == 0 then v
    else Run(Apply(v, events[0]), events[1..])
  }

  /** While the lock is held, every navigation input leaves the view as it is. */
  lemma LockedIgnoresNavigation(v: View, e: Event)
    requires Valid(v) && v.animating && !e.Timer?
    requires e.Indicator? ==> e.slide < v.count
    ensures Apply(v, e) == v
  {
  }

}
