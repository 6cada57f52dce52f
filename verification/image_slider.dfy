/** The property image slider: the current slide, the wrap-around arrows, the swipe gesture
    that drives them, and the reset when the image list changes. A missing image list is
    `None`. */
module ImageSlider {
  import opened Wrappers

  /** The slider's state: the slide shown, the slides that have loaded, and the horizontal
      positions where the current touch started and last moved (`null` until known). */
  datatype Slider = Slider(index: int, loaded: set<int>, touchStart: Option<real>, touchEnd: Option<real>)

  const Initial: Slider := Slider(0, {}, None, None)

  /** `!images || images.length === 0`. */
  predicate NoImages(images: Option<seq<string>>) {
    images.None? || |images.value| == 0
  }

  /** `goToNext`: one slide on, from the last slide back to the first. */
  function NextIndex(images: Option<seq<string>>, index: int): (r: int)
    ensures NoImages(images) ==> r == index
    ensures !NoImages(images) && 0 <= index < |images.value| ==> 0 <= r < |images.value|
  {
    if NoImages(images) then index
    else if index == |images.value| - 1 then 0
    else index + 1
  }

  /** `goToPrevious`: one slide back, from the first slide round to the last. */
  function PreviousIndex(images: Option<seq<string>>, index: int): (r: int)
    ensures NoImages(images) ==> r == index
    ensures !NoImages(images) && 0 <= index < |images.value| ==> 0 <= r < |images.value|
  {
    if NoImages(images) then index
    else if index == 0 then |images.value| - 1
    else index - 1
  }

  /** On a list of `n` slides the arrows move by one, modulo `n`. */
  lemma ArrowsMoveModulo(images: seq<string>, index: int)
    requires 0 <= index < |images|
    ensures NextIndex(Some(images), index) == (index + 1) % |images|
    ensures PreviousIndex(Some(images), index) == (index - 1) % |images|
  {
    var n := |images|;
    if index == n - 1 {
      assert (index + 1) % n == n % n == 0;
    } else {
      assert (index + 1) % n == index + 1;
    }
    if index == 0 {
      assert (index - 1) % n == (-1) % n == n - 1;
    } else {
      assert (index - 1) % n == index - 1;
    }
  }

  /** Previous undoes next and next undoes previous on any slide of a non-empty list. */
  lemma ArrowsAreInverse(images: seq<string>, index: int)
    requires 0 <= index < |images|
    ensures PreviousIndex(Some(images), NextIndex(Some(images), index)) == index
    ensures NextIndex(Some(images), PreviousIndex(Some(images), index)) == index
  {
  }

  /** `k` presses of the next arrow. */
  function NextTimes(images: Option<seq<string>>, index: int, k: nat): int {
    if k == 0 then index else NextIndex(images, NextTimes(images, index, k - 1))
  }

  /** `k` presses of next land `k` slides on, modulo the number of slides. */
  lemma {:induction false} NextTimesIsModulo(images: seq<string>, index: int, k: nat)
    requires 0 <= index < |images|
    ensures NextTimes(Some(images), index, k) == (index + k) % |images|
  {
    if k > 0 {
      NextTimesIsModulo(images, index, k - 1);
      var before := NextTimes(Some(images), index, k - 1);
      ArrowsMoveModulo(images, before);
      ModuloStep(index + k - 1, |images|);
    }
  }

  lemma ModuloStep(a: int, n: int)
    requires n > 0
    ensures (a % n + 1) % n == (a + 1) % n
  {
    var q, m := a / n, a % n;
    assert 0 <= m < n && a == q * n + m;
    if m == n - 1 {
      assert a + 1 == (q + 1) * n + 0 by {
        assert (q + 1) * n == q * n + n;
      }
      ModuloUnique(a + 1, q + 1, 0, n);
      ModuloUnique(m + 1, 1, 0, n);
    } else {
      ModuloUnique(a + 1, q, m + 1, n);
      ModuloUnique(m + 1, 0, m + 1, n);
    }
  }

  /** The remainder is the one `r` in `[0, n)` with `a == q * n + r`. */
  lemma ModuloUnique(a: int, q: int, r: int, n: int)
    requires n > 0 && 0 <= r < n && a == q * n + r
    ensures a % n == r
  {
    var d := q - a / n;
    assert d * n == a % n - r;
    MultipleBound(d, n);
  }

  /** A non-zero multiple of `n` is at least `n` away from zero. */
  lemma {:induction false} MultipleBound(d: int, n: int)
    requires n > 0
    ensures d > 0 ==> d * n >= n
    ensures d < 0 ==> d * n <= -n
    decreases if d >= 0 then d else -d
  {
    if d > 1 {
      MultipleBound(d - 1, n);
      assert d * n == (d - 1) * n + n;
    } else if d < -1 {
      MultipleBound(d + 1, n);
      assert d * n == (d + 1) * n - n;
    }
  }

  /** As many presses of next as there are slides come back to the starting slide. */
  lemma FullTurnReturns(images: seq<string>, index: int)
    requires 0 <= index < |images|
    ensures NextTimes(Some(images), index, |images|) == index
  {
    var n := |images|;
    NextTimesIsModulo(images, index, n);
    ModuloUnique(index + n, 1, index, n);
  }

  // ---------------------------------------------------------------------------
  // touch

  const MinSwipeDistance: real := 50.0

  /** `onTouchStart`: a new touch clears the last end position. */
  function TouchStart(s: Slider, x: real): (r: Slider)
    ensures r.touchStart == Some(x) && r.touchEnd.None?
    ensures r.index == s.index && r.loaded == s.loaded
  {
    s.(touchStart := Some(x), touchEnd := None)
  }

  /** `onTouchMove`: records the latest position. */
  function TouchMove(s: Slider, x: real): (r: Slider)
    ensures r.touchEnd == Some(x)
    ensures r.index == s.index && r.loaded == s.loaded && r.touchStart == s.touchStart
  {
    s.(touchEnd := Some(x))
  }

  /** A touch coordinate counts only when it is truthy: present and not zero. */
  predicate Known(x: Option<real>) {
    x.Some? && x.value != 0.0
  }

  datatype Swipe = NoSwipe | LeftSwipe | RightSwipe

  /** The gesture a finished touch makes: more than 50 pixels leftwards is a left swipe, more
      than 50 rightwards a right swipe; an unknown position cancels it. */
  function SwipeOf(touchStart: Option<real>, touchEnd: Option<real>): (r: Swipe)
    ensures !Known(touchStart) || !Known(touchEnd) ==> r == NoSwipe
    ensures Known(touchStart) && Known(touchEnd) ==>
      && (r == LeftSwipe <==> touchStart.value - touchEnd.value > MinSwipeDistance)
      && (r == RightSwipe <==> touchStart.value - touchEnd.value < -MinSwipeDistance)
  {
    if !Known(touchStart) || !Known(touchEnd) then NoSwipe
    else
      var distance := touchStart.value - touchEnd.value;
      if distance > MinSwipeDistance then LeftSwipe
      else if distance < -MinSwipeDistance then RightSwipe
      else NoSwipe
  }

  /** `onTouchEnd`: a left swipe shows the next slide, a right swipe the previous one. */
  function TouchEnd(s: Slider, images: Option<seq<string>>): (r: Slider)
    ensures r.loaded == s.loaded && r.touchStart == s.touchStart && r.touchEnd == s.touchEnd
    ensures SwipeOf(s.touchStart, s.touchEnd) == NoSwipe ==> r.index == s.index
    ensures SwipeOf(s.touchStart, s.touchEnd) == LeftSwipe ==> r.index == NextIndex(images, s.index)
    ensures SwipeOf(s.touchStart, s.touchEnd) == RightSwipe ==> r.index == PreviousIndex(images, s.index)
    ensures Known(s.touchStart) && Known(s.touchEnd) && s.touchStart.value - s.touchEnd.value > MinSwipeDistance ==>
      r.index == NextIndex(images, s.index)
    ensures Known(s.touchStart) && Known(s.touchEnd) && s.touchStart.value - s.touchEnd.value < -MinSwipeDistance ==>
      r.index == PreviousIndex(images, s.index)
  {
    match SwipeOf(s.touchStart, s.touchEnd)
    case LeftSwipe => s.(index := NextIndex(images, s.index))
    case RightSwipe => s.(index := PreviousIndex(images, s.index))
    case NoSwipe => s
  }

  /** A drag from 300 to 200 pixels moves on a slide; a touch that starts at the left edge
      (x = 0) is cancelled whatever its length. */
  lemma SwipeExamples(images: seq<string>)
    requires |images| >= 2
    ensures TouchEnd(TouchMove(TouchStart(Initial, 300.0), 200.0), Some(images)).index == 1
    ensures TouchEnd(TouchMove(TouchStart(Initial, 0.0), 400.0), Some(images)).index == 0
  {
    assert SwipeOf(Some(300.0), Some(200.0)) == LeftSwipe;
    assert SwipeOf(Some(0.0), Some(400.0)) == NoSwipe;
  }

  /** A whole gesture keeps the slide within the list. */
  lemma TouchEndKeepsIndexInRange(s: Slider, images: seq<string>)
    requires 0 <= s.index < |images|
    ensures 0 <= TouchEnd(s, Some(images)).index < |images|
  {
  }

  // ---------------------------------------------------------------------------
  // the list and the dots

  /** The effect on a new image list: back to the first slide with nothing loaded. */
  function ImagesChanged(s: Slider): (r: Slider)
    ensures r.index == 0 && r.loaded == {}
    ensures r.touchStart == s.touchStart && r.touchEnd == s.touchEnd
  {
    s.(index := 0, loaded := {})
  }

  /** `goToSlide`: a dot shows its slide. */
  function GoToSlide(s: Slider, index: int): (r: Slider)
    ensures r.index == index && r.loaded == s.loaded
  {
    s.(index := index)
  }

  /** `handleImageLoad`: adds the slide to the loaded set. */
  function ImageLoaded(s: Slider, index: int): (r: Slider)
    ensures r.loaded == s.loaded + {index} && r.index == s.index
  {
    s.(loaded := s.loaded + {index})
  }

  /** The arrows, dots and counter are shown only for more than one slide; the counter reads
      `index + 1 / n`. */
  function Counter(images: seq<string>, index: int): (r: Option<(int, int)>)
    ensures r.Some? <==> |images| > 1
    ensures r.Some? ==> r.value == (index + 1, |images|)
  {
    if |images| > 1 then Some((index + 1, |images|)) else None
  }

  /** A new list, then any number of next presses, shows a slide of that list. */
  lemma ResetThenBrowse(s: Slider, images: seq<string>, k: nat)
    requires |images| > 0
    ensures 0 <= NextTimes(Some(images), ImagesChanged(s).index, k) < |images|
  {
    NextTimesIsModulo(images, 0, k);
  }
}
