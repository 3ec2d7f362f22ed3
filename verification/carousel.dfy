/**
 The feature carousel of the home screen (initFeatureCarousel in chat.js):
 how many buttons fit per view at a window width, how many slides that
 makes, and the current-slide index driven by the arrows, the dots and
 window resizes. Pixel offsets and the resize debounce are not modelled:
 a resize is one step taking the settled width.
 */
module Carousel {
  import opened Text

  /** calculateItemsPerView. */
  function ItemsPerView(width: int): (k: nat)
    ensures 1 <= k <= 4
    ensures k == 1 <==> width <= 479
    ensures k == 2 <==> 480 <= width <= 767
    ensures k == 3 <==> 768 <= width <= 1024
    ensures k == 4 <==> width > 1024
  {
    if width <= 479 then 1
    else if width <= 767 then 2
    else if width <= 1024 then 3
    else 4
  }

  /** calculateTotalSlides: no slides when every button fits, otherwise
      Math.ceil(buttons / items). */
  function TotalSlides(items: nat, buttons: nat): (t: nat)
    requires items > 0
    ensures t == 0 <==> items >= buttons
    ensures t > 0 ==> (t - 1) * items < buttons <= t * items
    ensures t > 0 ==> t >= 2
  {
    if items >= buttons then 0
    else
      var t := (buttons + items - 1) / items;
      assert t * items <= buttons + items - 1 < (t + 1) * items;
      t
  }

  /** The carousel's closure state: the number of buttons, the last settled
      window width, the cached items-per-view and the current slide. */
  datatype State = State(buttons: nat, width: int, itemsPerView: nat, index: int)

  function Total(s: State): nat {
    TotalSlides(ItemsPerView(s.width), s.buttons)
  }

  /** The highest index the carousel may show. */
  function LastIndex(s: State): nat {
    if Total(s) == 0 then 0 else Total(s) - 1
  }

  /** The invariant every handler keeps: the index is a slide (or 0 when
      there are no slides) and the cache matches the width. */
  predicate Valid(s: State) {
    && s.buttons > 0
    && s.itemsPerView == ItemsPerView(s.width)
    && 0 <= s.index <= LastIndex(s)
  }

  /** Set-up: nothing happens when there is no button. */
  function Init(buttons: nat, width: int): (s: Option<State>)
    ensures s.None? <==> buttons == 0
    ensures s.Some? ==> Valid(s.value) && s.value.index == 0
  {
    if buttons == 0 then None else Some(State(buttons, width, ItemsPerView(width), 0))
  }

  function Next(s: State): (r: State)
    ensures r.index == (if Total(s) > 0 && s.index < Total(s) - 1 then s.index + 1 else s.index)
    ensures r.(index := s.index) == s
  {
    if Total(s) == 0 then s
    else if s.index < Total(s) - 1 then s.(index := s.index + 1)
    else s
  }

  /** prevSlide does not look at the slide count. */
  function Prev(s: State): (r: State)
    ensures r.index == (if s.index > 0 then s.index - 1 else s.index)
    ensures r.(index := s.index) == s
  {
    if s.index > 0 then s.(index := s.index - 1) else s
  }

  function GoTo(s: State, target: int): (r: State)
    ensures 0 <= target < Total(s) ==> r.index == target
    ensures !(0 <= target < Total(s)) ==> r.index == s.index
    ensures r.(index := s.index) == s
  {
    if Total(s) == 0 then s
    else if 0 <= target < Total(s) then s.(index := target)
    else s
  }

  /** The debounced resize handler, once the width has settled. Only a
      change of items-per-view triggers the index adjustment. */
  function Resize(s: State, newWidth: int): (r: State)
    ensures r.buttons == s.buttons && r.width == newWidth
    ensures ItemsPerView(newWidth) == s.itemsPerView ==> r.index == s.index && r.itemsPerView == s.itemsPerView
    ensures r.itemsPerView == ItemsPerView(newWidth)
    ensures ItemsPerView(newWidth) != s.itemsPerView && 0 < Total(r) && s.index < Total(r) ==>
      r.index == s.index
    ensures ItemsPerView(newWidth) != s.itemsPerView && (Total(r) == 0 || s.index >= Total(r)) ==>
      r.index == LastIndex(r)
  {
    var items := ItemsPerView(newWidth);
    var t := TotalSlides(items, s.buttons);
    if items != s.itemsPerView then
      var index :=
        if t > 0 && s.index >= t then t - 1
        else if t == 0 then 0
        else s.index;
      State(s.buttons, newWidth, items, index)
    else s.(width := newWidth)
  }

  // ---------------------------------------------------------------------
  // The invariant is kept

  lemma NextKeepsValid(s: State)
    requires Valid(s)
    ensures Valid(Next(s))
  {
  }

  lemma PrevKeepsValid(s: State)
    requires Valid(s)
    ensures Valid(Prev(s))
  {
  }

  lemma GoToKeepsValid(s: State, target: int)
    requires Valid(s)
    ensures Valid(GoTo(s, target))
  {
  }

  lemma ResizeKeepsValid(s: State, newWidth: int)
    requires Valid(s)
    ensures Valid(Resize(s, newWidth))
  {
  }

  // ---------------------------------------------------------------------
  // Controls

  /** updateButtons: (prev disabled, next disabled). */
  function Buttons(s: State): (b: (bool, bool))
    ensures Total(s) == 0 ==> b == (true, true)
    ensures Total(s) > 0 ==> (b.0 <==> s.index == 0) && (b.1 <==> s.index >= Total(s) - 1)
  {
    if Total(s) == 0 then (true, true)
    else (s.index == 0, s.index >= Total(s) - 1)
  }

  /** An enabled arrow always moves the carousel, a disabled one never does. */
  lemma ArrowsMoveIffEnabled(s: State)
    requires Valid(s)
    ensures !Buttons(s).1 <==> Next(s).index == s.index + 1
    ensures Buttons(s).1 <==> Next(s) == s
    ensures !Buttons(s).0 <==> Prev(s).index == s.index - 1
    ensures Buttons(s).0 <==> Prev(s) == s
  {
  }

  /** updateDots: which dot is highlighted, one per slide. */
  function Dots(s: State): (d: seq<bool>)
    ensures |d| == Total(s)
    ensures forall i :: 0 <= i < |d| ==> (d[i] <==> i == s.index)
  {
    seq(Total(s), i => i == s.index)
  }

  /** With slides, exactly one dot is highlighted. */
  lemma OneActiveDot(s: State)
    requires Valid(s) && Total(s) > 0
    ensures s.index < |Dots(s)| && Dots(s)[s.index]
    ensures forall i :: 0 <= i < |Dots(s)| && Dots(s)[i] ==> i == s.index
  {
  }

  /** Pressing next Total-1 times from the first slide reaches the last one,
      and pressing it again stays there. */
  function Presses(s: State, n: nat): State
  {
    if n == 0 then s else Next(Presses(s, n - 1))
  }

  lemma {:induction false} NextWalksToLast(s: State, n: nat)
    requires Valid(s) && s.index == 0
    ensures Presses(s, n).index == (if n <= LastIndex(s) then n else LastIndex(s))
    ensures Presses(s, n).(index := s.index) == s
  {
    if n > 0 {
      NextWalksToLast(s, n - 1);
    }
  }

  /** Scenario: eight buttons on a 600px window make four slides of two. */
  lemma EightButtonsAt600()
    ensures Init(8, 600).Some?
    ensures Total(Init(8, 600).value) == 4
    ensures Buttons(Init(8, 600).value) == (true, false)
  {
  }
}
