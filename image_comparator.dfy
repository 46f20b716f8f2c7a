/** The before/after comparator (components/ImageComparator.tsx): a slider position in
    [0,100] and a dragging flag, updated by cursor events, and the view rendered from
    the two image props and the position. Positions are `real`: the source only clamps
    and maps linearly, and floating-point rounding is not modelled. */
module ImageComparator {
  import opened Wrappers
  import opened Strings

  /** The horizontal extent of the container's bounding box. */
  datatype Rect = Rect(left: real, width: real)

  function Min(a: real, b: real): real {
    if a < b then a else b
  }

  function Max(a: real, b: real): real {
    if a > b then a else b
  }

  /** The position `handleMove` computes for a cursor at `clientX`: the offset from the
      box's left edge is clamped into [0, width] and mapped linearly onto [0, 100]. */
  function SliderPercent(clientX: real, box: Rect): (p: real)
    requires box.width > 0.0
    ensures 0.0 <= p <= 100.0
  {
    var x := Max(0.0, Min(clientX - box.left, box.width));
    assert 0.0 <= x / box.width <= 1.0;
    (x / box.width) * 100.0
  }

  /** Moving the cursor right never moves the slider left. */
  lemma SliderPercentMonotone(a: real, b: real, box: Rect)
    requires box.width > 0.0 && a <= b
    ensures SliderPercent(a, box) <= SliderPercent(b, box)
  {
    var xa := Max(0.0, Min(a - box.left, box.width));
    var xb := Max(0.0, Min(b - box.left, box.width));
    assert xa <= xb;
    assert (xb - xa) / box.width >= 0.0;
    assert xb / box.width - xa / box.width == (xb - xa) / box.width;
  }

  /** A cursor at or left of the box gives 0; at or right of its right edge, 100. */
  lemma SliderPercentEdges(clientX: real, box: Rect)
    requires box.width > 0.0
    ensures clientX <= box.left ==> SliderPercent(clientX, box) == 0.0
    ensures clientX >= box.left + box.width ==> SliderPercent(clientX, box) == 100.0
  {
    if clientX >= box.left + box.width {
      assert box.width / box.width == 1.0;
    }
  }

  /** Inside the box the map is inverted by the handle's placement: the point at
      `position` percent of the width is the cursor itself. */
  lemma SliderFollowsCursor(clientX: real, box: Rect)
    requires box.width > 0.0 && box.left <= clientX <= box.left + box.width
    ensures box.left + SliderPercent(clientX, box) * box.width / 100.0 == clientX
  {
    var x := clientX - box.left;
    assert Max(0.0, Min(x, box.width)) == x;
    assert (x / box.width) * 100.0 * box.width / 100.0 == x;
  }

  // ---------------------------------------------------------------------------
  // rendering

  /** What the component renders. */
  datatype ComparatorView =
    | Nothing
      /** the static two-pane placeholder: the original beside an empty "enhanced" card */
    | SideBySide(original: string)
      /** both images stacked; the enhanced layer is clipped by `clipRight` percent from the
          right and the handle sits `handleLeft` percent from the left */
    | Overlay(original: string, enhanced: string, clipRight: real, handleLeft: real)

  /** The render branches: nothing without an original image, the placeholder without an
      enhanced one, otherwise the overlay driven by the slider position. */
  function Render(original: Option<string>, enhanced: Option<string>, position: real): (v: ComparatorView)
    ensures v.Nothing? <==> !Truthy(original)
    ensures v.SideBySide? <==> Truthy(original) && !Truthy(enhanced)
    ensures v.SideBySide? ==> v.original == original.value
    ensures v.Overlay? ==> v.original == original.value && v.enhanced == enhanced.value
  {
    if !Truthy(original) then Nothing
    else if !Truthy(enhanced) then SideBySide(original.value)
    else Overlay(original.value, enhanced.value, 100.0 - position, position)
  }

  /** In the overlay the enhanced layer shows from the left edge up to the handle and the
      original shows from the handle to the right edge; both stay inside the box. */
  lemma OverlaySplitsAtHandle(original: Option<string>, enhanced: Option<string>, position: real)
    requires Truthy(original) && Truthy(enhanced) && 0.0 <= position <= 100.0
    ensures Render(original, enhanced, position).Overlay?
    ensures 100.0 - Render(original, enhanced, position).clipRight == Render(original, enhanced, position).handleLeft == position
    ensures 0.0 <= Render(original, enhanced, position).clipRight <= 100.0
  {
  }

  // ---------------------------------------------------------------------------
  // the stateful component

  class Comparator {
    var sliderPosition: real
    var isDragging: bool

    /** The position never leaves [0, 100]. */
    ghost predicate Valid()
      reads this
    {
      0.0 <= sliderPosition <= 100.0
    }

    /** On mount: centred, not dragging. */
    constructor ()
      ensures Valid()
      ensures sliderPosition == 50.0 && !isDragging
    {
      sliderPosition := 50.0;
      isDragging := false;
    }

    /** `handleMouseDown`: a press on the container starts a drag. */
    method MouseDown()
      modifies this
      ensures isDragging && sliderPosition == old(sliderPosition)
    {
      isDragging := true;
    }

    /** `handleTouchStart`: a touch on the container starts a drag. */
    method TouchStart()
      modifies this
      ensures isDragging && sliderPosition == old(sliderPosition)
    {
      isDragging := true;
    }

    /** `handleMouseUp`, bound to the window's `mouseup` and `touchend`: releasing anywhere ends the drag. */
    method MouseUp()
      modifies this
      ensures !isDragging && sliderPosition == old(sliderPosition)
    {
      isDragging := false;
    }

    /** `handleMove`, bound to the window's `mousemove` and `touchmove`: while dragging and with
        the container mounted, the position follows the cursor; otherwise nothing changes. */
    method HandleMove(clientX: real, container: Option<Rect>)
      requires Valid()
      requires container.Some? ==> container.value.width > 0.0
      modifies this
      ensures Valid()
      ensures isDragging == old(isDragging)
      ensures old(isDragging) && container.Some? ==> sliderPosition == SliderPercent(clientX, container.value)
      ensures !(old(isDragging) && container.Some?) ==> sliderPosition == old(sliderPosition)
    {
      if container.None? || !isDragging {
        return;
      }
      var box := container.value;
      var x := Max(0.0, Min(clientX - box.left, box.width));
      sliderPosition := (x / box.width) * 100.0;
    }
  }
}
