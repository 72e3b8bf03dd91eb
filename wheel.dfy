/**
 * The scroll-wheel selection engine of src/lib/components/Wheel.tsx (and its
 * near-identical predecessor src/lib/Wheel.tsx): the arithmetic that turns a
 * scroll offset, a key press or a drag into an item index, and the `Wheel`
 * object whose refs and state the event handlers update.
 */
module ScrollWheel {
  import opened Wrappers
  import opened JsText

  // ---------------------------------------------------------------------------
  // Settling: from a scroll offset to the nearest item
  // ---------------------------------------------------------------------------

  /** `Math.round(a / b)` for a positive divisor: halves round up. */
  function Round(a: int, b: int): (r: int)
    requires b > 0
    ensures 2 * r * b - b <= 2 * a < 2 * r * b + b
  {
    (2 * a + b) / (2 * b)
  }

  /** `Math.max(lo, Math.min(hi, x))`. */
  function Clamp(x: int, lo: int, hi: int): (r: int)
    ensures lo <= hi ==> lo <= r <= hi
    ensures lo <= x <= hi ==> r == x
    ensures x < lo ==> r == lo
    ensures lo <= hi < x ==> r == hi
  {
    Max(lo, Min(hi, x))
  }

  /** The item `finalizeSelection` snaps to: the rounded offset, clamped to the items that exist. */
  function SettleIndex(scrollTop: int, itemHeight: int, n: int): (k: int)
    requires itemHeight > 0
    ensures n >= 1 ==> 0 <= k < n
    ensures n <= 0 ==> k == 0
  {
    Clamp(Round(scrollTop, itemHeight), 0, n - 1)
  }

  function Dist(x: int, y: int): nat {
    if x >= y then x - y else y - x
  }

  lemma MulMonotone(a: int, b: int, c: int)
    requires a <= b && c >= 0
    ensures a * c <= b * c
  {
    assert b * c - a * c == (b - a) * c;
  }

  lemma MulNonNegative(a: int, b: int)
    ensures a >= 0 && b >= 0 ==> a * b >= 0
  {
  }

  lemma MulCancel(a: int, b: int, c: int)
    requires c > 0 && a * c < b * c
    ensures a < b
  {
    if a >= b {
      MulMonotone(b, a, c);
    }
  }

  /**
   * The settled item is a nearest item to the offset: no item of the wheel
   * lies closer to `scrollTop` than the one `finalizeSelection` picks.
   */
  lemma SettleIsNearest(scrollTop: int, itemHeight: int, n: int, k: int)
    requires itemHeight > 0 && 0 <= k < n
    ensures var s := SettleIndex(scrollTop, itemHeight, n);
      Dist(scrollTop, s * itemHeight) <= Dist(scrollTop, k * itemHeight)
  {
    var b := itemHeight;
    var r := Round(scrollTop, b);
    var s := SettleIndex(scrollTop, b, n);
    assert 2 * r * b == 2 * (r * b);
    if r < 0 {
      MulMonotone(r, -1, b);
      MulMonotone(0, k, b);
    } else if r > n - 1 {
      MulMonotone(n - 1, r - 1, b);
      assert (r - 1) * b == r * b - b;
      MulMonotone(k, n - 1, b);
    } else if k != s {
      NeighbourIsFarther(s, k, b);
      NearestWithinHalf(scrollTop, s * b, k * b, b);
    }
  }

  /** A different item lies at least one item height away. */
  lemma NeighbourIsFarther(s: int, k: int, b: int)
    requires b > 0 && k != s
    ensures k * b >= s * b + b || k * b <= s * b - b
  {
    if k > s {
      MulMonotone(s + 1, k, b);
    } else {
      MulMonotone(k, s - 1, b);
    }
  }

  lemma NearestWithinHalf(a: int, sb: int, kb: int, b: int)
    requires 2 * sb - b <= 2 * a < 2 * sb + b
    requires kb >= sb + b || kb <= sb - b
    ensures Dist(a, sb) <= Dist(a, kb)
  {
  }

  /** An offset that sits exactly on item `k` settles on item `k`. */
  lemma SettleAligned(k: int, itemHeight: int, n: int)
    requires itemHeight > 0 && 0 <= k < n
    ensures SettleIndex(k * itemHeight, itemHeight, n) == k
  {
    var b := itemHeight;
    assert 2 * (k * b) + b == k * (2 * b) + b;
    DivOfMultiple(k, 2 * b, b);
  }

  /** Division undoes a multiple plus a remainder smaller than the divisor. */
  lemma DivOfMultiple(q: int, d: int, rem: int)
    requires d > 0 && 0 <= rem < d
    ensures (q * d + rem) / d == q
  {
    var x := q * d + rem;
    var r := x / d;
    assert x == r * d + x % d;
    if r > q {
      MulMonotone(q + 1, r, d);
    } else if r < q {
      MulMonotone(r + 1, q, d);
    }
  }

  // ---------------------------------------------------------------------------
  // The keyboard
  // ---------------------------------------------------------------------------

  datatype Key = ArrowUp | ArrowDown | Home | End | PageUp | PageDown | Other

  /**
   * The index a key press asks for: one step for the arrows, `visibleCount`
   * steps for the page keys, the ends for Home and End, each clamped to the
   * items; `None` for a key the wheel does not handle.
   */
  function KeyTarget(key: Key, current: int, n: int, visibleCount: int): (r: Option<int>)
    ensures r.None? <==> key == Other
    ensures n >= 1 && 0 <= current < n && visibleCount >= 0 && r.Some? ==> 0 <= r.value < n
    ensures key == Home ==> r == Some(0)
    ensures key == End ==> r == Some(n - 1)
  {
    match key
    case ArrowUp => Some(Max(0, current - 1))
    case ArrowDown => Some(Min(n - 1, current + 1))
    case Home => Some(0)
    case End => Some(n - 1)
    case PageUp => Some(Max(0, current - visibleCount))
    case PageDown => Some(Min(n - 1, current + visibleCount))
    case Other => None
  }

  /** The index after pressing `key` `times` times in a row; an unhandled key leaves it alone. */
  function PressRepeatedly(key: Key, current: int, n: int, visibleCount: int, times: nat): int
    decreases times
  {
    if times == 0 then current
    else
      var next := KeyTarget(key, current, n, visibleCount);
      PressRepeatedly(key, if next.Some? then next.value else current, n, visibleCount, times - 1)
  }

  /** Inside the wheel, ArrowDown undoes ArrowUp and ArrowUp undoes ArrowDown. */
  lemma ArrowsAreInverse(current: int, n: int, visibleCount: int)
    requires 0 <= current < n
    ensures current > 0 ==>
      KeyTarget(ArrowDown, KeyTarget(ArrowUp, current, n, visibleCount).value, n, visibleCount) == Some(current)
    ensures current < n - 1 ==>
      KeyTarget(ArrowUp, KeyTarget(ArrowDown, current, n, visibleCount).value, n, visibleCount) == Some(current)
  {
  }

  /** Pressing ArrowDown `times` times moves `times` items down, stopping at the last item. */
  lemma {:induction false} ArrowDownRepeated(current: int, n: int, visibleCount: int, times: nat)
    requires 0 <= current < n
    ensures PressRepeatedly(ArrowDown, current, n, visibleCount, times) == Min(n - 1, current + times)
    decreases times
  {
    if times > 0 {
      var next := Min(n - 1, current + 1);
      ArrowDownRepeated(next, n, visibleCount, times - 1);
    }
  }

  /** Pressing ArrowUp `times` times moves `times` items up, stopping at the first item. */
  lemma {:induction false} ArrowUpRepeated(current: int, n: int, visibleCount: int, times: nat)
    requires 0 <= current < n
    ensures PressRepeatedly(ArrowUp, current, n, visibleCount, times) == Max(0, current - times)
    decreases times
  {
    if times > 0 {
      var next := Max(0, current - 1);
      ArrowUpRepeated(next, n, visibleCount, times - 1);
    }
  }

  /** PageDown and PageUp land where `visibleCount` presses of the arrow key would. */
  lemma PageKeysAreRepeatedArrows(current: int, n: int, visibleCount: nat)
    requires 0 <= current < n
    ensures KeyTarget(PageDown, current, n, visibleCount) ==
      Some(PressRepeatedly(ArrowDown, current, n, visibleCount, visibleCount))
    ensures KeyTarget(PageUp, current, n, visibleCount) ==
      Some(PressRepeatedly(ArrowUp, current, n, visibleCount, visibleCount))
  {
    ArrowDownRepeated(current, n, visibleCount, visibleCount);
    ArrowUpRepeated(current, n, visibleCount, visibleCount);
  }

  // ---------------------------------------------------------------------------
  // Dragging
  // ---------------------------------------------------------------------------

  /**
   * The offset a pointer drag sets: the offset at the start of the drag plus
   * how far the pointer moved up, kept between the first and the last item.
   */
  function DragOffset(dragStartScrollTop: int, dragStartY: int, clientY: int, n: int, itemHeight: int): (r: int)
    ensures n >= 1 && itemHeight >= 0 ==> 0 <= r <= (n - 1) * itemHeight
  {
    var maxScroll := (n - 1) * itemHeight;
    MulNonNegative(n - 1, itemHeight);
    Clamp(dragStartScrollTop + (dragStartY - clientY), 0, maxScroll)
  }

  /** Within the wheel's range the offset follows the pointer exactly, in the opposite direction. */
  lemma DragFollowsPointer(dragStartScrollTop: int, dragStartY: int, clientY: int, n: int, itemHeight: int)
    requires 0 <= dragStartScrollTop + (dragStartY - clientY) <= (n - 1) * itemHeight
    ensures DragOffset(dragStartScrollTop, dragStartY, clientY, n, itemHeight) ==
      dragStartScrollTop + dragStartY - clientY
  {
  }

  /** Moving the pointer further down never scrolls the wheel further down. */
  lemma DragIsMonotone(start: int, startY: int, y1: int, y2: int, n: int, itemHeight: int)
    requires y1 <= y2
    ensures DragOffset(start, startY, y2, n, itemHeight) <= DragOffset(start, startY, y1, n, itemHeight)
  {
  }

  /**
   * A drag that starts on item `s` and moves the pointer up by exactly `k`
   * item heights settles on item `s + k`.
   */
  lemma DragThenSettle(s: int, k: int, startY: int, n: int, itemHeight: int)
    requires itemHeight > 0 && 0 <= s < n && 0 <= s + k < n
    ensures SettleIndex(DragOffset(s * itemHeight, startY, startY - k * itemHeight, n, itemHeight), itemHeight, n) == s + k
  {
    var b := itemHeight;
    assert s * b + k * b == (s + k) * b;
    MulMonotone(0, s + k, b);
    MulMonotone(s + k, n - 1, b);
    SettleAligned(s + k, b, n);
  }

  // ---------------------------------------------------------------------------
  // The wheel object
  // ---------------------------------------------------------------------------

  /**
   * A scheduled `finalizeSelection`: the timeout in milliseconds and the
   * `internalValue` the callback captured when it was scheduled.
   */
  datatype Settle = Settle(delay: nat, seen: int)

  /**
   * One mounted wheel. The constants are its props; the variables are its
   * refs (`isDragging`, `isUserScrolling`, `dragStartY`, `dragStartScrollTop`,
   * `scrollEndTimeout`), its `internalValue` state and the viewport's
   * `scrollTop`. Pending timeouts live in `timers`, keyed by the id
   * `setTimeout` returned; `timeoutRef` is the id held in `scrollEndTimeout`
   * (0 for `null`). Every `onChange` call is appended to `emitted`.
   * `dragMoved` has no counterpart in the component: it records whether a
   * pointer move changed the offset during the current drag, which is what
   * the corrected pointer-up asks instead of comparing with
   * `dragStartScrollTop` (a second pointer's pointer-down resets that).
   */
  class Wheel {
    const n: int
    const itemHeight: int
    const visibleCount: int
    const disabled: bool

    var internalValue: int
    var isDragging: bool
    var isUserScrolling: bool
    var dragStartY: int
    var dragStartScrollTop: int
    var scrollTop: int
    var dragMoved: bool
    var timeoutRef: nat
    var nextTimerId: nat
    var timers: map<nat, Settle>
    var mounted: bool
    var emitted: seq<int>

    /**
     * The wheel's standing invariant: timer ids are handed out in order, a
     * drag is a user scroll, and only a drag can have moved.
     */
    predicate Valid()
      reads this
    {
      itemHeight > 0 && nextTimerId >= 1 && timeoutRef < nextTimerId &&
      (forall id :: id in timers ==> 1 <= id < nextTimerId) &&
      (isDragging ==> isUserScrolling) && (dragMoved ==> isDragging)
    }

    /** The selection names an item, and so did every `onChange` call. */
    predicate InRange()
      reads this
    {
      0 <= internalValue < n && forall i :: 0 <= i < |emitted| ==> 0 <= emitted[i] < n
    }

    /**
     * At most one settle is pending, and it is the one `scrollEndTimeout`
     * holds. The corrected pointer-up keeps this; the pointer-up as written
     * does not.
     */
    predicate SingleSettle()
      reads this
    {
      timers.Keys <= {timeoutRef}
    }

    /** The first render and the mount effect: adopt `value` and put the viewport on it. */
    constructor (n: int, value: int, itemHeight: int, visibleCount: int, disabled: bool)
      requires itemHeight > 0
      ensures Valid() && mounted
      ensures this.n == n && this.itemHeight == itemHeight
      ensures this.visibleCount == visibleCount && this.disabled == disabled
      ensures internalValue == value && scrollTop == value * itemHeight
      ensures !isDragging && !isUserScrolling && !dragMoved && dragStartY == 0 && dragStartScrollTop == 0
      ensures timeoutRef == 0 && timers == map[] && emitted == [] && SingleSettle()
      ensures 0 <= value < n ==> InRange()
    {
      this.n := n;
      this.itemHeight := itemHeight;
      this.visibleCount := visibleCount;
      this.disabled := disabled;
      internalValue := value;
      isDragging := false;
      isUserScrolling := false;
      dragStartY := 0;
      dragStartScrollTop := 0;
      scrollTop := value * itemHeight;
      dragMoved := false;
      timeoutRef := 0;
      nextTimerId := 1;
      timers := map[];
      mounted := true;
      emitted := [];
    }

    /** The controlled-value effect: a new `value` is adopted silently unless the user is scrolling. */
    method Sync(value: int)
      requires Valid() && mounted
      modifies this`internalValue, this`scrollTop
      ensures Valid()
      ensures if !isUserScrolling && value != old(internalValue)
        then internalValue == value && scrollTop == value * itemHeight
        else internalValue == old(internalValue) && scrollTop == old(scrollTop)
      ensures old(InRange()) && 0 <= value < n ==> InRange()
      ensures old(SingleSettle()) ==> SingleSettle()
    {
      if !isUserScrolling && value != internalValue {
        internalValue := value;
        scrollTop := value * itemHeight;
      }
    }

    /** The browser moves the viewport (a wheel gesture, a fling, or an animation finishing). */
    method ScrollViewport(offset: int)
      requires Valid() && mounted
      modifies this`scrollTop
      ensures Valid() && scrollTop == offset
      ensures old(InRange()) ==> InRange()
      ensures old(SingleSettle()) ==> SingleSettle()
    {
      scrollTop := offset;
    }

    /**
     * `finalizeSelection` as the callback that captured `seen` runs it: snap
     * to the nearest item, end the scroll and the drag, and report the item
     * when it differs from `seen`. After unmount it does nothing.
     */
    method Finalize(seen: int)
      requires Valid()
      modifies this`scrollTop, this`isUserScrolling, this`isDragging, this`dragMoved, this`internalValue, this`emitted
      ensures Valid()
      ensures !mounted ==>
        scrollTop == old(scrollTop) && isUserScrolling == old(isUserScrolling) && isDragging == old(isDragging) &&
        dragMoved == old(dragMoved) && internalValue == old(internalValue) && emitted == old(emitted)
      ensures mounted ==>
        var k := SettleIndex(old(scrollTop), itemHeight, n);
        scrollTop == k * itemHeight && !isUserScrolling && !isDragging && !dragMoved &&
        if k != seen then internalValue == k && emitted == old(emitted) + [k]
        else internalValue == old(internalValue) && emitted == old(emitted)
      ensures old(InRange()) ==> InRange()
    {
      if !mounted {
        return;
      }
      var k := SettleIndex(scrollTop, itemHeight, n);
      scrollTop := k * itemHeight;
      isUserScrolling := false;
      isDragging := false;
      dragMoved := false;
      if k != seen {
        internalValue := k;
        emitted := emitted + [k];
      }
    }

    /**
     * `handleScroll`: ignored during a drag; otherwise the scroll counts as
     * the user's, the pending timeout is cleared and a 100 ms settle is
     * scheduled in its place.
     */
    method HandleScroll()
      requires Valid() && mounted
      modifies this`isUserScrolling, this`timers, this`timeoutRef, this`nextTimerId
      ensures Valid()
      ensures old(isDragging) ==>
        isUserScrolling == old(isUserScrolling) && timers == old(timers) &&
        timeoutRef == old(timeoutRef) && nextTimerId == old(nextTimerId)
      ensures !old(isDragging) ==>
        isUserScrolling && timeoutRef == old(nextTimerId) && nextTimerId == old(nextTimerId) + 1 &&
        timers == (old(timers) - {old(timeoutRef)})[old(nextTimerId) := Settle(100, internalValue)]
      ensures old(InRange()) ==> InRange()
      ensures old(SingleSettle()) ==> SingleSettle()
    {
      if isDragging {
        return;
      }
      isUserScrolling := true;
      if timeoutRef != 0 {
        timers := timers - {timeoutRef};
      }
      Schedule(100);
    }

    /** `setTimeout(finalizeSelection, delay)` stored in `scrollEndTimeout`; the previous id is simply overwritten. */
    method Schedule(delay: nat)
      requires Valid()
      modifies this`timers, this`timeoutRef, this`nextTimerId
      ensures Valid()
      ensures timeoutRef == old(nextTimerId) && nextTimerId == old(nextTimerId) + 1
      ensures timers == old(timers)[old(nextTimerId) := Settle(delay, internalValue)]
    {
      timeoutRef := nextTimerId;
      timers := timers[nextTimerId := Settle(delay, internalValue)];
      nextTimerId := nextTimerId + 1;
    }

    /**
     * `handlePointerDown`: unless disabled or not the primary button, start a
     * drag from the pointer's position and the current offset, and clear the
     * pending timeout (the ref keeps its stale id).
     */
    method HandlePointerDown(button: int, clientY: int)
      requires Valid() && mounted
      modifies this`isDragging, this`isUserScrolling, this`dragStartY, this`dragStartScrollTop, this`timers
      ensures Valid()
      ensures disabled || button != 0 ==>
        isDragging == old(isDragging) && isUserScrolling == old(isUserScrolling) &&
        dragStartY == old(dragStartY) && dragStartScrollTop == old(dragStartScrollTop) && timers == old(timers)
      ensures !disabled && button == 0 ==>
        isDragging && isUserScrolling && dragStartY == clientY && dragStartScrollTop == scrollTop &&
        timers == old(timers) - {timeoutRef}
      ensures old(SingleSettle()) ==> SingleSettle()
      ensures old(SingleSettle()) && !disabled && button == 0 ==> timers == map[]
    {
      if disabled {
        return;
      }
      if button != 0 {
        return;
      }
      isDragging := true;
      isUserScrolling := true;
      dragStartY := clientY;
      dragStartScrollTop := scrollTop;
      if timeoutRef != 0 {
        timers := timers - {timeoutRef};
      }
    }

    /**
     * `handlePointerMove`: during a drag the offset follows the pointer,
     * clamped to the items; a move that changes the offset marks the drag as moved.
     */
    method HandlePointerMove(clientY: int)
      requires Valid() && mounted
      modifies this`scrollTop, this`dragMoved
      ensures Valid()
      ensures scrollTop == if isDragging
        then DragOffset(dragStartScrollTop, dragStartY, clientY, n, itemHeight) else old(scrollTop)
      ensures dragMoved == (old(dragMoved) || scrollTop != old(scrollTop))
      ensures old(InRange()) ==> InRange()
      ensures old(SingleSettle()) ==> SingleSettle()
    {
      if !isDragging {
        return;
      }
      var offset := DragOffset(dragStartScrollTop, dragStartY, clientY, n, itemHeight);
      dragMoved := dragMoved || offset != scrollTop;
      scrollTop := offset;
    }

    /**
     * `handlePointerUp` (also the pointer-cancel handler): after a drag, a
     * 50 ms settle is scheduled. The drag itself stays on until the settle
     * runs, and a timeout already pending is not cleared.
     */
    method HandlePointerUp()
      requires Valid() && mounted
      modifies this`timers, this`timeoutRef, this`nextTimerId
      ensures Valid()
      ensures !isDragging ==>
        timers == old(timers) && timeoutRef == old(timeoutRef) && nextTimerId == old(nextTimerId)
      ensures isDragging ==>
        timeoutRef == old(nextTimerId) && nextTimerId == old(nextTimerId) + 1 &&
        timers == old(timers)[old(nextTimerId) := Settle(50, internalValue)]
    {
      if !isDragging {
        return;
      }
      Schedule(50);
    }

    /**
     * Pointer-up as evidently intended: the pending timeout is cleared before
     * a new one is scheduled, and a drag in which no pointer move changed the
     * offset (a tap) ends at once instead of scheduling a settle, so the click
     * that follows selects the tapped item.
     */
    method HandlePointerUpCorrected()
      requires Valid() && mounted
      modifies this`isDragging, this`isUserScrolling, this`timers, this`timeoutRef, this`nextTimerId
      ensures Valid()
      ensures !old(isDragging) ==>
        isDragging == old(isDragging) && isUserScrolling == old(isUserScrolling) &&
        timers == old(timers) && timeoutRef == old(timeoutRef) && nextTimerId == old(nextTimerId)
      ensures old(isDragging) && !dragMoved ==>
        !isDragging && !isUserScrolling && timers == old(timers) - {old(timeoutRef)} &&
        timeoutRef == old(timeoutRef) && nextTimerId == old(nextTimerId)
      ensures old(isDragging) && dragMoved ==>
        isDragging && isUserScrolling &&
        timeoutRef == old(nextTimerId) && nextTimerId == old(nextTimerId) + 1 &&
        timers == (old(timers) - {old(timeoutRef)})[old(nextTimerId) := Settle(50, internalValue)]
      ensures old(SingleSettle()) ==> SingleSettle()
    {
      if !isDragging {
        return;
      }
      if timeoutRef != 0 {
        timers := timers - {timeoutRef};
      }
      if !dragMoved {
        isDragging := false;
        isUserScrolling := false;
        return;
      }
      Schedule(50);
    }

    /** `handleItemClick`: unless disabled or dragging, select the item and report it, even if unchanged. */
    method HandleItemClick(index: int)
      requires Valid() && mounted && 0 <= index < n
      modifies this`internalValue, this`emitted, this`scrollTop
      ensures Valid()
      ensures disabled || isDragging ==>
        internalValue == old(internalValue) && emitted == old(emitted) && scrollTop == old(scrollTop)
      ensures !disabled && !isDragging ==>
        internalValue == index && emitted == old(emitted) + [index] && scrollTop == index * itemHeight
      ensures old(InRange()) ==> InRange()
      ensures old(SingleSettle()) ==> SingleSettle()
    {
      if disabled || isDragging {
        return;
      }
      internalValue := index;
      emitted := emitted + [index];
      scrollTop := index * itemHeight;
    }

    /**
     * `handleKeyDown`: unless disabled, a handled key selects its target and
     * reports it exactly once when it differs from the current item; an
     * unhandled key or a move that stays put changes nothing.
     */
    method HandleKeyDown(key: Key)
      requires Valid() && mounted
      modifies this`internalValue, this`emitted, this`scrollTop
      ensures Valid()
      ensures var t := KeyTarget(key, old(internalValue), n, visibleCount);
        if !disabled && t.Some? && t.value != old(internalValue)
        then internalValue == t.value && emitted == old(emitted) + [t.value] && scrollTop == t.value * itemHeight
        else internalValue == old(internalValue) && emitted == old(emitted) && scrollTop == old(scrollTop)
      ensures old(InRange()) && visibleCount >= 0 ==> InRange()
      ensures old(SingleSettle()) ==> SingleSettle()
    {
      if disabled {
        return;
      }
      var target := KeyTarget(key, internalValue, n, visibleCount);
      if target.None? {
        return;
      }
      var newIndex := target.value;
      if newIndex != internalValue {
        internalValue := newIndex;
        emitted := emitted + [newIndex];
        scrollTop := newIndex * itemHeight;
      }
    }

    /** A pending timeout runs: it is no longer pending, and its callback finalizes with the value it captured. */
    method FireTimer(id: nat)
      requires Valid() && id in timers
      modifies this`timers, this`scrollTop, this`isUserScrolling, this`isDragging, this`dragMoved
      modifies this`internalValue, this`emitted
      ensures Valid() && timers == old(timers) - {id}
      ensures !mounted ==>
        scrollTop == old(scrollTop) && isUserScrolling == old(isUserScrolling) && isDragging == old(isDragging) &&
        dragMoved == old(dragMoved) && internalValue == old(internalValue) && emitted == old(emitted)
      ensures mounted ==>
        var k := SettleIndex(old(scrollTop), itemHeight, n);
        scrollTop == k * itemHeight && !isUserScrolling && !isDragging && !dragMoved &&
        if k != old(timers)[id].seen then internalValue == k && emitted == old(emitted) + [k]
        else internalValue == old(internalValue) && emitted == old(emitted)
      ensures old(InRange()) ==> InRange()
      ensures old(SingleSettle()) ==> SingleSettle() && timers == map[]
    {
      var settle := timers[id];
      timers := timers - {id};
      Finalize(settle.seen);
    }

    /** The unmount cleanup: the timeout held in the ref is cleared and the viewport is gone. */
    method Unmount()
      requires Valid() && mounted
      modifies this`timers, this`mounted
      ensures Valid() && !mounted && timers == old(timers) - {timeoutRef}
      ensures old(SingleSettle()) ==> timers == map[]
    {
      if timeoutRef != 0 {
        timers := timers - {timeoutRef};
      }
      mounted := false;
    }
  }
}
