/**
 * Event sequences played against the `Wheel` object, each as the handlers are
 * written and with the corrected pointer-up handler: first on any enabled
 * wheel in any state, then on a fixed wheel with five items 40 pixels high,
 * five visible, showing item 0.
 */
module WheelScenarios {
  import opened ScrollWheel

  /**
   * A tap on any item of any enabled wheel, as written: pointer-down starts a
   * drag that pointer-up leaves on, so the click is ignored and nothing is
   * selected or reported.
   */
  method TapIsIgnored(w: Wheel, clientY: int, index: int)
    requires w.Valid() && w.mounted && !w.disabled && 0 <= index < w.n
    modifies w
    ensures w.isDragging
    ensures w.internalValue == old(w.internalValue) && w.emitted == old(w.emitted)
  {
    w.HandlePointerDown(0, clientY);
    w.HandlePointerUp();
    w.HandleItemClick(index);
  }

  /**
   * The same tap with the corrected pointer-up, on any enabled wheel in any
   * state: unless it is a second finger joining a drag that has already
   * moved, the tapped item is selected, reported once and scrolled to, and no
   * settle is left pending; a finger joining a moved drag leaves that drag
   * and its settle in place, and the click is ignored.
   */
  method TapSelects(w: Wheel, clientY: int, index: int)
    requires w.Valid() && w.mounted && !w.disabled && 0 <= index < w.n
    modifies w
    ensures !old(w.dragMoved) ==>
      !w.isDragging && !w.isUserScrolling &&
      w.internalValue == index && w.emitted == old(w.emitted) + [index] &&
      w.scrollTop == index * w.itemHeight
    ensures !old(w.dragMoved) && old(w.SingleSettle()) ==> w.timers == map[]
    ensures old(w.dragMoved) ==>
      w.isDragging && w.timeoutRef in w.timers &&
      w.internalValue == old(w.internalValue) && w.emitted == old(w.emitted)
  {
    w.HandlePointerDown(0, clientY);
    w.HandlePointerUpCorrected();
    w.HandleItemClick(index);
  }

  /**
   * As written, a drag joined by a second pointer, whose two pointer-up
   * events end it, leaves two settles pending, whatever the wheel's state
   * and the pointers' paths.
   */
  method TwoPointerUpsLeaveTwoSettles(w: Wheel, startY: int, clientY: int, secondY: int)
    requires w.Valid() && w.mounted && !w.disabled && w.SingleSettle()
    modifies w
    ensures |w.timers| == 2 && !w.SingleSettle()
  {
    w.HandlePointerDown(0, startY);
    w.HandlePointerMove(clientY);
    w.HandlePointerDown(0, secondY);
    w.HandlePointerUp();
    var first := w.timeoutRef;
    w.HandlePointerUp();
    assert first in w.timers && first != w.timeoutRef;
  }

  /**
   * With the corrected pointer-up, a drag that a second pointer joins, each
   * pointer moving anywhere, and that both pointer-up events end: when a
   * move changed the offset, the wheel snaps to the item nearest the final
   * offset and reports it exactly once if it differs from the item selected
   * before; when nothing moved, it is a tap and nothing changes. Either way
   * nothing is left pending.
   */
  method DragReportsOnce(w: Wheel, startY: int, clientY: int, secondY: int, nextY: int)
    requires w.Valid() && w.mounted && !w.disabled && w.SingleSettle()
    modifies w
    ensures w.timers == map[] && !w.isDragging && !w.isUserScrolling
    ensures var first := DragOffset(old(w.scrollTop), startY, clientY, w.n, w.itemHeight);
      var last := DragOffset(first, secondY, nextY, w.n, w.itemHeight);
      var k := SettleIndex(last, w.itemHeight, w.n);
      if old(w.dragMoved) || first != old(w.scrollTop) || last != first then
        (w.scrollTop == k * w.itemHeight && w.internalValue == k &&
         w.emitted == old(w.emitted) + (if k != old(w.internalValue) then [k] else []))
      else
        (w.scrollTop == old(w.scrollTop) && w.internalValue == old(w.internalValue) &&
         w.emitted == old(w.emitted))
  {
    w.HandlePointerDown(0, startY);
    w.HandlePointerMove(clientY);
    w.HandlePointerDown(0, secondY);
    w.HandlePointerMove(nextY);
    w.HandlePointerUpCorrected();
    w.HandlePointerUpCorrected();
    if w.timeoutRef in w.timers {
      w.FireTimer(w.timeoutRef);
    }
  }

  /**
   * A tap on item 2 as written: pointer-down starts a drag, pointer-up only
   * schedules the settle, so the click that follows still sees a drag in
   * progress and is ignored; the settle then finds the wheel where it was.
   * The tapped item is never selected.
   */
  method TapOnItem() returns (w: Wheel)
    ensures w.internalValue == 0 && w.emitted == [] && !w.isDragging
  {
    w := new Wheel(5, 0, 40, 5, false);
    w.HandlePointerDown(0, 100);
    w.HandlePointerUp();
    var settle := w.timeoutRef;
    w.HandleItemClick(2);
    w.FireTimer(settle);
  }

  /** The same tap with the corrected pointer-up: the drag ends at once and the click selects item 2. */
  method TapOnItemCorrected() returns (w: Wheel)
    ensures w.internalValue == 2 && w.emitted == [2] && !w.isDragging && w.timers == map[]
  {
    w := new Wheel(5, 0, 40, 5, false);
    w.HandlePointerDown(0, 100);
    w.HandlePointerUpCorrected();
    w.HandleItemClick(2);
  }

  /**
   * A one-item drag that a second finger joins, as written: the second
   * pointer-down restarts the drag from the current offset, each finger's
   * pointer-up schedules a settle, the first id is overwritten without being
   * cleared, and both callbacks compare against the same captured value, so
   * the change to item 1 is reported twice.
   */
  method DragWithTwoPointerUps() returns (w: Wheel)
    ensures w.internalValue == 1 && w.emitted == [1, 1]
  {
    w := new Wheel(5, 0, 40, 5, false);
    w.HandlePointerDown(0, 100);
    w.HandlePointerMove(60);
    w.HandlePointerDown(0, 50);
    w.HandlePointerUp();
    var first := w.timeoutRef;
    w.HandlePointerUp();
    var second := w.timeoutRef;
    w.FireTimer(first);
    w.FireTimer(second);
  }

  /** The same drag with the corrected pointer-up: the second schedule clears the first and item 1 is reported once. */
  method DragWithTwoPointerUpsCorrected() returns (w: Wheel)
    ensures w.internalValue == 1 && w.emitted == [1] && w.timers == map[]
  {
    w := new Wheel(5, 0, 40, 5, false);
    w.HandlePointerDown(0, 100);
    w.HandlePointerMove(60);
    w.HandlePointerDown(0, 50);
    w.HandlePointerUpCorrected();
    w.HandlePointerUpCorrected();
    var settle := w.timeoutRef;
    w.FireTimer(settle);
  }

  /**
   * Arrow keys on a fresh wheel: ArrowUp at the top changes nothing, two
   * ArrowDowns report items 1 and 2, and End reports the last item.
   */
  method KeyboardWalk() returns (w: Wheel)
    ensures w.internalValue == 4 && w.emitted == [1, 2, 4]
  {
    w := new Wheel(5, 0, 40, 5, false);
    w.HandleKeyDown(ArrowUp);
    w.HandleKeyDown(ArrowDown);
    w.HandleKeyDown(ArrowDown);
    w.HandleKeyDown(End);
    w.HandleKeyDown(Other);
  }

  /** A controlled value from the parent is adopted without an `onChange` call, unless the user is scrolling. */
  method ControlledSync() returns (w: Wheel)
    ensures w.internalValue == 3 && w.scrollTop == 120 && w.emitted == []
  {
    w := new Wheel(5, 0, 40, 5, false);
    w.Sync(3);
    w.HandleScroll();
    w.Sync(1);
  }
}
