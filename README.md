# react-ios-time-picker in Dafny

This project is a verified model of the logic inside react-ios-time-picker, an iOS-style scroll-wheel
time picker for React. It covers five pieces:

- **The scroll wheel** (`src/lib/components/Wheel.tsx`, and the nearly identical `src/lib/Wheel.tsx`).
  A state machine over these values:
  - the selected `internalValue`;
  - the `isDragging` and `isUserScrolling` flags;
  - the drag origin;
  - the pending settle timeout;
  - the viewport's `scrollTop`.

  Its event handlers snap a scroll offset to the nearest item, move with the keyboard, follow a
  pointer drag, select a clicked item and adopt a controlled `value`. Every `onChange` call is
  recorded.
- **Time strings** (`src/lib/utils/formatters.ts`). Covers `parseTime`, `formatTime`, the 12/24-hour
  conversions, Persian numerals, and the right-to-left decision.
- **The compound picker's root and wheels** (`TimePickerRoot.tsx`, `TimePickerWheel.tsx`). Covers:
  - which hours and minutes are offered;
  - which index each wheel shows;
  - what a chosen index sends back as the new `onChange` string;
  - the locale tables;
  - item labels and display.
- **The single-component picker** (`src/lib/TimePicker.tsx`). It has its own reading of the value,
  with a fallback to the first entry, and its own hour and minute change handlers.
- **The built-in domains** (`timeConstants.ts`) and the `cn` class-name joiner (`utils/cn.ts`).

## How it is modelled

- The wheel is a class, `ScrollWheel.Wheel`:
  - Its fields are the component's refs and state. Each handler is a method whose contract gives the
    whole new state.
  - `setTimeout` is modelled as a map of pending timeouts. A timeout runs when the host calls
    `FireTimer`.
  - Each timeout records the `internalValue` its callback captured when it was scheduled. This is
    React's closure over state.
  - `emitted` is the sequence of `onChange` arguments.
  - Scroll events come only from the host. In the browser, the wheel's own moves fire a scroll
    event, which runs `handleScroll`: `isUserScrolling` is set and a new 100 ms settle is scheduled.
    These moves are `scrollToIndex` in the value effect (`Sync`), the smooth scroll of
    `HandleItemClick`, and the `scrollTo` in `Finalize`. The model does not raise that event itself.
    The host calls `HandleScroll` after such a move, as `WheelScenarios.ControlledSync` does. That
    event is why `Sync` ignores the parent's value for about 100 ms after every selection.
- The arithmetic the handlers use is separate pure functions, with lemmas about them: settling,
  keys, drag offset.
- Everything else is pure and modelled with functions and lemmas:
  - `Wrappers.Option` stands for `null`, `undefined` and `NaN`.
  - `None` from a change handler means the JavaScript code throws, because it calls `toString` on
    `undefined`.
- JavaScript built-ins are modelled in `JsText` as far as the picker uses them:
  - `toString` and `padStart(2, "0")` on integers;
  - `trim` with the ECMAScript whitespace set;
  - `split` on one character;
  - `toUpperCase` on ASCII letters;
  - `includes` and `indexOf`;
  - `Number` on integer text: surrounding whitespace is ignored, `""` is 0, an optional sign then
    decimal digits is a number, and anything else is NaN.
- Some inputs are parameters:
  - the browser locale that `detectLocale` reads;
  - the pointer button and position;
  - the moment a timeout fires.

## Model

| member | source | states |
|---|---|---|
| JsText.Pad2 | src/lib/utils/formatters.ts:48-49 | `toString().padStart(2, "0")` has at least two characters, all digits for a non-negative number |
| JsText.Pad2RoundTrip | src/lib/utils/formatters.ts:26 | `Number` reads every integer written by `toString().padStart(2, "0")` back as that integer |
| JsText.NumberOf | src/lib/utils/formatters.ts:26 | `Number` of a string is a number exactly when its trimmed text is all digits (the empty text reading as 0) or a `+`/`-` sign followed by digits, with the value those digits and sign give; anything else is NaN |
| JsText.NegativeRoundTrip | src/lib/utils/formatters.ts:26 | `Number` reads a negative integer's `toString` back as that integer |
| JsText.Trim | src/lib/utils/formatters.ts:25 | `trim()` is no longer than the text and neither starts nor ends with whitespace; that it removes only whitespace is `JsText.TrimRemovesOnlySpace` |
| JsText.TrimRemovesOnlySpace | src/lib/utils/formatters.ts:25 | `trim()` returns a contiguous piece of the text with only whitespace before and after it, so nothing but whitespace is removed |
| JsText.Split | src/lib/utils/formatters.ts:36 | `split` on one character always gives at least one piece; the pieces themselves are given by `JsText.SplitNoSeparator` and `JsText.SplitAtFirst` |
| JsText.SplitNoSeparator | src/lib/utils/formatters.ts:36 | text without the separator splits into itself alone |
| JsText.ToUpper | src/lib/utils/formatters.ts:19 | `toUpperCase()` keeps the length and upper-cases every character in place |
| JsText.SplitAtFirst | src/lib/utils/formatters.ts:36 | `split` on a separator: the text before the first separator is the first piece, followed by the pieces of the rest |
| JsText.IndexOf | src/lib/components/TimePickerWheel.tsx:31-35 | `indexOf` is -1 exactly when the value is absent, otherwise the first position holding it |
| JsText.IndexOfDistinct | src/lib/components/TimePickerWheel.tsx:31-35 | in a list without repeats, `indexOf` of the value at position i is i |
| Formatters.ParseTime | src/lib/utils/formatters.ts:11-38 | empty input gives 0:00 with AM (12-hour) or no period. A period is returned exactly when `is12Hour` is set or the upper-cased input contains AM or PM, and it is PM exactly when the upper-cased input contains PM. The 12-hour reading takes the `:`-fields of the upper-cased text with the marker removed and trimmed: a numeric hour is clamped to 1..12, a NaN hour gives 12, and the minute is its number or 0. The 24-hour reading takes both fields of the input unclamped, 0 for NaN |
| Formatters.FirstPeriodFrom | src/lib/utils/formatters.ts:25 | the position the regular expression's marker match starts from is the first AM/PM in the text |
| Formatters.StripPeriod | src/lib/utils/formatters.ts:25 | without a marker the text is unchanged; otherwise exactly the first marker and the whitespace runs on either side of it are removed, everything before and after kept |
| Formatters.Parse12 | src/lib/utils/formatters.ts:22-32 | the hour is the first `:`-field of the trimmed, marker-free text clamped to 1..12, or 12 when it is NaN; the minute is the second field, or 0; the period is PM exactly when the text contains PM |
| Formatters.Fields12 | src/lib/utils/formatters.ts:26-31 | a numeric hour field x gives `min(12, max(1, x))` and a NaN one gives 12; the minute is the field's number, or 0 when it is not one |
| Formatters.Parse24 | src/lib/utils/formatters.ts:35-37 | the 24-hour reading has no period; each field is its number unclamped, or 0 when it is not a number |
| Formatters.ClampHour12 | src/lib/utils/formatters.ts:29 | the clamped hour is in 1..12: an hour in 1..12 is kept, anything below 1 gives 1, anything above 12 gives 12 |
| Formatters.Clock | src/lib/utils/formatters.ts:48-54 | the `HH:MM` part has at least five characters; its contents are given by `Formatters.ClockFields` and `Formatters.ClockNumbers` |
| Formatters.FormatTime | src/lib/utils/formatters.ts:43-55 | the output starts with `HH:MM`, and it is longer exactly when a period is given, in which case the rest is `" AM"` or `" PM"` |
| Formatters.FormatTimeWidth | src/lib/utils/formatters.ts:43-55 | for hour and minute in 0..99 the output is `HH:MM` (5 characters) or `HH:MM AM`/`HH:MM PM` (8), with digits around the colon |
| Formatters.ClockFields | src/lib/utils/formatters.ts:43-55 | `HH:MM` trims to itself, splits at the colon into the two padded numbers, and both read back as the numbers written |
| Formatters.ClockNumbers | src/lib/utils/formatters.ts:36 | the first and second `:`-fields of `HH:MM` read back as the hour and the minute |
| Formatters.FormattedMarkContains | src/lib/utils/formatters.ts:19-24 | formatted text with a period is already upper-case, has a marker, and contains PM exactly when the period is PM |
| Formatters.StripFormattedPeriod | src/lib/utils/formatters.ts:25 | removing `/\s*(AM\|PM)\s*/i` from `HH:MM AM` leaves `HH:MM` |
| Formatters.Parse12Formatted | src/lib/utils/formatters.ts:22-32 | the 12-hour reading of `formatTime` output is the hour clamped to 1..12, the minute, and the period (AM when none was written) |
| Formatters.ParseFormatTime | src/lib/utils/formatters.ts:11-55 | `parseTime(formatTime(h, m, p), is12Hour)`: the clamped hour, the minute and the period for the 12-hour reading; exactly (h, m, null) otherwise |
| Formatters.ParseExamples | src/lib/utils/formatters.ts:11-38 | `"14:30"` reads as 14:30 with no period; `"15:07"` in 12-hour mode reads as 12:07 AM |
| Formatters.RoundTrip12 | src/lib/utils/formatters.ts:11-55 | `parseTime(formatTime(h, m, p), true) == (h, m, p)` for h in 1..12 |
| Formatters.RoundTrip24 | src/lib/utils/formatters.ts:11-55 | `parseTime(formatTime(h, m, null), false) == (h, m, null)` for every h and m |
| Formatters.To12Hour | src/lib/utils/formatters.ts:60-65 | a 24-hour hour becomes an hour in 1..12, PM exactly from 12 on |
| Formatters.To24Hour | src/lib/utils/formatters.ts:70-75 | a 12-hour hour becomes an hour in 0..23, 12 or later exactly for PM |
| Formatters.To24HourInvertsTo12Hour | src/lib/utils/formatters.ts:60-75 | `to24Hour(to12Hour(h)) == h` for h in 0..23 |
| Formatters.To12HourInvertsTo24Hour | src/lib/utils/formatters.ts:60-75 | `to12Hour(to24Hour(h, p)) == (h, p)` for h in 1..12 |
| Formatters.ToPersianChar | src/lib/utils/formatters.ts:87 | an ASCII digit becomes the Persian digit of the same value; other characters are kept |
| Formatters.FormatNumber | src/lib/utils/formatters.ts:80-90 | the padded (or plain) decimal text, same length, with each ASCII digit replaced by the Persian digit of the same value when Persian is used and everything else unchanged; at least two characters when padding |
| Formatters.ToLatin | src/lib/utils/formatters.ts:87 | the reverse digit mapping, character by character |
| Formatters.PersianToLatinRoundTrip | src/lib/utils/formatters.ts:85-88 | mapping the Persian digits back gives exactly the ASCII rendering: transliteration loses nothing |
| Formatters.IsRTL | src/lib/utils/formatters.ts:109-118 | right-to-left for "fa", never for "en", and for "auto" exactly when the locale is "fa" or "ar" |
| Formatters.UsePersianNumerals | src/lib/utils/formatters.ts:123-128 | Persian numerals are used exactly when the layout is right-to-left |
| ScrollWheel.Round | src/lib/components/Wheel.tsx:136 | `Math.round(a / b)` is the integer r with a within half an item of r·b, halves rounding up |
| ScrollWheel.Clamp | src/lib/components/Wheel.tsx:137 | `Math.max(lo, Math.min(hi, x))` lies in [lo, hi], keeps values inside, and gives the nearer bound outside |
| ScrollWheel.SettleIndex | src/lib/components/Wheel.tsx:135-137 | the settled index lies in 0..N-1 (0 for an empty wheel) |
| ScrollWheel.SettleIsNearest | src/lib/components/Wheel.tsx:135-140 | no item lies closer to the scroll offset than the one the settle snaps to |
| ScrollWheel.SettleAligned | src/lib/components/Wheel.tsx:135-140 | an offset exactly on item k settles on item k |
| ScrollWheel.KeyTarget | src/lib/components/Wheel.tsx:231-258 | only the six navigation keys are handled; targets stay in 0..N-1; Home is 0 and End is N-1 |
| ScrollWheel.ArrowsAreInverse | src/lib/components/Wheel.tsx:232-239 | away from the ends, ArrowDown undoes ArrowUp and vice versa |
| ScrollWheel.ArrowDownRepeated | src/lib/components/Wheel.tsx:236-239 | k ArrowDowns move k items down, stopping at the last item |
| ScrollWheel.ArrowUpRepeated | src/lib/components/Wheel.tsx:232-235 | k ArrowUps move k items up, stopping at the first item |
| ScrollWheel.PageKeysAreRepeatedArrows | src/lib/components/Wheel.tsx:248-255 | PageDown/PageUp land where `visibleCount` arrow presses would |
| ScrollWheel.DragOffset | src/lib/components/Wheel.tsx:190-197 | the dragged offset lies in [0, (N-1)·itemHeight] |
| ScrollWheel.DragFollowsPointer | src/lib/components/Wheel.tsx:190-197 | within range the offset is the start offset plus the pointer's upward movement |
| ScrollWheel.DragIsMonotone | src/lib/components/Wheel.tsx:190-197 | moving the pointer further down never scrolls further down |
| ScrollWheel.DragThenSettle | src/lib/components/Wheel.tsx:186-210 | dragging up by exactly k item heights from item s settles on item s+k |
| ScrollWheel.Wheel.constructor | src/lib/components/Wheel.tsx:127-130 | mount: the value is adopted and the viewport is scrolled to it, with nothing pending and nothing emitted |
| ScrollWheel.Wheel.Sync | src/lib/components/Wheel.tsx:120-125 | a different `value` is adopted without `onChange` unless the user is scrolling (same in src/lib/Wheel.tsx at lines 91-96) |
| ScrollWheel.Wheel.ScrollViewport | src/lib/components/Wheel.tsx:387-388 | the browser moves the viewport to any offset; nothing else changes, and the invariants are kept |
| ScrollWheel.Wheel.Finalize | src/lib/components/Wheel.tsx:132-151 | snap to the settle index, clear both flags, and emit it once exactly when it differs from the captured value; nothing after unmount (src/lib/Wheel.tsx at lines 103-122) |
| ScrollWheel.Wheel.HandleScroll | src/lib/components/Wheel.tsx:153-165 | ignored while dragging; otherwise a user scroll that replaces the pending timeout with a 100 ms settle (src/lib/Wheel.tsx at lines 124-136) |
| ScrollWheel.Wheel.Schedule | src/lib/components/Wheel.tsx:162-164 | a new timeout capturing the current value is added and its id stored in the ref |
| ScrollWheel.Wheel.HandlePointerDown | src/lib/components/Wheel.tsx:167-184 | disabled or non-primary: nothing; otherwise both flags set, drag origin recorded, pending timeout cleared (src/lib/Wheel.tsx at lines 138-155) |
| ScrollWheel.Wheel.HandlePointerMove | src/lib/components/Wheel.tsx:186-200 | while dragging the offset becomes the clamped drag offset, and a change of offset marks the drag as moved; otherwise nothing (src/lib/Wheel.tsx at lines 157-171) |
| ScrollWheel.Wheel.HandlePointerUp | src/lib/components/Wheel.tsx:202-213 | after a drag a 50 ms settle is scheduled without clearing the previous one, and the drag stays on (src/lib/Wheel.tsx at lines 173-184) |
| ScrollWheel.Wheel.HandlePointerUpCorrected | src/lib/components/Wheel.tsx:202-213 | clears the pending timeout first; a drag in which no pointer move changed the offset (a tap, whatever pointer-downs it saw) ends at once, and a moved drag schedules one 50 ms settle; keeps "at most one settle pending" (`SingleSettle`), which every other handler also keeps |
| ScrollWheel.Wheel.HandleItemClick | src/lib/components/Wheel.tsx:215-223 | ignored while disabled or dragging; otherwise selects and emits the item even when unchanged (src/lib/Wheel.tsx at lines 186-194) |
| ScrollWheel.Wheel.HandleKeyDown | src/lib/components/Wheel.tsx:225-275 | unless disabled, a handled key whose clamped target differs selects it and emits it exactly once; otherwise nothing changes (src/lib/Wheel.tsx at lines 196-246) |
| ScrollWheel.Wheel.FireTimer | src/lib/components/Wheel.tsx:162-164 | a pending timeout is removed and runs the settle with the value it captured; when at most one settle was pending, none is left |
| ScrollWheel.Wheel.Unmount | src/lib/components/Wheel.tsx:277-283 | the timeout held in the ref is cleared and later callbacks do nothing (src/lib/Wheel.tsx at lines 248-254) |
| WheelScenarios.TapOnItem | src/lib/components/Wheel.tsx:202-223 | as written, a pointer tap on item 2 leaves the wheel on item 0 with nothing emitted |
| WheelScenarios.TapOnItemCorrected | src/lib/components/Wheel.tsx:215-223 | with the corrected pointer-up the same tap selects and emits item 2 |
| WheelScenarios.TapIsIgnored | src/lib/components/Wheel.tsx:167-223 | as written, on any enabled wheel in any state, a tap on any item leaves the drag on and selects and reports nothing |
| WheelScenarios.TapSelects | src/lib/components/Wheel.tsx:167-223 | with the corrected pointer-up, on any enabled wheel, a tap on any item selects it, reports it once and leaves no settle pending; a finger tapping during a drag that has already moved leaves that drag and its settle in place |
| WheelScenarios.DragWithTwoPointerUps | src/lib/components/Wheel.tsx:167-213 | as written, a one-item drag that a second finger joins (its pointer-down included) and both fingers end emits item 1 twice |
| WheelScenarios.DragWithTwoPointerUpsCorrected | src/lib/components/Wheel.tsx:167-213 | with the corrected pointer-up the same input emits item 1 once and leaves nothing pending |
| WheelScenarios.TwoPointerUpsLeaveTwoSettles | src/lib/components/Wheel.tsx:167-213 | as written, any drag joined by a second pointer and ended by both pointer-ups leaves two settles pending, breaking `SingleSettle` |
| WheelScenarios.DragReportsOnce | src/lib/components/Wheel.tsx:132-213 | with the corrected pointer-up, any drag that a second pointer joins, with both pointers moving anywhere and both lifting: if a move changed the offset, the wheel snaps to the item nearest the final offset and reports it exactly once when it differs from the previous item; if nothing moved, nothing changes; no settle is left pending |
| WheelScenarios.KeyboardWalk | src/lib/components/Wheel.tsx:225-265 | ArrowUp at the top emits nothing; ArrowDown, ArrowDown, End emit 1, 2, 4 |
| WheelScenarios.ControlledSync | src/lib/components/Wheel.tsx:120-125 | a controlled value is adopted and scrolled to without any `onChange`, and a later one is ignored while the user is scrolling |
| TimeConstants.Count | src/lib/timeConstants.ts:2-5 | `Array.from({ length: n }, ...)` has length n; the contents of each constant are given by `TimeConstants.HoursDomains` and `TimeConstants.MinutesDomains` |
| TimeConstants.HoursDomains | src/lib/timeConstants.ts:2-3 | `HOURS_24` is 0..23 and `HOURS_12` is 1..12, in order, without repeats |
| TimeConstants.MinutesDomains | src/lib/timeConstants.ts:4-6 | `MINUTES` is 0..59; `MINUTES_5[i] == 5i`, the multiples of 5 below 60; `MINUTES_15` the multiples of 15 below 60 |
| ClassNames.Kept | src/lib/utils/cn.ts:6 | `filter(Boolean)` keeps only non-empty names and is empty exactly when no argument is truthy |
| ClassNames.JoinEnds | src/lib/utils/cn.ts:6 | `join(sep)` of no parts is ""; otherwise it starts with the first part and ends with the last, with the separator right after the first when there are two or more |
| ClassNames.KeptAppend | src/lib/utils/cn.ts:6 | filtering preserves order: filtering a concatenation is concatenating the filtered parts |
| ClassNames.Cn | src/lib/utils/cn.ts:5-7 | `cn` is "" exactly when nothing is kept, and is the single kept name when there is one |
| ClassNames.JoinAppend | src/lib/utils/cn.ts:6 | joining two non-empty lists puts one separator between their joins |
| ClassNames.CnEmpty | src/lib/utils/cn.ts:5-7 | `cn` gives "" exactly when no argument is truthy |
| ClassNames.CnSingle | src/lib/utils/cn.ts:5-7 | with exactly one truthy argument `cn` returns it unchanged |
| ClassNames.CnAppend | src/lib/utils/cn.ts:5-7 | `cn(a..., b...)` is `cn(a...)` and `cn(b...)` joined by one space, an empty side dropped |
| ClassNames.SplitJoin | src/lib/utils/cn.ts:6 | splitting a space-join of space-free names gives the names back |
| ClassNames.CnSplit | src/lib/utils/cn.ts:5-7 | splitting `cn`'s result on spaces recovers exactly the kept names, in order |
| ClassNames.KeptNames | src/lib/utils/cn.ts:6 | every kept string is one of the arguments |
| TimePickerRoot.Overlay | src/lib/components/TimePickerRoot.tsx:115-121 | object spread: every override wins, every other key keeps its base string |
| TimePickerRoot.BaseStrings | src/lib/components/TimePickerRoot.tsx:11-26 | each built-in table gives all five strings |
| TimePickerRoot.Locale | src/lib/components/TimePickerRoot.tsx:115-121 | the locale gives all five strings; each is the override if supplied, else the Persian or English default |
| TimePickerRoot.LocaleDefaults | src/lib/components/TimePickerRoot.tsx:11-26 | without overrides the hour and period labels are the Persian ones exactly when Persian numerals are used |
| TimePickerRoot.HoursDomain | src/lib/components/TimePickerRoot.tsx:97-100 | the custom hours if given, else 12 or 24 hours |
| TimePickerRoot.DefaultHours | src/lib/components/TimePickerRoot.tsx:97-100 | without a custom list, exactly 1..12 or 0..23, each once |
| TimePickerRoot.StepMinutes | src/lib/components/TimePickerRoot.tsx:106-109 | `floor(60 / step)` entries for a positive step, none otherwise |
| TimePickerRoot.StepMinutesMembership | src/lib/components/TimePickerRoot.tsx:106-109 | the generated minutes are exactly the multiples of the step below `floor(60/step)·step`, which is at most 60 |
| TimePickerRoot.StepMinutesIncreasing | src/lib/components/TimePickerRoot.tsx:106-109 | the generated minutes strictly increase |
| TimePickerRoot.StepMinutesDividing | src/lib/components/TimePickerRoot.tsx:106-109 | for a step dividing 60, exactly the multiples of the step below 60 |
| TimePickerRoot.StepSevenStopsAtFortyNine | src/lib/components/TimePickerRoot.tsx:106-109 | step 7 gives 0, 7, ..., 49 and not 56 |
| TimePickerRoot.MinutesDomain | src/lib/components/TimePickerRoot.tsx:103-112 | custom minutes if given; else `floor(60/step)` entries for a positive step, none for a negative one, 60 when no step |
| TimePickerRoot.BuiltInStepsAgree | src/lib/components/TimePickerRoot.tsx:103-112 | steps 15 and 5 generate exactly `MINUTES_15` and `MINUTES_5` |
| TimePickerRoot.ContextPeriod | src/lib/components/TimePickerRoot.tsx:150 | no period on a 24-hour clock; on a 12-hour clock the parsed period, or AM when none was parsed |
| TimePickerRoot.MakeContext | src/lib/components/TimePickerRoot.tsx:86-121 | hour and minute are the parsed ones, a period exactly on a 12-hour clock; the hours and minutes are the offered domains; `rtl == usePersian` following `isRTL`; the locale is the overlaid table for the numerals in use |
| TimePickerRoot.TwelveHourPeriod | src/lib/components/TimePickerRoot.tsx:91-94 | 12-hour parsing always yields a period |
| TimePickerRoot.SetHour | src/lib/components/TimePickerRoot.tsx:124-129 | the string sent starts with `HH:MM` of the new hour and the held minute, and carries a period suffix exactly on a 12-hour clock |
| TimePickerRoot.SetMinute | src/lib/components/TimePickerRoot.tsx:131-136 | the string sent starts with `HH:MM` of the held hour and the new minute, and carries a period suffix exactly on a 12-hour clock |
| TimePickerRoot.SetPeriod | src/lib/components/TimePickerRoot.tsx:138-143 | the string sent is `HH:MM` of the held hour and minute followed by the new period, on either clock |
| TimePickerRoot.SetHourReadsBack | src/lib/components/TimePickerRoot.tsx:124-129 | reading `setHour(h)`'s string back changes only the hour (clamped on a 12-hour clock) |
| TimePickerRoot.SetMinuteReadsBack | src/lib/components/TimePickerRoot.tsx:131-136 | reading `setMinute(m)`'s string back changes only the minute (the held hour clamped on a 12-hour clock) |
| TimePickerRoot.SetPeriodReadsBack | src/lib/components/TimePickerRoot.tsx:138-143 | reading `setPeriod(p)`'s string back gives period p on either clock, with the held hour clamped and the minute kept |
| TimePickerWheel.Numbers | src/lib/components/TimePickerWheel.tsx:24-29 | numeric items list the domain in order |
| TimePickerWheel.Items | src/lib/components/TimePickerWheel.tsx:24-29 | hours, minutes, or AM and PM |
| TimePickerWheel.SelectedIndex | src/lib/components/TimePickerWheel.tsx:31-38 | the index is -1 exactly when the value is absent, otherwise it holds the value; the period index is 1 exactly for PM |
| TimePickerWheel.WheelValue | src/lib/components/TimePickerWheel.tsx:95 | the wheel's index is the selected one, or 0 when absent, within the items |
| TimePickerWheel.HandleChange | src/lib/components/TimePickerWheel.tsx:40-48 | an hour or minute index succeeds exactly inside the list; a period index always succeeds |
| TimePickerWheel.HourChoiceRoundTrip | src/lib/components/TimePickerWheel.tsx:31-48 | choosing hour i and reading the string back shows index i with the minute and period kept |
| TimePickerWheel.MinuteChoiceRoundTrip | src/lib/components/TimePickerWheel.tsx:31-48 | choosing minute i and reading back shows index i, the period kept, the hour kept (clamped on a 12-hour clock) |
| TimePickerWheel.PeriodChoiceRoundTrip | src/lib/components/TimePickerWheel.tsx:36-47 | on a 12-hour clock, choosing index 1 reads back as PM and any other index as AM, shown at that index, the minute kept |
| TimePickerWheel.ShownHourIsCurrent | src/lib/components/TimePickerWheel.tsx:31-45 | choosing the shown hour index sends the current hour |
| TimePickerWheel.ShownMinuteIsCurrent | src/lib/components/TimePickerWheel.tsx:31-45 | choosing the shown minute index sends the current minute |
| TimePickerWheel.AriaLabel | src/lib/components/TimePickerWheel.tsx:50-55 | the wheel's accessible name is the locale's hour, minute or period label |
| TimePickerWheel.AriaLabelFollowsLocale | src/lib/components/TimePickerWheel.tsx:50-55 | that name is the caller's string when supplied, and otherwise the Persian or English default for the numerals in use |
| TimePickerWheel.ItemLabel | src/lib/components/TimePickerWheel.tsx:78-83 | a text item is its own label; a number's label ends with the wheel's label |
| TimePickerWheel.ItemLabelReadsBack | src/lib/components/TimePickerWheel.tsx:78-83 | the first word of a number's label reads back as the number (also the labels at src/lib/TimePicker.tsx lines 250 and 306) |
| TimePickerWheel.Display | src/lib/components/TimePickerWheel.tsx:62-63 | a text item shows as itself; a number shows as at least two characters, which read back as the number by `TimePickerWheel.DisplayReadsBack` |
| TimePickerWheel.DisplayReadsBack | src/lib/components/TimePickerWheel.tsx:62-63 | a displayed number, Persian or not, reads back as the item once its digits are made ASCII |
| LegacyTimePicker.LegacyBase | src/lib/TimePicker.tsx:36-49 | each built-in table gives the four strings and no period label |
| LegacyTimePicker.LegacyLocale | src/lib/TimePicker.tsx:124-130 | overrides win, other keys keep the Persian or English default; a period label only if supplied |
| LegacyTimePicker.LegacyLocaleAgrees | src/lib/TimePicker.tsx:36-49 | both pickers show the same title, labels and button text |
| LegacyTimePicker.LegacyDirection | src/lib/TimePicker.tsx:118-122 | `usePersian` is the same decision as `usePersianNumerals`, and `rtl == usePersian` |
| LegacyTimePicker.First | src/lib/TimePicker.tsx:133 | `xs[0]`, undefined exactly for an empty list |
| LegacyTimePicker.LegacyHours | src/lib/TimePicker.tsx:105 | the caller's hours, else `HOURS_24` |
| LegacyTimePicker.LegacyMinutes | src/lib/TimePicker.tsx:106 | the caller's minutes, else `MINUTES` |
| LegacyTimePicker.Pick | src/lib/TimePicker.tsx:136-137 | a read number that is offered is kept, anything else falls back to the first entry |
| LegacyTimePicker.LegacyCurrent | src/lib/TimePicker.tsx:132-139 | the empty value gives the first entries; otherwise the value's first and second `:`-fields are read with `Number`, and each is kept when its list offers it and replaced by the list's first entry when it is missing, NaN or not offered; with non-empty lists both results are always offered entries |
| LegacyTimePicker.LegacyCurrentReadsClock | src/lib/TimePicker.tsx:132-139 | `HH:MM` of an offered hour and minute reads back as those two |
| LegacyTimePicker.LegacyWheelValue | src/lib/TimePicker.tsx:141-142 | the wheel index holds the current entry, or is 0 when it is not offered |
| LegacyTimePicker.HandleHourChange | src/lib/TimePicker.tsx:144-151 | succeeds exactly for an index in the list with a current minute |
| LegacyTimePicker.HandleMinuteChange | src/lib/TimePicker.tsx:153-160 | succeeds exactly for an index in the list with a current hour |
| LegacyTimePicker.HourChoiceRoundTrip | src/lib/TimePicker.tsx:144-151 | choosing hour i sends a value read back as `hours[i]` with the same minute, shown at index i |
| LegacyTimePicker.MinuteChoiceRoundTrip | src/lib/TimePicker.tsx:153-160 | choosing minute i sends a value read back as `minutes[i]` with the same hour, shown at index i |
| LegacyTimePicker.ShownIndexSendsCurrent | src/lib/TimePicker.tsx:141-160 | choosing the index either wheel shows sends the current time as `HH:MM` |

`formatNumber` is defined twice in the repository: in `src/lib/utils/formatters.ts` and again in
`src/lib/TimePicker.tsx` at lines 62-72. The two definitions are identical, so `Formatters.FormatNumber`
models both. The legacy `isRTL(usePersian)` (lines 74-76) returns its argument, which is the `rtl`
half of `LegacyDirection`.

## Left out

- Rendering: JSX, styles, CSS classes, ARIA attribute strings, item element ids, the overlays and
  the presentation-only components.
- `scrollTo` with smooth scrolling. The model assigns the animation's end offset at once, and
  `ScrollViewport` lets the host move the viewport to any offset.
- Pointer capture, `.focus()` on the item refs, and the `itemRefs` map.
- Real timer durations and the order in which timeouts fire: the host picks the timeout through
  `FireTimer`. The 100 ms and 50 ms delays are recorded, not enforced.
- `scrollTop` is an integer; fractional offsets and float division are not modelled. The browser's
  own clamping of `scrollTop` is not modelled either: `ScrollViewport` takes any integer.
- `viewportRef` is null only after unmount (`mounted`). In the source `scrollTop || 0` reads 0 for a
  null viewport during a pointer-down.
- Prop changes are not modelled. The item count, item height, visible count and `disabled` are
  fixed for one `Wheel` object. React would keep `internalValue`, the refs and any pending timeouts
  across a prop change. An example is the hour list shrinking from 24 to 12 entries when `is12Hour`
  is toggled.
- ScrollWheel.Wheel.constructor: requires `itemHeight > 0`. The source does not check the prop. With
  an item height of 0, `finalizeSelection` divides by zero and gets a NaN index. That behaviour is
  not modelled.
- Number width. Dafny integers are unbounded, while JavaScript numbers are doubles. Doubles are
  exact only up to 2^53, and `toString` switches to exponent notation from 1e21. The round-trip
  results hold within that range only, as the next two lines say.
- JsText.Pad2RoundTrip: holds for the integers JavaScript represents exactly and writes without an
  exponent. It does not cover every mathematical integer.
- Formatters.RoundTrip24: "every h and m" means every hour and minute inside that same safe range.
- Identity of `onChange` and `useCallback` dependency lists: the stale closure a timeout captures is
  modelled; other stale parent closures are not.
- `Number` beyond signed decimal integers: such fields read as NaN here, where JavaScript reads a
  number. This covers:
  - decimals, including a trailing or leading point (`"5."` reads as 5, `".5"` as 0.5);
  - the `0x`, `0o` and `0b` prefixes;
  - exponents and `Infinity`.

  Hours and minutes are integers throughout.
- Custom hour or minute lists holding `NaN`: `includes` would match it while `indexOf` would not.
  Lists are integer sequences here.
- `toUpperCase` beyond ASCII letters, and `trim` beyond the ECMAScript whitespace set.
- `detectLocale` and `navigator`: the browser locale is a parameter.
- The context provider, the throw in `useTimePickerContext`, and `Slot`'s prop merging.
- Loop or wrap-around scrolling, which the source does not implement.
- Locale overrides given explicitly as `undefined`: an override map holds only supplied strings.
- TimePickerRoot.MinutesDomain: `minuteStep` is an integer, where 0 stands for "not given". A
  non-integer step is not modelled.

## Findings

| source | as written | input that shows it | evidently intended | confidence | as-written member | corrected member |
|---|---|---|---|---|---|---|
| src/lib/components/Wheel.tsx:202-223 | pointer-up leaves `isDragging` set until the 50 ms settle runs, so the click that follows a tap is ignored by `handleItemClick`; the same code is in src/lib/Wheel.tsx | pointer-down then pointer-up on item 2 of a five-item wheel at item 0, then the click on item 2: the wheel stays on item 0 and `onChange` is never called | tapping an item selects it (keyboard activation of an item still works) | not executed | WheelScenarios.TapIsIgnored | WheelScenarios.TapSelects |
| src/lib/components/Wheel.tsx:202-213 | pointer-up, which also handles pointer-cancel (line 332), overwrites `scrollEndTimeout` without clearing it; both settles compare with the same captured `internalValue` | drag one item down with one finger, put a second finger down on the wheel, lift both fingers, then both timeouts fire: `onChange(1)` is called twice | one settle per drag, so the change is reported once | not executed | WheelScenarios.DragWithTwoPointerUps | WheelScenarios.DragReportsOnce |

Both corrections are made by `ScrollWheel.Wheel.HandlePointerUpCorrected`:

- It clears the pending timeout before scheduling a new one.
- It ends a drag that did not move the wheel without scheduling a settle.

"Did not move" is read from `dragMoved`, a field the component does not have. A pointer move that
changes the offset sets it, and the end of the drag clears it. Comparing `scrollTop` with
`dragStartScrollTop` would not work: a second pointer's pointer-down resets `dragStartScrollTop` to the
current offset, so every two-finger drag would look like a tap and report nothing.

It keeps `ScrollWheel.Wheel.SingleSettle` ("at most one settle pending"). The constructor and every
other handler keep it too. The pointer-up as written breaks it
(`WheelScenarios.TwoPointerUpsLeaveTwoSettles`). The scenarios on the fixed five-item wheel show each
case on concrete numbers: `TapOnItem`, `TapOnItemCorrected`, `DragWithTwoPointerUps` and
`DragWithTwoPointerUpsCorrected`.

The corrected tap branch has one consequence:

1. A pointer-down in the middle of a wheel or touch scroll cancels the pending 100 ms settle.
2. If the pointer then goes up without moving, no new settle is scheduled.
3. The viewport is left wherever the scroll stopped, possibly between items, until the next scroll
   event schedules a settle.

As written, the 50 ms settle after pointer-up would snap it.

A `minuteStep` that does not divide 60 drops the last multiple before 60. For example, a step of 7
offers 0 to 49 but not 56 (`TimePickerRoot.StepSevenStopsAtFortyNine`). This is what
`Math.floor(60 / minuteStep)` specifies, so it is recorded as a property, not a finding.
