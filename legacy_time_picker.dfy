/**
 * The single-component picker of src/lib/TimePicker.tsx: a 24-hour hour wheel
 * and a minute wheel, its own locale table, its reading of the `value` string
 * and the strings its two change handlers send to `onChange`.
 */
module LegacyTimePicker {
  import opened Wrappers
  import opened JsText
  import opened Formatters
  import opened TimeConstants
  import opened TimePickerRoot

  // ---------------------------------------------------------------------------
  // Locale and direction
  // ---------------------------------------------------------------------------

  /** The English table: no period label, since this picker has no period wheel. */
  const LegacyEn: Strings := map[
    Title := "Select Time", HourLabel := "Hour", MinuteLabel := "Minute", Confirm := "Confirm"]

  /** The Persian table. */
  const LegacyFa: Strings := map[
    Title := "\U{0627}\U{0646}\U{062A}\U{062E}\U{0627}\U{0628} \U{0633}\U{0627}\U{0639}\U{062A}",
    HourLabel := "\U{0633}\U{0627}\U{0639}\U{062A}",
    MinuteLabel := "\U{062F}\U{0642}\U{06CC}\U{0642}\U{0647}",
    Confirm := "\U{062A}\U{0623}\U{06CC}\U{06CC}\U{062F}"]

  /** A table that gives every string this picker shows. */
  predicate LegacyComplete(m: Strings) {
    Title in m && HourLabel in m && MinuteLabel in m && Confirm in m
  }

  /** The built-in table for the numerals in use. */
  function LegacyBase(usePersian: bool): (r: Strings)
    ensures LegacyComplete(r) && PeriodLabel !in r
  {
    if usePersian then LegacyFa else LegacyEn
  }

  /**
   * The picker's strings `t`: the Persian or English table under the
   * caller's `localeStrings`; a period label exists only if the caller gave one.
   */
  function LegacyLocale(usePersian: bool, overrides: Strings): (r: Strings)
    ensures r.Keys == LegacyBase(usePersian).Keys + overrides.Keys
    ensures LegacyComplete(r)
    ensures PeriodLabel in r <==> PeriodLabel in overrides
    ensures forall k :: k in overrides ==> r[k] == overrides[k]
    ensures forall k :: k in r && k !in overrides ==> r[k] == LegacyBase(usePersian)[k]
  {
    Overlay(LegacyBase(usePersian), overrides)
  }

  /** Both pickers show the same title, labels and button text for the same numerals and overrides. */
  lemma LegacyLocaleAgrees(usePersian: bool, overrides: Strings, k: LocaleKey)
    requires k != PeriodLabel
    ensures k in LegacyLocale(usePersian, overrides) && k in Locale(usePersian, overrides)
    ensures LegacyLocale(usePersian, overrides)[k] == Locale(usePersian, overrides)[k]
  {
  }

  /**
   * `usePersian` and `rtl` as this picker computes them: Persian numerals
   * when asked for, or in automatic mode for a Persian or Arabic browser
   * locale; right-to-left exactly when Persian numerals are used.
   */
  function LegacyDirection(numerals: Numerals, browserLocale: string): (r: (bool, bool))
    ensures r.1 == r.0
    ensures r.0 == UsePersianNumerals(numerals, browserLocale)
  {
    var usePersian := numerals == Fa || (numerals == Auto && (browserLocale == "fa" || browserLocale == "ar"));
    (usePersian, usePersian)
  }

  // ---------------------------------------------------------------------------
  // Current value
  // ---------------------------------------------------------------------------

  /** `xs[0]`, which is `undefined` (None) for an empty list. */
  function First(xs: seq<int>): (r: Option<int>)
    ensures r.Some? <==> |xs| > 0
    ensures r.Some? ==> r.value == xs[0]
  {
    if |xs| > 0 then Some(xs[0]) else None
  }

  /** The hours offered: the caller's list, or 0..23. */
  function LegacyHours(hours: Option<seq<int>>): (r: seq<int>)
    ensures hours.None? ==> r == Hours24
    ensures hours.Some? ==> r == hours.value
  {
    if hours.Some? then hours.value else Hours24
  }

  /** The minutes offered: the caller's list, or 0..59. */
  function LegacyMinutes(minutes: Option<seq<int>>): (r: seq<int>)
    ensures minutes.None? ==> r == Minutes
    ensures minutes.Some? ==> r == minutes.value
  {
    if minutes.Some? then minutes.value else Minutes
  }

  /** A number read from the value, kept when the list offers it and replaced by the list's first entry otherwise. */
  function Pick(read: Option<int>, xs: seq<int>): (r: Option<int>)
    ensures read.Some? && read.value in xs ==> r == read
    ensures !(read.Some? && read.value in xs) ==> r == First(xs)
    ensures r.Some? <==> |xs| > 0
    ensures r.Some? ==> r.value in xs
  {
    if read.Some? && read.value in xs then read else First(xs)
  }

  /**
   * `[currentHour, currentMinute]`: the empty value gives the first hour and
   * the first minute; otherwise the value is split at `:` and each field is
   * read with `Number`, falling back to the first entry when the field is
   * missing, not a number, or not offered.
   */
  function LegacyCurrent(value: string, hours: seq<int>, minutes: seq<int>): (r: (Option<int>, Option<int>))
    ensures |hours| > 0 ==> r.0.Some? && r.0.value in hours
    ensures |hours| == 0 ==> r.0 == None
    ensures |minutes| > 0 ==> r.1.Some? && r.1.value in minutes
    ensures |minutes| == 0 ==> r.1 == None
    ensures value == "" ==> r == (First(hours), First(minutes))
    ensures var h := NumberOfField(Split(value, ':'), 0);
      value != "" && h.Some? && h.value in hours ==> r.0 == h
    ensures var h := NumberOfField(Split(value, ':'), 0);
      value != "" && !(h.Some? && h.value in hours) ==> r.0 == First(hours)
    ensures var m := NumberOfField(Split(value, ':'), 1);
      value != "" && m.Some? && m.value in minutes ==> r.1 == m
    ensures var m := NumberOfField(Split(value, ':'), 1);
      value != "" && !(m.Some? && m.value in minutes) ==> r.1 == First(minutes)
  {
    if value == "" then (First(hours), First(minutes))
    else
      var parts := Split(value, ':');
      (Pick(NumberOfField(parts, 0), hours), Pick(NumberOfField(parts, 1), minutes))
  }

  /** A value written as `HH:MM` from an offered hour and an offered minute is read back as those two. */
  lemma LegacyCurrentReadsClock(h: int, m: int, hours: seq<int>, minutes: seq<int>)
    requires h in hours && m in minutes
    ensures LegacyCurrent(Clock(h, m), hours, minutes) == (Some(h), Some(m))
  {
    ClockNumbers(h, m);
  }

  /** The index a wheel shows: the current entry's position, or 0 when it is not in the list. */
  function LegacyWheelValue(xs: seq<int>, current: Option<int>): (r: int)
    ensures 0 <= r && (|xs| > 0 ==> r < |xs|)
    ensures current.Some? && current.value in xs ==> xs[r] == current.value
    ensures !(current.Some? && current.value in xs) ==> r == 0
  {
    var i := if current.Some? then IndexOf(xs, current.value) else -1;
    if i >= 0 then i else 0
  }

  // ---------------------------------------------------------------------------
  // Change handlers
  // ---------------------------------------------------------------------------

  /**
   * `handleHourChange(index)`: the chosen hour and the current minute as
   * `HH:MM`. Reading `undefined` (an index outside the list, or no current
   * minute) throws, which is None.
   */
  function HandleHourChange(hours: seq<int>, currentMinute: Option<int>, index: int): (r: Option<string>)
    ensures r.Some? <==> 0 <= index < |hours| && currentMinute.Some?
  {
    if 0 <= index < |hours| && currentMinute.Some? then Some(Clock(hours[index], currentMinute.value)) else None
  }

  /** `handleMinuteChange(index)`: the current hour and the chosen minute as `HH:MM`, None where it throws. */
  function HandleMinuteChange(minutes: seq<int>, currentHour: Option<int>, index: int): (r: Option<string>)
    ensures r.Some? <==> 0 <= index < |minutes| && currentHour.Some?
  {
    if 0 <= index < |minutes| && currentHour.Some? then Some(Clock(currentHour.value, minutes[index])) else None
  }

  /**
   * Choosing hour `i` sends a value that, read back, has hour `hours[i]` and
   * the same minute as before, and puts the hour wheel on `i`.
   */
  lemma HourChoiceRoundTrip(value: string, hours: seq<int>, minutes: seq<int>, i: int)
    requires Distinct(hours) && 0 <= i < |hours| && |minutes| > 0
    ensures var cur := LegacyCurrent(value, hours, minutes);
      var s := HandleHourChange(hours, cur.1, i);
      s.Some? && LegacyCurrent(s.value, hours, minutes) == (Some(hours[i]), cur.1) &&
      LegacyWheelValue(hours, Some(hours[i])) == i
  {
    var cur := LegacyCurrent(value, hours, minutes);
    LegacyCurrentReadsClock(hours[i], cur.1.value, hours, minutes);
    IndexOfDistinct(hours, i);
  }

  /**
   * Choosing minute `i` sends a value that, read back, has minute
   * `minutes[i]` and the same hour as before, and puts the minute wheel on `i`.
   */
  lemma MinuteChoiceRoundTrip(value: string, hours: seq<int>, minutes: seq<int>, i: int)
    requires Distinct(minutes) && 0 <= i < |minutes| && |hours| > 0
    ensures var cur := LegacyCurrent(value, hours, minutes);
      var s := HandleMinuteChange(minutes, cur.0, i);
      s.Some? && LegacyCurrent(s.value, hours, minutes) == (cur.0, Some(minutes[i])) &&
      LegacyWheelValue(minutes, Some(minutes[i])) == i
  {
    var cur := LegacyCurrent(value, hours, minutes);
    LegacyCurrentReadsClock(cur.0.value, minutes[i], hours, minutes);
    IndexOfDistinct(minutes, i);
  }

  /**
   * Choosing the index either wheel already shows sends the current time
   * back, normalised to `HH:MM`: both handlers then agree on the string.
   */
  lemma ShownIndexSendsCurrent(value: string, hours: seq<int>, minutes: seq<int>)
    requires |hours| > 0 && |minutes| > 0
    ensures var cur := LegacyCurrent(value, hours, minutes);
      HandleHourChange(hours, cur.1, LegacyWheelValue(hours, cur.0)) == Some(Clock(cur.0.value, cur.1.value)) &&
      HandleMinuteChange(minutes, cur.0, LegacyWheelValue(minutes, cur.1)) == Some(Clock(cur.0.value, cur.1.value))
  {
  }
}
