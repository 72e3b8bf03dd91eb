/**
 * The compound picker's root (src/lib/components/TimePickerRoot.tsx): which
 * hours and minutes the wheels offer, the strings it shows, the values it
 * exposes to the wheels, and the setters that turn a wheel's choice back into
 * a time string for `onChange`.
 */
module TimePickerRoot {
  import opened Wrappers
  import opened JsText
  import opened Formatters
  import opened TimeConstants

  // ---------------------------------------------------------------------------
  // Locale strings
  // ---------------------------------------------------------------------------

  datatype LocaleKey = Title | HourLabel | MinuteLabel | PeriodLabel | Confirm

  /** A table of locale strings; a key that is absent is `undefined`. */
  type Strings = map<LocaleKey, string>

  const EnStrings: Strings := map[
    Title := "Select Time", HourLabel := "Hour", MinuteLabel := "Minute",
    PeriodLabel := "AM/PM", Confirm := "Confirm"]

  const FaStrings: Strings := map[
    Title := "\U{0627}\U{0646}\U{062A}\U{062E}\U{0627}\U{0628} \U{0633}\U{0627}\U{0639}\U{062A}",
    HourLabel := "\U{0633}\U{0627}\U{0639}\U{062A}",
    MinuteLabel := "\U{062F}\U{0642}\U{06CC}\U{0642}\U{0647}",
    PeriodLabel := "\U{0635}\U{0628}\U{062D}/\U{0639}\U{0635}\U{0631}",
    Confirm := "\U{062A}\U{0623}\U{06CC}\U{06CC}\U{062F}"]

  /** A table that gives every string. */
  predicate Complete(m: Strings) {
    Title in m && HourLabel in m && MinuteLabel in m && PeriodLabel in m && Confirm in m
  }

  /** `{...base, ...overrides}`: every supplied override wins, every other key keeps its base string. */
  function Overlay(base: Strings, overrides: Strings): (r: Strings)
    ensures r.Keys == base.Keys + overrides.Keys
    ensures forall k :: k in overrides ==> r[k] == overrides[k]
    ensures forall k :: k in base && k !in overrides ==> r[k] == base[k]
  {
    base + overrides
  }

  /** The built-in table for the numerals in use. */
  function BaseStrings(usePersian: bool): (r: Strings)
    ensures Complete(r)
  {
    if usePersian then FaStrings else EnStrings
  }

  /** The root's locale: the Persian or the English table under the caller's overrides. */
  function Locale(usePersian: bool, overrides: Strings): (r: Strings)
    ensures Complete(r)
    ensures r.Keys == BaseStrings(usePersian).Keys + overrides.Keys
    ensures forall k :: k in r ==> r[k] == if k in overrides then overrides[k] else BaseStrings(usePersian)[k]
  {
    Overlay(BaseStrings(usePersian), overrides)
  }

  /** Without overrides, English labels are shown unless Persian numerals are in use. */
  lemma LocaleDefaults(usePersian: bool)
    ensures Locale(usePersian, map[])[HourLabel] == if usePersian then "\U{0633}\U{0627}\U{0639}\U{062A}" else "Hour"
    ensures Locale(usePersian, map[])[PeriodLabel] ==
      if usePersian then "\U{0635}\U{0628}\U{062D}/\U{0639}\U{0635}\U{0631}" else "AM/PM"
  {
  }

  // ---------------------------------------------------------------------------
  // Domains
  // ---------------------------------------------------------------------------

  /** The hours on offer: the caller's list, else the 12-hour or the 24-hour clock. */
  function HoursDomain(custom: Option<seq<int>>, is12Hour: bool): (r: seq<int>)
    ensures custom.Some? ==> r == custom.value
    ensures custom.None? ==> |r| == if is12Hour then 12 else 24
  {
    if custom.Some? then custom.value else if is12Hour then Hours12 else Hours24
  }

  /** Without a custom list the hour wheel offers exactly the hours of the chosen clock, each once. */
  lemma DefaultHours(is12Hour: bool, h: int)
    ensures h in HoursDomain(None, is12Hour) <==> if is12Hour then 1 <= h <= 12 else 0 <= h <= 23
    ensures Distinct(HoursDomain(None, is12Hour))
  {
    HoursDomains(h);
  }

  /**
   * `Array.from({ length: Math.floor(60 / step) }, (_, i) => i * step)`. A
   * step that is zero or negative gives no minutes at all.
   */
  function StepMinutes(step: int): (r: seq<int>)
    ensures step > 0 ==> |r| == 60 / step
    ensures step <= 0 ==> r == []
  {
    if step > 0 then Count(60 / step, 0, step) else []
  }

  /**
   * The generated minutes are the multiples of the step below
   * `floor(60 / step) * step`, in increasing order: each one is a minute of
   * the hour.
   */
  lemma StepMinutesMembership(step: int, m: int)
    requires step > 0
    ensures m in StepMinutes(step) <==> 0 <= m < (60 / step) * step && m % step == 0
    ensures (60 / step) * step <= 60
  {
    if m in StepMinutes(step) {
      StepMinuteIsMultiple(step, m);
    }
    if 0 <= m < (60 / step) * step && m % step == 0 {
      MultipleIsStepMinute(step, m);
    }
  }

  lemma StepMinuteIsMultiple(step: int, m: int)
    requires step > 0 && m in StepMinutes(step)
    ensures 0 <= m < (60 / step) * step && m % step == 0
  {
    var r := StepMinutes(step);
    var i :| 0 <= i < |r| && r[i] == m;
    assert m == i * step;
    MulLeq(0, i, step);
    MulStrict(i, 60 / step, step);
    MultipleDiv(i, step);
  }

  lemma MultipleIsStepMinute(step: int, m: int)
    requires step > 0 && 0 <= m < (60 / step) * step && m % step == 0
    ensures m in StepMinutes(step)
  {
    var r := StepMinutes(step);
    var i := m / step;
    assert i * step == m;
    if i >= 60 / step {
      MulLeq(60 / step, i, step);
    }
    if i < 0 {
      MulStrict(i, 0, step);
    }
    assert r[i] == m;
  }

  /** A multiple of a positive step divides back exactly. */
  lemma MultipleDiv(i: int, step: int)
    requires step > 0
    ensures (i * step) / step == i && (i * step) % step == 0
  {
    var q := (i * step) / step;
    var rem := (i * step) % step;
    assert (i - q) * step == rem;
    if i - q >= 1 {
      MulLeq(1, i - q, step);
    } else if i - q <= -1 {
      MulLeq(i - q, -1, step);
    }
  }

  /** The stepped minutes are listed in increasing order. */
  lemma StepMinutesIncreasing(step: int)
    requires step > 0
    ensures forall i, j :: 0 <= i < j < |StepMinutes(step)| ==> StepMinutes(step)[i] < StepMinutes(step)[j]
  {
    var r := StepMinutes(step);
    forall i, j | 0 <= i < j < |r| ensures r[i] < r[j] {
      MulStrict(i, j, step);
    }
  }

  lemma MulStrict(a: int, b: int, c: int)
    requires a < b && c > 0
    ensures a * c < b * c
  {
    assert b * c - a * c == (b - a) * c;
  }

  lemma MulLeq(a: int, b: int, c: int)
    requires a <= b && c > 0
    ensures a * c <= b * c
  {
    assert b * c - a * c == (b - a) * c;
  }

  /** For a step that divides the hour, the generated minutes are exactly the multiples of the step below 60. */
  lemma StepMinutesDividing(step: int, m: int)
    requires step > 0 && 60 % step == 0
    ensures m in StepMinutes(step) <==> 0 <= m < 60 && m % step == 0
  {
    StepMinutesMembership(step, m);
  }

  /**
   * A step that does not divide the hour loses its last multiple: a step of 7
   * offers eight minutes, 0 to 49, and not 56.
   */
  lemma StepSevenStopsAtFortyNine()
    ensures StepMinutes(7) == [0, 7, 14, 21, 28, 35, 42, 49]
    ensures 56 !in StepMinutes(7)
  {
    StepMinutesMembership(7, 56);
  }

  /** The minutes on offer: the caller's list, else the stepped minutes for a non-zero step, else every minute. */
  function MinutesDomain(custom: Option<seq<int>>, minuteStep: int): (r: seq<int>)
    ensures custom.Some? ==> r == custom.value
    ensures custom.None? && minuteStep == 0 ==> |r| == 60
    ensures custom.None? && minuteStep > 0 ==> |r| == 60 / minuteStep
    ensures custom.None? && minuteStep < 0 ==> r == []
  {
    if custom.Some? then custom.value
    else if minuteStep != 0 then StepMinutes(minuteStep)
    else Minutes
  }

  /** The built-in five- and fifteen-minute lists are what steps of 5 and 15 generate. */
  lemma BuiltInStepsAgree()
    ensures MinutesDomain(None, 15) == Minutes15
    ensures MinutesDomain(None, 5) == Minutes5
  {
    assert StepMinutes(15) == [0, 15, 30, 45];
  }

  // ---------------------------------------------------------------------------
  // The root's props and the context it provides
  // ---------------------------------------------------------------------------

  /**
   * The props that shape the root's behaviour. `minuteStep` 0 stands for
   * "not given" (both are falsy); `localeStrings` holds only the overrides
   * the caller supplied.
   */
  datatype RootProps = RootProps(
    value: string,
    is12Hour: bool,
    hours: Option<seq<int>>,
    minutes: Option<seq<int>>,
    minuteStep: int,
    numerals: Numerals,
    localeStrings: Strings)

  /** The values the root hands to its wheels. */
  datatype Context = Context(
    hour: int,
    minute: int,
    period: Option<Period>,
    hours: seq<int>,
    minutes: seq<int>,
    is12Hour: bool,
    usePersian: bool,
    rtl: bool,
    locale: Strings)

  /** The period the context exposes: none on a 24-hour clock, otherwise the parsed one, AM by default. */
  function ContextPeriod(parsed: Option<Period>, is12Hour: bool): (r: Option<Period>)
    ensures r.None? <==> !is12Hour
    ensures is12Hour && parsed.Some? ==> r == parsed
    ensures is12Hour && parsed.None? ==> r == Some(AM)
  {
    if is12Hour then Some(if parsed.Some? then parsed.value else AM) else None
  }

  /** The context for the given props, with the browser's language standing in for `detectLocale()`. */
  function MakeContext(props: RootProps, browserLocale: string): (c: Context)
    ensures c.hour == ParseTime(props.value, props.is12Hour).hour
    ensures c.minute == ParseTime(props.value, props.is12Hour).minute
    ensures c.period.None? <==> !props.is12Hour
    ensures props.is12Hour ==> c.period == ParseTime(props.value, props.is12Hour).period
    ensures c.rtl == c.usePersian && (c.usePersian <==> IsRTL(props.numerals, browserLocale))
    ensures c.is12Hour == props.is12Hour
    ensures c.hours == HoursDomain(props.hours, props.is12Hour)
    ensures c.minutes == MinutesDomain(props.minutes, props.minuteStep)
    ensures c.locale == Locale(c.usePersian, props.localeStrings) && Complete(c.locale)
  {
    var t := ParseTime(props.value, props.is12Hour);
    var usePersian := UsePersianNumerals(props.numerals, browserLocale);
    Context(
      t.hour, t.minute, ContextPeriod(t.period, props.is12Hour),
      HoursDomain(props.hours, props.is12Hour),
      MinutesDomain(props.minutes, props.minuteStep),
      props.is12Hour, usePersian, IsRTL(props.numerals, browserLocale),
      Locale(usePersian, props.localeStrings))
  }

  // ---------------------------------------------------------------------------
  // Setters
  // ---------------------------------------------------------------------------

  /** `setHour(h)`: the new hour with the held minute, and the held period on a 12-hour clock. */
  function SetHour(props: RootProps, h: int): (r: string)
    ensures var c := Clock(h, ParseTime(props.value, props.is12Hour).minute);
      |r| >= |c| && r[..|c|] == c && (props.is12Hour <==> |r| > |c|)
  {
    var t := ParseTime(props.value, props.is12Hour);
    FormatTime(h, t.minute, if props.is12Hour then t.period else None)
  }

  /** `setMinute(m)`: the held hour with the new minute, and the held period on a 12-hour clock. */
  function SetMinute(props: RootProps, m: int): (r: string)
    ensures var c := Clock(ParseTime(props.value, props.is12Hour).hour, m);
      |r| >= |c| && r[..|c|] == c && (props.is12Hour <==> |r| > |c|)
  {
    var t := ParseTime(props.value, props.is12Hour);
    FormatTime(t.hour, m, if props.is12Hour then t.period else None)
  }

  /** `setPeriod(p)`: the held hour and minute with the new period, whatever the clock. */
  function SetPeriod(props: RootProps, p: Period): (r: string)
    ensures var t := ParseTime(props.value, props.is12Hour);
      var c := Clock(t.hour, t.minute);
      r == c + " " + PeriodText(p)
  {
    var t := ParseTime(props.value, props.is12Hour);
    FormatTime(t.hour, t.minute, Some(p))
  }

  /** On a 12-hour clock the parsed period is always present. */
  lemma TwelveHourPeriod(value: string)
    ensures ParseTime(value, true).period.Some?
  {
  }

  /**
   * Reading back what `setHour` sent changes only the hour: the minute is
   * kept, the period is kept on a 12-hour clock (and dropped on a 24-hour
   * one), and a 12-hour hour comes back clamped to 1..12.
   */
  lemma SetHourReadsBack(props: RootProps, h: int)
    ensures var t := ParseTime(props.value, props.is12Hour);
      ParseTime(SetHour(props, h), props.is12Hour) ==
        Time(if props.is12Hour then ClampHour12(h) else h, t.minute, if props.is12Hour then t.period else None)
  {
    var t := ParseTime(props.value, props.is12Hour);
    var p := if props.is12Hour then t.period else None;
    ParseFormatTime(h, t.minute, p, props.is12Hour);
  }

  /**
   * Reading back what `setMinute` sent changes only the minute; on a 12-hour
   * clock the held hour is clamped into 1..12 on the way (the empty value's
   * hour 0 comes back as 1).
   */
  lemma SetMinuteReadsBack(props: RootProps, m: int)
    ensures var t := ParseTime(props.value, props.is12Hour);
      ParseTime(SetMinute(props, m), props.is12Hour) ==
        Time(if props.is12Hour then ClampHour12(t.hour) else t.hour, m, if props.is12Hour then t.period else None)
  {
    var t := ParseTime(props.value, props.is12Hour);
    var p := if props.is12Hour then t.period else None;
    ParseFormatTime(t.hour, m, p, props.is12Hour);
  }

  /**
   * Reading back what `setPeriod` sent gives the new period with the held
   * hour and minute, on either clock: the suffix makes the string a 12-hour
   * one, so the hour comes back clamped to 1..12.
   */
  lemma SetPeriodReadsBack(props: RootProps, p: Period)
    ensures var t := ParseTime(props.value, props.is12Hour);
      ParseTime(SetPeriod(props, p), props.is12Hour) == Time(ClampHour12(t.hour), t.minute, Some(p))
  {
    var t := ParseTime(props.value, props.is12Hour);
    ParseFormatTime(t.hour, t.minute, Some(p), props.is12Hour);
  }
}
