/**
 * One column of the compound picker (src/lib/components/TimePickerWheel.tsx):
 * what the wheel lists, which index it shows, what a chosen index sends back
 * to the root, and how each item is labelled and displayed.
 */
module TimePickerWheel {
  import opened Wrappers
  import opened JsText
  import opened Formatters
  import opened TimePickerRoot

  datatype WheelType = HourWheel | MinuteWheel | PeriodWheel

  /** A wheel item: a number (hour or minute) or a text (the period). */
  datatype Item = Num(n: int) | Text(s: string)

  function Numbers(xs: seq<int>): (r: seq<Item>)
    ensures |r| == |xs| && forall i :: 0 <= i < |xs| ==> r[i] == Num(xs[i])
  {
    seq(|xs|, i requires 0 <= i < |xs| => Num(xs[i]))
  }

  /** The items of a wheel: the context's hours, its minutes, or AM and PM. */
  function Items(ctx: Context, t: WheelType): (r: seq<Item>)
    ensures t == HourWheel ==> r == Numbers(ctx.hours)
    ensures t == MinuteWheel ==> r == Numbers(ctx.minutes)
    ensures t == PeriodWheel ==> r == [Text("AM"), Text("PM")]
  {
    match t
    case HourWheel => Numbers(ctx.hours)
    case MinuteWheel => Numbers(ctx.minutes)
    case PeriodWheel => [Text("AM"), Text("PM")]
  }

  /**
   * The index the wheel should show: where the current hour or minute sits in
   * its list (-1 when it is not there), and 1 for PM, 0 otherwise.
   */
  function SelectedIndex(ctx: Context, t: WheelType): (r: int)
    ensures t == HourWheel ==> -1 <= r < |ctx.hours|
    ensures t == MinuteWheel ==> -1 <= r < |ctx.minutes|
    ensures t == HourWheel ==> (r == -1 <==> ctx.hour !in ctx.hours) && (r >= 0 ==> ctx.hours[r] == ctx.hour)
    ensures t == MinuteWheel ==> (r == -1 <==> ctx.minute !in ctx.minutes) && (r >= 0 ==> ctx.minutes[r] == ctx.minute)
    ensures t == PeriodWheel ==> (r == 1 <==> ctx.period == Some(PM)) && (r == 0 || r == 1)
  {
    match t
    case HourWheel => IndexOf(ctx.hours, ctx.hour)
    case MinuteWheel => IndexOf(ctx.minutes, ctx.minute)
    case PeriodWheel => if ctx.period == Some(PM) then 1 else 0
  }

  /** The `value` prop the wheel receives: the selected index, or 0 when the value is not in the list. */
  function WheelValue(ctx: Context, t: WheelType): (r: int)
    ensures 0 <= r && (|Items(ctx, t)| >= 1 ==> r < |Items(ctx, t)|)
    ensures SelectedIndex(ctx, t) >= 0 ==> r == SelectedIndex(ctx, t)
    ensures SelectedIndex(ctx, t) < 0 ==> r == 0
  {
    var v := SelectedIndex(ctx, t);
    if v >= 0 then v else 0
  }

  /**
   * `handleChange(index)`: the string the matching setter sends to
   * `onChange`. For the hour and minute wheels an index outside the list
   * reads `undefined`, and formatting it throws; that is `None`.
   */
  function HandleChange(props: RootProps, t: WheelType, index: int): (r: Option<string>)
    ensures t == HourWheel ==> (r.Some? <==> 0 <= index < |HoursDomain(props.hours, props.is12Hour)|)
    ensures t == MinuteWheel ==> (r.Some? <==> 0 <= index < |MinutesDomain(props.minutes, props.minuteStep)|)
    ensures t == PeriodWheel ==> r.Some?
  {
    match t
    case HourWheel =>
      var hours := HoursDomain(props.hours, props.is12Hour);
      if 0 <= index < |hours| then Some(SetHour(props, hours[index])) else None
    case MinuteWheel =>
      var minutes := MinutesDomain(props.minutes, props.minuteStep);
      if 0 <= index < |minutes| then Some(SetMinute(props, minutes[index])) else None
    case PeriodWheel =>
      Some(SetPeriod(props, if index == 1 then PM else AM))
  }

  /**
   * Choosing hour `i` and reading the result back as the new value puts the
   * hour wheel on `i` and leaves the minute and the period as they were,
   * provided the hour list has no repeats and, on a 12-hour clock, the
   * chosen hour is between 1 and 12.
   */
  lemma HourChoiceRoundTrip(props: RootProps, browserLocale: string, i: int)
    requires Distinct(HoursDomain(props.hours, props.is12Hour))
    requires 0 <= i < |HoursDomain(props.hours, props.is12Hour)|
    requires props.is12Hour ==> 1 <= HoursDomain(props.hours, props.is12Hour)[i] <= 12
    ensures HandleChange(props, HourWheel, i).Some?
    ensures var ctx := MakeContext(props, browserLocale);
      var next := MakeContext(props.(value := HandleChange(props, HourWheel, i).value), browserLocale);
      SelectedIndex(next, HourWheel) == i && next.minute == ctx.minute && next.period == ctx.period
  {
    var hours := HoursDomain(props.hours, props.is12Hour);
    SetHourReadsBack(props, hours[i]);
    IndexOfDistinct(hours, i);
  }

  /**
   * Choosing minute `i` and reading the result back puts the minute wheel on
   * `i` and keeps the period; the hour is kept, clamped into 1..12 on a
   * 12-hour clock.
   */
  lemma MinuteChoiceRoundTrip(props: RootProps, browserLocale: string, i: int)
    requires Distinct(MinutesDomain(props.minutes, props.minuteStep))
    requires 0 <= i < |MinutesDomain(props.minutes, props.minuteStep)|
    ensures HandleChange(props, MinuteWheel, i).Some?
    ensures var ctx := MakeContext(props, browserLocale);
      var next := MakeContext(props.(value := HandleChange(props, MinuteWheel, i).value), browserLocale);
      SelectedIndex(next, MinuteWheel) == i && next.period == ctx.period &&
      next.hour == if props.is12Hour then ClampHour12(ctx.hour) else ctx.hour
  {
    var minutes := MinutesDomain(props.minutes, props.minuteStep);
    SetMinuteReadsBack(props, minutes[i]);
    IndexOfDistinct(minutes, i);
  }

  /**
   * On a 12-hour clock, choosing period index `i` and reading the result
   * back gives PM exactly for index 1, shows that index, and keeps the
   * minute and the (clamped) hour.
   */
  lemma PeriodChoiceRoundTrip(props: RootProps, browserLocale: string, i: int)
    requires props.is12Hour
    ensures var ctx := MakeContext(props, browserLocale);
      var next := MakeContext(props.(value := HandleChange(props, PeriodWheel, i).value), browserLocale);
      next.period == Some(if i == 1 then PM else AM) &&
      SelectedIndex(next, PeriodWheel) == (if i == 1 then 1 else 0) &&
      next.minute == ctx.minute && next.hour == ClampHour12(ctx.hour)
  {
    SetPeriodReadsBack(props, if i == 1 then PM else AM);
  }

  /** When the current hour is in the list, the index the wheel shows sends that same hour back. */
  lemma ShownHourIsCurrent(props: RootProps, browserLocale: string)
    requires MakeContext(props, browserLocale).hour in MakeContext(props, browserLocale).hours
    ensures var ctx := MakeContext(props, browserLocale);
      HandleChange(props, HourWheel, WheelValue(ctx, HourWheel)) == Some(SetHour(props, ctx.hour))
  {
  }

  /** When the current minute is in the list, the index the wheel shows sends that same minute back. */
  lemma ShownMinuteIsCurrent(props: RootProps, browserLocale: string)
    requires MakeContext(props, browserLocale).minute in MakeContext(props, browserLocale).minutes
    ensures var ctx := MakeContext(props, browserLocale);
      HandleChange(props, MinuteWheel, WheelValue(ctx, MinuteWheel)) == Some(SetMinute(props, ctx.minute))
  {
  }

  // ---------------------------------------------------------------------------
  // Labels and display
  // ---------------------------------------------------------------------------

  /** The wheel's accessible name: the locale's hour, minute or period label. */
  function AriaLabel(ctx: Context, t: WheelType): (r: string)
    requires Complete(ctx.locale)
    ensures t == HourWheel ==> r == ctx.locale[HourLabel]
    ensures t == MinuteWheel ==> r == ctx.locale[MinuteLabel]
    ensures t == PeriodWheel ==> r == ctx.locale[PeriodLabel]
  {
    match t
    case HourWheel => ctx.locale[HourLabel]
    case MinuteWheel => ctx.locale[MinuteLabel]
    case PeriodWheel => ctx.locale[PeriodLabel]
  }

  /**
   * A wheel's accessible name is the caller's string for it when one is
   * supplied, and otherwise the Persian or English default, following the
   * numerals in use.
   */
  lemma AriaLabelFollowsLocale(props: RootProps, browserLocale: string, t: WheelType)
    ensures var ctx := MakeContext(props, browserLocale);
      var k := match t case HourWheel => HourLabel case MinuteWheel => MinuteLabel case PeriodWheel => PeriodLabel;
      AriaLabel(ctx, t) == if k in props.localeStrings then props.localeStrings[k] else BaseStrings(ctx.usePersian)[k]
  {
  }

  /** `getItemLabel`: a number followed by a space and the wheel's label; a text item is its own label. */
  function ItemLabel(item: Item, ariaLabel: string): (r: string)
    ensures item.Text? ==> r == item.s
    ensures item.Num? ==> |r| > |ariaLabel| && r[|r| - |ariaLabel|..] == ariaLabel
  {
    match item
    case Num(n) => IntToString(n) + " " + ariaLabel
    case Text(s) => s
  }

  /** The label of a number item starts with a word that reads back as the number. */
  lemma ItemLabelReadsBack(n: int, ariaLabel: string)
    ensures var words := Split(ItemLabel(Num(n), ariaLabel), ' ');
      words[0] == IntToString(n) && NumberOf(words[0]) == Some(n)
  {
    var s := IntToString(n);
    if n >= 0 {
      assert forall i :: 0 <= i < |s| ==> s[i] != ' ' by {
        assert AllDigits(s);
      }
      DigitsValueOfNatToString(n);
      DigitsRoundTrip(s);
    } else {
      assert forall i :: 0 <= i < |s| ==> s[i] != ' ' by {
        forall i | 0 <= i < |s| ensures s[i] != ' ' {
          if i > 0 {
            assert s[i] == s[1..][i - 1];
          }
        }
      }
      NegativeRoundTrip(n);
    }
    SplitAtFirst(s, ' ', ariaLabel);
  }

  /** What an item shows: a number through `formatNumber` (two characters, Persian digits when in use); a text as it is. */
  function Display(item: Item, usePersian: bool): (r: string)
    ensures item.Text? ==> r == item.s
    ensures item.Num? ==> |r| >= 2
  {
    match item
    case Num(n) => FormatNumber(n, usePersian, true)
    case Text(s) => s
  }

  /** A displayed number, Persian or not, reads back as the item once its digits are made ASCII again. */
  lemma DisplayReadsBack(n: int, usePersian: bool)
    ensures NumberOf(ToLatin(Display(Num(n), usePersian))) == Some(n)
  {
    var plain := FormatNumber(n, false, true);
    assert ToLatin(Display(Num(n), usePersian)) == plain by {
      if usePersian {
        PersianToLatinRoundTrip(n, true);
      } else {
        Pad2Numeric(n);
        LatinTextUnchanged(plain);
      }
    }
    Pad2RoundTrip(n);
  }

  /** Text made of ASCII digits, signs and colons has no Persian digit to map back. */
  lemma LatinTextUnchanged(s: string)
    requires NumericText(s)
    ensures ToLatin(s) == s
  {
    forall i | 0 <= i < |s| ensures ToLatinChar(s[i]) == s[i] {
      assert IsDigit(s[i]) || s[i] == '-' || s[i] == ':';
    }
  }
}
