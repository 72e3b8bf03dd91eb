/**
 * Time-string parsing and formatting, 12/24-hour conversion, Persian
 * numerals and the right-to-left decision (src/lib/utils/formatters.ts).
 */
module Formatters {
  import opened Wrappers
  import opened JsText

  datatype Period = AM | PM

  function PeriodText(p: Period): string {
    match p
    case AM => "AM"
    case PM => "PM"
  }

  /** The `[hour, minute, period]` triple that `parseTime` returns; `None` is `null`. */
  datatype Time = Time(hour: int, minute: int, period: Option<Period>)

  // ---------------------------------------------------------------------------
  // The period marker and the regular expression /\s*(AM|PM)\s*/i
  // ---------------------------------------------------------------------------

  /** Position `i` of `u` starts the text "AM" or "PM". */
  predicate PeriodAt(u: string, i: nat) {
    i + 2 <= |u| && (u[i] == 'A' || u[i] == 'P') && u[i + 1] == 'M'
  }

  /** The first position at or after `i` that starts a period marker. */
  function FirstPeriodFrom(u: string, i: nat): (r: Option<nat>)
    ensures r.Some? ==> i <= r.value && PeriodAt(u, r.value)
    ensures r.Some? ==> forall k :: i <= k < r.value ==> !PeriodAt(u, k)
    ensures r.None? ==> forall k :: i <= k ==> !PeriodAt(u, k)
    decreases |u| - i
  {
    if i + 2 > |u| then None
    else if PeriodAt(u, i) then Some(i)
    else FirstPeriodFrom(u, i + 1)
  }

  /** Where the run of whitespace that ends just before position `j` begins. */
  function SpaceRunStart(u: string, j: nat): (s: nat)
    requires j <= |u|
    ensures s <= j && (forall k :: s <= k < j ==> IsSpace(u[k]))
    ensures s == 0 || !IsSpace(u[s - 1])
  {
    if j > 0 && IsSpace(u[j - 1]) then SpaceRunStart(u, j - 1) else j
  }

  /** Where the run of whitespace that starts at position `j` ends. */
  function SpaceRunEnd(u: string, j: nat): (e: nat)
    requires j <= |u|
    ensures j <= e <= |u| && (forall k :: j <= k < e ==> IsSpace(u[k]))
    ensures e == |u| || !IsSpace(u[e])
    decreases |u| - j
  {
    if j < |u| && IsSpace(u[j]) then SpaceRunEnd(u, j + 1) else j
  }

  /**
   * `u.replace(/\s*(AM|PM)\s*\/i, "")` on an upper-cased string: the leftmost
   * match starts at the whitespace run in front of the first marker and takes
   * the whitespace run behind it; only that first match is removed.
   */
  function StripPeriod(u: string): (r: string)
    ensures FirstPeriodFrom(u, 0).None? ==> r == u
    ensures FirstPeriodFrom(u, 0).Some? ==>
      var j := FirstPeriodFrom(u, 0).value;
      var s, e := SpaceRunStart(u, j), SpaceRunEnd(u, j + 2);
      s <= j && j + 2 <= e <= |u| && r == u[..s] + u[e..] && |r| == |u| - (e - s)
  {
    match FirstPeriodFrom(u, 0)
    case None => u
    case Some(j) => u[..SpaceRunStart(u, j)] + u[SpaceRunEnd(u, j + 2)..]
  }

  // ---------------------------------------------------------------------------
  // parseTime / formatTime
  // ---------------------------------------------------------------------------

  /** `Math.min(12, Math.max(1, h))`. */
  function ClampHour12(h: int): (r: int)
    ensures 1 <= r <= 12
    ensures 1 <= h <= 12 ==> r == h
    ensures h < 1 ==> r == 1
    ensures h > 12 ==> r == 12
  {
    Min(12, Max(1, h))
  }

  predicate HasPeriodMark(u: string) {
    Contains(u, "AM") || Contains(u, "PM")
  }

  /**
   * `parseTime(value, is12Hour)`. The empty string gives midnight. Otherwise
   * the 12-hour reading is used when the upper-cased input mentions AM or PM
   * or when `is12Hour` is set: the hour is clamped to 1..12 (12 when it is not
   * a number), the minute is 0 when it is not a number. The 24-hour reading
   * passes both numbers through, with 0 for a non-number.
   */
  function ParseTime(value: string, is12Hour: bool): (r: Time)
    ensures value == [] ==> r == Time(0, 0, if is12Hour then Some(AM) else None)
    ensures value != [] && (is12Hour || HasPeriodMark(ToUpper(value))) ==>
              1 <= r.hour <= 12 && r.period.Some?
    ensures value != [] && (is12Hour || HasPeriodMark(ToUpper(value))) ==>
              var t := Trim(StripPeriod(ToUpper(value)));
              (Field(t, 0).None? ==> r.hour == 12) &&
              (Field(t, 0).Some? ==> r.hour == ClampHour12(Field(t, 0).value)) &&
              (Field(t, 1) == Some(r.minute) || (Field(t, 1).None? && r.minute == 0))
    ensures value != [] && !is12Hour && !HasPeriodMark(ToUpper(value)) ==>
              (Field(value, 0) == Some(r.hour) || (Field(value, 0).None? && r.hour == 0)) &&
              (Field(value, 1) == Some(r.minute) || (Field(value, 1).None? && r.minute == 0))
    ensures r.period.None? <==> !is12Hour && !HasPeriodMark(ToUpper(value))
    ensures r.period == Some(PM) <==> value != [] && Contains(ToUpper(value), "PM")
  {
    if value == [] then
      Time(0, 0, if is12Hour then Some(AM) else None)
    else
      var upper := ToUpper(value);
      if HasPeriodMark(upper) || is12Hour then Parse12(upper) else Parse24(value)
  }

  /** `Number(t.split(":")[k])`: None for NaN and for a missing field. */
  function Field(t: string, k: nat): Option<int> {
    NumberOfField(Split(t, ':'), k)
  }

  /** A NaN field becomes the given default. */
  function OrDefault(x: Option<int>, default: int): (r: int)
    ensures x == Some(r) || (x.None? && r == default)
  {
    if x.None? then default else x.value
  }

  /** The 12-hour reading of an upper-cased, non-empty time string. */
  function Parse12(upper: string): (r: Time)
    ensures 1 <= r.hour <= 12
    ensures r.period == Some(if Contains(upper, "PM") then PM else AM)
    ensures var t := Trim(StripPeriod(upper));
      (Field(t, 0).None? ==> r.hour == 12) &&
      (Field(t, 0).Some? ==> r.hour == ClampHour12(Field(t, 0).value)) &&
      (Field(t, 1) == Some(r.minute) || (Field(t, 1).None? && r.minute == 0))
  {
    Fields12(Trim(StripPeriod(upper)), if Contains(upper, "PM") then PM else AM)
  }

  /** The hour and minute fields of the text left once the marker is removed, read in the 12-hour way. */
  function Fields12(t: string, p: Period): (r: Time)
    ensures 1 <= r.hour <= 12 && r.period == Some(p)
    ensures Field(t, 0).None? ==> r.hour == 12
    ensures Field(t, 0).Some? ==> r.hour == ClampHour12(Field(t, 0).value)
    ensures Field(t, 1) == Some(r.minute) || (Field(t, 1).None? && r.minute == 0)
  {
    var h := Field(t, 0);
    var m := Field(t, 1);
    Time(if h.None? then 12 else ClampHour12(h.value), OrDefault(m, 0), Some(p))
  }

  /** The 24-hour reading: both fields as written, 0 for a NaN field, no period. */
  function Parse24(value: string): (r: Time)
    ensures r.period.None?
    ensures Field(value, 0) == Some(r.hour) || (Field(value, 0).None? && r.hour == 0)
    ensures Field(value, 1) == Some(r.minute) || (Field(value, 1).None? && r.minute == 0)
  {
    Time(OrDefault(Field(value, 0), 0), OrDefault(Field(value, 1), 0), None)
  }

  /**
   * `formatTime(hour, minute, period)`: both numbers padded to two characters,
   * joined by a colon, and " AM"/" PM" appended when there is a period.
   */
  function FormatTime(hour: int, minute: int, period: Option<Period>): (r: string)
    ensures var c := Clock(hour, minute);
      |r| >= |c| && r[..|c|] == c &&
      (period.None? <==> |r| == |c|) &&
      (period.Some? ==> r[|c|..] == " " + PeriodText(period.value))
  {
    match period
    case None => Clock(hour, minute)
    case Some(p) => Clock(hour, minute) + " " + PeriodText(p)
  }

  /** The "HH:MM" part of formatTime's output. */
  function Clock(hour: int, minute: int): (r: string)
    ensures |r| >= 5
  {
    Pad2(hour) + ":" + Pad2(minute)
  }

  /**
   * For hours and minutes from 0 to 99 formatTime writes the fixed-width wire
   * format: "HH:MM" (five characters) or "HH:MM AM"/"HH:MM PM" (eight).
   */
  lemma FormatTimeWidth(hour: int, minute: int, period: Option<Period>)
    requires 0 <= hour < 100 && 0 <= minute < 100
    ensures var r := FormatTime(hour, minute, period);
      |r| == (if period.Some? then 8 else 5) && r[2] == ':' &&
      AllDigits(r[..2]) && AllDigits(r[3..5]) &&
      (period.Some? ==> r[5..] == " " + PeriodText(period.value))
  {
    Pad2Width(hour);
    Pad2Width(minute);
    var r := FormatTime(hour, minute, period);
    assert r[..2] == Pad2(hour);
    assert r[3..5] == Pad2(minute);
  }

  /** The characters formatTime writes before the period: digits, minus signs and the colon. */
  predicate NumericText(s: string) {
    forall i :: 0 <= i < |s| ==> IsDigit(s[i]) || s[i] == '-' || s[i] == ':'
  }

  predicate NoColon(s: string) {
    forall i :: 0 <= i < |s| ==> s[i] != ':'
  }

  lemma Pad2Numeric(n: int)
    ensures NumericText(Pad2(n)) && NoColon(Pad2(n))
    ensures IsDigit(Pad2(n)[|Pad2(n)| - 1]) && !IsSpace(Pad2(n)[0])
  {
    var s := IntToString(n);
    if n < 0 {
      var d := NatToString(-n);
      assert s == "-" + d;
      assert Pad2(n) == s;
      assert s[|s| - 1] == d[|d| - 1];
    }
  }

  lemma ClockShape(h: int, m: int)
    ensures NumericText(Clock(h, m))
    ensures IsDigit(Clock(h, m)[|Clock(h, m)| - 1]) && !IsSpace(Clock(h, m)[0])
  {
    Pad2Numeric(h);
    Pad2Numeric(m);
    var a := Clock(h, m);
    assert a[|a| - 1] == Pad2(m)[|Pad2(m)| - 1];
    assert a[0] == Pad2(h)[0];
  }

  /** Both fields of "HH:MM" read back as the numbers that were written. */
  lemma ClockFields(h: int, m: int)
    ensures Trim(Clock(h, m)) == Clock(h, m)
    ensures Split(Clock(h, m), ':') == [Pad2(h), Pad2(m)]
    ensures NumberOf(Pad2(h)) == Some(h) && NumberOf(Pad2(m)) == Some(m)
  {
    ClockShape(h, m);
    TrimNoop(Clock(h, m));
    ClockSplit(h, m);
    Pad2RoundTrip(h);
    Pad2RoundTrip(m);
  }

  lemma ClockSplit(h: int, m: int)
    ensures Split(Clock(h, m), ':') == [Pad2(h), Pad2(m)]
  {
    Pad2Numeric(h);
    Pad2Numeric(m);
    SplitAtFirst(Pad2(h), ':', Pad2(m));
    SplitNoSeparator(Pad2(m), ':');
  }

  /** Text made only of digits, minus signs and colons has no period marker and no lower-case letter. */
  lemma NumericTextHasNoMark(a: string)
    requires NumericText(a)
    ensures ToUpper(a) == a && !HasPeriodMark(a) && FirstPeriodFrom(a, 0) == None
  {
    NotContains(a, "AM");
    NotContains(a, "PM");
  }

  /** In "HH:MM AM" the first marker starts right after the space. */
  lemma FormattedMarkAt(a: string, p: Period)
    requires NumericText(a)
    ensures PeriodAt(a + " " + PeriodText(p), |a| + 1)
    ensures FirstPeriodFrom(a + " " + PeriodText(p), 0) == Some(|a| + 1)
  {
    var s := a + " " + PeriodText(p);
    var j := |a| + 1;
    assert s[j] == PeriodText(p)[0] && s[j + 1] == 'M';
    forall k | 0 <= k < j ensures !PeriodAt(s, k) {
      assert s[k] == (if k < |a| then a[k] else ' ');
    }
    FirstPeriodIs(s, 0, j);
  }

  /** A marker at `j` with none between `i` and `j` is the first one from `i`. */
  lemma {:induction false} FirstPeriodIs(u: string, i: nat, j: nat)
    requires i <= j && PeriodAt(u, j)
    requires forall k :: i <= k < j ==> !PeriodAt(u, k)
    ensures FirstPeriodFrom(u, i) == Some(j)
    decreases j - i
  {
    if i < j {
      FirstPeriodIs(u, i + 1, j);
    }
  }

  lemma FormattedMarkContains(a: string, p: Period)
    requires NumericText(a)
    ensures var s := a + " " + PeriodText(p);
      ToUpper(s) == s && HasPeriodMark(s) && (Contains(s, "PM") <==> p == PM)
  {
    var s := a + " " + PeriodText(p);
    FormattedUpper(a, p);
    assert s[|a| + 1..|a| + 3] == PeriodText(p);
    if p == PM {
      ContainsAt(s, "PM", |a| + 1);
    } else {
      ContainsAt(s, "AM", |a| + 1);
      assert s == a + " AM";
      NoLetterP(a);
    }
  }

  /** Formatted text with a period has no lower-case letter. */
  lemma FormattedUpper(a: string, p: Period)
    requires NumericText(a)
    ensures ToUpper(a + " " + PeriodText(p)) == a + " " + PeriodText(p)
  {
    var s := a + " " + PeriodText(p);
    forall i | 0 <= i < |s| ensures !('a' <= s[i] <= 'z') {
      if i < |a| {
        assert s[i] == a[i];
      }
    }
    ToUpperNoop(s);
  }

  /** "HH:MM AM" does not contain "PM". */
  lemma NoLetterP(a: string)
    requires NumericText(a)
    ensures !Contains(a + " AM", "PM")
  {
    var s := a + " AM";
    forall i | 0 <= i < |s| ensures s[i] != 'P' {
      if i < |a| {
        assert s[i] == a[i];
      }
    }
    NotContains(s, "PM");
  }

  /** Removing the marker from "HH:MM AM" leaves "HH:MM". */
  lemma StripFormattedPeriod(a: string, p: Period)
    requires |a| >= 1 && NumericText(a) && IsDigit(a[|a| - 1])
    ensures StripPeriod(a + " " + PeriodText(p)) == a
  {
    var s := a + " " + PeriodText(p);
    var j := |a| + 1;
    FormattedMarkAt(a, p);
    var st := SpaceRunStart(s, j);
    assert s[|a|] == ' ' && s[|a| - 1] == a[|a| - 1];
    assert st == |a|;
    assert SpaceRunEnd(s, j + 2) == |s|;
    assert s[..|a|] == a;
  }

  /** The 12-hour reading of "HH:MM" sees the clock's two fields, the hour clamped to 1..12. */
  lemma Fields12Clock(h: int, m: int, p: Period)
    ensures Fields12(Clock(h, m), p) == Time(ClampHour12(h), m, Some(p))
  {
    ClockFields(h, m);
  }

  /** Reading "HH:MM" or "HH:MM AM" in the 12-hour way. */
  lemma Parse12Formatted(h: int, m: int, p: Option<Period>)
    ensures Parse12(FormatTime(h, m, p)) ==
      Time(ClampHour12(h), m, Some(if p == Some(PM) then PM else AM))
  {
    var a := Clock(h, m);
    var s := FormatTime(h, m, p);
    var q := if p == Some(PM) then PM else AM;
    ClockShape(h, m);
    ClockFields(h, m);
    Fields12Clock(h, m, q);
    match p
    case None =>
      NumericTextHasNoMark(a);
      assert s == a;
      assert StripPeriod(s) == a;
      assert !Contains(s, "PM");
    case Some(r) =>
      StripFormattedPeriod(a, r);
      FormattedMarkContains(a, r);
      assert StripPeriod(s) == a;
      assert Contains(s, "PM") <==> r == PM;
    assert Trim(StripPeriod(s)) == a;
    assert Parse12(s) == Fields12(a, q);
  }

  /** The two fields of `HH:MM` read back, one by one, as the hour and the minute. */
  lemma ClockNumbers(h: int, m: int)
    ensures NumberOfField(Split(Clock(h, m), ':'), 0) == Some(h)
    ensures NumberOfField(Split(Clock(h, m), ':'), 1) == Some(m)
  {
    ClockFields(h, m);
    PaddedFields(Split(Clock(h, m), ':'), h, m);
  }

  lemma PaddedFields(parts: seq<string>, h: int, m: int)
    requires parts == [Pad2(h), Pad2(m)]
    ensures NumberOfField(parts, 0) == Some(h) && NumberOfField(parts, 1) == Some(m)
  {
    assert NumberOfField(parts, 0) == NumberOf(Pad2(h));
    assert NumberOfField(parts, 1) == NumberOf(Pad2(m));
    Pad2RoundTrip(h);
    Pad2RoundTrip(m);
  }

  lemma Parse24Clock(h: int, m: int)
    ensures Parse24(Clock(h, m)) == Time(h, m, None)
  {
    ClockFields(h, m);
  }

  /**
   * Reading back what formatTime wrote. With a period, or when parsing in
   * 12-hour mode, the 12-hour reading applies and the hour comes back clamped
   * to 1..12; otherwise hour and minute come back unchanged with no period.
   */
  lemma ParseFormatTime(h: int, m: int, p: Option<Period>, is12Hour: bool)
    ensures ParseTime(FormatTime(h, m, p), is12Hour) ==
      if p.Some? || is12Hour then Time(ClampHour12(h), m, Some(if p == Some(PM) then PM else AM))
      else Time(h, m, None)
  {
    var a := Clock(h, m);
    ClockShape(h, m);
    Parse12Formatted(h, m, p);
    match p
    case None =>
      NumericTextHasNoMark(a);
      Parse24Clock(h, m);
    case Some(q) =>
      FormattedMarkContains(a, q);
  }

  /**
   * Worked readings of what formatTime writes: a 24-hour string passes
   * through unclamped, and 12-hour mode clamps a 24-hour hour and gives it
   * the AM period.
   */
  lemma ParseExamples()
    ensures ParseTime("14:30", false) == Time(14, 30, None)
    ensures ParseTime("15:07", true) == Time(12, 7, Some(AM))
  {
    assert NatToString(14) == "14" && NatToString(30) == "30";
    assert NatToString(15) == "15" && NatToString(7) == "7";
    assert FormatTime(14, 30, None) == "14:30";
    assert FormatTime(15, 7, None) == "15:07";
    ParseFormatTime(14, 30, None, false);
    ParseFormatTime(15, 7, None, true);
  }

  /** The 12-hour round trip: every hour 1..12, any minute and either period come back unchanged. */
  lemma RoundTrip12(h: int, m: int, p: Period)
    requires 1 <= h <= 12
    ensures ParseTime(FormatTime(h, m, Some(p)), true) == Time(h, m, Some(p))
  {
    ParseFormatTime(h, m, Some(p), true);
  }

  /** The 24-hour round trip: any hour and minute come back unchanged and without a period. */
  lemma RoundTrip24(h: int, m: int)
    ensures ParseTime(FormatTime(h, m, None), false) == Time(h, m, None)
  {
    ParseFormatTime(h, m, None, false);
  }

  // ---------------------------------------------------------------------------
  // to12Hour / to24Hour
  // ---------------------------------------------------------------------------

  /** `to12Hour(hour24)`: midnight is 12 AM, noon is 12 PM, later hours drop by 12. */
  function To12Hour(hour24: int): (r: (int, Period))
    ensures 0 <= hour24 <= 23 ==> 1 <= r.0 <= 12 && (r.1 == PM <==> hour24 >= 12)
  {
    if hour24 == 0 then (12, AM)
    else if hour24 == 12 then (12, PM)
    else if hour24 > 12 then (hour24 - 12, PM)
    else (hour24, AM)
  }

  /** `to24Hour(hour12, period)`: 12 AM is 0, 12 PM is 12, other PM hours gain 12. */
  function To24Hour(hour12: int, period: Period): (r: int)
    ensures 1 <= hour12 <= 12 ==> 0 <= r <= 23 && (r >= 12 <==> period == PM)
  {
    match period
    case AM => if hour12 == 12 then 0 else hour12
    case PM => if hour12 == 12 then 12 else hour12 + 12
  }

  lemma To24HourInvertsTo12Hour(h: int)
    requires 0 <= h <= 23
    ensures To24Hour(To12Hour(h).0, To12Hour(h).1) == h
  {
  }

  lemma To12HourInvertsTo24Hour(h: int, p: Period)
    requires 1 <= h <= 12
    ensures To12Hour(To24Hour(h, p)) == (h, p)
  {
  }

  // ---------------------------------------------------------------------------
  // formatNumber
  // ---------------------------------------------------------------------------

  /** The Extended Arabic-Indic digits zero to nine, as used for Persian. */
  const PersianDigits: string :=
    "\U{06F0}\U{06F1}\U{06F2}\U{06F3}\U{06F4}\U{06F5}\U{06F6}\U{06F7}\U{06F8}\U{06F9}"

  predicate IsPersianDigit(c: char) { '\U{06F0}' <= c <= '\U{06F9}' }

  /** The replacement callback of formatNumber: an ASCII digit becomes the Persian digit of the same value. */
  function ToPersianChar(c: char): (r: char)
    ensures IsDigit(c) ==> IsPersianDigit(r) && ToLatinChar(r) == c
    ensures !IsDigit(c) ==> r == c
  {
    if IsDigit(c) then PersianDigits[DigitValue(c)] else c
  }

  /** The reverse mapping, Persian digit to ASCII digit. */
  function ToLatinChar(c: char): char {
    if IsPersianDigit(c) then ('0' as int + (c as int - 0x06F0)) as char else c
  }

  /**
   * `formatNumber(n, usePersian, pad)`: the decimal text of `n`, padded to two
   * characters when `pad` is set, with every ASCII digit replaced by its
   * Persian counterpart when `usePersian` is set.
   */
  function FormatNumber(n: int, usePersian: bool, pad: bool): (r: string)
    ensures var plain := if pad then Pad2(n) else IntToString(n);
      |r| == |plain| &&
      (!usePersian ==> r == plain) &&
      (usePersian ==> forall i :: 0 <= i < |r| ==>
         if IsDigit(plain[i]) then IsPersianDigit(r[i]) && ToLatinChar(r[i]) == plain[i]
         else r[i] == plain[i])
    ensures pad ==> |r| >= 2
  {
    var padded := if pad then Pad2(n) else IntToString(n);
    if usePersian then seq(|padded|, i requires 0 <= i < |padded| => ToPersianChar(padded[i]))
    else padded
  }

  function ToLatin(s: string): (r: string)
    ensures |r| == |s| && forall i :: 0 <= i < |s| ==> r[i] == ToLatinChar(s[i])
  {
    seq(|s|, i requires 0 <= i < |s| => ToLatinChar(s[i]))
  }

  /** Mapping the Persian digits back recovers the plain rendering: transliteration loses nothing. */
  lemma PersianToLatinRoundTrip(n: int, pad: bool)
    ensures ToLatin(FormatNumber(n, true, pad)) == FormatNumber(n, false, pad)
  {
    var plain := if pad then Pad2(n) else IntToString(n);
    var r := FormatNumber(n, true, pad);
    forall i | 0 <= i < |r| ensures ToLatinChar(r[i]) == plain[i] {
      if !IsDigit(plain[i]) {
        assert plain[i] == '-';
      }
    }
  }

  // ---------------------------------------------------------------------------
  // isRTL / usePersianNumerals
  // ---------------------------------------------------------------------------

  datatype Numerals = En | Fa | Auto

  /**
   * `isRTL(numerals, browserLocale)` with the locale supplied: right-to-left
   * for Persian numerals, or in automatic mode for a Persian or Arabic locale.
   */
  function IsRTL(numerals: Numerals, browserLocale: string): (r: bool)
    ensures numerals == En ==> !r
    ensures numerals == Fa ==> r
    ensures numerals == Auto ==> (r <==> browserLocale in {"fa", "ar"})
  {
    numerals == Fa || (numerals == Auto && (browserLocale == "fa" || browserLocale == "ar"))
  }

  /** `usePersianNumerals` is the same decision as `isRTL`. */
  function UsePersianNumerals(numerals: Numerals, browserLocale: string): (r: bool)
    ensures r == IsRTL(numerals, browserLocale)
  {
    IsRTL(numerals, browserLocale)
  }
}
