/** The built-in hour and minute domains (src/lib/timeConstants.ts). */
module TimeConstants {
  import opened JsText

  /** `Array.from({ length: n }, (_, i) => first + i * step)`. */
  function Count(n: nat, first: int, step: int): (r: seq<int>)
    ensures |r| == n
  {
    seq(n, i => first + i * step)
  }

  /** `HOURS_24`: the hours of a 24-hour clock. */
  const Hours24: seq<int> := Count(24, 0, 1)
  /** `HOURS_12`: the hours of a 12-hour clock. */
  const Hours12: seq<int> := Count(12, 1, 1)
  /** `MINUTES`: every minute of an hour. */
  const Minutes: seq<int> := Count(60, 0, 1)
  /** `MINUTES_5`: every fifth minute. */
  const Minutes5: seq<int> := Count(12, 0, 5)
  /** `MINUTES_15`: the quarter hours. */
  const Minutes15: seq<int> := [0, 15, 30, 45]

  /** Each built-in domain lists exactly its clock values, in increasing order, once each. */
  lemma HoursDomains(h: int)
    ensures |Hours24| == 24 && (h in Hours24 <==> 0 <= h <= 23) && Distinct(Hours24)
    ensures |Hours12| == 12 && (h in Hours12 <==> 1 <= h <= 12) && Distinct(Hours12)
    ensures forall i :: 0 <= i < 24 ==> Hours24[i] == i
    ensures forall i :: 0 <= i < 12 ==> Hours12[i] == i + 1
  {
    if 0 <= h <= 23 { assert Hours24[h] == h; }
    if 1 <= h <= 12 { assert Hours12[h - 1] == h; }
  }

  lemma MinutesDomains(m: int)
    ensures |Minutes| == 60 && (m in Minutes <==> 0 <= m <= 59) && Distinct(Minutes)
    ensures |Minutes5| == 12 && (m in Minutes5 <==> 0 <= m < 60 && m % 5 == 0) && Distinct(Minutes5)
    ensures forall i :: 0 <= i < 12 ==> Minutes5[i] == 5 * i
    ensures (m in Minutes15 <==> 0 <= m < 60 && m % 15 == 0) && Distinct(Minutes15)
  {
    if 0 <= m <= 59 { assert Minutes[m] == m; }
    if 0 <= m < 60 && m % 5 == 0 { assert Minutes5[m / 5] == m; }
  }
}
