/**
 * The Hour field's arithmetic: hours as (hour, minute) pairs compared like
 * Python tuples, conversions to and from minutes, durations across
 * midnight, the split of a time interval into day ranges and the number of
 * minutes two intervals share; plus the field's request value, its storable
 * tuple and its validation.
 */
module Hours {
  import opened Py

  const VALUE_ERROR := "ValueError"
  /** The i18n label validateValue reports (its translation is not modelled). */
  const FIELD_REQUIRED := "field_required"
  /** The separator of an Hour's request value. */
  const COLON := ":"

  /** An Hour value (hours, minutes). */
  type HourValue = (int, int)

  /** Python's order on (hours, minutes) tuples. */
  predicate Lt(a: HourValue, b: HourValue) { a.0 < b.0 || (a.0 == b.0 && a.1 < b.1) }

  predicate Le(a: HourValue, b: HourValue) { Lt(a, b) || a == b }

  /** An hour within a day: 00:00 to 23:59. */
  predicate InDay(v: HourValue) { 0 <= v.0 <= 23 && 0 <= v.1 <= 59 }

  /** An hour within a day, or the end of the day (24, 0). */
  predicate DayBound(v: HourValue) { InDay(v) || v == (24, 0) }

  const MIDNIGHT: HourValue := (0, 0)
  const END_OF_DAY: HourValue := (24, 0)
  const DAY := 1440

  // ------------------------------------------------------------------------
  // Conversions
  // ------------------------------------------------------------------------

  /** Hour.hourDifference: the hours from h1 forward to h2, h2 being on the next day when earlier. */
  function HourDifference(h1: int, h2: int): (r: int)
    ensures 0 <= h1 <= 23 && 0 <= h2 <= 23 ==> 0 <= r <= 23 && (h1 + r) % 24 == h2
    ensures h1 <= h2 ==> r == h2 - h1
  {
    if h2 < h1 then h2 + 24 - h1 else h2 - h1
  }

  /** Hour.getMinutes */
  function GetMinutes(v: HourValue): int
  {
    v.1 + 60 * v.0
  }

  /** On hours whose minutes are below 60, tuple order is the order of their minutes. */
  lemma {:induction false} OrderIsMinutes(a: HourValue, b: HourValue)
    requires 0 <= a.1 < 60 && 0 <= b.1 < 60
    ensures Lt(a, b) <==> GetMinutes(a) < GetMinutes(b)
    ensures a == b <==> GetMinutes(a) == GetMinutes(b)
  {
    if a.0 < b.0 {
      assert 60 * a.0 + 60 <= 60 * b.0;
    } else if a.0 > b.0 {
      assert 60 * b.0 + 60 <= 60 * a.0;
    }
  }

  /** Hour.fromMinutes: `minutes % 60` (floored) and `int(minutes / 60.0)` (truncated). */
  function FromMinutes(minutes: int): (r: HourValue)
    ensures 0 <= r.1 < 60
    ensures minutes >= 0 ==> r.0 >= 0 && GetMinutes(r) == minutes
  {
    (TruncDiv(minutes, 60), Mod(minutes, 60))
  }

  /** fromMinutes inverts getMinutes on hours with minutes below 60. */
  lemma {:induction false} FromGetMinutes(v: HourValue)
    requires v.0 >= 0 && 0 <= v.1 < 60
    ensures FromMinutes(GetMinutes(v)) == v
  {
    var n := GetMinutes(v);
    assert n / 60 == v.0 && n % 60 == v.1;
  }

  /** A negative number of minutes is not inverted: the remainder is floored but the quotient truncated. */
  lemma {:induction false} FromNegativeMinutes()
    ensures FromMinutes(-30) == (0, 30)
    ensures GetMinutes(FromMinutes(-30)) == 30
  {
  }

  /**
   * (60 * a + b) minutes, taken modulo one day, is hour a % 24 and minute b:
   * helper for the wrap-around of addMinutes.
   */
  lemma {:induction false} WrapDay(a: int, b: int)
    requires a >= 0 && 0 <= b < 60
    ensures (60 * a + b) % DAY == 60 * (a % 24) + b
    ensures (60 * (a % 24) + b) / 60 == a % 24 && (60 * (a % 24) + b) % 60 == b
  {
    var q, r := a / 24, a % 24;
    assert a == q * 24 + r && 0 <= r < 24;
    assert 60 * a + b == q * DAY + (60 * r + b);
    DivModUnique(60 * a + b, DAY, q, 60 * r + b);
    DivModUnique(60 * r + b, 60, r, b);
  }

  /** Hour.addMinutes as written: the hour wraps past 23 only when the minutes carry. */
  function AddMinutesAsWritten(value: HourValue, minutes: int): HourValue
  {
    var (h, m) := FromMinutes(minutes);
    var hour := value.0 + h;
    var mins := value.1 + m;
    if mins >= 60 then
      var next := hour + 1;
      (if next > 23 then Mod(next, 24) else next, mins - 60)
    else (hour, mins)
  }

  /** Hour.addMinutes as its comment describes it: the hour goes through 0 whenever it passes 23. */
  function AddMinutes(value: HourValue, minutes: int): HourValue
  {
    var (h, m) := FromMinutes(minutes);
    var carry := if value.1 + m >= 60 then 1 else 0;
    var hour := value.0 + h + carry;
    (if hour > 23 then Mod(hour, 24) else hour, value.1 + m - 60 * carry)
  }

  /** Adding minutes to an hour of the day is adding them on the 24-hour clock. */
  lemma {:induction false} AddMinutesWraps(value: HourValue, minutes: int)
    requires InDay(value) && minutes >= 0
    ensures InDay(AddMinutes(value, minutes))
    ensures AddMinutes(value, minutes) == FromMinutes((GetMinutes(value) + minutes) % DAY)
  {
    var (h, m) := FromMinutes(minutes);
    var carry := if value.1 + m >= 60 then 1 else 0;
    var hour := value.0 + h + carry;
    var mins := value.1 + m - 60 * carry;
    assert GetMinutes(value) + minutes == 60 * hour + mins;
    WrapDay(hour, mins);
    var t := 60 * (hour % 24) + mins;
    assert AddMinutes(value, minutes) == (hour % 24, mins);
    assert FromMinutes(t) == (t / 60, t % 60);
  }

  /** As written, 23:00 plus one hour is 24:00, while the corrected version gives 00:00. */
  lemma {:induction false} AddMinutesAsWrittenSkipsWrap()
    ensures AddMinutesAsWritten((23, 0), 60) == (24, 0)
    ensures AddMinutes((23, 0), 60) == (0, 0)
  {
    assert FromMinutes(60) == (1, 0);
  }

  /** Both versions agree when the minutes carry or the hour stays below 24. */
  lemma {:induction false} AddMinutesAgrees(value: HourValue, minutes: int)
    requires value.1 + FromMinutes(minutes).1 >= 60 || value.0 + FromMinutes(minutes).0 <= 23
    ensures AddMinutesAsWritten(value, minutes) == AddMinutes(value, minutes)
  {
  }

  // ------------------------------------------------------------------------
  // Text
  // ------------------------------------------------------------------------

  /** Hour.fromString: "h<sep>m" to minutes, negated when the text starts with "-". */
  function FromString(s: string, sep: string): (r: Result<int>)
    ensures r.Err? ==> r.error == VALUE_ERROR
  {
    if sep == "" then Err(VALUE_ERROR) else FromParts(StartsWith(s, MINUS), Split(s, sep))
  }

  /** The part of fromString after the split: two integers, hours then minutes. */
  function FromParts(negate: bool, parts: seq<string>): (r: Result<int>)
    ensures r.Err? ==> r.error == VALUE_ERROR
  {
    if |parts| != 2 then Err(VALUE_ERROR)
    else match (ParseInt(parts[0]), ParseInt(parts[1]))
      case (Some(h), Some(m)) =>
        var r := GetMinutes((Abs(h), m));
        Ok(if negate then -r else r)
      case _ => Err(VALUE_ERROR)
  }

  /** Hour.formatDuration: "no" for None, else [-]hours, sep, and the minutes on two digits. */
  function FormatDuration(minutes: Option<int>, sep: string, no: string): (r: string)
    ensures minutes.None? ==> r == no
    ensures minutes.Some? ==> |r| >= 2 && IsDigits(r[|r| - 2..])
                              && DigitsValue(r[|r| - 2..]) == Abs(minutes.value) % 60
    ensures minutes.Some? ==> (minutes.value < 0 <==> r[0] == '-')
  {
    if minutes.None? then no
    else
      var prefix := if minutes.value < 0 then MINUS else "";
      var m := Abs(minutes.value);
      var z := ZFill2(m % 60);
      var r := prefix + NatToString(m / 60) + sep + z;
      assert |z| == 2;
      assert r[|r| - 2..] == z;
      assert minutes.value < 0 <==> r[0] == '-' by {
        if minutes.value >= 0 { assert r[0] == NatToString(m / 60)[0]; }
      }
      r
  }

  /** A separator fromString can read back: one character, neither a digit nor "-". */
  predicate HourSep(sep: string)
  {
    |sep| == 1 && !IsDigit(sep[0]) && sep[0] != '-'
  }

  /** Whole hours, preceded by "-" when negative, then sep and a minutes text. */
  function SignedText(negative: bool, h: nat, sep: string, minutesText: string): string
  {
    (if negative then MINUS else "") + NatToString(h) + sep + minutesText
  }

  /** An hour written "h<sep>m", preceded by "-" when negative. */
  function HourText(negative: bool, h: nat, sep: string, m: int): string
  {
    SignedText(negative, h, sep, IntToString(m))
  }

  lemma {:induction false} IntTextAvoids(i: int, sep: string)
    requires HourSep(sep)
    ensures !Contains(IntToString(i), sep)
  {
    ContainsChar(IntToString(i), sep[0]);
    assert [sep[0]] == sep;
    if i < 0 {
      var d := NatToString(-i);
      assert forall k | 1 <= k < |IntToString(i)| :: IntToString(i)[k] == d[k - 1];
    }
  }

  /** The hours part as fromString reads it: `int("-" + digits)` or `int(digits)`. */
  lemma {:induction false} SignedHoursValue(negative: bool, h: nat, sep: string)
    requires HourSep(sep)
    ensures ParseInt((if negative then MINUS else "") + NatToString(h)) == Some(if negative then -(h as int) else h as int)
    ensures !Contains((if negative then MINUS else "") + NatToString(h), sep)
  {
    if negative {
      ParseIntOfNegNat(h);
      NegHoursAvoid(h, sep);
    } else {
      assert "" + NatToString(h) == NatToString(h);
      ParseIntOfNat(h);
      PosHoursAvoid(h, sep);
    }
  }

  lemma {:induction false} NegHoursAvoid(h: nat, sep: string)
    requires HourSep(sep)
    ensures !Contains(MINUS + NatToString(h), sep)
  {
    var t := MINUS + NatToString(h);
    assert forall k | 0 <= k < |t| :: t[k] == '-' || IsDigit(t[k]);
    ContainsChar(t, sep[0]);
    assert [sep[0]] == sep;
  }

  lemma {:induction false} PosHoursAvoid(h: nat, sep: string)
    requires HourSep(sep)
    ensures !Contains(NatToString(h), sep)
  {
    ContainsChar(NatToString(h), sep[0]);
    assert [sep[0]] == sep;
  }

  lemma {:induction false} FromStringOfInts(s: string, sep: string, negative: bool, x: string, y: string, h: int, m: int)
    requires sep != "" && StartsWith(s, MINUS) == negative
    requires Split(s, sep) == [x, y] && ParseInt(x) == Some(h) && ParseInt(y) == Some(m)
    ensures FromString(s, sep) == Ok(if negative then -GetMinutes((Abs(h), m)) else GetMinutes((Abs(h), m)))
  {
    FromPartsOfInts(negative, x, y, h, m);
  }

  lemma {:induction false} FromPartsOfInts(negative: bool, x: string, y: string, h: int, m: int)
    requires ParseInt(x) == Some(h) && ParseInt(y) == Some(m)
    ensures FromParts(negative, [x, y]) == Ok(if negative then -GetMinutes((Abs(h), m)) else GetMinutes((Abs(h), m)))
  {
    assert [x, y][0] == x && [x, y][1] == y;
  }

  /** fromString on a text that splits into two integers, the first one negative exactly when the text starts with "-". */
  lemma {:induction false} FromStringOfParts(s: string, sep: string, negative: bool, x: string, y: string, h: nat, m: int)
    requires sep != "" && StartsWith(s, MINUS) == negative
    requires Split(s, sep) == [x, y]
    requires ParseInt(x) == Some(if negative then -(h as int) else h as int) && ParseInt(y) == Some(m)
    ensures FromString(s, sep) == Ok(if negative then -(60 * h + m) else 60 * h + m)
  {
    var hv: int := if negative then -(h as int) else h;
    FromStringOfInts(s, sep, negative, x, y, hv, m);
    var e1 := if negative then -GetMinutes((Abs(hv), m)) else GetMinutes((Abs(hv), m));
    assert e1 == if negative then -(60 * h + m) else 60 * h + m;
    assert FromString(s, sep) == Ok(e1);
  }

  lemma {:induction false} SignedTextSplits(negative: bool, h: nat, sep: string, y: string)
    requires HourSep(sep) && !Contains(y, sep)
    ensures Split(SignedText(negative, h, sep, y), sep) == [(if negative then MINUS else "") + NatToString(h), y]
    ensures StartsWith(SignedText(negative, h, sep, y), MINUS) == negative
  {
    var s := SignedText(negative, h, sep, y);
    var x := (if negative then MINUS else "") + NatToString(h);
    assert s == x + sep + y;
    SignedHoursValue(negative, h, sep);
    SplitAt(x, sep, y);
    assert s[0] == x[0];
    if !negative {
      assert x[0] == NatToString(h)[0];
    }
  }

  /** fromString reads the hours and the minutes of a signed text back. */
  lemma {:induction false} SignedTextReads(negative: bool, h: nat, sep: string, y: string, m: int)
    requires HourSep(sep) && !Contains(y, sep) && ParseInt(y) == Some(m)
    ensures FromString(SignedText(negative, h, sep, y), sep) == Ok(if negative then -(60 * h + m) else 60 * h + m)
  {
    SignedTextSplits(negative, h, sep, y);
    SignedHoursValue(negative, h, sep);
    FromStringOfParts(SignedText(negative, h, sep, y), sep, negative, (if negative then MINUS else "") + NatToString(h), y, h, m);
  }

  /** fromString reads back "h<sep>m", negating it when it starts with "-". */
  lemma {:induction false} FromStringOfText(negative: bool, h: nat, sep: string, m: int)
    requires HourSep(sep)
    ensures FromString(HourText(negative, h, sep, m), sep)
            == Ok(if negative then -(60 * h + m) else 60 * h + m)
  {
    IntTextAvoids(m, sep);
    ParseIntOfIntToString(m);
    SignedTextReads(negative, h, sep, IntToString(m), m);
  }

  /** fromString reads back the minutes formatDuration writes, whatever the separator fromString can split on. */
  lemma {:induction false} FormatDurationRoundTrip(minutes: int, sep: string, no: string)
    requires HourSep(sep)
    ensures FromString(FormatDuration(Some(minutes), sep, no), sep) == Ok(minutes)
  {
    var q, r := SplitSigned(minutes);
    FormatDurationIsSigned(minutes, sep, no, q, r);
    PaddedTextReads(minutes < 0, q, sep, r);
  }

  /** Whole hours and remaining minutes of a signed number of minutes. */
  lemma {:induction false} SplitSigned(minutes: int) returns (q: nat, r: nat)
    ensures Abs(minutes) == 60 * q + r && r < 60
    ensures (if minutes < 0 then -(60 * q + r) else 60 * q + r) == minutes
  {
    q, r := SplitHours(Abs(minutes));
  }

  /** Whole hours and remaining minutes of a number of minutes. */
  lemma {:induction false} SplitHours(n: nat) returns (q: nat, r: nat)
    ensures n == 60 * q + r && r < 60
  {
    q, r := n / 60, n % 60;
  }

  lemma {:induction false} FormatDurationIsSigned(minutes: int, sep: string, no: string, q: nat, r: nat)
    requires Abs(minutes) == 60 * q + r && r < 60
    ensures FormatDuration(Some(minutes), sep, no) == SignedText(minutes < 0, q, sep, ZFill2(r))
  {
    assert Abs(minutes) / 60 == q && Abs(minutes) % 60 == r;
  }

  lemma {:induction false} PaddedTextReads(negative: bool, q: nat, sep: string, r: nat)
    requires HourSep(sep) && r < 60
    ensures FromString(SignedText(negative, q, sep, ZFill2(r)), sep) == Ok(if negative then -(60 * q + r) else 60 * q + r)
  {
    var z := ZFill2(r);
    assert [sep[0]] == sep;
    DigitsAvoid(z, sep[0]);
    ParseIntOfDigits(z);
    SignedTextReads(negative, q, sep, z, r);
  }

  // ------------------------------------------------------------------------
  // Durations
  // ------------------------------------------------------------------------

  /** Hour.getDuration: minutes from start to end, end being on the next day when earlier. */
  function GetDuration(start: HourValue, end: HourValue): int
  {
    var minutes := end.1 - start.1;
    if minutes < 0 then
      var endHour := if end.0 == 0 then 23 else end.0 - 1;
      HourDifference(start.0, endHour) * 60 + minutes + 60
    else HourDifference(start.0, end.0) * 60 + minutes
  }

  /** The duration between two hours of the day is the forward distance on the clock. */
  lemma {:induction false} DurationInDay(start: HourValue, end: HourValue)
    requires InDay(start) && InDay(end)
    ensures 0 <= GetDuration(start, end) < DAY
    ensures GetDuration(start, end) == (GetMinutes(end) - GetMinutes(start)) % DAY
  {
    var d := GetDuration(start, end);
    var delta := GetMinutes(end) - GetMinutes(start);
    assert d == delta || d == delta + DAY;
  }

  /** Up to the end of the day (24, 0), the duration of an ordered pair is the difference of their minutes. */
  lemma {:induction false} DurationOfOrdered(start: HourValue, end: HourValue)
    requires InDay(start) && DayBound(end) && Le(start, end)
    ensures GetDuration(start, end) == GetMinutes(end) - GetMinutes(start)
  {
  }

  // ------------------------------------------------------------------------
  // Day ranges and intersections
  // ------------------------------------------------------------------------

  /** A range of hours: (start, end). */
  type HourRange = (HourValue, HourValue)

  /** A range within one day: start of the day's hours, end up to (24, 0), start not after end. */
  predicate DayRange(r: HourRange) { InDay(r.0) && DayBound(r.1) && Le(r.0, r.1) }

  /** Hour.getRanges: one range when end (with (0, 0) read as (24, 0)) is not before start, else two split at midnight. */
  function GetRanges(start: HourValue, end: HourValue): (r: seq<HourRange>)
    ensures 1 <= |r| <= 2
  {
    var e := if end == MIDNIGHT then END_OF_DAY else end;
    if Le(start, e) then [(start, e)] else [(start, END_OF_DAY), (MIDNIGHT, e)]
  }

  /** The minutes a sequence of ranges covers. */
  function RangesLength(rs: seq<HourRange>): int
  {
    if rs == [] then 0 else GetMinutes(rs[0].1) - GetMinutes(rs[0].0) + RangesLength(rs[1..])
  }

  /**
   * getRanges of two hours of the day gives day ranges, a single one exactly
   * when end is not before start or is midnight, and together they cover the
   * duration from start to end (a whole day from midnight to midnight).
   */
  lemma {:induction false} GetRangesCover(start: HourValue, end: HourValue)
    requires InDay(start) && InDay(end)
    ensures forall k | 0 <= k < |GetRanges(start, end)| :: DayRange(GetRanges(start, end)[k])
    ensures |GetRanges(start, end)| == 1 <==> Le(start, end) || end == MIDNIGHT
    ensures RangesLength(GetRanges(start, end))
            == if start == MIDNIGHT && end == MIDNIGHT then DAY else GetDuration(start, end)
  {
    var rs := GetRanges(start, end);
    DurationInDay(start, end);
    OrderIsMinutes(start, end);
    var delta := GetMinutes(end) - GetMinutes(start);
    if |rs| == 2 {
      assert rs[1..][1..] == [];
      assert RangesLength(rs) == DAY - GetMinutes(start) + GetMinutes(end) + RangesLength(rs[1..][1..]);
      assert -DAY < delta < 0;
      assert delta % DAY == delta + DAY;
    } else {
      assert rs[1..] == [];
      if end == MIDNIGHT && start != MIDNIGHT {
        assert -DAY < delta < 0;
        assert delta % DAY == delta + DAY;
      }
    }
  }

  /** Hour.intersection with recurse=False: the minutes two day ranges share. */
  function DayIntersection(a: HourRange, b: HourRange): int
  {
    var (startA, endA) := a;
    var (startB, endB) := b;
    if Le(endA, startB) || Le(endB, startA) then 0
    else
      var start := if Lt(startB, startA) then startA else startB;
      var end := if Lt(endB, endA) then endB else endA;
      GetDuration(start, end)
  }

  function Max(a: int, b: int): int { if a < b then b else a }

  function Min(a: int, b: int): int { if a < b then a else b }

  /** Two day ranges share the minutes between the later start and the earlier end, if any. */
  lemma {:induction false} DayIntersectionIsOverlap(a: HourRange, b: HourRange)
    requires DayRange(a) && DayRange(b)
    ensures DayIntersection(a, b)
            == Max(0, Min(GetMinutes(a.1), GetMinutes(b.1)) - Max(GetMinutes(a.0), GetMinutes(b.0)))
  {
    OrderIsMinutes(a.1, b.0);
    OrderIsMinutes(b.1, a.0);
    OrderIsMinutes(a.0, b.0);
    OrderIsMinutes(a.1, b.1);
    var start := if Lt(b.0, a.0) then a.0 else b.0;
    var end := if Lt(b.1, a.1) then b.1 else a.1;
    if !(Le(a.1, b.0) || Le(b.1, a.0)) {
      OrderIsMinutes(start, end);
      DurationOfOrdered(start, end);
    }
  }

  /** The shared minutes of every day range of `as` with every day range of `bs`. */
  function SumIntersections(ras: seq<HourRange>, rbs: seq<HourRange>): int
  {
    if ras == [] then 0 else SumWith(ras[0], rbs) + SumIntersections(ras[1..], rbs)
  }

  function SumWith(a: HourRange, rbs: seq<HourRange>): int
  {
    if rbs == [] then 0 else DayIntersection(a, rbs[0]) + SumWith(a, rbs[1..])
  }

  /** Hour.intersection: the minutes common to two ranges, each split into its day ranges. */
  function Intersection(rangeA: HourRange, rangeB: HourRange): int
  {
    SumIntersections(GetRanges(rangeA.0, rangeA.1), GetRanges(rangeB.0, rangeB.1))
  }

  /** Two ranges within one day (end not earlier, and not midnight) where one ends before the other starts share nothing. */
  lemma {:induction false} DisjointIntersectionIsZero(a: HourRange, b: HourRange)
    requires InDay(a.0) && InDay(a.1) && Le(a.0, a.1) && a.1 != MIDNIGHT
    requires InDay(b.0) && InDay(b.1) && Le(b.0, b.1) && b.1 != MIDNIGHT
    requires Le(a.1, b.0) || Le(b.1, a.0)
    ensures Intersection(a, b) == 0
  {
    assert GetRanges(a.0, a.1) == [a];
    assert GetRanges(b.0, b.1) == [b];
    SingleRanges(a, b);
  }

  /** The intersection of two single day ranges is their day intersection. */
  lemma {:induction false} SingleRanges(a: HourRange, b: HourRange)
    ensures SumIntersections([a], [b]) == DayIntersection(a, b)
  {
    assert [a][1..] == [] && [b][1..] == [];
    assert SumWith(a, [b]) == DayIntersection(a, b) + SumWith(a, []);
  }

  /** A range within one day shares all its minutes with itself. */
  lemma {:induction false} SelfIntersectionIsDuration(a: HourRange)
    requires InDay(a.0) && InDay(a.1) && Lt(a.0, a.1)
    ensures Intersection(a, a) == GetDuration(a.0, a.1)
  {
    OrderIsMinutes(a.0, a.1);
    assert a.1 != MIDNIGHT;
    assert GetRanges(a.0, a.1) == [a];
    SingleRanges(a, a);
    DayIntersectionIsOverlap(a, a);
    DurationOfOrdered(a.0, a.1);
  }

  // ------------------------------------------------------------------------
  // In range
  // ------------------------------------------------------------------------

  /**
   * The two calls Hour.inRange makes when end is not after start, as written.
   * A call whose own end is not after its start calls itself again with the
   * same arguments; None stands for that endless recursion.
   */
  function InRangeUpper(value: HourValue, start: HourValue): Option<bool>
  {
    // inRange(value, start, (23, 59))
    if Lt(start, (23, 59)) then Some(Le(start, value) && Le(value, (23, 59))) else None
  }

  function InRangeLower(value: HourValue, end: HourValue): Option<bool>
  {
    // inRange(value, (0, 0), end)
    if Lt(MIDNIGHT, end) then Some(Le(MIDNIGHT, value) && Le(value, end))
    else if Le(MIDNIGHT, value) && Le(value, (23, 59)) then Some(true)
    else None
  }

  /** Hour.inRange as written; None when it recurses forever. */
  function InRangeAsWritten(value: HourValue, start: HourValue, end: HourValue): Option<bool>
  {
    if Lt(start, end) then Some(Le(start, value) && Le(value, end))
    else
      match InRangeUpper(value, start)
      case None => None
      case Some(true) => Some(true)
      case Some(false) => InRangeLower(value, end)
  }

  /** Hour.inRange as evidently intended: a range whose end is not after its start goes through midnight. */
  function InRange(value: HourValue, start: HourValue, end: HourValue): bool
  {
    if Lt(start, end) then Le(start, value) && Le(value, end)
    else Le(start, value) || Le(value, end)
  }

  /** A night range starting at 23:59 makes the written inRange recurse forever. */
  lemma {:induction false} InRangeAsWrittenLoops(value: HourValue, end: HourValue)
    requires Le(end, (23, 59))
    ensures InRangeAsWritten(value, (23, 59), end) == None
    ensures InRange((23, 59), (23, 59), end)
  {
  }

  /**
   * As written, a range ending at midnight holds every hour of the day, as
   * the second call inRange(value, (0, 0), (0, 0)) is the whole day.
   */
  lemma {:induction false} InRangeAsWrittenToMidnight(value: HourValue, start: HourValue)
    requires InDay(value) && InDay(start) && Lt(start, (23, 59))
    ensures InRangeAsWritten(value, start, MIDNIGHT) == Some(true)
  {
  }

  /** 05:00 is in the written range from 10:00 to midnight, not in the intended one. */
  lemma {:induction false} InRangeAsWrittenMidnightCounterexample()
    ensures InRangeAsWritten((5, 0), (10, 0), MIDNIGHT) == Some(true)
    ensures !InRange((5, 0), (10, 0), MIDNIGHT)
  {
  }

  /**
   * On hours of the day, the intended inRange holds exactly when value is at
   * most as far from start, forward on the clock, as end is.
   */
  lemma {:induction false} InRangeIsDuration(value: HourValue, start: HourValue, end: HourValue)
    requires InDay(value) && InDay(start) && InDay(end) && start != end
    ensures InRange(value, start, end) <==> GetDuration(start, value) <= GetDuration(start, end)
  {
    var s, v, e := GetMinutes(start), GetMinutes(value), GetMinutes(end);
    assert GetDuration(start, value) == (v - s) % DAY by { DurationInDay(start, value); }
    assert GetDuration(start, end) == (e - s) % DAY by { DurationInDay(start, end); }
    assert InRange(value, start, end) == if s < e then s <= v <= e else s <= v || v <= e by {
      OrderIsMinutes(start, end);
      OrderIsMinutes(start, value);
      OrderIsMinutes(value, end);
    }
    assert 0 <= s < DAY && 0 <= v < DAY && 0 <= e < DAY && s != e by {
      OrderIsMinutes(start, end);
    }
    ForwardDistance(s, v, e);
  }

  /** On the minutes of a day, the forward distance from s orders v before e exactly when v lies on the way from s to e. */
  lemma {:induction false} ForwardDistance(s: int, v: int, e: int)
    requires 0 <= s < DAY && 0 <= v < DAY && 0 <= e < DAY && s != e
    ensures (if s < e then s <= v <= e else s <= v || v <= e) <==> (v - s) % DAY <= (e - s) % DAY
  {
    ModDay(v - s);
    ModDay(e - s);
  }

  /** A difference of two minutes of the day, taken modulo a day. */
  lemma {:induction false} ModDay(x: int)
    requires -DAY < x < DAY
    ensures x % DAY == if x < 0 then x + DAY else x
  {
    if x < 0 {
      DivModUnique(x, DAY, -1, x + DAY);
    } else {
      DivModUnique(x, DAY, 0, x);
    }
  }

  /**
   * On hours of the day, the written inRange agrees with the intended one
   * whenever start is before 23:59 and end is not midnight.
   */
  lemma {:induction false} InRangeAgrees(value: HourValue, start: HourValue, end: HourValue)
    requires InDay(value) && InDay(start) && InDay(end) && Lt(start, (23, 59)) && end != MIDNIGHT
    ensures InRangeAsWritten(value, start, end) == Some(InRange(value, start, end))
  {
  }

  // ------------------------------------------------------------------------
  // The field's form value
  // ------------------------------------------------------------------------

  /**
   * Hour.getRequestValue from the request's hour and minute parts (a missing
   * part is ""): None when both are empty, else the parts joined by ":".
   */
  function GetRequestValue(hourPart: string, minutePart: string): (r: Option<string>)
    ensures r.None? <==> hourPart == "" && minutePart == ""
    ensures r.Some? ==> r.value == hourPart + COLON + minutePart
  {
    var parts := [hourPart, minutePart];
    var empty := hourPart == "" && minutePart == "";
    if empty then None
    else
      assert parts[1..] == [minutePart];
      assert Join(parts[1..], COLON) == minutePart;
      Some(Join(parts, COLON))
  }

  /** Hour.getStorableValue: an empty value is None, else the tuple of the ints between ":". */
  function GetStorableValue(value: string): (r: Result<Option<seq<int>>>)
    ensures r.Err? ==> r.error == VALUE_ERROR
    ensures value == "" <==> r == Ok(None)
  {
    if value == "" then Ok(None)
    else
      var parts := Split(value, COLON);
      if forall k | 0 <= k < |parts| :: ParseInt(parts[k]).Some? then
        Ok(Some(seq(|parts|, k requires 0 <= k < |parts| && ParseInt(parts[k]).Some? => ParseInt(parts[k]).value)))
      else Err(VALUE_ERROR)
  }

  /** Hour.validateValue: a value starting or ending with ":" misses a part. */
  function ValidateValue(value: string): (r: Option<string>)
    ensures r.Some? ==> r.value == FIELD_REQUIRED
  {
    if StartsWith(value, COLON) || EndsWith(value, COLON) then Some(FIELD_REQUIRED) else None
  }

  /** Two digit strings joined by ":" are stored as the tuple of their values. */
  lemma {:induction false} StorableOfDigits(a: string, b: string)
    requires IsDigits(a) && IsDigits(b)
    ensures GetStorableValue(a + COLON + b) == Ok(Some([DigitsValue(a) as int, DigitsValue(b) as int]))
  {
    DigitsAvoid(a, ':');
    DigitsAvoid(b, ':');
    SplitAt(a, COLON, b);
    ParseIntOfDigits(a);
    ParseIntOfDigits(b);
    var parts, values := [a, b], [DigitsValue(a) as int, DigitsValue(b) as int];
    forall k | 0 <= k < |parts| ensures ParseInt(parts[k]) == Some(values[k]) {
      if k == 0 { assert parts[k] == a; } else { assert parts[k] == b; }
    }
    StorableOfParts(a + COLON + b, parts, values);
  }

  /** A value whose every part between ":" is an int is stored as the tuple of those ints. */
  lemma {:induction false} StorableOfParts(value: string, parts: seq<string>, values: seq<int>)
    requires value != "" && Split(value, COLON) == parts && |parts| == |values|
    requires forall k | 0 <= k < |parts| :: ParseInt(parts[k]) == Some(values[k])
    ensures GetStorableValue(value) == Ok(Some(values))
  {
    var t := seq(|parts|, k requires 0 <= k < |parts| && ParseInt(parts[k]).Some? => ParseInt(parts[k]).value);
    assert t == values;
  }

  /** An hour chosen in both selects is stored as its (hours, minutes) tuple, and passes validation. */
  lemma {:induction false} RequestValueStored(h: nat, m: nat)
    requires h < 100 && m < 100
    ensures GetRequestValue(ZFill2(h), ZFill2(m)).Some?
    ensures GetStorableValue(GetRequestValue(ZFill2(h), ZFill2(m)).value) == Ok(Some([h, m]))
    ensures ValidateValue(GetRequestValue(ZFill2(h), ZFill2(m)).value).None?
  {
    var a, b := ZFill2(h), ZFill2(m);
    StorableOfDigits(a, b);
    MissingPartIff(a, b);
  }

  /** For digit parts, validation reports a missing part exactly when one of the two is empty. */
  lemma {:induction false} MissingPartIff(a: string, b: string)
    requires AllDigits(a) && AllDigits(b)
    ensures ValidateValue(a + COLON + b).Some? <==> a == "" || b == ""
  {
    if a == "" {
      LeadingColon(a, b);
    } else if b == "" {
      TrailingColon(a, b);
    } else {
      NoOuterColon(a, b);
    }
  }

  lemma {:induction false} LeadingColon(a: string, b: string)
    requires a == ""
    ensures StartsWith(a + COLON + b, COLON)
  {
    assert (a + COLON + b)[..1] == COLON;
  }

  lemma {:induction false} TrailingColon(a: string, b: string)
    requires b == ""
    ensures EndsWith(a + COLON + b, COLON)
  {
    var v := a + COLON + b;
    assert v[|v| - 1..] == COLON;
  }

  lemma {:induction false} NoOuterColon(a: string, b: string)
    requires AllDigits(a) && AllDigits(b) && a != "" && b != ""
    ensures !StartsWith(a + COLON + b, COLON) && !EndsWith(a + COLON + b, COLON)
  {
    var v := a + COLON + b;
    assert v[0] == a[0] && v[|v| - 1] == b[|b| - 1];
    assert v[..1] != COLON && v[|v| - 1..] != COLON;
  }
}
