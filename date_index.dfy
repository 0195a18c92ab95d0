/**
 * DateIndex: a date is indexed as one integer, its number of minutes in a
 * calendar where every year has 12 months of 31 days, so that the integer
 * order is the chronological order; a precision above one minute floors the
 * integer to a multiple of that precision. Dates are taken in UTC (the time
 * zone conversion of the DateTime library is not part of this model).
 */
module DateIndex {
  import opened Py

  /** The parts of a UTC DateTime, seconds aside. */
  datatype Date = Date(year: int, month: int, day: int, hours: int, minutes: int)

  /** What toIndexed is given: a falsy value, an int already indexed, a date or a list of values. */
  datatype Indexable = Falsy | Int(i: int) | ADate(d: Date) | Values(vs: seq<Indexable>)

  /** What toIndexed gives back: None, an int or a list of them. */
  datatype Indexed = NoIndex | Term(n: int) | Terms(ts: seq<Indexed>)

  /** A date the DateTime library can build: month 1..12, day 1..31, a time within the day. */
  predicate Valid(d: Date)
  {
    1 <= d.month <= 12 && 1 <= d.day <= 31 && 0 <= d.hours < 24 && 0 <= d.minutes < 60
  }

  /** The raw encoding (((y*12+m)*31+d)*24+h)*60+min. */
  function Encode(d: Date): int
  {
    (((d.year * 12 + d.month) * 31 + d.day) * 24 + d.hours) * 60 + d.minutes
  }

  /** The encoding floored to the field's indexPrecision, when that precision exceeds one minute. */
  function Floored(r: int, precision: int): (f: int)
    ensures precision > 1 ==> f % precision == 0 && f <= r < f + precision
    ensures precision <= 1 ==> f == r
  {
    if precision > 1 then
      FloorFacts(r, precision);
      r - r % precision
    else r
  }

  lemma {:induction false} FloorFacts(r: int, p: int)
    requires p > 1
    ensures (r - r % p) % p == 0 && r - r % p <= r < r - r % p + p
  {
    var q := r / p;
    assert r - r % p == q * p;
    DivExact(q * p, q, p);
  }

  /** DateIndex.toIndexed: falsy values (0 and the empty list included) give None, ints pass through, lists go element-wise. */
  function ToIndexed(value: Indexable, precision: int): (r: Indexed)
    ensures value.Falsy? || value == Int(0) || value == Values([]) ==> r == NoIndex
    ensures value.Int? && value.i != 0 ==> r == Term(value.i)
    ensures value.ADate? ==> r == Term(Floored(Encode(value.d), precision))
    ensures value.Values? && value.vs != [] ==>
              r.Terms? && |r.ts| == |value.vs|
              && forall k | 0 <= k < |value.vs| :: r.ts[k] == ToIndexed(value.vs[k], precision)
  {
    match value
    case Falsy => NoIndex
    case Int(i) => if i == 0 then NoIndex else Term(i)
    case ADate(d) => Term(Floored(Encode(d), precision))
    case Values(vs) =>
      if vs == [] then NoIndex
      else Terms(seq(|vs|, k requires 0 <= k < |vs| => ToIndexed(vs[k], precision)))
  }

  /** What toTerm is given: an int, a date string already turned into a date by DateTime, or a date. */
  datatype TermValue = IntTerm(i: int) | DateTerm(d: Date)

  /** DateIndex.toTerm: an int is kept as it is, a date is indexed. */
  function ToTerm(value: TermValue, precision: int): (r: Indexed)
    ensures value.IntTerm? ==> r == Term(value.i)
    ensures value.DateTerm? ==> r == ToIndexed(ADate(value.d), precision)
  {
    match value
    case IntTerm(i) => Term(i)
    case DateTerm(d) => ToIndexed(ADate(d), precision)
  }

  /** DateIndex.fromIndexed for one integer: the parts peeled off with Python's floor modulo, day 0 read as 31 and month 0 as 12. */
  function FromIndexed(value: int): Date
  {
    var minutes := value % 60;
    var v1 := (value - minutes) / 60;
    var hours := v1 % 24;
    var v2 := (v1 - hours) / 24;
    var day := if v2 % 31 == 0 then 31 else v2 % 31;
    var v3 := (v2 - day) / 31;
    var month := if v3 % 12 == 0 then 12 else v3 % 12;
    Date((v3 - month) / 12, month, day, hours, minutes)
  }

  /** A tuple of indexed values is decoded element by element. */
  function FromIndexedAll(values: seq<int>): (r: seq<Date>)
    ensures |r| == |values| && forall k | 0 <= k < |values| :: r[k] == FromIndexed(values[k])
  {
    seq(|values|, k requires 0 <= k < |values| => FromIndexed(values[k]))
  }

  lemma {:induction false} DivExact(a: int, q: int, n: int)
    requires n > 0 && a == q * n
    ensures a / n == q && a % n == 0
  {
    DivModUnique(a, n, q, 0);
  }

  /** Decoding an indexed date gives the date back, at full precision. */
  lemma {:induction false} FromIndexedEncode(d: Date)
    requires Valid(d)
    ensures FromIndexed(Encode(d)) == d
  {
    var ym := d.year * 12 + d.month;
    var days := ym * 31 + d.day;
    var hs := days * 24 + d.hours;
    var n := hs * 60 + d.minutes;
    DivModUnique(n, 60, hs, d.minutes);
    DivExact(n - d.minutes, hs, 60);
    DivModUnique(hs, 24, days, d.hours);
    DivExact(hs - d.hours, days, 24);
    if d.day == 31 {
      DivModUnique(days, 31, ym + 1, 0);
      assert days - 31 == ym * 31;
      DivExact(days - 31, ym, 31);
    } else {
      DivModUnique(days, 31, ym, d.day);
      DivExact(days - d.day, ym, 31);
    }
    if d.month == 12 {
      DivModUnique(ym, 12, d.year + 1, 0);
      assert ym - 12 == d.year * 12;
      DivExact(ym - 12, d.year, 12);
    } else {
      DivModUnique(ym, 12, d.year, d.month);
      DivExact(ym - d.month, d.year, 12);
    }
  }

  /** Chronological order on dates. */
  predicate Before(a: Date, b: Date)
  {
    a.year < b.year
    || (a.year == b.year && (a.month < b.month
    || (a.month == b.month && (a.day < b.day
    || (a.day == b.day && (a.hours < b.hours
    || (a.hours == b.hours && a.minutes < b.minutes)))))))
  }

  lemma {:induction false} MulMono(a: int, b: int, n: int)
    requires a < b && n > 0
    ensures a * n + n <= b * n
  {
    assert b * n - a * n == (b - a) * n;
    MulAtLeast(b - a, n);
  }

  /** The encoding keeps the chronological order: the index can answer date ranges with integer ranges. */
  lemma {:induction false} EncodeIsMonotonic(a: Date, b: Date)
    requires Valid(a) && Valid(b) && Before(a, b)
    ensures Encode(a) < Encode(b)
  {
    var ya, yb := a.year * 12 + a.month, b.year * 12 + b.month;
    if a.year < b.year {
      MulMono(a.year, b.year, 12);
    }
    assert ya <= yb;
    var da, db := ya * 31 + a.day, yb * 31 + b.day;
    if ya < yb {
      MulMono(ya, yb, 31);
    }
    assert da <= db;
    var ha, hb := da * 24 + a.hours, db * 24 + b.hours;
    if da < db {
      MulMono(da, db, 24);
    }
    assert ha <= hb;
    if ha < hb {
      MulMono(ha, hb, 60);
    }
  }

  /** With a precision, the indexed value of a later date is never below that of an earlier one. */
  lemma {:induction false} FlooredIsMonotonic(r1: int, r2: int, precision: int)
    requires r1 <= r2
    ensures Floored(r1, precision) <= Floored(r2, precision)
  {
    if precision > 1 {
      var f1, f2 := Floored(r1, precision), Floored(r2, precision);
      if f1 > f2 {
        var q1, q2 := f1 / precision, f2 / precision;
        assert f1 == q1 * precision && f2 == q2 * precision;
        MulMono(q2, q1, precision);
      }
    }
  }
}
