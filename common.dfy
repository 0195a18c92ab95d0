/**
 * Python semantics shared by every module of the model: optional values,
 * results standing for the exceptions the source raises, and the few `int`
 * and `str` builtins the Appy code relies on. Digits are the ASCII digits
 * '0'..'9'; whitespace is exactly the set Python's `str.isspace` accepts.
 */
module Py {

  datatype Option<+T> = None | Some(value: T)

  /** A computation that either yields a value or raises (the message names the error). */
  datatype Result<+T> = Ok(value: T) | Err(error: string)

  // ------------------------------------------------------------------------
  // Integers
  // ------------------------------------------------------------------------

  /** Python's `a % b`: the remainder of floor division, with the sign of `b`. */
  function Mod(a: int, b: int): (r: int)
    requires b != 0
    ensures b > 0 ==> 0 <= r < b && r == a % b
    ensures b < 0 ==> b < r <= 0 && (r == 0 <==> a % (-b) == 0)
  {
    if b > 0 then a % b
    else
      var e := a % (-b);
      if e == 0 then 0 else e + b
  }

  /** Python's `int(a / b)` for ints: true division truncated toward zero. */
  function TruncDiv(a: int, b: int): (q: int)
    requires b > 0
    ensures a >= 0 ==> q == a / b
    ensures a < 0 ==> q == -((-a) / b)
  {
    if a >= 0 then a / b else -((-a) / b)
  }

  lemma {:induction false} MulAtLeast(a: int, n: int)
    requires a >= 1 && n > 0
    ensures a * n >= n
  {
    var k := a - 1;
    assert a * n == k * n + n;
    assert k * n >= 0;
  }

  /** The quotient and remainder of a Euclidean division are the only ones with a remainder in range. */
  lemma {:induction false} DivModUnique(m: int, n: int, q: int, r: int)
    requires n > 0 && m == q * n + r && 0 <= r < n
    ensures m / n == q && m % n == r
  {
    var q0, r0 := m / n, m % n;
    assert m == q0 * n + r0;
    assert (q - q0) * n == q * n - q0 * n;
    if q > q0 {
      MulAtLeast(q - q0, n);
    } else if q < q0 {
      MulAtLeast(q0 - q, n);
    }
  }

  function Abs(a: int): (r: nat)
    ensures r == a || r == -a
  {
    if a < 0 then -a else a
  }

  // ------------------------------------------------------------------------
  // Characters
  // ------------------------------------------------------------------------

  predicate IsDigit(c: char) { '0' <= c <= '9' }

  predicate IsAsciiUpper(c: char) { 'A' <= c <= 'Z' }

  predicate IsAsciiLower(c: char) { 'a' <= c <= 'z' }

  predicate IsAsciiLetter(c: char) { IsAsciiUpper(c) || IsAsciiLower(c) }

  predicate IsAsciiAlnum(c: char) { IsAsciiLetter(c) || IsDigit(c) }

  /** Python's `str.isspace` for one character. */
  predicate IsSpace(c: char)
  {
    var k := c as int;
    k == 32 || 9 <= k <= 13 || 28 <= k <= 31 || k == 0x85 || k == 0xA0
    || k == 0x1680 || 0x2000 <= k <= 0x200A || k == 0x2028 || k == 0x2029
    || k == 0x202F || k == 0x205F || k == 0x3000
  }

  /** `c.upper()` for ASCII letters; other characters are left unchanged. */
  function Upper(c: char): (r: char)
    ensures IsAsciiLower(c) ==> IsAsciiUpper(r)
    ensures !IsAsciiLower(c) ==> r == c
  {
    if IsAsciiLower(c) then (c as int - 32) as char else c
  }

  /** `c.lower()` for ASCII letters; other characters are left unchanged. */
  function Lower(c: char): (r: char)
    ensures IsAsciiUpper(c) ==> IsAsciiLower(r)
    ensures !IsAsciiUpper(c) ==> r == c
  {
    if IsAsciiUpper(c) then (c as int + 32) as char else c
  }

  // ------------------------------------------------------------------------
  // Decimal digits, str(int) and int(str)
  // ------------------------------------------------------------------------

  /** `s.isdigit()` (ASCII digits only). */
  predicate IsDigits(s: string)
  {
    |s| > 0 && forall i | 0 <= i < |s| :: IsDigit(s[i])
  }

  predicate AllDigits(s: string)
  {
    forall i | 0 <= i < |s| :: IsDigit(s[i])
  }

  /** The number a string of decimal digits denotes. */
  function DigitsValue(s: string): nat
    requires AllDigits(s)
  {
    if s == [] then 0
    else DigitsValue(s[..|s| - 1]) * 10 + (s[|s| - 1] as int - '0' as int)
  }

  function DigitChar(d: nat): (c: char)
    requires d < 10
    ensures IsDigit(c) && c as int - '0' as int == d
  {
    (d + '0' as int) as char
  }

  /** `str(n)` for a natural number: its shortest decimal representation. */
  function NatToString(n: nat): (r: string)
    ensures IsDigits(r)
    ensures |r| > 1 ==> r[0] != '0'
  {
    if n < 10 then [DigitChar(n)] else NatToString(n / 10) + [DigitChar(n % 10)]
  }

  /** `str(i)` / `'%d' % i` for an integer. */
  function IntToString(i: int): (r: string)
    ensures |r| > 0
  {
    if i < 0 then MINUS + NatToString(-i) else NatToString(i)
  }

  const MINUS := "-"
  /** The separator `" ".join` uses. */
  const SPACE := " "

  lemma {:induction false} NatToStringValue(n: nat)
    ensures DigitsValue(NatToString(n)) == n
  {
    if n >= 10 {
      NatToStringValue(n / 10);
      var s := NatToString(n);
      assert s[..|s| - 1] == NatToString(n / 10);
    }
  }

  /** A run of digits where single underscores may separate digits (`1_000`). */
  predicate IsIntLiteral(s: string)
  {
    |s| > 0 && IsDigit(s[0]) && IsDigit(s[|s| - 1])
    && (forall i | 0 <= i < |s| :: IsDigit(s[i]) || s[i] == '_')
    && NoDoubleUnderscore(s)
  }

  /** No two consecutive underscores. */
  predicate NoDoubleUnderscore(s: string)
    decreases |s|
  {
    |s| < 2 || (!(s[0] == '_' && s[1] == '_') && NoDoubleUnderscore(s[1..]))
  }

  lemma {:induction false} DigitsHaveNoDoubleUnderscore(s: string)
    requires AllDigits(s)
    ensures NoDoubleUnderscore(s)
    decreases |s|
  {
    if |s| >= 2 {
      DigitsHaveNoDoubleUnderscore(s[1..]);
    }
  }

  function DropUnderscores(s: string): (r: string)
    requires forall i | 0 <= i < |s| :: IsDigit(s[i]) || s[i] == '_'
    ensures AllDigits(r)
  {
    if s == [] then []
    else if s[0] == '_' then DropUnderscores(s[1..])
    else [s[0]] + DropUnderscores(s[1..])
  }

  lemma {:induction false} DropUnderscoresOfDigits(s: string)
    requires AllDigits(s)
    ensures DropUnderscores(s) == s
  {
    if s != [] {
      DropUnderscoresOfDigits(s[1..]);
    }
  }

  /** Python's `int(s)` on a str: surrounding whitespace, one optional sign, decimal digits. */
  function ParseInt(s: string): (r: Option<int>)
  {
    ParseStripped(Strip(s))
  }

  /** `int` on a text without surrounding whitespace. */
  function ParseStripped(t: string): (r: Option<int>)
  {
    if |t| > 0 && (t[0] == '-' || t[0] == '+') then
      var body := t[1..];
      if IsIntLiteral(body) then
        var v: int := DigitsValue(DropUnderscores(body));
        Some(if t[0] == '-' then -v else v)
      else None
    else if IsIntLiteral(t) then Some(DigitsValue(DropUnderscores(t)))
    else None
  }

  lemma {:induction false} DigitsHaveNoSpace(s: string)
    requires AllDigits(s)
    ensures forall i | 0 <= i < |s| :: !IsSpace(s[i])
  {
  }

  /** `int(s)` reads back what `str(i)` writes. */
  lemma {:induction false} ParseIntOfIntToString(i: int)
    ensures ParseInt(IntToString(i)) == Some(i)
  {
    if i >= 0 {
      ParseIntOfNonNeg(i);
    } else {
      ParseIntOfNeg(i);
    }
  }

  lemma {:induction false} ParseIntOfNonNeg(i: int)
    requires i >= 0
    ensures ParseInt(IntToString(i)) == Some(i)
  {
    ParseIntOfNat(i);
  }

  lemma {:induction false} ParseIntOfNeg(i: int)
    requires i < 0
    ensures ParseInt(IntToString(i)) == Some(i)
  {
    var n: nat := -i;
    var s := MINUS + NatToString(n);
    assert IntToString(i) == s;
    assert ParseInt(s) == Some(-(n as int)) by { ParseIntOfNegNat(n); }
  }

  /** `int(str(n))` for a natural number `n`. */
  lemma {:induction false} ParseIntOfNat(n: nat)
    ensures ParseInt(NatToString(n)) == Some(n as int)
  {
    var d := NatToString(n);
    assert DigitsValue(d) == n by { NatToStringValue(n); }
    assert ParseInt(d) == Some(DigitsValue(d) as int) by { ParseIntOfDigits(d); }
  }

  /** `int("-" + str(n))` for a natural number `n`. */
  lemma {:induction false} ParseIntOfNegNat(n: nat)
    ensures ParseInt(MINUS + NatToString(n)) == Some(-(n as int))
  {
    var d := NatToString(n);
    NatToStringValue(n);
    ParseIntOfNegDigits(d);
  }

  /** `int("-" + d)` for a digit string `d` is minus its value (also for "-0"). */
  lemma {:induction false} ParseIntOfNegDigits(d: string)
    requires IsDigits(d)
    ensures ParseInt(MINUS + d) == Some(-(DigitsValue(d) as int))
  {
    StripOfSigned(d);
    ParseStrippedOfNeg(d);
  }

  lemma {:induction false} ParseStrippedOfNeg(d: string)
    requires IsDigits(d)
    ensures ParseStripped(MINUS + d) == Some(-(DigitsValue(d) as int))
  {
    SignedText(d);
    DigitsAreLiteral(d);
    ParseStrippedOfSign(MINUS + d, d);
  }

  lemma {:induction false} ParseStrippedOfSign(t: string, body: string)
    requires |t| > 0 && t[0] == '-' && t[1..] == body
    requires IsIntLiteral(body) && AllDigits(body) && DropUnderscores(body) == body
    ensures ParseStripped(t) == Some(-(DigitsValue(body) as int))
  {
  }

  lemma {:induction false} SignedText(d: string)
    ensures |MINUS + d| > 0 && (MINUS + d)[0] == '-' && (MINUS + d)[1..] == d
  {
  }

  lemma {:induction false} DigitsAreLiteral(d: string)
    requires IsDigits(d)
    ensures IsIntLiteral(d) && DropUnderscores(d) == d
  {
    DigitsHaveNoDoubleUnderscore(d);
    DropUnderscoresOfDigits(d);
  }

  lemma {:induction false} StripOfSigned(d: string)
    requires IsDigits(d)
    ensures Strip(MINUS + d) == MINUS + d
  {
    var s := MINUS + d;
    DigitsHaveNoSpace(d);
    assert forall k | 1 <= k < |s| :: s[k] == d[k - 1];
    StripOfNoSpace(s);
  }

  /** `int(s)` agrees with the value of a plain digit string. */
  lemma {:induction false} ParseIntOfDigits(s: string)
    requires IsDigits(s)
    ensures ParseInt(s) == Some(DigitsValue(s) as int)
  {
    DigitsHaveNoSpace(s);
    StripOfNoSpace(s);
    DigitsAreLiteral(s);
  }

  /** `'%s' % i` padded on the left with zeros to two characters, as `str(i).zfill(2)`. */
  function ZFill2(i: nat): (r: string)
    ensures |r| >= 2 && IsDigits(r)
    ensures i < 100 ==> |r| == 2 && DigitsValue(r) == i
  {
    var s := NatToString(i);
    NatToStringValue(i);
    if |s| >= 2 then
      assert i >= 10;
      s
    else
      var r := "0" + s;
      assert r[..1] == "0" && r[..|r| - 1] == "0";
      assert DigitsValue("0") == 0 by { assert "0"[..0] == ""; }
      r
  }

  // ------------------------------------------------------------------------
  // Stripping
  // ------------------------------------------------------------------------

  /** `s.lstrip()`: the suffix left once the leading whitespace is dropped. */
  function LStrip(s: string): (r: string)
    ensures |r| <= |s|
    ensures r == [] || !IsSpace(r[0])
  {
    if |s| > 0 && IsSpace(s[0]) then LStrip(s[1..]) else s
  }

  /** What `lstrip` drops is whitespace, and what it keeps is a suffix. */
  lemma {:induction false} LStripShape(s: string)
    ensures LStrip(s) == s[|s| - |LStrip(s)|..]
    ensures forall i | 0 <= i < |s| - |LStrip(s)| :: IsSpace(s[i])
    decreases |s|
  {
    if |s| > 0 && IsSpace(s[0]) {
      var t := s[1..];
      LStripShape(t);
      assert LStrip(s) == LStrip(t);
      assert t[|t| - |LStrip(t)|..] == s[|s| - |LStrip(s)|..];
      forall i | 0 <= i < |s| - |LStrip(s)| ensures IsSpace(s[i]) {
        if i > 0 {
          assert s[i] == t[i - 1];
        }
      }
    }
  }

  /** `s.rstrip()`: the prefix left once the trailing whitespace is dropped. */
  function RStrip(s: string): (r: string)
    ensures |r| <= |s|
    ensures r == [] || !IsSpace(r[|r| - 1])
  {
    if |s| > 0 && IsSpace(s[|s| - 1]) then RStrip(s[..|s| - 1]) else s
  }

  /** What `rstrip` drops is whitespace, and what it keeps is a prefix. */
  lemma {:induction false} RStripShape(s: string)
    ensures RStrip(s) == s[..|RStrip(s)|]
    ensures forall i | |RStrip(s)| <= i < |s| :: IsSpace(s[i])
    decreases |s|
  {
    if |s| > 0 && IsSpace(s[|s| - 1]) {
      var t := s[..|s| - 1];
      RStripShape(t);
      assert RStrip(s) == RStrip(t);
      assert t[..|RStrip(t)|] == s[..|RStrip(s)|];
      forall i | |RStrip(s)| <= i < |s| ensures IsSpace(s[i]) {
        if i < |s| - 1 {
          assert s[i] == t[i];
        }
      }
    }
  }

  /** `s.strip()` */
  function Strip(s: string): string
  {
    RStrip(LStrip(s))
  }

  /** A blank text strips to nothing. */
  lemma {:induction false} BlankStrips(s: string)
    requires forall i | 0 <= i < |s| :: IsSpace(s[i])
    ensures LStrip(s) == [] && Strip(s) == []
    decreases |s|
  {
    if s != [] {
      BlankStrips(s[1..]);
    }
  }

  lemma {:induction false} StripOfNoSpace(s: string)
    requires forall i | 0 <= i < |s| :: !IsSpace(s[i])
    ensures Strip(s) == s
  {
  }

  // ------------------------------------------------------------------------
  // Searching, splitting and joining
  // ------------------------------------------------------------------------

  predicate StartsWith(s: string, p: string) { |p| <= |s| && s[..|p|] == p }

  predicate EndsWith(s: string, p: string) { |p| <= |s| && s[|s| - |p|..] == p }

  /** `sep` occurs in `s` at index `j`. */
  predicate OccursAt(s: string, sep: string, j: int)
  {
    0 <= j && j + |sep| <= |s| && s[j..j + |sep|] == sep
  }

  /** `s.find(sep)`: the first index where `sep` occurs, if any. */
  function Find(s: string, sep: string): (r: Option<nat>)
    requires |sep| > 0
    ensures r.Some? ==> OccursAt(s, sep, r.value)
    ensures r.Some? ==> forall j | 0 <= j < r.value :: !OccursAt(s, sep, j)
    ensures r.None? ==> forall j | 0 <= j :: !OccursAt(s, sep, j)
    decreases |s|
  {
    if |s| < |sep| then None
    else if s[..|sep|] == sep then Some(0)
    else
      OccursInTail(s, sep);
      match Find(s[1..], sep)
      case None => None
      case Some(k) => Some(k + 1)
  }

  /** Past its first character, `sep` occurs in `s` where it occurs in `s[1..]`, one further on. */
  lemma {:induction false} OccursInTail(s: string, sep: string)
    requires |s| > 0
    ensures forall j | 1 <= j :: OccursAt(s, sep, j) == OccursAt(s[1..], sep, j - 1)
  {
    forall j | 1 <= j ensures OccursAt(s, sep, j) == OccursAt(s[1..], sep, j - 1) {
      if j + |sep| <= |s| {
        var a := s[j..j + |sep|];
        var b := s[1..][j - 1..j - 1 + |sep|];
        assert forall i | 0 <= i < |sep| :: a[i] == b[i];
        assert a == b;
      }
    }
  }

  /** `sep in s` */
  predicate Contains(s: string, sep: string)
    requires |sep| > 0
  {
    Find(s, sep).Some?
  }

  /** `s.split(sep)` */
  function Split(s: string, sep: string): (r: seq<string>)
    requires |sep| > 0
    ensures |r| > 0
    decreases |s|
  {
    match Find(s, sep)
    case None => [s]
    case Some(i) => [s[..i]] + Split(s[i + |sep|..], sep)
  }

  /** `s.split(sep, 1)` */
  function SplitOnce(s: string, sep: string): (r: seq<string>)
    requires |sep| > 0
    ensures |r| == 1 || |r| == 2
    ensures |r| == 1 <==> !Contains(s, sep)
    ensures |r| == 1 ==> r[0] == s
    ensures |r| == 2 ==> s == r[0] + sep + r[1] && !Contains(r[0], sep)
  {
    match Find(s, sep)
    case None => [s]
    case Some(i) =>
      var r := [s[..i], s[i + |sep|..]];
      assert s == r[0] + sep + r[1] by {
        assert s == s[..i] + s[i..i + |sep|] + s[i + |sep|..];
      }
      NoEarlierOccurrence(s, sep, i);
      r
  }

  lemma {:induction false} NoEarlierOccurrence(s: string, sep: string, i: nat)
    requires |sep| > 0 && i <= |s|
    requires forall j | 0 <= j < i :: !OccursAt(s, sep, j)
    ensures !Contains(s[..i], sep)
  {
    if Find(s[..i], sep).Some? {
      var j := Find(s[..i], sep).value;
      assert s[..i][j..j + |sep|] == s[j..j + |sep|];
      assert OccursAt(s, sep, j);
    }
  }

  /** For a one-character separator, `sep in s` is membership of that character. */
  lemma {:induction false} ContainsChar(s: string, c: char)
    ensures Contains(s, [c]) <==> c in s
  {
    if c in s {
      var j :| 0 <= j < |s| && s[j] == c;
      assert OccursAt(s, [c], j);
    }
    if Contains(s, [c]) {
      var j := Find(s, [c]).value;
      assert s[j..j + 1] == [c];
      assert s[j] == c;
    }
  }

  /** Digit strings contain no character other than digits. */
  lemma {:induction false} DigitsAvoid(s: string, c: char)
    requires AllDigits(s) && !IsDigit(c)
    ensures !Contains(s, [c])
  {
    ContainsChar(s, c);
  }

  /** `(x + sep + y).split(sep, 1)` is `[x, y]` when `x` has no `sep` (a one-character separator). */
  lemma {:induction false} SplitOnceAt(x: string, sep: string, y: string)
    requires |sep| == 1 && !Contains(x, sep)
    ensures SplitOnce(x + sep + y, sep) == [x, y]
  {
    var s := x + sep + y;
    assert OccursAt(s, sep, |x|) by { assert s[|x|..|x| + |sep|] == sep; }
    var i := Find(s, sep).value;
    if i < |x| {
      FirstOccurrenceInPrefix(s, sep, x, i);
      assert false;
    }
    assert i == |x|;
    assert s[..i] == x;
    assert s[i + |sep|..] == y;
  }

  lemma {:induction false} FirstOccurrenceInPrefix(s: string, sep: string, x: string, i: nat)
    requires |sep| > 0 && !Contains(x, sep) && |x| <= |s| && s[..|x|] == x
    requires i < |x| && OccursAt(s, sep, i)
    requires forall j | 0 <= j < i :: !OccursAt(s, sep, j)
    ensures i + |sep| > |x|
  {
    if i + |sep| <= |x| {
      assert x[i..i + |sep|] == s[i..i + |sep|];
      assert OccursAt(x, sep, i);
    }
  }

  /** `(x + sep + y).split(sep)` is `[x, y]` when neither part has `sep`. */
  lemma {:induction false} SplitAt(x: string, sep: string, y: string)
    requires |sep| == 1 && !Contains(x, sep) && !Contains(y, sep)
    ensures Split(x + sep + y, sep) == [x, y]
  {
    SplitOnceAt(x, sep, y);
    var s := x + sep + y;
    var i := Find(s, sep).value;
    assert s[i + |sep|..] == y;
    SplitNoSep(y, sep);
  }

  /** `sep.join(parts)` */
  function Join(parts: seq<string>, sep: string): string
  {
    if |parts| == 0 then ""
    else if |parts| == 1 then parts[0]
    else parts[0] + sep + Join(parts[1..], sep)
  }

  /** Joining what `split` produced gives the original string back. */
  lemma {:induction false} JoinSplit(s: string, sep: string)
    requires |sep| > 0
    ensures Join(Split(s, sep), sep) == s
    decreases |s|
  {
    match Find(s, sep)
    case None =>
    case Some(i) =>
      var rest := s[i + |sep|..];
      JoinSplit(rest, sep);
      assert s == s[..i] + sep + rest by {
        assert s == s[..i] + s[i..i + |sep|] + s[i + |sep|..];
      }
  }

  /** No part `split` produces contains the separator. */
  lemma {:induction false} SplitPartsAvoidSep(s: string, sep: string)
    requires |sep| > 0
    ensures forall k | 0 <= k < |Split(s, sep)| :: !Contains(Split(s, sep)[k], sep)
    decreases |s|
  {
    match Find(s, sep)
    case None =>
    case Some(i) =>
      NoEarlierOccurrence(s, sep, i);
      SplitPartsAvoidSep(s[i + |sep|..], sep);
  }

  /** `split` of a string without the separator is that string alone. */
  lemma {:induction false} SplitNoSep(s: string, sep: string)
    requires |sep| > 0 && !Contains(s, sep)
    ensures Split(s, sep) == [s]
  {
  }

  /** `(x + sep + y).split(sep)` is `x` followed by the split of `y`, when `x` has no `sep`. */
  lemma {:induction false} SplitCons(x: string, sep: string, y: string)
    requires |sep| == 1 && !Contains(x, sep)
    ensures Split(x + sep + y, sep) == [x] + Split(y, sep)
  {
    SplitOnceAt(x, sep, y);
  }

  /** Splitting a join gives the parts back, when no part holds the (one-character) separator. */
  lemma {:induction false} SplitJoin(parts: seq<string>, sep: string)
    requires |sep| == 1 && |parts| > 0
    requires forall k | 0 <= k < |parts| :: !Contains(parts[k], sep)
    ensures Split(Join(parts, sep), sep) == parts
  {
    if |parts| == 1 {
      SplitNoSep(parts[0], sep);
    } else {
      SplitJoin(parts[1..], sep);
      SplitCons(parts[0], sep, Join(parts[1..], sep));
    }
  }

  /** A join of non-empty parts starts with the first part's first character and ends with the last part's last. */
  lemma {:induction false} JoinEnds(parts: seq<string>, sep: string)
    requires |parts| > 0 && forall k | 0 <= k < |parts| :: |parts[k]| > 0
    ensures |Join(parts, sep)| > 0
    ensures Join(parts, sep)[0] == parts[0][0]
    ensures Join(parts, sep)[|Join(parts, sep)| - 1] == parts[|parts| - 1][|parts[|parts| - 1]| - 1]
  {
    if |parts| > 1 {
      JoinEnds(parts[1..], sep);
    }
  }

  /** A non-empty sequence is its prefix followed by its last element. */
  lemma {:induction false} LastSplit<T>(s: seq<T>)
    requires s != []
    ensures s[..|s| - 1] + [s[|s| - 1]] == s
  {
  }

  /** Joining one more part appends the separator and that part. */
  lemma {:induction false} JoinSnoc(parts: seq<string>, sep: string, last: string)
    requires |parts| > 0
    ensures Join(parts + [last], sep) == Join(parts, sep) + sep + last
  {
    if |parts| == 1 {
      assert (parts + [last])[1..] == [last];
    } else {
      assert (parts + [last])[1..] == parts[1..] + [last];
      JoinSnoc(parts[1..], sep, last);
    }
  }

  /** A join of five parts, written out. */
  lemma {:induction false} Join4(ws: seq<string>, sep: string)
    requires |ws| == 4
    ensures Join(ws, sep) == ws[0] + sep + ws[1] + sep + ws[2] + sep + ws[3]
  {
    assert Join(ws[2..], sep) == ws[2] + sep + ws[3] by {
      assert ws[2..][1..] == [ws[3]];
    }
    assert Join(ws[1..], sep) == ws[1] + sep + ws[2] + sep + ws[3] by {
      assert ws[1..][1..] == ws[2..];
    }
  }

  lemma {:induction false} Join5(ws: seq<string>, sep: string)
    requires |ws| == 5
    ensures Join(ws, sep) == ws[0] + sep + ws[1] + sep + ws[2] + sep + ws[3] + sep + ws[4]
  {
    assert Join(ws[3..], sep) == ws[3] + sep + ws[4] by {
      assert ws[3..][1..] == [ws[4]];
    }
    assert Join(ws[2..], sep) == ws[2] + sep + ws[3] + sep + ws[4] by {
      assert ws[2..][1..] == ws[3..];
    }
    assert Join(ws[1..], sep) == ws[1] + sep + ws[2] + sep + ws[3] + sep + ws[4] by {
      assert ws[1..][1..] == ws[2..];
    }
  }

  /** `strip()` leaves alone a string whose ends are not whitespace. */
  lemma {:induction false} StripOfTrimmed(s: string)
    requires |s| > 0 && !IsSpace(s[0]) && !IsSpace(s[|s| - 1])
    ensures Strip(s) == s
  {
  }

  /** The longest prefix of `s` without whitespace. */
  function Word(s: string): (w: string)
    ensures |w| <= |s| && w == s[..|w|]
    ensures forall i | 0 <= i < |w| :: !IsSpace(w[i])
    ensures |w| < |s| ==> IsSpace(s[|w|])
    ensures |s| > 0 && !IsSpace(s[0]) ==> |w| > 0
  {
    if |s| == 0 || IsSpace(s[0]) then "" else [s[0]] + Word(s[1..])
  }

  /** A non-empty string without whitespace. */
  predicate IsWord(w: string)
  {
    |w| > 0 && forall i | 0 <= i < |w| :: !IsSpace(w[i])
  }

  /** `s.split()`: the maximal runs of non-whitespace characters, in order. */
  function SplitWs(s: string): (r: seq<string>)
    ensures forall k | 0 <= k < |r| :: IsWord(r[k])
    decreases |s|
  {
    var t := LStrip(s);
    if t == [] then []
    else
      var w := Word(t);
      var rest := SplitWs(t[|w|..]);
      WordsCons(w, rest);
      [w] + rest
  }

  lemma {:induction false} WordsCons(w: string, rest: seq<string>)
    requires |w| > 0 && forall i | 0 <= i < |w| :: !IsSpace(w[i])
    requires forall k | 0 <= k < |rest| :: IsWord(rest[k])
    ensures forall k | 0 <= k < |[w] + rest| :: IsWord(([w] + rest)[k])
  {
    forall k | 0 <= k < |[w] + rest| ensures IsWord(([w] + rest)[k]) {
      if k > 0 {
        assert ([w] + rest)[k] == rest[k - 1];
      }
    }
  }

  lemma {:induction false} SplitWsOfWord(s: string)
    requires IsWord(s)
    ensures SplitWs(s) == [s]
  {
    assert Word(s) == s;
    assert s[|s|..] == [];
  }

  /** str.split() of words joined by single spaces gives the words back. */
  lemma {:induction false} SplitWsJoin(ws: seq<string>)
    requires forall k | 0 <= k < |ws| :: IsWord(ws[k])
    ensures SplitWs(Join(ws, SPACE)) == ws
  {
    if |ws| == 1 {
      SplitWsOfWord(ws[0]);
    } else if |ws| > 1 {
      AllWordsTail(ws);
      SplitWsJoin(ws[1..]);
      SplitWsJoinStep(ws);
    }
  }

  lemma {:induction false} AllWordsTail(ws: seq<string>)
    requires |ws| > 0 && forall k | 0 <= k < |ws| :: IsWord(ws[k])
    ensures forall k | 0 <= k < |ws[1..]| :: IsWord(ws[1..][k])
  {
    forall k | 0 <= k < |ws[1..]| ensures IsWord(ws[1..][k]) {
      assert ws[1..][k] == ws[k + 1];
    }
  }

  lemma {:induction false} SplitWsJoinStep(ws: seq<string>)
    requires |ws| > 1 && IsWord(ws[0]) && SplitWs(Join(ws[1..], SPACE)) == ws[1..]
    ensures SplitWs(Join(ws, SPACE)) == ws
  {
    JoinCons(ws, SPACE);
    SplitWsStep(ws[0], Join(ws[1..], SPACE), ws[1..]);
    SeqCons(ws);
  }

  lemma {:induction false} JoinCons(ws: seq<string>, sep: string)
    requires |ws| > 1
    ensures Join(ws, sep) == ws[0] + sep + Join(ws[1..], sep)
  {
  }

  lemma {:induction false} SeqCons<T>(s: seq<T>)
    requires |s| > 0
    ensures [s[0]] + s[1..] == s
  {
  }

  lemma {:induction false} SplitWsStep(w: string, rest: string, tail: seq<string>)
    requires IsWord(w) && SplitWs(rest) == tail
    ensures SplitWs(w + SPACE + rest) == [w] + tail
  {
    SplitWsCons(w, rest);
  }

  lemma {:induction false} SplitWsCons(w: string, rest: string)
    requires IsWord(w)
    ensures SplitWs(w + SPACE + rest) == [w] + SplitWs(rest)
  {
    var s := w + SPACE + rest;
    assert LStrip(s) == s;
    WordOfPrefix(w, SPACE + rest);
    assert s == w + (SPACE + rest);
    assert s[|w|..] == SPACE + rest;
    assert (SPACE + rest)[1..] == rest;
    assert LStrip(SPACE + rest) == LStrip(rest);
  }

  lemma {:induction false} WordOfPrefix(w: string, rest: string)
    requires forall i | 0 <= i < |w| :: !IsSpace(w[i])
    requires |rest| > 0 && IsSpace(rest[0])
    ensures Word(w + rest) == w
  {
    if |w| > 0 {
      assert (w + rest)[1..] == w[1..] + rest;
      WordOfPrefix(w[1..], rest);
    } else {
      assert w + rest == rest;
    }
  }

  // ------------------------------------------------------------------------
  // Sequences
  // ------------------------------------------------------------------------

  /** Concatenation of a sequence of sequences. */
  function Flatten<T>(ss: seq<seq<T>>): seq<T>
  {
    if ss == [] then [] else ss[0] + Flatten(ss[1..])
  }

  lemma {:induction false} FlattenAppend<T>(ss: seq<seq<T>>, s: seq<T>)
    ensures Flatten(ss + [s]) == Flatten(ss) + s
  {
    if ss != [] {
      assert (ss + [s])[1..] == ss[1..] + [s];
      FlattenAppend(ss[1..], s);
    } else {
      assert [s][1..] == [];
    }
  }

  /** Concatenation of the strings in `parts` (`''.join(parts)`). */
  function Concat(parts: seq<string>): string
  {
    Flatten(parts)
  }
}
