/**
 * The Appy job scheduler: cron-style time definitions ("m h dom mon dow"),
 * their parsing into time parts, the matching of a time definition against
 * the current local time, and the scheduler's once-per-minute job scan.
 */
module Scheduler {
  import opened Py

  const VALUE_ERROR := "ValueError"
  const MISSING_TIMEDEF := "Missing timeDef for a job."
  const MISSING_METHOD := "Missing method for a job."
  const KEY_ERROR := "KeyError"
  const NAME_ERROR := "NameError"
  const ZERO_DIVISION := "ZeroDivisionError"
  const MIN_KO := "Config attribute \"jobs.minutes\" must be an integer being higher or equal to 1."

  /** TDEF_KO filled with the faulty time definition. */
  function TdefKo(tdef: string): string
  {
    "Wrong timedef \"" + tdef + "\".. Must be of the form \"m h dom mon dow\"."
  }

  // ------------------------------------------------------------------------
  // Time parts
  // ------------------------------------------------------------------------

  /**
   * One comma-separated element of a cron field: `*`, `<int>` or `<a>-<b>`,
   * optionally followed by `/<rec>`.
   */
  datatype TimePart = TimePart(numA: Option<int>, numB: Option<int>, rec: Option<int>)

  /** The recurrence after the first `/`, if any. */
  function ParseRec(sp: seq<string>): (r: Result<Option<int>>)
    requires |sp| == 1 || |sp| == 2
    ensures r.Err? ==> r.error == VALUE_ERROR
  {
    if |sp| == 1 then Ok(None)
    else match ParseInt(sp[1])
      case Some(n) => Ok(Some(n))
      case None => Err(VALUE_ERROR)
  }

  /** The base of a part, before any `/`: `*`, digits, or `<a>-<b>`. */
  function ParseBase(base: string, rec: Option<int>): (r: Result<TimePart>)
    ensures r.Err? ==> r.error == VALUE_ERROR
    ensures r.Ok? ==> r.value.rec == rec
  {
    if base == "*" then Ok(TimePart(None, None, rec))
    else if IsDigits(base) then
      ParseIntOfDigits(base);
      Ok(TimePart(ParseInt(base), None, rec))
    else
      var ab := Split(base, "-");
      if |ab| != 2 then Err(VALUE_ERROR)
      else match (ParseInt(ab[0]), ParseInt(ab[1]))
        case (Some(a), Some(b)) => Ok(TimePart(Some(a), Some(b), rec))
        case _ => Err(VALUE_ERROR)
  }

  /** TimePart.parsePart */
  function ParsePart(part: string): (r: Result<TimePart>)
    ensures r.Err? ==> r.error == VALUE_ERROR
  {
    if part == "*" then Ok(TimePart(None, None, None))
    else
      var sp := SplitOnce(part, "/");
      match ParseRec(sp)
      case Err(e) => Err(e)
      case Ok(rec) => ParseBase(sp[0], rec)
  }

  /** `int(s)` of a text without `-` is not negative. */
  lemma {:induction false} ParseIntNoMinus(s: string)
    requires '-' !in s
    ensures ParseInt(s).Some? ==> ParseInt(s).value >= 0
  {
    var l := LStrip(s);
    var t := Strip(s);
    LStripShape(s);
    RStripShape(l);
    if |t| > 0 {
      assert t[0] == l[0] && l[0] == s[|s| - |l|];
    }
  }

  /** Every part `parsePart` accepts is well formed. */
  lemma {:induction false} ParsedPartIsWellFormed(part: string)
    ensures ParsePart(part).Ok? ==> WellFormed(ParsePart(part).value)
  {
    if part != "*" {
      var sp := SplitOnce(part, "/");
      var base := sp[0];
      if ParseRec(sp).Ok? && base != "*" {
        if IsDigits(base) {
          ParseIntOfDigits(base);
        } else {
          var ab := Split(base, "-");
          if |ab| == 2 {
            SplitPartsAvoidSep(base, "-");
            ContainsChar(ab[0], '-');
            ContainsChar(ab[1], '-');
            ParseIntNoMinus(ab[0]);
            ParseIntNoMinus(ab[1]);
          }
        }
      }
    }
  }

  /**
   * TimePart.matches. A range that excludes the value yields Python's None,
   * falsy like `false`; a recurrence of 0 raises ZeroDivisionError.
   */
  function Matches(p: TimePart, value: int): Result<bool>
  {
    if p.numA.Some? && p.numB.None? then Ok(value == p.numA.value)
    else if p.numA.None? && p.numB.None? then
      if p.rec.None? then Ok(true)
      else if p.rec.value == 0 then Err(ZERO_DIVISION)
      else Ok(Mod(value, p.rec.value) == 0)
    else if p.numA.Some? && p.numB.Some? then
      if value < p.numA.value || value > p.numB.value then Ok(false)
      else if p.rec.None? then Ok(true)
      else if p.rec.value == 0 then Err(ZERO_DIVISION)
      else Ok(Mod(value - p.numA.value, p.rec.value) == 0)
    else Ok(false)
  }

  /** TimePart.isNum */
  predicate IsNum(p: TimePart)
  {
    p.numA.Some? && p.numB.None? && p.rec.None?
  }

  /** The parts `parsePart` can produce: non-negative bounds, no bare upper bound. */
  predicate WellFormed(p: TimePart)
  {
    (p.numA.Some? ==> p.numA.value >= 0)
    && (p.numB.Some? ==> p.numA.Some? && p.numB.value >= 0)
  }

  /** The cron text of a time part's base. */
  function BaseText(p: TimePart): (t: string)
    requires WellFormed(p)
  {
    if p.numA.None? then "*"
    else if p.numB.None? then NatToString(p.numA.value)
    else NatToString(p.numA.value) + "-" + NatToString(p.numB.value)
  }

  /** The cron text of a time part: the partner `parsePart` reads back. */
  function PartText(p: TimePart): string
    requires WellFormed(p)
  {
    if p.rec.None? then BaseText(p) else BaseText(p) + "/" + IntToString(p.rec.value)
  }

  /** The characters of cron texts: digits, `-`, `/`, `*` and `,`. */
  predicate CronChar(c: char) { IsDigit(c) || c == '-' || c == '/' || c == '*' || c == ',' }

  predicate CronText(s: string) { forall i | 0 <= i < |s| :: CronChar(s[i]) }

  lemma {:induction false} CronJoin(x: string, c: char, y: string)
    requires CronText(x) && CronChar(c) && CronText(y)
    ensures CronText(x + [c] + y)
  {
    var t := x + [c] + y;
    forall k | 0 <= k < |t|
      ensures CronChar(t[k])
    {
      if k < |x| {
        assert t[k] == x[k];
      } else if k > |x| {
        assert t[k] == y[k - |x| - 1];
      }
    }
  }

  lemma {:induction false} NatTextIsCron(n: nat)
    ensures CronText(NatToString(n))
  {
  }

  lemma {:induction false} IntTextIsCron(i: int)
    ensures CronText(IntToString(i))
  {
    if i < 0 {
      var d := NatToString(-i);
      assert forall k | 1 <= k < |IntToString(i)| :: IntToString(i)[k] == d[k - 1];
    }
  }

  lemma {:induction false} BaseTextChars(p: TimePart)
    requires WellFormed(p)
    ensures CronText(BaseText(p)) && |BaseText(p)| > 0
    ensures '/' !in BaseText(p) && ',' !in BaseText(p)
  {
    if p.numA.Some? {
      var a := NatToString(p.numA.value);
      if p.numB.Some? {
        var b := NatToString(p.numB.value);
        CronJoin(a, '-', b);
      }
    }
  }

  lemma {:induction false} PartTextChars(p: TimePart)
    requires WellFormed(p)
    ensures CronText(PartText(p)) && |PartText(p)| > 0 && ',' !in PartText(p)
  {
    BaseTextChars(p);
    if p.rec.Some? {
      var b := BaseText(p);
      var r := IntToString(p.rec.value);
      IntTextIsCron(p.rec.value);
      CronJoin(b, '/', r);
      assert ',' !in r;
    }
  }

  lemma {:induction false} ParseBaseText(p: TimePart)
    requires WellFormed(p)
    ensures ParseBase(BaseText(p), p.rec) == Ok(p)
  {
    if p.numA.Some? {
      var a := NatToString(p.numA.value);
      ParseIntOfDigits(a);
      NatToStringValue(p.numA.value);
      assert a != "*" by { assert IsDigit(a[0]); }
      if p.numB.Some? {
        var b := NatToString(p.numB.value);
        var base := a + "-" + b;
        assert base != "*" by { assert IsDigit(base[0]); }
        assert !IsDigits(base) by { assert base[|a|] == '-'; }
        DigitsAvoid(a, '-');
        DigitsAvoid(b, '-');
        SplitAt(a, "-", b);
        ParseIntOfDigits(b);
        NatToStringValue(p.numB.value);
      }
    }
  }

  /** `parsePart` reads back every well-formed part from its cron text. */
  lemma {:induction false} ParsePartText(p: TimePart)
    requires WellFormed(p)
    ensures ParsePart(PartText(p)) == Ok(p)
  {
    var base := BaseText(p);
    BaseTextChars(p);
    ContainsChar(base, '/');
    ParseBaseText(p);
    if p.rec.Some? {
      var text := PartText(p);
      assert text != "*" by { assert |text| > 1; }
      SplitOnceAt(base, "/", IntToString(p.rec.value));
      ParseIntOfIntToString(p.rec.value);
      assert ParseRec(SplitOnce(text, "/")) == Ok(p.rec);
    } else if base != "*" {
      assert ParseRec(SplitOnce(base, "/")) == Ok(None);
    }
  }

  /** A bare `*` matches every value. */
  lemma {:induction false} StarMatchesAll(value: int)
    ensures ParsePart("*") == Ok(TimePart(None, None, None))
    ensures Matches(ParsePart("*").value, value) == Ok(true)
  {
  }

  /** A single number matches exactly that value; a recurrence after it is ignored. */
  lemma {:induction false} SingleNumberMatches(n: nat, rec: Option<int>, value: int)
    ensures Matches(TimePart(Some(n), None, rec), value) == Ok(value == n)
  {
  }

  // "*" with recurrence r matches exactly the multiples of r.
  lemma {:induction false} StarRecMatches(r: int, value: int)
    requires r != 0
    ensures Matches(TimePart(None, None, Some(r)), value) == Ok(value % Abs(r) == 0)
  {
  }

  /** `a-b/r` matches `v` iff a <= v <= b and r divides v - a; `a-b` matches iff a <= v <= b. */
  lemma {:induction false} RangeMatches(a: nat, b: nat, rec: Option<int>, value: int)
    requires rec.Some? ==> rec.value != 0
    ensures Matches(TimePart(Some(a), Some(b), rec), value)
            == Ok(a <= value <= b && (rec.Some? ==> (value - a) % Abs(rec.value) == 0))
  {
  }

  /** A zero recurrence makes matching raise, except when a range already excludes the value. */
  lemma {:induction false} ZeroRecRaises(p: TimePart, value: int)
    requires p.numB.None? ==> p.numA.None?
    requires p.rec == Some(0)
    requires p.numB.Some? ==> p.numA.Some? && p.numA.value <= value <= p.numB.value
    ensures Matches(p, value).Err?
  {
  }

  // ------------------------------------------------------------------------
  // Time definitions
  // ------------------------------------------------------------------------

  /** A cron field: `*` (Python's None) or its list of comma-separated parts. */
  datatype Field = Star | Parts(parts: seq<TimePart>)

  /** The five fields of a time definition, indexed MM=0, HH=1, dd=2, mm=3, dow=4. */
  type Fields = s: seq<Field> | |s| == 5 witness [Star, Star, Star, Star, Star]

  const MM := 0
  const HH := 1
  const DD := 2
  const MON := 3
  const DOW := 4

  /** The three field texts the shortcuts use. */
  const ZERO := "0"
  const ONE := "1"
  const STAR := "*"

  /** TimeDef.shortcuts: "0 0 1 1 *", "0 0 1 * *", "0 0 * * 0", "0 0 * * *" and "0 * * * *". */
  function Shortcut(name: string): Option<string>
  {
    if name == "yearly" || name == "annually" then Some(ZERO + SPACE + ZERO + SPACE + ONE + SPACE + ONE + SPACE + STAR)
    else if name == "monthly" then Some(ZERO + SPACE + ZERO + SPACE + ONE + SPACE + STAR + SPACE + STAR)
    else if name == "weekly" then Some(ZERO + SPACE + ZERO + SPACE + STAR + SPACE + STAR + SPACE + ZERO)
    else if name == "daily" || name == "midnight" then Some(ZERO + SPACE + ZERO + SPACE + STAR + SPACE + STAR + SPACE + STAR)
    else if name == "hourly" then Some(ZERO + SPACE + STAR + SPACE + STAR + SPACE + STAR + SPACE + STAR)
    else None
  }

  /** The stripped time definition with its `@name` shortcut expanded. */
  function Expand(timeDef: string): (r: Result<string>)
    ensures r.Err? ==> r.error == MISSING_TIMEDEF || r.error == KEY_ERROR
  {
    var tdef := Strip(timeDef);
    if tdef == "" then Err(MISSING_TIMEDEF)
    else if tdef[0] == '@' then
      match Shortcut(tdef[1..])
      case Some(e) => Ok(e)
      case None => Err(KEY_ERROR)
    else Ok(tdef)
  }

  /** The parts of a comma-separated field, parsed in order. */
  function ParseParts(svals: seq<string>): (r: Result<seq<TimePart>>)
    ensures r.Err? ==> r.error == VALUE_ERROR
    ensures r.Ok? ==> |r.value| == |svals|
  {
    if svals == [] then Ok([])
    else
      match ParseParts(svals[..|svals| - 1])
      case Err(e) => Err(e)
      case Ok(ps) =>
        match ParsePart(svals[|svals| - 1])
        case Err(e) => Err(e)
        case Ok(p) => Ok(ps + [p])
  }

  /** One field of the time definition: `*` or its comma-separated parts. */
  function ParseField(spart: string): (r: Result<Field>)
    ensures r.Err? ==> r.error == VALUE_ERROR
  {
    if spart == "*" then Ok(Star)
    else
      match ParseParts(Split(spart, ","))
      case Err(e) => Err(e)
      case Ok(ps) => Ok(Parts(ps))
  }

  /**
   * The fields of an expanded time definition, or the exception parsing it
   * raises; `arityError` is raised when there are not exactly five fields.
   */
  function FieldsWith(tdef: string, arityError: string): (r: Result<Fields>)
  {
    var sparts := SplitWs(tdef);
    if |sparts| != 5 then Err(arityError) else FieldsOfParts(sparts)
  }

  /** The five parsed fields, or the first error (every field error is a ValueError). */
  function FieldsOfParts(sparts: seq<string>): (r: Result<Fields>)
    requires |sparts| == 5
  {
    FieldsOfResults(ParsedFields(sparts))
  }

  /** What `parse` makes of each of the five field texts. */
  function ParsedFields(sparts: seq<string>): (rs: seq<Result<Field>>)
    requires |sparts| == 5
    ensures |rs| == 5 && forall k | 0 <= k < 5 :: rs[k] == ParseField(sparts[k])
  {
    [ParseField(sparts[0]), ParseField(sparts[1]), ParseField(sparts[2]), ParseField(sparts[3]), ParseField(sparts[4])]
  }

  /** The five fields when every one parsed, else a ValueError. */
  function FieldsOfResults(rs: seq<Result<Field>>): (r: Result<Fields>)
    requires |rs| == 5
  {
    if forall k | 0 <= k < 5 :: rs[k].Ok? then Ok([rs[0].value, rs[1].value, rs[2].value, rs[3].value, rs[4].value])
    else Err(VALUE_ERROR)
  }

  lemma {:induction false} FieldsOfResultsOk(rs: seq<Result<Field>>, fs: Fields)
    requires |rs| == 5 && forall k | 0 <= k < 5 :: rs[k] == Ok(fs[k])
    ensures FieldsOfResults(rs) == Ok(fs)
  {
    assert [rs[0].value, rs[1].value, rs[2].value, rs[3].value, rs[4].value] == fs;
  }

  lemma {:induction false} FieldsOfResultsErr(rs: seq<Result<Field>>, i: int)
    requires |rs| == 5 && 0 <= i < 5 && rs[i].Err?
    ensures FieldsOfResults(rs) == Err(VALUE_ERROR)
  {
  }

  /** The fields of an expanded time definition, with the intended arity message. */
  function FieldsOf(tdef: string): (r: Result<Fields>)
  {
    FieldsWith(tdef, TdefKo(tdef))
  }

  /** What TimeDef(timeDef) stores in `parts`, or the exception its constructor raises. */
  function TimeDefOf(timeDef: string): (r: Result<Fields>)
  {
    match Expand(timeDef)
    case Err(e) => Err(e)
    case Ok(tdef) => FieldsOf(tdef)
  }

  /**
   * TimeDef(timeDef) as written, where the arity message is formatted with a
   * name `parse` does not define, so a wrong arity raises NameError instead.
   */
  function TimeDefOfAsWritten(timeDef: string): (r: Result<Fields>)
  {
    match Expand(timeDef)
    case Err(e) => Err(e)
    case Ok(tdef) => FieldsWith(tdef, NAME_ERROR)
  }

  /** The body of TimeDef.parse's loop: one field, `*` or a TimePart per comma-separated value. */
  method ParseFieldLoop(spart: string) returns (r: Result<Field>)
    ensures r == ParseField(spart)
  {
    if spart == "*" { return Ok(Star); }
    var svals := Split(spart, ",");
    var ps: seq<TimePart> := [];
    var j := 0;
    while j < |svals|
      invariant 0 <= j <= |svals|
      invariant ParseParts(svals[..j]) == Ok(ps)
    {
      var p := ParsePart(svals[j]);
      assert svals[..j + 1][..j] == svals[..j];
      if p.Err? {
        ParsePartsPrefixErr(svals, j + 1);
        return Err(p.error);
      }
      ps := ps + [p.value];
      j := j + 1;
    }
    assert svals[..|svals|] == svals;
    return Ok(Parts(ps));
  }

  /** TimeDef.parse: expands the definition, checks its arity and fills the parts. */
  method Parse(timeDef: string) returns (r: Result<Fields>)
    ensures r == TimeDefOf(timeDef)
  {
    var e := Expand(timeDef);
    if e.Err? { return Err(e.error); }
    var sparts := SplitWs(e.value);
    if |sparts| != 5 { return Err(TdefKo(e.value)); }
    r := FillParts(sparts);
  }

  /** The loop of TimeDef.parse: fills the parts from the last (dow) to the first (minutes). */
  method FillParts(sparts: seq<string>) returns (r: Result<Fields>)
    requires |sparts| == 5
    ensures r == FieldsOfParts(sparts)
  {
    var parts: map<int, Field> := map[];
    var i := 4;
    while i >= 0
      invariant -1 <= i <= 4
      invariant forall k | i < k <= 4 :: k in parts && Ok(parts[k]) == ParseField(sparts[k])
    {
      var value := ParseFieldLoop(sparts[i]);
      if value.Err? {
        FieldsOfResultsErr(ParsedFields(sparts), i);
        return Err(value.error);
      }
      ghost var before := parts;
      parts := parts[i := value.value];
      forall k | i <= k <= 4
        ensures k in parts && Ok(parts[k]) == ParseField(sparts[k])
      {
        if k > i { assert parts[k] == before[k]; }
      }
      i := i - 1;
    }
    var fs: Fields := [parts[0], parts[1], parts[2], parts[3], parts[4]];
    FieldsOfResultsOk(ParsedFields(sparts), fs);
    return Ok(fs);
  }

  /** A failing prefix makes the whole list of parts fail. */
  lemma {:induction false} ParsePartsPrefixErr(svals: seq<string>, n: nat)
    requires n <= |svals| && ParseParts(svals[..n]).Err?
    ensures ParseParts(svals).Err?
    decreases |svals| - n
  {
    if n < |svals| {
      assert svals[..n + 1][..n] == svals[..n];
      ParsePartsPrefixErr(svals, n + 1);
    } else {
      assert svals[..n] == svals;
    }
  }

  /** A time definition that does not have exactly five fields is rejected, naming it. */
  lemma {:induction false} RejectsWrongArity(timeDef: string)
    requires Expand(timeDef).Ok? && |SplitWs(Expand(timeDef).value)| != 5
    ensures TimeDefOf(timeDef) == Err(TdefKo(Expand(timeDef).value))
  {
  }

  /** As written, the same time definition raises NameError; both agree on every other input. */
  lemma {:induction false} WrongArityAsWritten(timeDef: string)
    ensures Expand(timeDef).Ok? && |SplitWs(Expand(timeDef).value)| != 5
            ==> TimeDefOfAsWritten(timeDef) == Err(NAME_ERROR) != TimeDefOf(timeDef)
    ensures Expand(timeDef).Err? || |SplitWs(Expand(timeDef).value)| == 5
            ==> TimeDefOfAsWritten(timeDef) == TimeDefOf(timeDef)
  {
    if Expand(timeDef).Ok? {
      var t := Expand(timeDef).value;
      assert TdefKo(t)[0] == 'W';
    }
  }

  /** An empty (or blank) time definition is rejected as missing. */
  lemma {:induction false} RejectsBlank(timeDef: string)
    requires forall i | 0 <= i < |timeDef| :: IsSpace(timeDef[i])
    ensures TimeDefOf(timeDef) == Err(MISSING_TIMEDEF)
  {
    BlankStrips(timeDef);
  }

  /** `@name` is replaced by its shortcut; an unknown name raises KeyError. */
  lemma {:induction false} ExpandsShortcut(name: string)
    requires forall i | 0 <= i < |name| :: !IsSpace(name[i])
    ensures Shortcut(name).Some? ==> Expand("@" + name) == Ok(Shortcut(name).value)
    ensures Shortcut(name).None? ==> Expand("@" + name) == Err(KEY_ERROR)
  {
    var s := "@" + name;
    assert forall i | 0 <= i < |s| :: !IsSpace(s[i]);
    StripOfNoSpace(s);
    assert s[1..] == name;
  }

  /** The parts `parsePart` can produce, and a field holding at least one of them. */
  predicate FieldWellFormed(f: Field)
  {
    f.Parts? ==> |f.parts| > 0 && forall k | 0 <= k < |f.parts| :: WellFormed(f.parts[k])
  }

  /** The texts of a list of parts, in order. */
  function PartTexts(ps: seq<TimePart>): (r: seq<string>)
    requires forall k | 0 <= k < |ps| :: WellFormed(ps[k])
    ensures |r| == |ps| && forall k | 0 <= k < |ps| :: r[k] == PartText(ps[k])
  {
    if ps == [] then []
    else
      var init := PartTexts(ps[..|ps| - 1]);
      PartTextsSnoc(ps, init);
      init + [PartText(ps[|ps| - 1])]
  }

  lemma {:induction false} PartTextsSnoc(ps: seq<TimePart>, init: seq<string>)
    requires |ps| > 0 && forall k | 0 <= k < |ps| :: WellFormed(ps[k])
    requires |init| == |ps| - 1 && forall k | 0 <= k < |ps| - 1 :: init[k] == PartText(ps[..|ps| - 1][k])
    ensures forall k | 0 <= k < |ps| :: (init + [PartText(ps[|ps| - 1])])[k] == PartText(ps[k])
  {
    forall k | 0 <= k < |ps| ensures (init + [PartText(ps[|ps| - 1])])[k] == PartText(ps[k]) {
      if k < |ps| - 1 {
        assert ps[..|ps| - 1][k] == ps[k];
      }
    }
  }

  /** The cron text of a field: the partner `parse` reads back. */
  function FieldText(f: Field): string
    requires FieldWellFormed(f)
  {
    if f.Star? then "*" else Join(PartTexts(f.parts), ",")
  }

  predicate FieldsWellFormed(fs: Fields)
  {
    forall k | 0 <= k < 5 :: FieldWellFormed(fs[k])
  }

  /** The texts of the five fields. */
  function FieldTexts(fs: Fields): (ws: seq<string>)
    requires FieldsWellFormed(fs)
    ensures |ws| == 5 && forall k | 0 <= k < 5 :: ws[k] == FieldText(fs[k])
  {
    seq(5, k requires 0 <= k < 5 => FieldText(fs[k]))
  }

  /** The cron text of five fields, separated by single spaces. */
  function TimeDefText(fs: Fields): string
    requires FieldsWellFormed(fs)
  {
    Join(FieldTexts(fs), SPACE)
  }

  /** The only part whose text is `*`, which `parse` reads as the whole-field star. */
  const STAR_PART := TimePart(None, None, None)

  lemma {:induction false} PartTextIsStar(p: TimePart)
    requires WellFormed(p) && PartText(p) == "*"
    ensures p == STAR_PART
  {
  }

  /** `parseParts` reads back every list of well-formed parts from their texts. */
  lemma {:induction false} ParsePartsOfTexts(ps: seq<TimePart>)
    requires forall k | 0 <= k < |ps| :: WellFormed(ps[k])
    ensures ParseParts(PartTexts(ps)) == Ok(ps)
  {
    if ps != [] {
      var n := |ps|;
      var ts := PartTexts(ps);
      ParsePartsOfTexts(ps[..n - 1]);
      assert ts[..n - 1] == PartTexts(ps[..n - 1]);
      ParsePartText(ps[n - 1]);
      assert ps[..n - 1] + [ps[n - 1]] == ps;
    }
  }

  /** A comma-join of non-empty cron texts is a non-empty cron text. */
  lemma {:induction false} JoinCron(ts: seq<string>)
    requires |ts| > 0 && forall k | 0 <= k < |ts| :: |ts[k]| > 0 && CronText(ts[k])
    ensures |Join(ts, ",")| > 0 && CronText(Join(ts, ","))
  {
    if |ts| > 1 {
      JoinCron(ts[1..]);
      CronJoin(ts[0], ',', Join(ts[1..], ","));
    }
  }

  lemma {:induction false} FieldTextChars(f: Field)
    requires FieldWellFormed(f)
    ensures |FieldText(f)| > 0 && CronText(FieldText(f))
  {
    if f.Parts? {
      var ts := PartTexts(f.parts);
      forall k | 0 <= k < |ts|
        ensures |ts[k]| > 0 && CronText(ts[k])
      {
        PartTextChars(f.parts[k]);
      }
      JoinCron(ts);
    }
  }

  /** `parse` reads back every well-formed field from its text. */
  lemma {:induction false} ParseFieldText(f: Field)
    requires FieldWellFormed(f) && f != Parts([STAR_PART])
    ensures ParseField(FieldText(f)) == Ok(f)
  {
    if f.Parts? {
      var ts := PartTexts(f.parts);
      var text := FieldText(f);
      forall k | 0 <= k < |ts|
        ensures !Contains(ts[k], ",")
      {
        PartTextChars(f.parts[k]);
        ContainsChar(ts[k], ',');
      }
      if |ts| == 1 {
        if text == "*" {
          PartTextIsStar(f.parts[0]);
          assert false;
        }
      } else {
        PartTextChars(f.parts[0]);
        assert |text| > 1;
      }
      SplitJoin(ts, ",");
      ParsePartsOfTexts(f.parts);
    }
  }

  lemma {:induction false} CronTextIsWord(s: string)
    requires |s| > 0 && CronText(s)
    ensures IsWord(s) && s[0] != '@'
  {
  }

  /** Each field text is a word that `parse` reads back to its field. */
  lemma {:induction false} FieldTextsParse(fs: Fields)
    requires FieldsWellFormed(fs) && forall k | 0 <= k < 5 :: fs[k] != Parts([STAR_PART])
    ensures forall k | 0 <= k < 5 ::
      IsWord(FieldTexts(fs)[k]) && FieldTexts(fs)[k][0] != '@' && ParseField(FieldTexts(fs)[k]) == Ok(fs[k])
  {
    forall k | 0 <= k < 5
      ensures IsWord(FieldText(fs[k])) && FieldText(fs[k])[0] != '@' && ParseField(FieldText(fs[k])) == Ok(fs[k])
    {
      FieldTextChars(fs[k]);
      CronTextIsWord(FieldText(fs[k]));
      ParseFieldText(fs[k]);
    }
  }

  /** The five fields read back from their space-separated texts. */
  lemma {:induction false} FieldsOfText(fs: Fields)
    requires FieldsWellFormed(fs) && forall k | 0 <= k < 5 :: fs[k] != Parts([STAR_PART])
    ensures FieldsOf(TimeDefText(fs)) == Ok(fs)
  {
    var ws := FieldTexts(fs);
    FieldTextsParse(fs);
    SplitWsJoin(ws);
    FieldsWithOfWords(TimeDefText(fs), TdefKo(TimeDefText(fs)), ws);
    FieldsOfPartsOf(ws, fs);
  }

  lemma {:induction false} FieldsWithOfWords(tdef: string, arityError: string, ws: seq<string>)
    requires SplitWs(tdef) == ws && |ws| == 5
    ensures FieldsWith(tdef, arityError) == FieldsOfParts(ws)
  {
  }

  lemma {:induction false} FieldsOfPartsOf(ws: seq<string>, fs: Fields)
    requires |ws| == 5 && forall k | 0 <= k < 5 :: ParseField(ws[k]) == Ok(fs[k])
    ensures FieldsOfParts(ws) == Ok(fs)
  {
    FieldsOfResultsOk(ParsedFields(ws), fs);
  }

  /** An expanded time definition is unchanged by `Expand`: already stripped, no `@`. */
  lemma {:induction false} ExpandOfText(fs: Fields)
    requires FieldsWellFormed(fs) && forall k | 0 <= k < 5 :: fs[k] != Parts([STAR_PART])
    ensures Expand(TimeDefText(fs)) == Ok(TimeDefText(fs))
  {
    var ws := FieldTexts(fs);
    FieldTextsParse(fs);
    JoinEnds(ws, SPACE);
    StripOfTrimmed(TimeDefText(fs));
  }

  /**
   * A time definition written out from five well-formed fields parses back
   * to those fields (a lone `*` part stands for the star field).
   */
  lemma {:induction false} TimeDefTextRoundTrip(fs: Fields)
    requires FieldsWellFormed(fs) && forall k | 0 <= k < 5 :: fs[k] != Parts([STAR_PART])
    ensures TimeDefOf(TimeDefText(fs)) == Ok(fs)
  {
    ExpandOfText(fs);
    FieldsOfText(fs);
  }

  /** The field holding the single number `n`. */
  function Single(n: nat): Field { Parts([TimePart(Some(n), None, None)]) }

  lemma {:induction false} SingleText(n: nat)
    ensures FieldWellFormed(Single(n)) && FieldText(Single(n)) == NatToString(n)
  {
    assert PartTexts([TimePart(Some(n), None, None)]) == [NatToString(n)];
  }

  /** The fields each `@name` shortcut stands for. */
  function ShortcutFields(name: string): (r: Option<Fields>)
    ensures r.Some? ==> FieldsWellFormed(r.value)
    ensures r.Some? ==> forall k | 0 <= k < 5 :: r.value[k] == Star || r.value[k] == Single(0) || r.value[k] == Single(1)
  {
    if name == "yearly" || name == "annually" then Some([Single(0), Single(0), Single(1), Single(1), Star])
    else if name == "monthly" then Some([Single(0), Single(0), Single(1), Star, Star])
    else if name == "weekly" then Some([Single(0), Single(0), Star, Star, Single(0)])
    else if name == "daily" || name == "midnight" then Some([Single(0), Single(0), Star, Star, Star])
    else if name == "hourly" then Some([Single(0), Star, Star, Star, Star])
    else None
  }

  /** The text of five fields whose texts are known. */
  lemma {:induction false} TextOfFields(fs: Fields, ws: seq<string>)
    requires FieldsWellFormed(fs) && |ws| == 5
    requires forall k | 0 <= k < 5 :: FieldText(fs[k]) == ws[k]
    ensures TimeDefText(fs) == ws[0] + SPACE + ws[1] + SPACE + ws[2] + SPACE + ws[3] + SPACE + ws[4]
  {
    assert FieldTexts(fs) == ws;
    Join5(ws, SPACE);
  }

  /** The texts of the one- and zero-number fields. */
  lemma {:induction false} ShortcutTextFields(fs: Fields, ws: seq<string>)
    requires |ws| == 5 && forall k | 0 <= k < 5 :: (fs[k] == Star && ws[k] == STAR) || (fs[k] == Single(0) && ws[k] == ZERO) || (fs[k] == Single(1) && ws[k] == ONE)
    ensures FieldsWellFormed(fs)
    ensures TimeDefText(fs) == ws[0] + SPACE + ws[1] + SPACE + ws[2] + SPACE + ws[3] + SPACE + ws[4]
  {
    SingleText(0);
    SingleText(1);
    TextOfFields(fs, ws);
  }

  lemma {:induction false} ShortcutTextYearly()
    ensures TimeDefText([Single(0), Single(0), Single(1), Single(1), Star]) == ZERO + SPACE + ZERO + SPACE + ONE + SPACE + ONE + SPACE + STAR
  {
    var z, o := Single(0), Single(1);
    ShortcutTextFields([z, z, o, o, Star], [ZERO, ZERO, ONE, ONE, STAR]);
  }

  lemma {:induction false} ShortcutTextMonthly()
    ensures TimeDefText([Single(0), Single(0), Single(1), Star, Star]) == ZERO + SPACE + ZERO + SPACE + ONE + SPACE + STAR + SPACE + STAR
  {
    var z, o := Single(0), Single(1);
    ShortcutTextFields([z, z, o, Star, Star], [ZERO, ZERO, ONE, STAR, STAR]);
  }

  lemma {:induction false} ShortcutTextWeekly()
    ensures TimeDefText([Single(0), Single(0), Star, Star, Single(0)]) == ZERO + SPACE + ZERO + SPACE + STAR + SPACE + STAR + SPACE + ZERO
  {
    var z := Single(0);
    ShortcutTextFields([z, z, Star, Star, z], [ZERO, ZERO, STAR, STAR, ZERO]);
  }

  lemma {:induction false} ShortcutTextDaily()
    ensures TimeDefText([Single(0), Single(0), Star, Star, Star]) == ZERO + SPACE + ZERO + SPACE + STAR + SPACE + STAR + SPACE + STAR
  {
    var z := Single(0);
    ShortcutTextFields([z, z, Star, Star, Star], [ZERO, ZERO, STAR, STAR, STAR]);
  }

  lemma {:induction false} ShortcutTextHourly()
    ensures TimeDefText([Single(0), Star, Star, Star, Star]) == ZERO + SPACE + STAR + SPACE + STAR + SPACE + STAR + SPACE + STAR
  {
    var z := Single(0);
    ShortcutTextFields([z, Star, Star, Star, Star], [ZERO, STAR, STAR, STAR, STAR]);
  }

  /** Each shortcut's text is the text of its fields. */
  lemma {:induction false} ShortcutTexts(name: string)
    ensures Shortcut(name).Some? <==> ShortcutFields(name).Some?
    ensures Shortcut(name).Some? ==> Shortcut(name).value == TimeDefText(ShortcutFields(name).value)
  {
    if name == "yearly" || name == "annually" {
      ShortcutTextYearly();
    }     else if name == "monthly" {
      ShortcutTextMonthly();
    }     else if name == "weekly" {
      ShortcutTextWeekly();
    }     else if name == "daily" || name == "midnight" {
      ShortcutTextDaily();
    }     else if name == "hourly" {
      ShortcutTextHourly();
    }
  }

  /**
   * `@name` parses to the fields of its shortcut, and an unknown name raises
   * KeyError (the name is what follows `@` in a stripped time definition).
   */
  lemma {:induction false} ShortcutsParse(name: string)
    requires forall i | 0 <= i < |name| :: !IsSpace(name[i])
    ensures ShortcutFields(name).Some? ==> TimeDefOf("@" + name) == Ok(ShortcutFields(name).value)
    ensures ShortcutFields(name).None? ==> TimeDefOf("@" + name) == Err(KEY_ERROR)
  {
    ExpandsShortcut(name);
    ShortcutTexts(name);
    if ShortcutFields(name).Some? {
      var fs := ShortcutFields(name).value;
      assert Single(0) != Parts([STAR_PART]) && Single(1) != Parts([STAR_PART]);
      FieldsOfText(fs);
    }
  }

  // ------------------------------------------------------------------------
  // Matching a time definition against the local time
  // ------------------------------------------------------------------------

  /** The fields of time.localtime() the scheduler reads. */
  datatype LocalTime = LocalTime(mon: int, mday: int, hour: int, min: int, wday: int)

  /**
   * The cron day of week (Sunday 0, Monday 1, ..., Saturday 6) of Python's
   * tm_wday (Monday 0, ..., Sunday 6).
   */
  function CronDayOfWeek(wday: int): int
  {
    Mod(wday + 1, 7)
  }

  /** The codeMap calibration as written: tm_wday - 1, plus 7 when negative. */
  function DayOfWeekAsWritten(wday: int): int
  {
    var fig := wday - 1;
    if fig < 0 then fig + 7 else fig
  }

  /** The value of field `i` in `now`, in cron's convention. */
  function Calibrated(i: int, now: LocalTime): int
    requires 0 <= i < 5
  {
    if i == DOW then CronDayOfWeek(now.wday)
    else if i == MON then now.mon
    else if i == DD then now.mday
    else if i == HH then now.hour
    else now.min
  }

  /** Day of week as corrected: Python's Sunday is cron's 0 and Python's Monday cron's 1. */
  lemma {:induction false} CronDayOfWeekIsCron(wday: int)
    requires 0 <= wday <= 6
    ensures 0 <= CronDayOfWeek(wday) <= 6
    ensures wday == 6 <==> CronDayOfWeek(wday) == 0
    ensures wday < 6 ==> CronDayOfWeek(wday) == wday + 1
  {
  }

  /** As written, cron's Sunday (0) is matched on Python's Tuesday (tm_wday 1). */
  lemma {:induction false} DayOfWeekAsWrittenMisplacesSunday()
    ensures DayOfWeekAsWritten(1) == 0
    ensures DayOfWeekAsWritten(6) == 5
    ensures CronDayOfWeek(6) == 0
  {
  }

  /** Whether some part, tried in order, matches; the first error raises. */
  function AnyMatches(ps: seq<TimePart>, value: int): Result<bool>
  {
    if ps == [] then Ok(false)
    else match Matches(ps[0], value)
      case Err(e) => Err(e)
      case Ok(true) => Ok(true)
      case Ok(false) => AnyMatches(ps[1..], value)
  }

  /** The fields in the order codeMap lists them: dow, mm, dd, HH, MM. */
  const CodeOrder: seq<int> := [DOW, MON, DD, HH, MM]

  /** TimeDef.mustRun over the fields whose indexes are `order`. */
  function MustRunIn(fields: Fields, order: seq<int>, now: LocalTime): Result<bool>
    requires forall k | 0 <= k < |order| :: 0 <= order[k] < 5
  {
    if order == [] then Ok(true)
    else
      var i := order[0];
      match fields[i]
      case Star => MustRunIn(fields, order[1..], now)
      case Parts(ps) =>
        match AnyMatches(ps, Calibrated(i, now))
        case Err(e) => Err(e)
        case Ok(false) => Ok(false)
        case Ok(true) => MustRunIn(fields, order[1..], now)
  }

  /** The value TimeDef.mustRun returns for `now` (None is `false`), or its exception. */
  function MustRunSpec(fields: Fields, now: LocalTime): Result<bool>
  {
    MustRunIn(fields, CodeOrder, now)
  }

  /** TimeDef.mustRun */
  method MustRun(fields: Fields, now: LocalTime) returns (r: Result<bool>)
    ensures r == MustRunSpec(fields, now)
  {
    var n := 0;
    while n < 5
      invariant 0 <= n <= 5
      invariant MustRunIn(fields, CodeOrder[n..], now) == MustRunSpec(fields, now)
    {
      var i := CodeOrder[n];
      assert CodeOrder[n..][1..] == CodeOrder[n + 1..];
      var f := fields[i];
      if f.Parts? {
        var fig := Calibrated(i, now);
        var matches := false;
        var k := 0;
        while k < |f.parts|
          invariant 0 <= k <= |f.parts|
          invariant AnyMatches(f.parts[k..], fig) == AnyMatches(f.parts, fig)
        {
          assert f.parts[k..][1..] == f.parts[k + 1..];
          var m := Matches(f.parts[k], fig);
          if m.Err? { return Err(m.error); }
          if m.value {
            matches := true;
            break;
          }
          k := k + 1;
        }
        if !matches { return Ok(false); }
      }
      n := n + 1;
    }
    return Ok(true);
  }

  /** A time part that cannot raise: no recurrence of 0. */
  predicate Safe(p: TimePart) { p.rec != Some(0) }

  predicate FieldSafe(f: Field)
  {
    f.Parts? ==> forall k | 0 <= k < |f.parts| :: Safe(f.parts[k])
  }

  /** Field `i` of `fields` accepts the calibrated value of `now`. */
  predicate FieldAccepts(fields: Fields, i: int, now: LocalTime)
    requires 0 <= i < 5 && FieldSafe(fields[i])
  {
    match fields[i]
    case Star => true
    case Parts(ps) => exists k | 0 <= k < |ps| :: Matches(ps[k], Calibrated(i, now)) == Ok(true)
  }

  lemma {:induction false} AnyMatchesIff(ps: seq<TimePart>, value: int)
    requires forall k | 0 <= k < |ps| :: Safe(ps[k])
    ensures AnyMatches(ps, value).Ok?
    ensures AnyMatches(ps, value).value <==> exists k | 0 <= k < |ps| :: Matches(ps[k], value) == Ok(true)
  {
    if ps != [] {
      AnyMatchesIff(ps[1..], value);
      if Matches(ps[0], value) != Ok(true) {
        assert forall k | 1 <= k < |ps| :: ps[k] == ps[1..][k - 1];
      }
    }
  }

  lemma {:induction false} MustRunInIff(fields: Fields, order: seq<int>, now: LocalTime)
    requires forall k | 0 <= k < |order| :: 0 <= order[k] < 5
    requires forall i | 0 <= i < 5 :: FieldSafe(fields[i])
    ensures MustRunIn(fields, order, now).Ok?
    ensures MustRunIn(fields, order, now).value
            <==> forall k | 0 <= k < |order| :: FieldAccepts(fields, order[k], now)
  {
    if order != [] {
      MustRunInIff(fields, order[1..], now);
      var i := order[0];
      if fields[i].Parts? {
        AnyMatchesIff(fields[i].parts, Calibrated(i, now));
      }
      assert forall k | 1 <= k < |order| :: order[k] == order[1..][k - 1];
    }
  }

  /**
   * When no part has a zero recurrence, mustRun holds iff every field that
   * is not `*` has a comma part matching the calibrated value.
   */
  lemma {:induction false} MustRunIff(fields: Fields, now: LocalTime)
    requires forall i | 0 <= i < 5 :: FieldSafe(fields[i])
    ensures MustRunSpec(fields, now).Ok?
    ensures MustRunSpec(fields, now).value <==> forall i | 0 <= i < 5 :: FieldAccepts(fields, i, now)
  {
    MustRunInIff(fields, CodeOrder, now);
    assert CodeOrder[0] == DOW && CodeOrder[1] == MON && CodeOrder[2] == DD;
    assert CodeOrder[3] == HH && CodeOrder[4] == MM;
  }

  /** "@weekly" runs exactly on Sundays at 00:00 (with the corrected day of week). */
  lemma {:induction false} WeeklyRunsOnSundayMidnight(now: LocalTime)
    requires 0 <= now.wday <= 6
    ensures MustRunSpec(ShortcutFields("weekly").value, now)
            == Ok(now.min == 0 && now.hour == 0 && now.wday == 6)
  {
    CronDayOfWeekIsCron(now.wday);
    var fs := ShortcutFields("weekly").value;
    var z := TimePart(Some(0), None, None);
    assert fs == [Parts([z]), Parts([z]), Star, Star, Parts([z])];
    MustRunIff(fs, now);
    forall i | 0 <= i < 5 && fs[i].Parts?
      ensures FieldAccepts(fs, i, now) <==> Calibrated(i, now) == 0
    {
      assert fs[i].parts == [z];
      assert Matches(z, Calibrated(i, now)) == Ok(Calibrated(i, now) == 0);
    }
    assert FieldAccepts(fs, DD, now) && FieldAccepts(fs, MON, now);
    assert FieldAccepts(fs, MM, now) <==> now.min == 0;
    assert FieldAccepts(fs, HH, now) <==> now.hour == 0;
    assert FieldAccepts(fs, DOW, now) <==> now.wday == 6;
    assert (forall i | 0 <= i < 5 :: FieldAccepts(fs, i, now))
           <==> FieldAccepts(fs, MM, now) && FieldAccepts(fs, HH, now) && FieldAccepts(fs, DOW, now);
  }

  /** TimeDef.getHour: the hour and minute, when both are a single plain number. */
  function GetHourSpec(fields: Fields): Result<Option<(int, int)>>
  {
    match fields[HH]
    case Star => Err("TypeError")
    case Parts(hs) =>
      if |hs| != 1 || !IsNum(hs[0]) then Ok(None)
      else match fields[MM]
        case Star => Err("TypeError")
        case Parts(ms) =>
          if |ms| != 1 || !IsNum(ms[0]) then Ok(None)
          else Ok(Some((hs[0].numA.value, ms[0].numA.value)))
  }

  /** TimeDef.getHour, walking the hour part then the minute part. */
  method GetHour(fields: Fields) returns (r: Result<Option<(int, int)>>)
    ensures r == GetHourSpec(fields)
    ensures r.Ok? && r.value.Some? ==>
      fields[HH] == Parts([TimePart(Some(r.value.value.0), None, None)])
      && fields[MM] == Parts([TimePart(Some(r.value.value.1), None, None)])
  {
    var found: seq<int> := [];
    var order := [HH, MM];
    var n := 0;
    while n < 2
      invariant 0 <= n <= 2 && |found| == n
      invariant n >= 1 ==> fields[HH].Parts? && |fields[HH].parts| == 1 && IsNum(fields[HH].parts[0])
                           && found[0] == fields[HH].parts[0].numA.value
      invariant n == 2 ==> fields[MM].Parts? && |fields[MM].parts| == 1 && IsNum(fields[MM].parts[0])
                           && found[1] == fields[MM].parts[0].numA.value
    {
      var f := fields[order[n]];
      if f.Star? { return Err("TypeError"); }
      if |f.parts| != 1 { return Ok(None); }
      var part := f.parts[0];
      if !IsNum(part) { return Ok(None); }
      found := found + [part.numA.value];
      n := n + 1;
    }
    return Ok(Some((found[0], found[1])));
  }

  // ------------------------------------------------------------------------
  // Jobs, the scheduler configuration and the scheduler
  // ------------------------------------------------------------------------

  /** A job: the name of the tool method to run. */
  datatype Job = Job(methodName: string)

  /** Job(method): the stripped method name, which must not be empty. */
  function MakeJob(methodName: string): (r: Result<Job>)
    ensures r.Ok? <==> Strip(methodName) != ""
    ensures r.Ok? ==> r.value.methodName == Strip(methodName)
  {
    var m := Strip(methodName);
    if m == "" then Err(MISSING_METHOD) else Ok(Job(m))
  }

  /**
   * The value of Config.minutes: an int, or any other Python value. A bool
   * is an int in Python, so True passes the isinstance test as IntMinutes(1)
   * and False as IntMinutes(0).
   */
  datatype Minutes = IntMinutes(n: int) | NotAnInt

  /** Config.check: minutes must be an int >= 1. */
  function CheckMinutes(minutes: Minutes): (r: Result<()>)
    ensures r.Ok? <==> minutes.IntMinutes? && minutes.n >= 1
  {
    if !minutes.IntMinutes? || minutes.n < 1 then Err(MIN_KO) else Ok(())
  }

  /** The scheduler configuration: the period and the planned jobs. */
  class Config {
    var minutes: Minutes
    var all: seq<(Fields, Job)>

    constructor ()
      ensures minutes == IntMinutes(1) && all == []
    {
      minutes := IntMinutes(1);
      all := [];
    }

    /** Config.add: appends the parsed time definition and its job, or raises. */
    method Add(timeDef: string, methodName: string) returns (r: Result<()>)
      modifies this`all
      ensures r.Ok? <==> TimeDefOf(timeDef).Ok? && MakeJob(methodName).Ok?
      ensures r.Ok? ==> all == old(all) + [(TimeDefOf(timeDef).value, MakeJob(methodName).value)]
      ensures r.Err? ==> all == old(all)
    {
      var td := Parse(timeDef);
      if td.Err? { return Err(td.error); }
      var job := MakeJob(methodName);
      if job.Err? { return Err(job.error); }
      all := all + [(td.value, job.value)];
      return Ok(());
    }
  }

  /** What a run of the jobs did: the methods run, in order, and whether one mustRun raised. */
  datatype RunOutcome = RunOutcome(ran: seq<string>, raised: bool)

  /** Scheduler.runJobs over `jobs`, for the local time `now`. */
  function RunJobsSpec(jobs: seq<(Fields, Job)>, now: LocalTime): RunOutcome
  {
    if jobs == [] then RunOutcome([], false)
    else
      var rest := RunJobsSpec(jobs[..|jobs| - 1], now);
      if rest.raised then rest
      else match MustRunSpec(jobs[|jobs| - 1].0, now)
        case Err(_) => RunOutcome(rest.ran, true)
        case Ok(true) => RunOutcome(rest.ran + [jobs[|jobs| - 1].1.methodName], false)
        case Ok(false) => rest
  }

  /** Scheduler.runJobs: runs, in order, every job whose time definition matches `now`. */
  method RunJobs(jobs: seq<(Fields, Job)>, now: LocalTime) returns (out: RunOutcome)
    ensures out == RunJobsSpec(jobs, now)
  {
    var ran: seq<string> := [];
    var i := 0;
    while i < |jobs|
      invariant 0 <= i <= |jobs|
      invariant RunJobsSpec(jobs[..i], now) == RunOutcome(ran, false)
    {
      assert jobs[..i + 1][..i] == jobs[..i];
      var m := MustRun(jobs[i].0, now);
      if m.Err? {
        RunJobsRaisedStays(jobs, i + 1, now);
        return RunOutcome(ran, true);
      }
      if m.value {
        ran := ran + [jobs[i].1.methodName];
      }
      i := i + 1;
    }
    assert jobs[..|jobs|] == jobs;
    return RunOutcome(ran, false);
  }

  lemma {:induction false} RunJobsRaisedStays(jobs: seq<(Fields, Job)>, n: nat, now: LocalTime)
    requires n <= |jobs| && RunJobsSpec(jobs[..n], now).raised
    ensures RunJobsSpec(jobs, now) == RunJobsSpec(jobs[..n], now)
    decreases |jobs| - n
  {
    if n < |jobs| {
      assert jobs[..n + 1][..n] == jobs[..n];
      RunJobsRaisedStays(jobs, n + 1, now);
    } else {
      assert jobs[..n] == jobs;
    }
  }

  /** The jobs run are exactly those, in order, whose time definition matches. */
  lemma {:induction false} RunJobsRunsMatching(jobs: seq<(Fields, Job)>, now: LocalTime)
    requires forall k, i | 0 <= k < |jobs| && 0 <= i < 5 :: FieldSafe(jobs[k].0[i])
    ensures !RunJobsSpec(jobs, now).raised
    ensures RunJobsSpec(jobs, now).ran == MethodsMatching(jobs, now)
  {
    if jobs != [] {
      RunJobsRunsMatching(jobs[..|jobs| - 1], now);
      MustRunIff(jobs[|jobs| - 1].0, now);
    }
  }

  /** The methods of the jobs whose time definition matches `now`, in order. */
  function MethodsMatching(jobs: seq<(Fields, Job)>, now: LocalTime): seq<string>
  {
    if jobs == [] then []
    else
      var last := jobs[|jobs| - 1];
      MethodsMatching(jobs[..|jobs| - 1], now)
      + (if MustRunSpec(last.0, now) == Ok(true) then [last.1.methodName] else [])
  }

  /** The scheduler: its period, the minute of its last run, and the configured jobs. */
  class Scheduler {
    /** Config.minutes when a jobs configuration exists, else None. */
    const minutes: Option<int>
    const jobs: seq<(Fields, Job)>
    var last: int

    constructor (minutes: Option<int>, jobs: seq<(Fields, Job)>, startMinute: int)
      ensures this.minutes == minutes && this.jobs == jobs && last == startMinute
    {
      this.minutes := minutes;
      this.jobs := jobs;
      last := startMinute;
    }

    /** The scan is due: a period is set, `current` is a multiple of it and differs from `last`. */
    predicate Due(current: int)
      reads this
    {
      minutes.Some? && minutes.value != 0
      && Mod(current, minutes.value) == 0 && current != last
    }

    /**
     * Scheduler.scanJobs at minute `current` (tm_min) and local time `now`:
     * when due, records `current` as the last minute and runs the jobs.
     */
    method ScanJobs(current: int, now: LocalTime) returns (out: RunOutcome)
      modifies this`last
      ensures old(Due(current)) ==> last == current && out == RunJobsSpec(jobs, now)
      ensures !old(Due(current)) ==> last == old(last) && out == RunOutcome([], false)
      ensures !Due(current)
    {
      if minutes.None? || minutes.value == 0 { return RunOutcome([], false); }
      if Mod(current, minutes.value) != 0 || current == last { return RunOutcome([], false); }
      last := current;
      out := RunJobs(jobs, now);
    }
  }
}
