/**
 * StringField: the validators a String field offers (modulo 97 and its
 * complement, the Belgian NISS, IBAN and BIC), the search range a trailing
 * star denotes and the value a String field stores.
 */
module StringField {
  import opened Py
  import StringUtils

  // ------------------------------------------------------------------------
  // Filtering characters
  // ------------------------------------------------------------------------

  /** The characters of `s` matching [0-9], in order (the loop of _MODULO_97, and Normalize.digit). */
  function KeepDigits(s: string): (r: string)
    ensures AllDigits(r) && |r| <= |s|
  {
    if s == [] then ""
    else KeepDigits(s[..|s| - 1]) + (if IsDigit(s[|s| - 1]) then [s[|s| - 1]] else "")
  }

  /**
   * Normalize.alphanum: the characters matching [a-zA-Z0-9] are kept, in
   * order; any other one goes through Normalize.replacements or vanishes.
   */
  function KeepAlnum(s: string): string
  {
    Alphanum(s, StringUtils.Replacement)
  }

  /** Normalize.string with the [^a-zA-Z0-9] expression and the replacement dict `replace`. */
  function Alphanum(s: string, replace: char -> Option<string>): string
  {
    if s == [] then ""
    else Alphanum(s[..|s| - 1], replace) + AlnumChar(s[|s| - 1], replace)
  }

  /** What Normalize.string makes of one character with the [^a-zA-Z0-9] expression. */
  function AlnumChar(c: char, replace: char -> Option<string>): string
  {
    if IsAsciiAlnum(c) then [c] else StringUtils.NormalizeChar(c, {}, {}, replace, false)
  }

  /** A dict whose every replacement is one or two letters, a space or a hyphen. */
  predicate NormalReplacements(replace: char -> Option<string>)
  {
    forall c | replace(c).Some? :: 1 <= |replace(c).value| <= 2
      && forall k | 0 <= k < |replace(c).value| :: StringUtils.IsNormalChar(replace(c).value[k])
  }

  /**
   * Normalize.alphanum leaves only letters, digits, spaces and hyphens, and
   * at most two characters for each one it reads.
   */
  lemma {:induction false} KeepAlnumIsNormal(s: string)
    ensures |KeepAlnum(s)| <= 2 * |s|
    ensures forall k | 0 <= k < |KeepAlnum(s)| :: StringUtils.IsNormalChar(KeepAlnum(s)[k])
  {
    forall c | StringUtils.Replacement(c).Some?
      ensures 1 <= |StringUtils.Replacement(c).value| <= 2
              && forall k | 0 <= k < |StringUtils.Replacement(c).value| ::
                   StringUtils.IsNormalChar(StringUtils.Replacement(c).value[k])
    {
      StringUtils.ReplacementsAreNormal(c);
    }
    AlphanumIsNormal(s, StringUtils.Replacement);
  }

  lemma {:induction false} AlphanumIsNormal(s: string, replace: char -> Option<string>)
    requires NormalReplacements(replace)
    ensures |Alphanum(s, replace)| <= 2 * |s|
    ensures forall k | 0 <= k < |Alphanum(s, replace)| :: StringUtils.IsNormalChar(Alphanum(s, replace)[k])
  {
    if s != [] {
      var r0, c := Alphanum(s[..|s| - 1], replace), AlnumChar(s[|s| - 1], replace);
      AlphanumIsNormal(s[..|s| - 1], replace);
      assert Alphanum(s, replace) == r0 + c;
      assert |c| <= 2 && forall k | 0 <= k < |c| :: StringUtils.IsNormalChar(c[k]);
      forall k | 0 <= k < |r0 + c| ensures StringUtils.IsNormalChar((r0 + c)[k]) {
        if k >= |r0| {
          assert (r0 + c)[k] == c[k - |r0|];
        }
      }
    }
  }

  predicate AllAlnum(s: string)
  {
    forall k | 0 <= k < |s| :: IsAsciiAlnum(s[k])
  }

  lemma {:induction false} AllAlnumAppend(a: string, b: string)
    requires AllAlnum(a) && AllAlnum(b)
    ensures AllAlnum(a + b)
  {
  }

  /** Filtering a string made of digits only gives it back. */
  lemma {:induction false} KeepDigitsOfDigits(s: string)
    requires AllDigits(s)
    ensures KeepDigits(s) == s
  {
    if s != [] {
      KeepDigitsOfDigits(s[..|s| - 1]);
    }
  }

  /** Filtering twice is filtering once: the non-digit characters are ignored. */
  lemma {:induction false} KeepDigitsIdempotent(s: string)
    ensures KeepDigits(KeepDigits(s)) == KeepDigits(s)
  {
    KeepDigitsOfDigits(KeepDigits(s));
  }

  lemma {:induction false} KeepDigitsAppend(a: string, b: string)
    ensures KeepDigits(a + b) == KeepDigits(a) + KeepDigits(b)
    decreases |b|
  {
    if b == [] {
      assert a + b == a;
    } else {
      var b0 := b[..|b| - 1];
      assert (a + b)[..|a + b| - 1] == a + b0;
      KeepDigitsAppend(a, b0);
    }
  }

  lemma {:induction false} DigitsValueSnoc(a: string, c: char)
    requires AllDigits(a) && IsDigit(c)
    ensures AllDigits(a + [c])
    ensures DigitsValue(a + [c]) == DigitsValue(a) * 10 + (c as int - '0' as int)
  {
    assert (a + [c])[..|a|] == a;
  }

  lemma {:induction false} DigitsValueSnoc2(a: string, c: string)
    requires AllDigits(a) && AllDigits(c) && |c| == 2
    ensures AllDigits(a + c)
    ensures DigitsValue(a + c) == DigitsValue(a) * 100 + DigitsValue(c)
  {
    var d0, d1 := c[0] as int - '0' as int, c[1] as int - '0' as int;
    var x := DigitsValue(a);
    DigitsValueSnoc(a, c[0]);
    var y := DigitsValue(a + [c[0]]);
    assert a + c == (a + [c[0]]) + [c[1]];
    DigitsValueSnoc(a + [c[0]], c[1]);
    assert DigitsValue(a + c) == y * 10 + d1;
    DigitsValueSnoc([], c[0]);
    assert c == [c[0]] + [c[1]];
    DigitsValueSnoc([c[0]], c[1]);
    assert DigitsValue(c) == d0 * 10 + d1;
    assert y * 10 == x * 100 + d0 * 10;
  }

  // ------------------------------------------------------------------------
  // _MODULO_97
  // ------------------------------------------------------------------------

  /**
   * The check digits the last two digits must hold for the digits before
   * them: 97 minus the remainder for the complement variant, else the
   * remainder itself, 97 standing for a remainder of 0.
   */
  function CheckDigitsFor(number: nat, complement: bool): (r: nat)
    ensures 1 <= r <= 97
    ensures complement ==> (number + r) % 97 == 0
    ensures !complement ==> (number - r) % 97 == 0
  {
    var mod97 := number % 97;
    DivModUnique(number, 97, number / 97, mod97);
    if complement then
      DivModUnique(number + (97 - mod97), 97, number / 97 + 1, 0);
      97 - mod97
    else if mod97 == 0 then
      DivModUnique(number - 97, 97, number / 97 - 1, 0);
      97
    else
      DivModUnique(number - mod97, 97, number / 97, 0);
      mod97
  }

  /** What _MODULO_97 answers for `value`. */
  function Mod97Valid(value: string, complement: bool): bool
  {
    if value == "" then true
    else
      var v := KeepDigits(value);
      if |v| < 3 then false
      else DigitsValue(v[|v| - 2..]) == CheckDigitsFor(DigitsValue(v[..|v| - 2]), complement)
  }

  /** _MODULO_97: the digits are gathered one by one, then the last two are checked against the others. */
  method Modulo97(value: string, complement: bool) returns (r: bool)
    ensures r == Mod97Valid(value, complement)
  {
    if value == "" {
      return true;
    }
    var v := "";
    for i := 0 to |value|
      invariant v == KeepDigits(value[..i])
    {
      assert value[..i + 1][..i] == value[..i];
      if IsDigit(value[i]) {
        v := v + [value[i]];
      }
    }
    assert value[..|value|] == value;
    if |v| < 3 {
      return false;
    }
    var number := DigitsValue(v[..|v| - 2]);
    var checkNumber := DigitsValue(v[|v| - 2..]);
    var mod97 := number % 97;
    if complement {
      r := 97 - mod97 == checkNumber;
    } else if mod97 == 0 {
      r := checkNumber == 97;
    } else {
      r := checkNumber == mod97;
    }
  }

  /**
   * For digits followed by two check digits, the check succeeds exactly
   * when the check digits are those computed from the digits before them.
   */
  lemma {:induction false} Mod97ValidIff(digits: string, check: string, complement: bool)
    requires IsDigits(digits) && AllDigits(check) && |check| == 2
    ensures Mod97Valid(digits + check, complement)
            <==> DigitsValue(check) == CheckDigitsFor(DigitsValue(digits), complement)
  {
    var v := digits + check;
    KeepDigitsOfDigits(v);
    assert v[..|v| - 2] == digits && v[|v| - 2..] == check;
  }

  /** Appending the computed check digits always gives a number the check accepts. */
  lemma {:induction false} Mod97CheckDigitsValidate(digits: string, complement: bool)
    requires IsDigits(digits)
    ensures Mod97Valid(digits + ZFill2(CheckDigitsFor(DigitsValue(digits), complement)), complement)
  {
    Mod97ValidIff(digits, ZFill2(CheckDigitsFor(DigitsValue(digits), complement)), complement);
  }

  /** Characters other than digits make no difference to a non-empty value with digits. */
  lemma {:induction false} Mod97IgnoresNonDigits(value: string, complement: bool)
    requires KeepDigits(value) != ""
    ensures Mod97Valid(value, complement) == Mod97Valid(KeepDigits(value), complement)
  {
    KeepDigitsIdempotent(value);
  }

  // ------------------------------------------------------------------------
  // BELGIAN_NISS
  // ------------------------------------------------------------------------

  const NISS_PREFIX := "2"

  /** The digits the NISS check works on: "2" is put first when the number starts with 0, 1, 2 or 3 (a birth year from 2000). */
  function NissDigits(niss: string): (r: string)
    requires |niss| > 0
  {
    if niss[0] in "0123" then NISS_PREFIX + niss else niss
  }

  /** What BELGIAN_NISS answers. */
  function NissValid(value: string): bool
  {
    if value == "" then true
    else
      var niss := KeepDigits(value);
      if |niss| != 11 then false
      else Mod97Valid(NissDigits(niss), true)
  }

  /** BELGIAN_NISS: 11 digits, checked with the modulo 97 complement. */
  method BelgianNiss(value: string) returns (r: bool)
    ensures r == NissValid(value)
  {
    if value == "" {
      return true;
    }
    var niss := KeepDigits(value);
    if |niss| != 11 {
      return false;
    }
    if niss[0] in "0123" {
      niss := NISS_PREFIX + niss;
    }
    r := Modulo97(niss, true);
  }

  /**
   * A NISS is valid exactly when its last two digits are the complement
   * check digits of its first nine, these prefixed by "2" when they start
   * with 0, 1, 2 or 3; the non-digit separators are ignored.
   */
  lemma {:induction false} NissValidIff(value: string)
    requires |KeepDigits(value)| == 11
    ensures var d := KeepDigits(value);
            var head := NissDigits(d)[..|NissDigits(d)| - 2];
            NissValid(value) <==> AllDigits(head) && DigitsValue(d[9..]) == CheckDigitsFor(DigitsValue(head), true)
  {
    var d := KeepDigits(value);
    var n := NissDigits(d);
    assert AllDigits(NISS_PREFIX);
    assert AllDigits(n);
    assert n[|n| - 2..] == d[9..];
    Mod97ValidIff(n[..|n| - 2], d[9..], true);
    assert n[..|n| - 2] + d[9..] == n;
  }

  // ------------------------------------------------------------------------
  // IBAN
  // ------------------------------------------------------------------------

  /** A character of the rotated IBAN as digits: a letter (in either case) A=10 ... Z=35, anything else itself. */
  function IbanCharDigits(c: char): (r: string)
    ensures IsAsciiAlnum(c) ==> IsDigits(r)
    ensures !IsAsciiLetter(c) ==> r == [c]
    ensures IsAsciiLetter(c) ==> |r| == 2 && DigitsValue(r) == Upper(c) as int - 55
  {
    if IsAsciiLetter(c) then
      var n := Upper(c) as int - 55;
      TwoDigitString(n);
      NatToStringValue(n);
      NatToString(n)
    else [c]
  }

  /** str(n) for a number of two digits. */
  lemma {:induction false} TwoDigitString(n: nat)
    requires 10 <= n < 100
    ensures NatToString(n) == [DigitChar(n / 10), DigitChar(n % 10)]
  {
  }

  /** The digit string the IBAN loop builds from the rotated value. */
  function IbanDigits(vv: string): string
  {
    if vv == [] then ""
    else IbanDigits(vv[..|vv| - 1]) + IbanCharDigits(vv[|vv| - 1])
  }

  /** Letters and digits give a digit string, one or two digits per character. */
  lemma {:induction false} IbanDigitsAreDigits(vv: string)
    requires AllAlnum(vv)
    ensures AllDigits(IbanDigits(vv)) && |vv| <= |IbanDigits(vv)| <= 2 * |vv|
  {
    if vv != [] {
      IbanDigitsAreDigits(vv[..|vv| - 1]);
    }
  }

  /** The four first characters put at the end, as the checksum reads them. */
  function Rotated(v: string): string
    requires |v| >= 4
  {
    v[4..] + v[..4]
  }

  /**
   * The checks of IBAN before the checksum: the length, the known country and
   * the control code int() reads, within 0..maxCode.
   */
  predicate IbanShape(v: string, countries: set<string>, maxCode: nat)
  {
    8 <= |v| <= 34
    && [Upper(v[0]), Upper(v[1])] in countries
    && ParseInt(v[2..4]).Some? && 0 <= ParseInt(v[2..4]).value <= maxCode
  }

  /**
   * The IBAN check with a bound on the control code, the checksum being
   * int(digits) % 97 == 1; that int() is outside the try, so digits it
   * cannot read (a space the normalisation left inside) raise ValueError.
   */
  function IbanCheck(value: string, countries: set<string>, maxCode: nat): Result<bool>
  {
    if value == "" then Ok(true)
    else
      var v := KeepAlnum(value);
      if !IbanShape(v, countries, maxCode) then Ok(false)
      else
        match ParseInt(IbanDigits(Rotated(v)))
        case None => Err(VALUE_ERROR)
        case Some(n) => Ok(Mod(n, 97) == 1)
  }

  const VALUE_ERROR := "ValueError"

  /** IBAN as written: control codes above 97 are rejected. */
  function IbanAsWritten(value: string, countries: set<string>): Result<bool>
  {
    IbanCheck(value, countries, 97)
  }

  /** IBAN as ISO 13616 defines it: the control code goes up to 98. */
  function IbanValid(value: string, countries: set<string>): Result<bool>
  {
    IbanCheck(value, countries, 98)
  }

  /**
   * IBAN: the known country code and the control code are checked, then the
   * rotated value, letters turned into numbers, must leave 1 modulo 97.
   * The countries Countries.get() knows are a parameter.
   */
  method Iban(value: string, countries: set<string>) returns (r: Result<bool>)
    ensures r == IbanValid(value, countries)
  {
    if value == "" {
      return Ok(true);
    }
    var v := KeepAlnum(value);
    if |v| < 8 || |v| > 34 {
      return Ok(false);
    }
    if [Upper(v[0]), Upper(v[1])] !in countries {
      return Ok(false);
    }
    var code := ParseInt(v[2..4]);
    if code.None? {
      return Ok(false);
    }
    if code.value < 0 || code.value > 98 {
      return Ok(false);
    }
    var vv := v[4..] + v[..4];
    var nv := "";
    for i := 0 to |vv|
      invariant nv == IbanDigits(vv[..i])
    {
      IbanDigitsStep(vv, i);
      nv := nv + IbanCharDigits(vv[i]);
    }
    assert vv[..|vv|] == vv;
    assert vv == Rotated(v);
    var n := ParseInt(nv);
    if n.None? {
      return Err(VALUE_ERROR);
    }
    r := Ok(Mod(n.value, 97) == 1);
  }

  lemma {:induction false} IbanDigitsStep(vv: string, i: nat)
    requires i < |vv|
    ensures IbanDigits(vv[..i + 1]) == IbanDigits(vv[..i]) + IbanCharDigits(vv[i])
  {
    assert vv[..i + 1][..i] == vv[..i];
  }

  lemma {:induction false} IbanDigitsAppend(a: string, b: string)
    ensures IbanDigits(a + b) == IbanDigits(a) + IbanDigits(b)
    decreases |b|
  {
    if b == [] {
      assert a + b == a;
    } else {
      var b0 := b[..|b| - 1];
      assert (a + b)[..|a + b| - 1] == a + b0;
      IbanDigitsAppend(a, b0);
    }
  }

  /** Digits stand for themselves in the IBAN digit string. */
  lemma {:induction false} IbanDigitsOfDigits(s: string)
    requires AllDigits(s)
    ensures IbanDigits(s) == s
  {
    if s != [] {
      var t, c := s[..|s| - 1], s[|s| - 1];
      assert AllDigits(t) && IsDigit(c);
      assert IbanDigits(s) == IbanDigits(t) + IbanCharDigits(c);
      IbanDigitsOfDigits(t);
      assert IbanCharDigits(c) == [c];
      assert t + [c] == s by { LastSplit(s); }
    }
  }

  /**
   * The IBAN a bank issues: country, check digits 98 - (n * 100) % 97 where
   * n is the number of the account followed by the country, and the account.
   */
  function IssuedCheck(account: string, country: string): nat
    requires AllAlnum(account)
    requires AllAlnum(country)
  {
    AllAlnumAppend(account, country);
    IbanDigitsAreDigits(account + country);
    98 - (DigitsValue(IbanDigits(account + country)) * 100) % 97
  }

  lemma {:induction false} IssuedCheckRange(n: nat)
    ensures 2 <= 98 - (n * 100) % 97 <= 98
    ensures (n * 100 + (98 - (n * 100) % 97)) % 97 == 1
  {
    var m := n * 100;
    DivModUnique(m, 97, m / 97, m % 97);
    DivModUnique(m + (98 - m % 97), 97, m / 97 + 1, 1);
  }

  /** The shape checks let an issued IBAN through, whatever its account. */
  lemma {:induction false} IssuedShape(country: string, check: string, account: string, countries: set<string>)
    requires |country| == 2 && IsAsciiUpper(country[0]) && IsAsciiUpper(country[1]) && country in countries
    requires AllAlnum(account) && 4 <= |account| <= 30
    requires IsDigits(check) && |check| == 2 && DigitsValue(check) <= 98
    ensures var value := country + check + account;
            KeepAlnum(value) == value && IbanShape(value, countries, 98)
            && Rotated(value) == account + country + check
  {
    var value := country + check + account;
    AllAlnumAppend(country, check);
    AllAlnumAppend(country + check, account);
    KeepAlnumOfAlnum(value);
    assert value[2..4] == check && value[..2] == country && value[4..] == account;
    ParseIntOfDigits(check);
    assert [Upper(value[0]), Upper(value[1])] == country;
  }

  /** The rotated digits of an issued IBAN: the number of account and country, times 100, plus the check digits. */
  lemma {:induction false} IssuedDigits(country: string, check: string, account: string)
    requires AllAlnum(account) && AllAlnum(country)
    requires AllDigits(check) && |check| == 2
    ensures AllDigits(IbanDigits(account + country))
    ensures AllDigits(IbanDigits(account + country + check))
    ensures DigitsValue(IbanDigits(account + country + check))
            == DigitsValue(IbanDigits(account + country)) * 100 + DigitsValue(check)
  {
    AllAlnumAppend(account, country);
    IbanDigitsAreDigits(account + country);
    IbanDigitsAppend(account + country, check);
    IbanDigitsOfDigits(check);
    DigitsValueSnoc2(IbanDigits(account + country), check);
  }

  /** An IBAN built with the ISO 13616 check digits passes the corrected check. */
  lemma {:induction false} IssuedIbanValid(country: string, account: string, countries: set<string>)
    requires |country| == 2 && IsAsciiUpper(country[0]) && IsAsciiUpper(country[1]) && country in countries
    requires AllAlnum(account)
    requires 4 <= |account| <= 30
    ensures IbanValid(country + ZFill2(IssuedCheck(account, country)) + account, countries) == Ok(true)
  {
    assert AllAlnum(country);
    assert AllDigits(IbanDigits(account + country)) by {
      AllAlnumAppend(account, country);
      IbanDigitsAreDigits(account + country);
    }
    var n := DigitsValue(IbanDigits(account + country));
    var c := IssuedCheck(account, country);
    assert (n * 100 + c) % 97 == 1 && c <= 98 by {
      IssuedCheckRange(n);
    }
    var check := ZFill2(c);
    assert IsDigits(check) && |check| == 2 && DigitsValue(check) == c;
    IbanValidOf(country, check, account, countries, n);
  }

  /** The IBAN of country, check digits and account, when the check digits complete the number n of account and country. */
  lemma {:induction false} IbanValidOf(country: string, check: string, account: string, countries: set<string>, n: nat)
    requires |country| == 2 && IsAsciiUpper(country[0]) && IsAsciiUpper(country[1]) && country in countries
    requires AllAlnum(account) && 4 <= |account| <= 30
    requires IsDigits(check) && |check| == 2 && DigitsValue(check) <= 98
    requires AllDigits(IbanDigits(account + country)) && DigitsValue(IbanDigits(account + country)) == n
    requires (n * 100 + DigitsValue(check)) % 97 == 1
    ensures IbanValid(country + check + account, countries) == Ok(true)
  {
    assert AllAlnum(country);
    assert AllAlnum(account + country + check) by {
      AllAlnumAppend(account, country);
      AllAlnumAppend(account + country, check);
    }
    IssuedSum(country, check, account, n);
    IssuedShape(country, check, account, countries);
    IbanCheckOf(country + check + account, account + country + check, countries, 98);
  }

  lemma {:induction false} IssuedSum(country: string, check: string, account: string, n: nat)
    requires AllAlnum(country) && AllAlnum(account) && AllDigits(check) && |check| == 2
    requires AllDigits(IbanDigits(account + country)) && DigitsValue(IbanDigits(account + country)) == n
    requires (n * 100 + DigitsValue(check)) % 97 == 1
    ensures AllDigits(IbanDigits(account + country + check)) && DigitsValue(IbanDigits(account + country + check)) % 97 == 1
  {
    assert AllDigits(IbanDigits(account + country + check))
      && DigitsValue(IbanDigits(account + country + check)) == n * 100 + DigitsValue(check) by {
      IssuedDigits(country, check, account);
    }
  }

  /** The IBAN check of a value that is its own alphanumeric part, from its shape and its rotated digits. */
  lemma {:induction false} IbanCheckOf(value: string, rot: string, countries: set<string>, maxCode: nat)
    requires KeepAlnum(value) == value && IbanShape(value, countries, maxCode)
    requires Rotated(value) == rot && AllAlnum(rot)
    requires AllDigits(IbanDigits(rot)) && DigitsValue(IbanDigits(rot)) % 97 == 1
    ensures IbanCheck(value, countries, maxCode) == Ok(true)
  {
    IbanDigitsAreDigits(rot);
    ParseIntOfDigits(IbanDigits(rot));
  }

  lemma {:induction false} KeepAlnumOfAlnum(s: string)
    requires AllAlnum(s)
    ensures KeepAlnum(s) == s
  {
    AlphanumOfAlnum(s, StringUtils.Replacement);
  }

  lemma {:induction false} AlphanumOfAlnum(s: string, replace: char -> Option<string>)
    requires AllAlnum(s)
    ensures Alphanum(s, replace) == s
  {
    if s != [] {
      AlphanumOfAlnum(s[..|s| - 1], replace);
    }
  }

  /** The check as written refuses every issued IBAN whose check digits are 98, about one in 97. */
  lemma {:induction false} IbanAsWrittenRejects98(country: string, account: string, countries: set<string>)
    requires |country| == 2 && IsAsciiUpper(country[0]) && IsAsciiUpper(country[1]) && country in countries
    requires AllAlnum(account)
    requires 4 <= |account| <= 30
    requires IssuedCheck(account, country) == 98
    ensures IbanAsWritten(country + ZFill2(98) + account, countries) == Ok(false)
    ensures IbanValid(country + ZFill2(98) + account, countries) == Ok(true)
  {
    IssuedIbanValid(country, account, countries);
    var value := country + ZFill2(98) + account;
    assert AllAlnum(value) by {
      AllAlnumAppend(country, ZFill2(98));
      AllAlnumAppend(country + ZFill2(98), account);
    }
    KeepAlnumOfAlnum(value);
    assert value[2..4] == ZFill2(98);
    ParseIntOfDigits(ZFill2(98));
  }

  const BE := "BE"
  const EXAMPLE_ACCOUNT := "0081"
  const EXAMPLE_DIGITS := "00811114"

  lemma {:induction false} LetterDigits(c: char, n: nat)
    requires IsAsciiUpper(c) && n == c as int - 55
    ensures IbanCharDigits(c) == [DigitChar(n / 10), DigitChar(n % 10)]
  {
    TwoDigitString(n);
  }

  const BE_DIGITS := "1114"

  lemma {:induction false} CountryDigits()
    ensures IbanDigits(BE) == BE_DIGITS
  {
    LetterDigits('B', 11);
    LetterDigits('E', 14);
    assert DigitChar(1) == '1' && DigitChar(4) == '4';
    assert BE[..1] == "B" && "B"[..0] == "";
    assert IbanDigits("B") == "11";
  }

  lemma {:induction false} ExampleDigits()
    ensures IbanDigits(EXAMPLE_ACCOUNT + BE) == EXAMPLE_DIGITS
  {
    assert IbanDigits(EXAMPLE_ACCOUNT + BE) == IbanDigits(EXAMPLE_ACCOUNT) + IbanDigits(BE) by {
      IbanDigitsAppend(EXAMPLE_ACCOUNT, BE);
    }
    assert IbanDigits(EXAMPLE_ACCOUNT) == EXAMPLE_ACCOUNT by {
      assert AllDigits(EXAMPLE_ACCOUNT);
      IbanDigitsOfDigits(EXAMPLE_ACCOUNT);
    }
    assert IbanDigits(BE) == BE_DIGITS by { CountryDigits(); }
    assert EXAMPLE_ACCOUNT + BE_DIGITS == EXAMPLE_DIGITS;
  }

  lemma {:induction false} ExampleAlnum()
    ensures AllAlnum(EXAMPLE_ACCOUNT) && AllAlnum(BE)
  {
  }

  lemma {:induction false} ExampleValueHead()
    ensures AllDigits(EXAMPLE_DIGITS[..4]) && DigitsValue(EXAMPLE_DIGITS[..4]) == 81
  {
    var d := EXAMPLE_DIGITS;
    assert d[..0] == "";
    DigitsValueSnoc(d[..0], d[0]);
    assert d[..1] == d[..0] + [d[0]];
    DigitsValueSnoc(d[..1], d[1]);
    assert d[..2] == d[..1] + [d[1]];
    DigitsValueSnoc(d[..2], d[2]);
    assert d[..3] == d[..2] + [d[2]];
    DigitsValueSnoc(d[..3], d[3]);
    assert d[..4] == d[..3] + [d[3]];
  }

  lemma {:induction false} ExampleValue()
    ensures AllDigits(EXAMPLE_DIGITS) && DigitsValue(EXAMPLE_DIGITS) == 811114
  {
    var d := EXAMPLE_DIGITS;
    ExampleValueHead();
    DigitsValueSnoc(d[..4], d[4]);
    assert d[..5] == d[..4] + [d[4]];
    DigitsValueSnoc(d[..5], d[5]);
    assert d[..6] == d[..5] + [d[5]];
    DigitsValueSnoc(d[..6], d[6]);
    assert d[..7] == d[..6] + [d[6]];
    DigitsValueSnoc(d[..7], d[7]);
    assert d == d[..7] + [d[7]];
  }

  /** A Belgian account whose ISO check digits are 98: "BE98" + "0081" passes the standard and fails the check as written. */
  lemma {:induction false} IbanAsWrittenRejectsExample(countries: set<string>)
    requires BE in countries
    ensures IbanAsWritten(BE + ZFill2(98) + EXAMPLE_ACCOUNT, countries) == Ok(false)
    ensures IbanValid(BE + ZFill2(98) + EXAMPLE_ACCOUNT, countries) == Ok(true)
  {
    ExampleAlnum();
    ExampleDigits();
    ExampleValue();
    assert IssuedCheck(EXAMPLE_ACCOUNT, BE) == 98;
    IbanAsWrittenRejects98(BE, EXAMPLE_ACCOUNT, countries);
  }

  const NBSP := '\U{a0}'

  /**
   * Normalize.alphanum does not only filter: accented letters lose their
   * accent, ligatures become two letters, the no-break space becomes a space
   * and the non-breaking hyphen a hyphen, while a plain space vanishes.
   */
  lemma {:induction false} AlphanumReplaces()
    ensures KeepAlnum("\U{c9}") == "E" && KeepAlnum("\U{e7}") == "c" && KeepAlnum("\U{c6}") == "AE"
    ensures KeepAlnum([NBSP]) == " " && KeepAlnum("\U{2011}") == "-"
    ensures KeepAlnum(" ") == "" && KeepAlnum("/") == ""
  {
    StringUtils.SomeReplacements();
    ReplacedBy('\U{c9}', "E");
    ReplacedBy('\U{e7}', "c");
    ReplacedBy('\U{c6}', "AE");
    ReplacedBy(NBSP, " ");
    ReplacedBy('\U{2011}', "-");
    Dropped(' ');
    Dropped('/');
  }

  lemma {:induction false} ReplacedBy(c: char, r: string)
    requires !IsAsciiAlnum(c) && StringUtils.Replacement(c) == Some(r)
    ensures KeepAlnum([c]) == r
  {
    KeepAlnumOne(c);
  }

  lemma {:induction false} Dropped(c: char)
    requires !IsAsciiAlnum(c) && StringUtils.Replacement(c).None?
    ensures KeepAlnum([c]) == ""
  {
    KeepAlnumOne(c);
  }

  lemma {:induction false} KeepAlnumOne(c: char)
    ensures KeepAlnum([c]) == AlnumChar(c, StringUtils.Replacement)
  {
    AlphanumOne(c, StringUtils.Replacement);
  }

  lemma {:induction false} AlphanumOne(c: char, replace: char -> Option<string>)
    ensures Alphanum([c], replace) == AlnumChar(c, replace)
  {
    assert [c][..0] == "";
  }

  lemma {:induction false} KeepAlnumAppend(a: string, b: string)
    ensures KeepAlnum(a + b) == KeepAlnum(a) + KeepAlnum(b)
  {
    AlphanumAppend(a, b, StringUtils.Replacement);
  }

  lemma {:induction false} AlphanumAppend(a: string, b: string, replace: char -> Option<string>)
    ensures Alphanum(a + b, replace) == Alphanum(a, replace) + Alphanum(b, replace)
    decreases |b|
  {
    if b == [] {
      assert a + b == a;
    } else {
      var b0, c := b[..|b| - 1], b[|b| - 1];
      assert (a + b)[..|a + b| - 1] == a + b0;
      assert (a + b)[|a + b| - 1] == c;
      calc {
        Alphanum(a + b, replace);
        Alphanum(a + b0, replace) + AlnumChar(c, replace);
        { AlphanumAppend(a, b0, replace); }
        Alphanum(a, replace) + Alphanum(b0, replace) + AlnumChar(c, replace);
        Alphanum(a, replace) + (Alphanum(b0, replace) + AlnumChar(c, replace));
        Alphanum(a, replace) + Alphanum(b, replace);
      }
    }
  }

  /**
   * An IBAN written with no-break spaces between digit groups (as it is often
   * printed) keeps a space inside the digits the checksum reads, and the int()
   * there, outside the try, raises ValueError instead of answering; the check
   * as written and the corrected one alike.
   */
  lemma {:induction false} IbanNoBreakSpaceRaises(country: string, check: string, a: string, b: string,
                                                 countries: set<string>)
    requires |country| == 2 && IsAsciiUpper(country[0]) && IsAsciiUpper(country[1]) && country in countries
    requires IsDigits(check) && |check| == 2 && DigitsValue(check) <= 97
    requires IsDigits(a) && IsDigits(b) && 3 <= |a| + |b| <= 29
    ensures IbanValid(country + check + a + [NBSP] + b, countries) == Err(VALUE_ERROR)
    ensures IbanAsWritten(country + check + a + [NBSP] + b, countries) == Err(VALUE_ERROR)
  {
    var value := country + check + a + [NBSP] + b;
    var v := country + check + a + " " + b;
    assert KeepAlnum(value) == v by { NoBreakSpaceNormalised(country + check + a, b); }
    assert v[0] == country[0] && v[1] == country[1] && v[2..4] == check;
    assert [Upper(v[0]), Upper(v[1])] == country;
    ParseIntOfDigits(check);
    assert IbanShape(v, countries, 97) && IbanShape(v, countries, 98);
    assert Rotated(v) == a + " " + b + (country + check);
    var d := IbanDigits(Rotated(v));
    assert ParseInt(d) == None by { RotatedSpaceDigits(a, b, country, check); }
  }

  /** A no-break space between two alphanumeric texts is normalised to a space. */
  lemma {:induction false} NoBreakSpaceNormalised(x: string, y: string)
    requires AllAlnum(x) && AllAlnum(y)
    ensures KeepAlnum(x + [NBSP] + y) == x + " " + y
  {
    KeepAlnumAppend(x + [NBSP], y);
    KeepAlnumAppend(x, [NBSP]);
    KeepAlnumOfAlnum(x);
    KeepAlnumOfAlnum(y);
    AlphanumReplaces();
  }

  /** The digits of a rotated value with a space between two digit groups hold that space, so int() refuses them. */
  lemma {:induction false} RotatedSpaceDigits(a: string, b: string, country: string, check: string)
    requires IsDigits(a) && IsDigits(b) && AllAlnum(country) && IsDigits(check)
    ensures ParseInt(IbanDigits(a + " " + b + (country + check))) == None
  {
    var head := a + " " + b;
    var tail := IbanDigits(country + check);
    assert IbanDigits(head) == head by { SpacedDigits(a, b); }
    assert IbanDigits(head + (country + check)) == head + tail by {
      IbanDigitsAppend(head, country + check);
    }
    assert |tail| > 0 && IsDigit(tail[|tail| - 1]) by { TailDigits(country, check); }
    SpaceInside(a, b, tail);
  }

  lemma {:induction false} SpacedDigits(a: string, b: string)
    requires AllDigits(a) && AllDigits(b)
    ensures IbanDigits(a + " " + b) == a + " " + b
  {
    IbanDigitsAppend(a + " ", b);
    IbanDigitsAppend(a, " ");
    IbanDigitsOfDigits(a);
    IbanDigitsOfDigits(b);
    assert IbanDigits(" ") == " " by { assert " "[..0] == ""; }
  }

  lemma {:induction false} TailDigits(country: string, check: string)
    requires AllAlnum(country) && IsDigits(check)
    ensures var tail := IbanDigits(country + check);
            |tail| > 0 && IsDigit(tail[|tail| - 1])
  {
    IbanDigitsAppend(country, check);
    IbanDigitsOfDigits(check);
  }

  lemma {:induction false} SpaceInside(a: string, b: string, tail: string)
    requires IsDigits(a) && |tail| > 0 && IsDigit(tail[|tail| - 1])
    ensures ParseInt(a + " " + b + tail) == None
  {
    var d := a + " " + b + tail;
    assert d[0] == a[0] && d[|a|] == ' ' && d[|d| - 1] == tail[|tail| - 1];
    InnerSpaceIsNotInt(d, |a|);
  }

  /** int() refuses a text that starts and ends with a digit and holds a space. */
  lemma {:induction false} InnerSpaceIsNotInt(d: string, i: nat)
    requires 0 < i < |d| - 1 && IsDigit(d[0]) && IsDigit(d[|d| - 1]) && d[i] == ' '
    ensures ParseInt(d) == None
  {
    assert LStrip(d) == d;
    assert RStrip(d) == d;
    assert !IsIntLiteral(d) by {
      assert !(IsDigit(d[i]) || d[i] == '_');
    }
  }

  // ------------------------------------------------------------------------
  // BIC
  // ------------------------------------------------------------------------

  /** What BIC answers: 8 or 11 characters, a 4-letter bank code, a known country, then letters or digits. */
  predicate BicValid(value: string, countries: set<string>)
  {
    value == ""
    || ((|value| == 8 || |value| == 11)
        && (forall k | 0 <= k < 4 :: IsAsciiLetter(value[k]))
        && [Upper(value[4]), Upper(value[5])] in countries
        && (forall k | 6 <= k < |value| :: IsAsciiAlnum(value[k])))
  }

  /** BIC: the bank code and location are checked character by character. */
  method Bic(value: string, countries: set<string>) returns (r: bool)
    ensures r == BicValid(value, countries)
  {
    if value == "" {
      return true;
    }
    if |value| != 8 && |value| != 11 {
      return false;
    }
    for i := 0 to 4
      invariant forall k | 0 <= k < i :: IsAsciiLetter(value[k])
    {
      if !IsAsciiLetter(value[i]) {
        return false;
      }
    }
    if [Upper(value[4]), Upper(value[5])] !in countries {
      return false;
    }
    for i := 6 to |value|
      invariant forall k | 6 <= k < i :: IsAsciiAlnum(value[k])
    {
      if !IsAsciiAlnum(value[i]) {
        return false;
      }
    }
    return true;
  }

  // ------------------------------------------------------------------------
  // getRange
  // ------------------------------------------------------------------------

  const STAR := "*"
  const RANGE_END := "z"

  /** A search value: a string, a range in_(lo, hi), or an operator built elsewhere. */
  datatype SearchValue = Text(s: string) | Range(lo: string, hi: string) | Operator(name: string)

  /** getRange: a string ending with "*" becomes the range from its prefix to the prefix followed by "z". */
  function GetRange(value: SearchValue): (r: SearchValue)
    ensures (value.Text? && EndsWith(value.s, STAR)) <==> r != value
    ensures r != value ==> r.Range? && r.lo + STAR == value.s && r.hi == r.lo + RANGE_END
  {
    if value.Text? && EndsWith(value.s, STAR) then
      var prefix := value.s[..|value.s| - 1];
      assert prefix + STAR == value.s;
      Range(prefix, prefix + RANGE_END)
    else value
  }

  /** Lexicographic order on strings, as Python compares them. */
  predicate LexLe(a: string, b: string)
  {
    a == [] || (b != [] && (a[0] < b[0] || (a[0] == b[0] && LexLe(a[1..], b[1..]))))
  }

  /**
   * The range covers the words the star stands for: each word starting
   * with the prefix, and going on with a character before "z", lies
   * between the bounds of the range.
   */
  lemma {:induction false} RangeCoversPrefix(prefix: string, word: string)
    requires StartsWith(word, prefix)
    requires |word| == |prefix| || word[|prefix|] < 'z'
    ensures LexLe(prefix, word) && LexLe(word, prefix + RANGE_END)
    decreases |prefix|
  {
    if prefix != [] {
      assert word[1..][..|prefix| - 1] == prefix[1..];
      RangeCoversPrefix(prefix[1..], word[1..]);
      assert (prefix + RANGE_END)[1..] == prefix[1..] + RANGE_END;
    }
  }

  // ------------------------------------------------------------------------
  // getUniStorableValue
  // ------------------------------------------------------------------------

  /** value[:max] with Python's reading of a negative bound (counted from the end). */
  function SlicePrefix(s: string, max: int): (r: string)
    ensures |r| <= |s| && r == s[..|r|]
    ensures 0 <= max ==> |r| == if max < |s| then max else |s|
  {
    if max >= 0 then (if max < |s| then s[..max] else s)
    else if |s| + max >= 0 then s[..|s| + max]
    else ""
  }

  /**
   * String.getUniStorableValue: a non-empty value is stripped if the field
   * says so, then cleaned (StringCleaner.clean, a parameter); a non-empty
   * cleaned value is transformed (applyTransform, a parameter) and cut to
   * maxChars when it is longer.
   */
  function GetUniStorableValue(value: Option<string>, stripped: bool, maxChars: Option<int>,
                               clean: Option<string> -> Option<string>, transform: string -> string): (r: Option<string>)
    ensures var cleaned := clean(if value.Some? && value.value != "" && stripped then Some(Strip(value.value)) else value);
            (cleaned.None? || cleaned.value == "") ==> r == cleaned
    ensures maxChars.Some? && maxChars.value > 0 && r.Some? ==> |r.value| <= maxChars.value || r.value == ""
  {
    var v := if value.Some? && value.value != "" && stripped then Some(Strip(value.value)) else value;
    var c := clean(v);
    if c.None? || c.value == "" then c
    else
      var t := transform(c.value);
      if maxChars.Some? && maxChars.value != 0 && |t| > maxChars.value then Some(SlicePrefix(t, maxChars.value))
      else Some(t)
  }

  /** A stored non-empty value is the transformed value, cut to at most maxChars characters, and kept whole when it fits. */
  lemma {:induction false} StoredValueFits(value: Option<string>, stripped: bool, maxChars: int,
                        clean: Option<string> -> Option<string>, transform: string -> string)
    requires maxChars > 0
    requires var v := if value.Some? && value.value != "" && stripped then Some(Strip(value.value)) else value;
             clean(v).Some? && clean(v).value != ""
    ensures var v := if value.Some? && value.value != "" && stripped then Some(Strip(value.value)) else value;
            var t := transform(clean(v).value);
            var r := GetUniStorableValue(value, stripped, Some(maxChars), clean, transform);
            r.Some? && |r.value| <= maxChars && r.value == t[..|r.value|]
            && (|t| <= maxChars ==> r.value == t)
  {
  }
}
