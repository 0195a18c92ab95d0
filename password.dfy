/**
 * Password: the rules a Password field imposes on a new password, namely a
 * minimum length, a confirmation equal to it, and a minimum number of
 * characters from each group (lowercase letters, uppercase letters,
 * figures, special characters).
 */
module Password {
  import opened Py

  /** The groups of characters a password is made of. */
  datatype Group = Lower | Upper | Figure | Special

  /** A group is a range of character codes, or an explicit string of characters. */
  datatype CharRange = Codes(lo: int, hi: int) | Chars(chars: string)

  /** Password.specialChars */
  const SPECIAL_CHARS := "&`|@\"'!°$*%€·£+~/\\#=()[]{}§µ"

  /** Password.charRanges */
  function CharRangeOf(g: Group): CharRange
  {
    match g
    case Lower => Codes(97, 122)
    case Upper => Codes(65, 90)
    case Figure => Codes(48, 57)
    case Special => Chars(SPECIAL_CHARS)
  }

  /** A minimum number of occurrences per group, in the order of the occurrences dict. */
  type Occurrences = seq<(Group, int)>

  /** Password.defaultOccurrences: one lowercase letter and one figure. */
  const DEFAULT_OCCURRENCES: Occurrences := [(Lower, 1), (Upper, 0), (Figure, 1), (Special, 0)]

  /** The occurrences a field keeps: those given, or the default ones when none (or an empty dict) is given. */
  function FieldOccurrences(given: Option<Occurrences>): (r: Occurrences)
    ensures given.Some? && given.value != [] ==> r == given.value
    ensures given.None? || given.value == [] ==> r == DEFAULT_OCCURRENCES
  {
    if given.Some? && given.value != [] then given.value else DEFAULT_OCCURRENCES
  }

  /** The keys of a dict are distinct. */
  predicate DistinctGroups(occ: Occurrences)
  {
    forall i, j | 0 <= i < j < |occ| :: occ[i].0 != occ[j].0
  }

  /** Whether a character belongs to a group: its code within the bounds, or the character in the string. */
  predicate InRange(c: char, r: CharRange)
  {
    match r
    case Codes(lo, hi) => lo <= c as int <= hi
    case Chars(chars) => c in chars
  }

  predicate InGroup(c: char, g: Group)
  {
    InRange(c, CharRangeOf(g))
  }

  /** The number of characters of `password` in group `g`. */
  function Count(password: string, g: Group): (n: nat)
    ensures n <= |password|
  {
    if password == [] then 0
    else Count(password[..|password| - 1], g) + (if InGroup(password[|password| - 1], g) then 1 else 0)
  }

  /** A group with a non-zero minimum is counted: the key of such an entry. */
  predicate Counted(occ: Occurrences, g: Group)
  {
    exists k | 0 <= k < |occ| :: occ[k].0 == g && occ[k].1 != 0
  }

  /** What the counts dict holds for a group, 0 standing for a missing key (None). */
  function Found(counts: map<Group, nat>, g: Group): nat
  {
    if g in counts then counts[g] else 0
  }

  /** The report for a group with too few characters. */
  datatype OccurrenceError = OccurrenceError(group: Group, found: nat, min: int)

  /** An entry fails when its minimum is not 0 and no character (None) or fewer than the minimum were found. */
  predicate Fails(password: string, entry: (Group, int))
  {
    entry.1 != 0 && (Count(password, entry.0) == 0 || Count(password, entry.0) < entry.1)
  }

  /** The report validateOccurrences gives: the first failing entry, in the dict's order. */
  function FirstFailure(password: string, occ: Occurrences): Option<OccurrenceError>
  {
    if occ == [] then None
    else if Fails(password, occ[0]) then Some(OccurrenceError(occ[0].0, Count(password, occ[0].0), occ[0].1))
    else FirstFailure(password, occ[1..])
  }

  /**
   * validateOccurrences: counts the characters of each counted group in one
   * pass over the password, then reports the first group below its minimum.
   */
  method ValidateOccurrences(password: string, occ: Occurrences) returns (r: Option<OccurrenceError>)
    requires DistinctGroups(occ)
    ensures r == FirstFailure(password, occ)
  {
    var counts: map<Group, nat> := map[];
    for i := 0 to |password|
      invariant forall g | g in counts :: counts[g] > 0
      invariant forall g :: Found(counts, g) == if Counted(occ, g) then Count(password[..i], g) else 0
    {
      CountStep(password, i);
      counts := CountChar(counts, password[i], occ);
    }
    assert password[..|password|] == password;
    for j := 0 to |occ|
      invariant FirstFailure(password, occ) == FirstFailure(password, occ[j..])
    {
      assert occ[j..][1..] == occ[j + 1..];
      var (name, min) := occ[j];
      if min == 0 {
        continue;
      }
      assert Counted(occ, name);
      if name !in counts || counts[name] < min {
        return Some(OccurrenceError(name, Found(counts, name), min));
      }
    }
    return None;
  }

  /** The inner loop of validateOccurrences: one character counted in each counted group that holds it. */
  method CountChar(counts: map<Group, nat>, c: char, occ: Occurrences) returns (r: map<Group, nat>)
    requires DistinctGroups(occ)
    requires forall g | g in counts :: counts[g] > 0
    ensures forall g | g in r :: r[g] > 0
    ensures forall g :: Found(r, g) == Found(counts, g) + (if Counted(occ, g) && InGroup(c, g) then 1 else 0)
  {
    r := counts;
    for j := 0 to |occ|
      invariant forall g | g in r :: r[g] > 0
      invariant forall g :: Found(r, g) == Found(counts, g) + (if Counted(occ[..j], g) && InGroup(c, g) then 1 else 0)
    {
      CountedStep(occ, j);
      var (name, min) := occ[j];
      if min == 0 {
        continue;
      }
      if !InRange(c, CharRangeOf(name)) {
        continue;
      }
      if name !in r {
        r := r[name := 1];
      } else {
        r := r[name := r[name] + 1];
      }
    }
    assert occ[..|occ|] == occ;
  }

  /** One more entry of the dict: only its own group can become counted, and it does when its minimum is not 0. */
  lemma {:induction false} CountedStep(occ: Occurrences, j: nat)
    requires DistinctGroups(occ) && j < |occ|
    ensures forall g | g != occ[j].0 :: Counted(occ[..j + 1], g) == Counted(occ[..j], g)
    ensures !Counted(occ[..j], occ[j].0)
    ensures Counted(occ[..j + 1], occ[j].0) <==> occ[j].1 != 0
  {
    assert forall k | 0 <= k < j :: occ[..j + 1][k] == occ[..j][k] == occ[k];
    assert occ[..j + 1][j] == occ[j];
  }

  /** One more character of the password, counted in each group. */
  lemma {:induction false} CountStep(password: string, i: nat)
    requires i < |password|
    ensures forall g :: Count(password[..i + 1], g) == Count(password[..i], g) + (if InGroup(password[i], g) then 1 else 0)
  {
    assert password[..i + 1][..i] == password[..i];
  }

  /** No report exactly when every group with a minimum has at least one character and reaches the minimum. */
  lemma {:induction false} FirstFailureNoneIff(password: string, occ: Occurrences)
    ensures FirstFailure(password, occ).None? <==> forall k | 0 <= k < |occ| :: !Fails(password, occ[k])
  {
    if occ != [] {
      FirstFailureNoneIff(password, occ[1..]);
      assert forall k | 1 <= k < |occ| :: occ[k] == occ[1..][k - 1];
    }
  }

  /** A report names a failing group, with the number of its characters, and every group before it passes. */
  lemma {:induction false} FirstFailureIsFirst(password: string, occ: Occurrences)
    requires FirstFailure(password, occ).Some?
    ensures exists k | 0 <= k < |occ| ::
              Fails(password, occ[k])
              && FirstFailure(password, occ) == Some(OccurrenceError(occ[k].0, Count(password, occ[k].0), occ[k].1))
              && forall i | 0 <= i < k :: !Fails(password, occ[i])
  {
    if !Fails(password, occ[0]) {
      FirstFailureIsFirst(password, occ[1..]);
      var k :| 0 <= k < |occ[1..]| && Fails(password, occ[1..][k])
               && FirstFailure(password, occ[1..]) == Some(OccurrenceError(occ[1..][k].0, Count(password, occ[1..][k].0), occ[1..][k].1))
               && forall i | 0 <= i < k :: !Fails(password, occ[1..][i]);
      assert forall i | 1 <= i < k + 1 :: occ[i] == occ[1..][i - 1];
      assert occ[k + 1] == occ[1..][k];
    }
  }

  /** Groups whose minimum is 0 never fail, so removing them changes nothing. */
  lemma {:induction false} ZeroMinimumsIgnored(password: string, occ: Occurrences, g: Group)
    ensures !Fails(password, (g, 0))
    ensures FirstFailure(password, [(g, 0)] + occ) == FirstFailure(password, occ)
  {
    assert ([(g, 0)] + occ)[1..] == occ;
  }

  /** A group has no character (the missing key of counts) exactly when no character of the password belongs to it. */
  lemma {:induction false} CountIsZeroIff(password: string, g: Group)
    ensures Count(password, g) == 0 <==> forall k | 0 <= k < |password| :: !InGroup(password[k], g)
  {
    if password != [] {
      var init := password[..|password| - 1];
      CountIsZeroIff(init, g);
      assert forall k | 0 <= k < |init| :: init[k] == password[k];
    }
  }

  lemma {:induction false} CountAppend(password: string, extra: string, g: Group)
    ensures Count(password + extra, g) >= Count(password, g)
    decreases |extra|
  {
    if extra != [] {
      var e0 := extra[..|extra| - 1];
      assert (password + extra)[..|password + extra| - 1] == password + e0;
      CountAppend(password, e0, g);
    } else {
      assert password + extra == password;
    }
  }

  /** Adding characters to a password that meets the minimums keeps it meeting them. */
  lemma {:induction false} MoreCharactersStillPass(password: string, extra: string, occ: Occurrences)
    requires FirstFailure(password, occ).None?
    ensures FirstFailure(password + extra, occ).None?
  {
    FirstFailureNoneIff(password, occ);
    FirstFailureNoneIff(password + extra, occ);
    forall k | 0 <= k < |occ| ensures !Fails(password + extra, occ[k]) {
      CountAppend(password, extra, occ[k].0);
    }
  }

  // ------------------------------------------------------------------------
  // validateValue
  // ------------------------------------------------------------------------

  /** Why a password is refused. */
  datatype PasswordError = TooShort(minLength: int) | Mismatch | TooFew(e: OccurrenceError)

  /** What validateValue answers: the length first, then the confirmation, then the occurrences. */
  function ValidateSpec(password: string, confirm: Option<string>, minLength: int, occ: Occurrences): Option<PasswordError>
  {
    if |password| < minLength then Some(TooShort(minLength))
    else if confirm != Some(password) then Some(Mismatch)
    else
      match FirstFailure(password, occ)
      case None => None
      case Some(e) => Some(TooFew(e))
  }

  /** validateValue; `confirm` is the "<name>_confirm" request value, None when absent. */
  method ValidateValue(password: string, confirm: Option<string>, minLength: int, occ: Occurrences)
    returns (r: Option<PasswordError>)
    requires DistinctGroups(occ)
    ensures r == ValidateSpec(password, confirm, minLength, occ)
  {
    if |password| < minLength {
      return Some(TooShort(minLength));
    }
    if confirm != Some(password) {
      return Some(Mismatch);
    }
    var e := ValidateOccurrences(password, occ);
    r := if e.None? then None else Some(TooFew(e.value));
  }

  /**
   * A password is accepted exactly when it is long enough, confirmed and
   * meets every minimum; a short password is reported as short whatever
   * else is wrong, and a mismatch is reported before the occurrences.
   */
  lemma {:induction false} ValidateOrder(password: string, confirm: Option<string>, minLength: int, occ: Occurrences)
    ensures ValidateSpec(password, confirm, minLength, occ).None?
            <==> |password| >= minLength && confirm == Some(password)
                 && forall k | 0 <= k < |occ| :: !Fails(password, occ[k])
    ensures |password| < minLength ==> ValidateSpec(password, confirm, minLength, occ) == Some(TooShort(minLength))
    ensures |password| >= minLength && confirm != Some(password) ==> ValidateSpec(password, confirm, minLength, occ) == Some(Mismatch)
  {
    FirstFailureNoneIff(password, occ);
  }
}
