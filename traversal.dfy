/**
 * URL traversal: how a path part becomes an object ID, and the security
 * check made before an element is traversed, from the traversal info that
 * protects it ("role", "perm:<permission>", "user:<login>", a boolean, or a
 * sequence of such infos, any of which grants access).
 */
module Traversals {
  import opened Py

  // ------------------------------------------------------------------------
  // asObjectId
  // ------------------------------------------------------------------------

  /** An object ID: an integer (negative for a temporary object) or a custom string. */
  datatype ObjectId = IntId(n: int) | StrId(s: string)

  /** asObjectId: digits, or "-" then digits, are an integer ID; anything else is a string ID. */
  function AsObjectId(part: string): (r: ObjectId)
    ensures r.StrId? ==> r.s == part
    ensures r.IntId? ==> IsDigits(part) || (|part| > 0 && part[0] == '-' && IsDigits(part[1..]))
    ensures IsDigits(part) ==> r == IntId(DigitsValue(part))
    ensures |part| > 0 && part[0] == '-' && IsDigits(part[1..]) ==> r == IntId(-(DigitsValue(part[1..]) as int))
  {
    if IsDigits(part) then IntId(DigitsValue(part))
    else if StartsWith(part, MINUS) && IsDigits(part[1..]) then IntId(-(DigitsValue(part[1..]) as int))
    else StrId(part)
  }

  /** Every integer ID, written in decimal, is read back as that integer. */
  lemma {:induction false} IntIdRoundTrip(i: int)
    ensures AsObjectId(IntToString(i)) == IntId(i)
  {
    if i < 0 {
      var d := NatToString(-i);
      NatToStringValue(-i);
      var s := MINUS + d;
      assert s[1..] == d && s[..1] == MINUS;
      assert !IsDigits(s) by { assert s[0] == '-'; }
    } else {
      NatToStringValue(i);
    }
  }

  /** A part with a character other than a digit after its optional leading minus stays a string ID. */
  lemma {:induction false} NonNumericPartStays(part: string, k: nat)
    requires k < |part| && !IsDigit(part[k]) && (k > 0 || part[0] != '-')
    ensures AsObjectId(part) == StrId(part)
  {
    assert !IsDigits(part);
    if StartsWith(part, MINUS) {
      assert k > 0 && part[1..][k - 1] == part[k];
    }
  }

  // ------------------------------------------------------------------------
  // getPermission
  // ------------------------------------------------------------------------

  const READ := "read"
  const WRITE := "write"

  /** The read and write permissions of a field. */
  datatype FieldPerms = FieldPerms(readPermission: string, writePermission: string)

  /** getPermission: within a field, "read" and "write" are the field's own permissions. */
  function Permission(field: Option<FieldPerms>, permission: string): (r: string)
    ensures field.None? ==> r == permission
    ensures field.Some? && permission == READ ==> r == field.value.readPermission
    ensures field.Some? && permission == WRITE ==> r == field.value.writePermission
    ensures permission != READ && permission != WRITE ==> r == permission
  {
    if field.None? then permission
    else if permission == READ then field.value.readPermission
    else if permission == WRITE then field.value.writePermission
    else permission
  }

  // ------------------------------------------------------------------------
  // allowTraversal
  // ------------------------------------------------------------------------

  /** Traversal info: a boolean, a string, None, or a sequence of infos. */
  datatype Info = Flag(b: bool) | Text(s: string) | Absent | AnyOf(infos: seq<Info>)

  /**
   * What the check needs to know: the traversed field (if any), the user's
   * roles and login, the permissions the user has on the object, and the
   * element's name and the path, for the refusal message.
   */
  datatype Env = Env(field: Option<FieldPerms>, roles: set<string>, login: string,
                     granted: set<string>, name: string, path: string)

  const COLON := ":"
  const PERM := "perm"
  const USER := "user"

  function UnknownType(t: string): string
  {
    "Unknown traversal type \"" + t + "\"."
  }

  function Untraversable(env: Env): string
  {
    "Untraversable element \"" + env.name + "\" while traversing " + env.path + "."
  }

  /**
   * allowTraversal without raising on refusal: a boolean is the answer; a
   * string without a colon is a role; "perm:x" a permission on the object,
   * "user:x" a login; another prefix raises; None refuses; a sequence grants
   * as soon as one of its infos does.
   */
  function Check(env: Env, info: Info): Result<bool>
    decreases info
  {
    match info
    case Flag(b) => Ok(b)
    case Text(s) => CheckText(env, s)
    case Absent => Ok(false)
    case AnyOf(infos) => CheckAny(env, infos)
  }

  function CheckText(env: Env, s: string): Result<bool>
  {
    if ':' !in s then Ok(s in env.roles)
    else
      ContainsChar(s, ':');
      var parts := SplitOnce(s, COLON);
      var (t, rest) := (parts[0], parts[1]);
      if t == PERM then Ok(Permission(env.field, rest) in env.granted)
      else if t == USER then Ok(env.login == rest)
      else Err(UnknownType(t))
  }

  /** The loop over a sequence of infos: the first error, the first grant, or a refusal. */
  function CheckAny(env: Env, infos: seq<Info>): Result<bool>
    decreases infos
  {
    if infos == [] then Ok(false)
    else
      match Check(env, infos[0])
      case Err(e) => Err(e)
      case Ok(true) => Ok(true)
      case Ok(false) => CheckAny(env, infos[1..])
  }

  /** allowTraversal: with raiseError, a refusal raises Unauthorized. */
  function Allowed(env: Env, info: Info, raiseError: bool): (r: Result<bool>)
    ensures raiseError && r.Ok? ==> r.value
  {
    match Check(env, info)
    case Err(e) => Err(e)
    case Ok(b) => if raiseError && !b then Err(Untraversable(env)) else Ok(b)
  }

  /** allowTraversal, with its loop over a sequence of infos and its recursive calls. */
  method AllowTraversal(env: Env, info: Info, raiseError: bool) returns (r: Result<bool>)
    ensures r == Allowed(env, info, raiseError)
    decreases info
  {
    match info {
      case Flag(b) =>
        r := Ok(b);
      case Text(s) =>
        r := CheckText(env, s);
      case Absent =>
        r := Ok(false);
      case AnyOf(infos) =>
        r := Ok(false);
        var k := 0;
        while k < |infos|
          invariant 0 <= k <= |infos|
          invariant CheckAny(env, infos) == CheckAny(env, infos[k..])
          decreases |infos| - k
        {
          assert infos[k..][1..] == infos[k + 1..];
          var one := AllowTraversal(env, infos[k], false);
          if one.Err? {
            r := one;
            break;
          }
          if one.value {
            r := Ok(true);
            break;
          }
          k := k + 1;
        }
    }
    if r.Ok? && raiseError && !r.value {
      r := Err(Untraversable(env));
    }
  }

  /**
   * A sequence of infos none of which raises grants access exactly when one
   * of them does (logical OR).
   */
  lemma {:induction false} AnyIsOr(env: Env, infos: seq<Info>)
    requires forall k | 0 <= k < |infos| :: Check(env, infos[k]).Ok?
    ensures CheckAny(env, infos) == Ok(exists k | 0 <= k < |infos| :: Check(env, infos[k]).value)
    decreases |infos|
  {
    if infos != [] {
      AnyIsOr(env, infos[1..]);
      assert forall k | 1 <= k < |infos| :: infos[1..][k - 1] == infos[k];
      if Check(env, infos[0]).value {
        assert Check(env, infos[0]).value;
      } else {
        assert (exists k | 0 <= k < |infos| :: Check(env, infos[k]).value)
           <==> (exists k | 0 <= k < |infos[1..]| :: Check(env, infos[1..][k]).value);
      }
    }
  }

  /** Infos after the first granting one are not looked at, even one that would raise. */
  lemma {:induction false} FirstGrantWins(env: Env, infos: seq<Info>, k: nat)
    requires k < |infos| && Check(env, infos[k]) == Ok(true)
    requires forall j | 0 <= j < k :: Check(env, infos[j]) == Ok(false)
    ensures CheckAny(env, infos) == Ok(true)
    decreases k
  {
    if k > 0 {
      assert forall j | 0 <= j < k - 1 :: infos[1..][j] == infos[j + 1];
      FirstGrantWins(env, infos[1..], k - 1);
    }
  }

  /** The meaning of a string info, one prefix after the other. */
  lemma {:induction false} TextInfos(env: Env, x: string, t: string)
    requires ':' !in t && t != PERM && t != USER
    ensures ':' !in x ==> Check(env, Text(x)) == Ok(x in env.roles)
    ensures Check(env, Text(PERM + COLON + x)) == Ok(Permission(env.field, x) in env.granted)
    ensures Check(env, Text(USER + COLON + x)) == Ok(env.login == x)
    ensures Check(env, Text(t + COLON + x)) == Err(UnknownType(t))
  {
    PrefixedInfo(PERM, x);
    PrefixedInfo(USER, x);
    PrefixedInfo(t, x);
  }

  lemma {:induction false} PrefixedInfo(t: string, x: string)
    requires ':' !in t
    ensures ':' in t + COLON + x
    ensures SplitOnce(t + COLON + x, COLON) == [t, x]
  {
    assert (t + COLON + x)[|t|] == ':';
    ContainsChar(t, ':');
    SplitOnceAt(t, COLON, x);
  }

  /** With raiseError, refusal raises Unauthorized and nothing else changes. */
  lemma {:induction false} RefusalRaises(env: Env, info: Info)
    ensures Check(env, info) == Ok(false) ==> Allowed(env, info, true) == Err(Untraversable(env))
    ensures Check(env, info) == Ok(true) ==> Allowed(env, info, true) == Ok(true)
    ensures Allowed(env, info, false) == Check(env, info)
  {
  }

  // ------------------------------------------------------------------------
  // getTraversalInfo
  // ------------------------------------------------------------------------

  datatype Mode = Standard | Static

  /** The kinds of element reached by a traversal step. */
  datatype Element = FieldElem(readPermission: string) | TransitionElem(triggerable: bool) | PxElem | OtherElem

  const PERM_PREFIX := "perm:"

  /**
   * getTraversalInfo: the info declared on the previous element for this
   * name, else a default from the element's kind; then, walking a field in
   * static mode, a permission info becomes True (there is no object to check
   * it on).
   */
  function TraversalInfo(mode: Mode, traverse: map<string, Info>, name: string,
                         previousIsField: bool, current: Element): (r: Info)
    ensures mode == Static && previousIsField ==> !(r.Text? && StartsWith(r.s, PERM_PREFIX))
  {
    var r :=
      if name in traverse then traverse[name]
      else match current
        case FieldElem(p) => if mode == Standard then Text(PERM_PREFIX + p) else Flag(true)
        case TransitionElem(t) => Flag(t)
        case PxElem => Flag(true)
        case OtherElem => Flag(false);
    if mode == Static && previousIsField && r.Text? && StartsWith(r.s, PERM_PREFIX) then Flag(true) else r
  }

  /**
   * Defaults: a field needs the read permission in standard mode and is free
   * in static mode; a PX is traversable, a transition when triggerable, and
   * anything else is not.
   */
  lemma {:induction false} DefaultInfos(mode: Mode, name: string, previousIsField: bool, p: string, t: bool)
    requires !(mode == Static && previousIsField)
    ensures TraversalInfo(Standard, map[], name, previousIsField, FieldElem(p)) == Text(PERM_PREFIX + p)
    ensures TraversalInfo(Static, map[], name, previousIsField, FieldElem(p)) == Flag(true)
    ensures TraversalInfo(mode, map[], name, previousIsField, PxElem) == Flag(true)
    ensures TraversalInfo(mode, map[], name, previousIsField, TransitionElem(t)) == Flag(t)
    ensures TraversalInfo(mode, map[], name, previousIsField, OtherElem) == Flag(false)
  {
    if mode == Standard {
      var s := PERM_PREFIX + p;
      assert s[..|PERM_PREFIX|] == PERM_PREFIX;
    }
  }

  /** In static mode, a declared permission info on a field's element lets it be traversed; other infos are kept. */
  lemma {:induction false} StaticFieldPermission(traverse: map<string, Info>, name: string, current: Element, x: string)
    ensures name in traverse && traverse[name] == Text(PERM_PREFIX + x) ==>
              TraversalInfo(Static, traverse, name, true, current) == Flag(true)
    ensures name in traverse && !traverse[name].Text? ==>
              TraversalInfo(Static, traverse, name, true, current) == traverse[name]
  {
    var s := PERM_PREFIX + x;
    assert s[..|PERM_PREFIX|] == PERM_PREFIX;
  }
}
