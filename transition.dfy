/**
 * Transitions: the state pairs, actions and condition of a workflow
 * transition, the edits an extension makes to them, and the rule deciding
 * whether the transition can be triggered on an object. States and roles
 * are known by their names.
 */
module Transitions {
  import opened Py

  type StateName = string

  /** The exception the edits raise: WorkflowException is not imported in the module, so naming it raises NameError. */
  const NAME_ERROR := "NameError"

  /** How a transition's states are given: one (start, end) pair, or a sequence of such pairs. */
  datatype GivenStates = GivenPair(start: StateName, end: StateName) | GivenPairs(pairs: seq<(StateName, StateName)>)

  /** The states a transition keeps: one pair (a single transition), or a list of pairs. */
  datatype States = Single(start: StateName, end: StateName) | Multi(pairs: seq<(StateName, StateName)>)

  /** standardiseStates: a single pair stays a pair, a sequence of pairs becomes a list of [start, end] lists. */
  function StandardiseStates(given: GivenStates): (r: States)
    ensures given.GivenPair? <==> r.Single?
    ensures given.GivenPair? ==> r.start == given.start && r.end == given.end
    ensures given.GivenPairs? ==> r.pairs == given.pairs
  {
    match given
    case GivenPair(s, e) => Single(s, e)
    case GivenPairs(ps) => Multi(ps)
  }

  /** One of the actions of a transition. */
  type Action = string

  /** The action attribute: none (or an empty sequence), one action, a list or a tuple of actions. */
  datatype Actions = NoAction | One(a: Action) | ListOf(items: seq<Action>) | TupleOf(items: seq<Action>)

  /** The actions run, in order. */
  function ActionsRun(actions: Actions): seq<Action>
  {
    match actions
    case NoAction => []
    case One(a) => [a]
    case ListOf(items) => items
    case TupleOf(items) => items
  }

  /** An item of a sequence condition: a Role, a role name or a method. */
  datatype ConditionItem = RoleItem(name: string) | RoleName(name: string) | Method(id: string)

  /** The condition attribute: a Role, a callable, a tuple or list of items, or any other value (its truth counts). */
  datatype Condition = RoleCond(role: string) | Callable(id: string)
                     | Items(items: seq<ConditionItem>, isTuple: bool) | Plain(truthy: bool)

  /** The name a condition item is compared by: a Role is unwrapped, a method has none. */
  function RoleOf(item: ConditionItem): Option<string>
  {
    if item.Method? then None else Some(item.name)
  }

  /** The index of the first item naming role `oldName`, if any. */
  function FindRole(items: seq<ConditionItem>, oldName: string): (r: Option<nat>)
    ensures r.Some? ==> r.value < |items| && RoleOf(items[r.value]) == Some(oldName)
                        && forall k | 0 <= k < r.value :: RoleOf(items[k]) != Some(oldName)
    ensures r.None? ==> forall k | 0 <= k < |items| :: RoleOf(items[k]) != Some(oldName)
  {
    if items == [] then None
    else if RoleOf(items[0]) == Some(oldName) then Some(0)
    else match FindRole(items[1..], oldName)
      case None => None
      case Some(i) => Some(i + 1)
  }

  /** The first occurrence of `oldName` in a pair replaced by `newName`: a pair holding `oldName` twice keeps its end. */
  function ReplaceInPair(p: (StateName, StateName), oldName: StateName, newName: StateName): (r: (StateName, StateName))
  {
    if p.0 == oldName then (newName, p.1) else if p.1 == oldName then (p.0, newName) else p
  }

  /** The pairs not holding `s`, in order. */
  function Without(pairs: seq<(StateName, StateName)>, s: StateName): (r: seq<(StateName, StateName)>)
    ensures |r| <= |pairs|
  {
    if pairs == [] then []
    else (if pairs[0].0 == s || pairs[0].1 == s then [] else [pairs[0]]) + Without(pairs[1..], s)
  }

  /** The result of removeState: the remaining pairs, a single remaining pair becoming the transition's only pair. */
  function AfterRemoval(pairs: seq<(StateName, StateName)>): States
  {
    if |pairs| == 1 then Single(pairs[0].0, pairs[0].1) else Multi(pairs)
  }

  /** What a sequence condition gives: false at the first failing method; then true unless roles were listed and none is held. */
  function ItemsAllow(items: seq<ConditionItem>, hasRole: string -> bool, holds: string -> bool): bool
  {
    (forall k | 0 <= k < |items| :: items[k].Method? ==> holds(items[k].id))
    && ((forall k | 0 <= k < |items| :: items[k].Method?)
        || exists k | 0 <= k < |items| :: !items[k].Method? && hasRole(items[k].name))
  }

  class Transition {
    var states: States
    var action: Actions
    var condition: Condition

    /** Transition.__init__, as far as states, condition and action go. */
    constructor (given: GivenStates, condition: Condition, action: Actions)
      ensures states == StandardiseStates(given)
      ensures this.condition == condition && this.action == action
    {
      states := StandardiseStates(given);
      this.condition := condition;
      this.action := action;
    }

    /** isSingle: the transition is defined between two states only. */
    predicate IsSingle()
      reads this
    {
      states.Single?
    }

    /** addAction: appends the action, turning a tuple into a list and a single action into a list of two. */
    method AddAction(a: Action)
      modifies this
      ensures ActionsRun(action) == ActionsRun(old(action)) + [a]
      ensures old(action).NoAction? || ActionsRun(old(action)) == [] ==> action == One(a)
      ensures !(old(action).NoAction? || ActionsRun(old(action)) == []) ==> action.ListOf?
      ensures states == old(states) && condition == old(condition)
    {
      match action
      case NoAction =>
        action := One(a);
      case One(x) =>
        action := ListOf([x, a]);
      case ListOf(items) =>
        action := if items == [] then One(a) else ListOf(items + [a]);
      case TupleOf(items) =>
        action := if items == [] then One(a) else ListOf(items + [a]);
    }

    /** replaceState: in the pair (or in each pair) the first occurrence of `oldName` becomes `newName`. */
    method ReplaceState(oldName: StateName, newName: StateName)
      modifies this
      ensures old(states).Single? ==> states == Single(ReplaceInPair((old(states).start, old(states).end), oldName, newName).0,
                                                       ReplaceInPair((old(states).start, old(states).end), oldName, newName).1)
      ensures old(states).Multi? ==>
                (states.Multi? && |states.pairs| == |old(states).pairs|
                 && forall k | 0 <= k < |states.pairs| :: states.pairs[k] == ReplaceInPair(old(states).pairs[k], oldName, newName))
      ensures action == old(action) && condition == old(condition)
    {
      match states
      case Single(s, e) =>
        var p := ReplaceInPair((s, e), oldName, newName);
        states := Single(p.0, p.1);
      case Multi(pairs) =>
        var ps := pairs;
        for i := 0 to |pairs|
          invariant |ps| == |pairs|
          invariant forall k | 0 <= k < i :: ps[k] == ReplaceInPair(pairs[k], oldName, newName)
          invariant forall k | i <= k < |pairs| :: ps[k] == pairs[k]
        {
          ps := ps[i := ReplaceInPair(ps[i], oldName, newName)];
        }
        states := Multi(ps);
    }

    /** removeState: drops, from the last pair to the first, every pair holding `s`; a single transition raises. */
    method RemoveState(s: StateName) returns (error: Option<string>)
      modifies this
      ensures old(states).Single? ==> error == Some(NAME_ERROR) && states == old(states)
      ensures old(states).Multi? ==> error.None? && states == AfterRemoval(Without(old(states).pairs, s))
      ensures action == old(action) && condition == old(condition)
    {
      if states.Single? {
        return Some(NAME_ERROR);
      }
      var ps := RemovePairs(states.pairs, s);
      states := AfterRemoval(ps);
      return None;
    }

    /** setState: the transition becomes a loop on `s`. */
    method SetState(s: StateName)
      modifies this
      ensures states == Single(s, s)
      ensures action == old(action) && condition == old(condition)
    {
      states := Single(s, s);
    }

    /** hasState: whether `s` is the start (isFrom) or the end of the pair, or of some pair. */
    method HasState(s: StateName, isFrom: bool) returns (r: bool)
      ensures states.Single? ==> r == (s == if isFrom then states.start else states.end)
      ensures states.Multi? ==> r == exists k | 0 <= k < |states.pairs| :: (if isFrom then states.pairs[k].0 else states.pairs[k].1) == s
    {
      if states.Single? {
        return s == if isFrom then states.start else states.end;
      }
      var pairs := states.pairs;
      r := false;
      for i := 0 to |pairs|
        invariant !r
        invariant forall k | 0 <= k < i :: (if isFrom then pairs[k].0 else pairs[k].1) != s
      {
        if (if isFrom then pairs[i].0 else pairs[i].1) == s {
          return true;
        }
      }
    }

    /** getTargetState: the end of the pair, or of the first pair starting at the object's state (None if there is none). */
    method GetTargetState(current: StateName) returns (r: Option<StateName>)
      ensures states.Single? ==> r == Some(states.end)
      ensures states.Multi? && r.None? ==> forall k | 0 <= k < |states.pairs| :: states.pairs[k].0 != current
      ensures states.Multi? && r.Some? ==> exists k | 0 <= k < |states.pairs| ::
                states.pairs[k] == (current, r.value) && forall j | 0 <= j < k :: states.pairs[j].0 != current
    {
      if states.Single? {
        return Some(states.end);
      }
      var pairs := states.pairs;
      for i := 0 to |pairs|
        invariant forall k | 0 <= k < i :: pairs[k].0 != current
      {
        if pairs[i].0 == current {
          return Some(pairs[i].1);
        }
      }
      return None;
    }

    /**
     * replaceRoleInCondition: in a sequence condition, the first item naming
     * `oldName` is replaced by `newName` and the condition becomes a tuple; without
     * such an item nothing changes; any other condition raises.
     */
    method ReplaceRoleInCondition(oldName: string, newName: ConditionItem) returns (error: Option<string>)
      modifies this
      ensures !old(condition).Items? ==> error == Some(NAME_ERROR) && condition == old(condition)
      ensures old(condition).Items? ==> error.None?
      ensures old(condition).Items? && FindRole(old(condition).items, oldName).None? ==> condition == old(condition)
      ensures old(condition).Items? && FindRole(old(condition).items, oldName).Some? ==>
                condition == Items(old(condition).items[FindRole(old(condition).items, oldName).value := newName], true)
      ensures states == old(states) && action == old(action)
    {
      if !condition.Items? {
        return Some(NAME_ERROR);
      }
      var items := condition.items;
      var i := 0;
      while i < |items|
        invariant 0 <= i <= |items|
        invariant forall k | 0 <= k < i :: RoleOf(items[k]) != Some(oldName)
      {
        if RoleOf(items[i]) == Some(oldName) {
          break;
        }
        i := i + 1;
      }
      if i == |items| {
        assert FindRole(items, oldName).None?;
        return None;
      }
      FindRoleIsFirst(items, oldName, i);
      condition := Items(items[i := newName], true);
      return None;
    }

    /**
     * isTriggerable: false unless the object's state starts the pair (or
     * some pair); then true if `secure` is false, else the condition decides.
     * The user's roles and the results of condition methods are parameters.
     */
    method IsTriggerable(current: StateName, secure: bool, hasRole: string -> bool, holds: string -> bool)
      returns (r: bool)
      ensures !IsStart(current) ==> !r
      ensures IsStart(current) && !secure ==> r
      ensures IsStart(current) && secure ==> r == ConditionHolds(condition, hasRole, holds)
    {
      if states.Single? {
        if current != states.start {
          return false;
        }
      } else {
        var pairs := states.pairs;
        var found := false;
        for i := 0 to |pairs|
          invariant !found
          invariant forall k | 0 <= k < i :: pairs[k].0 != current
        {
          if pairs[i].0 == current {
            found := true;
            break;
          }
        }
        if !found {
          return false;
        }
      }
      if !secure {
        return true;
      }
      match condition
      case RoleCond(role) => r := hasRole(role);
      case Callable(id) => r := holds(id);
      case Plain(truthy) => r := truthy;
      case Items(items, _) => r := CheckItems(items, hasRole, holds);
    }

    /** The object's state starts the pair, or some pair. */
    predicate IsStart(current: StateName)
      reads this
    {
      match states
      case Single(s, _) => s == current
      case Multi(pairs) => exists k | 0 <= k < |pairs| :: pairs[k].0 == current
    }
  }

  lemma {:induction false} FindRoleIsFirst(items: seq<ConditionItem>, oldName: string, i: nat)
    requires i < |items| && RoleOf(items[i]) == Some(oldName)
    requires forall k | 0 <= k < i :: RoleOf(items[k]) != Some(oldName)
    ensures FindRole(items, oldName) == Some(i)
  {
    if i > 0 {
      assert RoleOf(items[0]) != Some(oldName);
      assert forall k | 0 <= k < i - 1 :: items[1..][k] == items[k + 1];
      FindRoleIsFirst(items[1..], oldName, i - 1);
    }
  }

  /** Each pair of Without(pairs[i..]) comes from pairs[i], then from the pairs after it. */
  lemma {:induction false} WithoutFrom(pairs: seq<(StateName, StateName)>, s: StateName, i: nat)
    requires i < |pairs|
    ensures Without(pairs[i..], s)
            == (if pairs[i].0 == s || pairs[i].1 == s then [] else [pairs[i]]) + Without(pairs[i + 1..], s)
  {
    assert pairs[i..][1..] == pairs[i + 1..];
  }

  /** The loop of removeState, from the last pair down to the first: each pair holding `s` is deleted in place. */
  method RemovePairs(pairs: seq<(StateName, StateName)>, s: StateName) returns (ps: seq<(StateName, StateName)>)
    ensures ps == Without(pairs, s)
  {
    ps := pairs;
    var j := |pairs|;
    assert pairs[..j] == pairs && pairs[j..] == [];
    while j > 0
      invariant j <= |pairs|
      invariant ps == pairs[..j] + Without(pairs[j..], s)
    {
      RemoveStep(pairs, s, j - 1, ps);
      if ps[j - 1].0 == s || ps[j - 1].1 == s {
        ps := ps[..j - 1] + ps[j..];
      }
      j := j - 1;
    }
    assert pairs[0..] == pairs;
  }

  /** One step of the loop of removeState, at index i. */
  lemma {:induction false} RemoveStep(pairs: seq<(StateName, StateName)>, s: StateName, i: nat, ps: seq<(StateName, StateName)>)
    requires i < |pairs| && ps == pairs[..i + 1] + Without(pairs[i + 1..], s)
    ensures i < |ps| && ps[i] == pairs[i]
    ensures (if ps[i].0 == s || ps[i].1 == s then ps[..i] + ps[i + 1..] else ps) == pairs[..i] + Without(pairs[i..], s)
  {
    WithoutFrom(pairs, s, i);
    var rest := Without(pairs[i + 1..], s);
    assert ps[..i] == pairs[..i] && ps[i] == pairs[i] && ps[i + 1..] == rest;
    if !(ps[i].0 == s || ps[i].1 == s) {
      assert ps == pairs[..i] + ([pairs[i]] + rest);
    }
  }

  /** Whether the condition lets the user trigger the transition. */
  function ConditionHolds(condition: Condition, hasRole: string -> bool, holds: string -> bool): bool
  {
    match condition
    case RoleCond(role) => hasRole(role)
    case Callable(id) => holds(id)
    case Plain(truthy) => truthy
    case Items(items, _) => ItemsAllow(items, hasRole, holds)
  }

  /** The loop of isTriggerable over a sequence condition: roles are noted, a failing method stops it. */
  method CheckItems(items: seq<ConditionItem>, hasRole: string -> bool, holds: string -> bool) returns (r: bool)
    ensures r == ItemsAllow(items, hasRole, holds)
  {
    var roleListed := false;
    var roleHeld := false;
    for i := 0 to |items|
      invariant forall k | 0 <= k < i :: items[k].Method? ==> holds(items[k].id)
      invariant roleListed <==> exists k | 0 <= k < i :: !items[k].Method?
      invariant roleHeld <==> exists k | 0 <= k < i :: !items[k].Method? && hasRole(items[k].name)
    {
      match items[i]
      case Method(id) =>
        if !holds(id) {
          return false;
        }
      case RoleItem(name) =>
        roleListed := true;
        if hasRole(name) {
          roleHeld := true;
        }
      case RoleName(name) =>
        roleListed := true;
        if hasRole(name) {
          roleHeld := true;
        }
    }
    r := !roleListed || roleHeld;
  }

  /** Removing a state leaves no pair holding it, keeps every other pair, and keeps their order. */
  lemma {:induction false} WithoutMeaning(pairs: seq<(StateName, StateName)>, s: StateName)
    ensures forall k | 0 <= k < |Without(pairs, s)| :: Without(pairs, s)[k].0 != s && Without(pairs, s)[k].1 != s
    ensures forall p | p in pairs && p.0 != s && p.1 != s :: p in Without(pairs, s)
    ensures forall p | p in Without(pairs, s) :: p in pairs
    ensures (forall k | 0 <= k < |pairs| :: pairs[k].0 != s && pairs[k].1 != s) ==> Without(pairs, s) == pairs
  {
    WithoutHoldsNo(pairs, s);
    WithoutKeepsOthers(pairs, s);
    WithoutIsSubset(pairs, s);
    WithoutNothing(pairs, s);
  }

  lemma {:induction false} WithoutHoldsNo(pairs: seq<(StateName, StateName)>, s: StateName)
    ensures forall k | 0 <= k < |Without(pairs, s)| :: Without(pairs, s)[k].0 != s && Without(pairs, s)[k].1 != s
  {
    if pairs != [] {
      WithoutHoldsNo(pairs[1..], s);
    }
  }

  lemma {:induction false} WithoutKeepsOthers(pairs: seq<(StateName, StateName)>, s: StateName)
    ensures forall p | p in pairs && p.0 != s && p.1 != s :: p in Without(pairs, s)
  {
    if pairs != [] {
      WithoutKeepsOthers(pairs[1..], s);
      assert forall p | p in pairs :: p == pairs[0] || p in pairs[1..];
    }
  }

  lemma {:induction false} WithoutIsSubset(pairs: seq<(StateName, StateName)>, s: StateName)
    ensures forall p | p in Without(pairs, s) :: p in pairs
  {
    if pairs != [] {
      WithoutIsSubset(pairs[1..], s);
    }
  }

  lemma {:induction false} WithoutNothing(pairs: seq<(StateName, StateName)>, s: StateName)
    ensures (forall k | 0 <= k < |pairs| :: pairs[k].0 != s && pairs[k].1 != s) ==> Without(pairs, s) == pairs
  {
    if pairs != [] && forall k | 0 <= k < |pairs| :: pairs[k].0 != s && pairs[k].1 != s {
      assert forall k | 0 <= k < |pairs[1..]| :: pairs[1..][k] == pairs[k + 1];
      WithoutNothing(pairs[1..], s);
      assert pairs == [pairs[0]] + pairs[1..];
    }
  }

  /** Replacing a state absent from a pair leaves it as it is; otherwise `newName` takes the place of the first `oldName`. */
  lemma {:induction false} ReplaceInPairMeaning(p: (StateName, StateName), oldName: StateName, newName: StateName)
    ensures p.0 != oldName && p.1 != oldName ==> ReplaceInPair(p, oldName, newName) == p
    ensures p.0 == oldName ==> ReplaceInPair(p, oldName, newName) == (newName, p.1)
    ensures p.0 != oldName && p.1 == oldName ==> ReplaceInPair(p, oldName, newName) == (p.0, newName)
    ensures oldName != newName ==> (ReplaceInPair(p, oldName, newName) != p <==> p.0 == oldName || p.1 == oldName)
  {
  }

  /** A self-loop on `oldName` only has its start replaced: it becomes a transition from `newName` back to `oldName`. */
  lemma {:induction false} ReplaceInSelfLoop(oldName: StateName, newName: StateName)
    ensures ReplaceInPair((oldName, oldName), oldName, newName) == (newName, oldName)
  {
  }

  /** Without methods, a sequence condition holds iff no role is listed or some listed role is held. */
  lemma {:induction false} RolesOnlyCondition(items: seq<ConditionItem>, hasRole: string -> bool, holds: string -> bool)
    requires forall k | 0 <= k < |items| :: !items[k].Method?
    ensures ItemsAllow(items, hasRole, holds) <==> items == [] || exists k | 0 <= k < |items| :: hasRole(items[k].name)
  {
    if items != [] {
      assert !items[0].Method?;
    }
  }

  /** Any failing method in a sequence condition prevents the transition, whatever the roles. */
  lemma {:induction false} FailingMethodBlocks(items: seq<ConditionItem>, hasRole: string -> bool, holds: string -> bool, k: nat)
    requires k < |items| && items[k].Method? && !holds(items[k].id)
    ensures !ItemsAllow(items, hasRole, holds)
  {
  }
}
