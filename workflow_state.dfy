/**
 * WorkflowStates: the roles of a workflow and, for each state, the table
 * giving, per permission, the roles that hold it in that state, with the
 * edits an extension makes to that table and the test telling whether a
 * state is cut off from the others.
 */
module WorkflowStates {
  import opened Py
  import Transitions

  /** The exception `x in roles` raises when the permission's roles are a method. */
  const TYPE_ERROR := "TypeError"

  const MANAGER := "Manager"
  const OWNER := "Owner"
  const ANONYMOUS := "Anonymous"
  const AUTHENTICATED := "Authenticated"

  /** Role.appyRoles, Role.appyLocalRoles and Role.appyUngrantableRoles */
  const APPY_ROLES: seq<string> := [MANAGER, OWNER, ANONYMOUS, AUTHENTICATED]
  const APPY_LOCAL_ROLES: seq<string> := [OWNER]
  const APPY_UNGRANTABLE_ROLES: seq<string> := [ANONYMOUS, AUTHENTICATED]

  datatype Role = Role(name: string, local: bool, grantable: bool, appy: bool)

  /** Role.__init__: the standard roles are flagged; Owner is local only and the automatic roles can't be granted. */
  function NewRole(name: string, local: bool, grantable: bool): (r: Role)
    ensures r.name == name
    ensures r.appy <==> name in APPY_ROLES
    ensures name == OWNER ==> r.local
    ensures name != OWNER ==> r.local == local
    ensures name == ANONYMOUS || name == AUTHENTICATED ==> !r.grantable
    ensures name != ANONYMOUS && name != AUTHENTICATED ==> r.grantable == grantable
  {
    var appy := name in APPY_ROLES;
    Role(name,
         if appy && name in APPY_LOCAL_ROLES then true else local,
         if appy && name in APPY_UNGRANTABLE_ROLES then false else grantable,
         appy)
  }

  /** A role given by its name, or as a Role. */
  datatype RoleRef = ByName(n: string) | ARole(role: Role)

  function RefName(ref: RoleRef): string
  {
    match ref
    case ByName(n) => n
    case ARole(role) => role.name
  }

  /** How a permission's roles are given: a role, a dict of roles, a method, a sequence of roles, or None. */
  datatype GivenRoles = OneRef(ref: RoleRef) | RoleDict(entries: seq<(string, RoleRef)>)
                      | GivenMethod(id: string) | RoleSeq(refs: seq<RoleRef>) | Nobody

  /** A permission's roles once standardized: a dict from role names to roles, or a method called at check time. */
  datatype PermRoles = Named(roles: map<string, Role>) | Computed(id: string)

  /** The permissions of a state, in the order of its dict. */
  type Permissions = seq<(string, PermRoles)>

  // ------------------------------------------------------------------------
  // getRole and the cache of used roles
  // ------------------------------------------------------------------------

  /** The Role a name stands for: the one used before, or a new default one. */
  function RoleFor(used: map<string, Role>, name: string): Role
  {
    if name in used then used[name] else NewRole(name, false, true)
  }

  /** What getRole returns: the cached or new Role for a name, the Role itself otherwise. */
  function Resolve(used: map<string, Role>, ref: RoleRef): Role
  {
    match ref
    case ByName(n) => RoleFor(used, n)
    case ARole(role) => role
  }

  /** The used roles after getRole: a role is stored under its name unless one already is. */
  function Register(used: map<string, Role>, ref: RoleRef): (r: map<string, Role>)
    ensures RefName(ref) in r && r.Keys == used.Keys + {RefName(ref)}
    ensures forall n | n in used :: r[n] == used[n]
  {
    if RefName(ref) in used then used
    else used[RefName(ref) := match ref case ByName(n) => NewRole(n, false, true) case ARole(role) => role]
  }

  /** A name always resolves to the Role the cache holds for it afterwards. */
  lemma {:induction false} ResolveIsRegistered(used: map<string, Role>, n: string)
    ensures Register(used, ByName(n))[n] == Resolve(used, ByName(n))
  {
  }

  /** The names of role references. */
  function Names(refs: seq<RoleRef>): set<string>
  {
    if refs == [] then {} else Names(refs[..|refs| - 1]) + {RefName(refs[|refs| - 1])}
  }

  lemma {:induction false} NamesMeaning(refs: seq<RoleRef>)
    ensures forall n :: n in Names(refs) <==> exists k | 0 <= k < |refs| :: RefName(refs[k]) == n
  {
    if refs != [] {
      var init := refs[..|refs| - 1];
      NamesMeaning(init);
      assert forall k | 0 <= k < |init| :: init[k] == refs[k];
    }
  }

  /** The used roles after a sequence of getRole calls. */
  function RegisterAll(used: map<string, Role>, refs: seq<RoleRef>): (r: map<string, Role>)
    ensures forall n | n in used :: n in r && r[n] == used[n]
    ensures r.Keys == used.Keys + Names(refs)
  {
    if refs == [] then used
    else
      var u := RegisterAll(used, refs[..|refs| - 1]);
      Register(u, refs[|refs| - 1])
  }

  // ------------------------------------------------------------------------
  // Specifications of the table edits, permission by permission
  // ------------------------------------------------------------------------

  /** A permission is selected when no permission is named, or when it is one of those named. */
  predicate Selected(perm: string, selection: seq<string>)
  {
    selection == [] || perm in selection
  }

  /** A dict of roles built from references, each stored under its name. */
  function DictOf(roles: map<string, Role>, used: map<string, Role>, refs: seq<RoleRef>): (r: (map<string, Role>, map<string, Role>))
    ensures r.0.Keys == roles.Keys + Names(refs)
    ensures r.1 == RegisterAll(used, refs)
  {
    if refs == [] then (roles, used)
    else
      var (rs, u) := DictOf(roles, used, refs[..|refs| - 1]);
      var ref := refs[|refs| - 1];
      (rs[RefName(ref) := Resolve(u, ref)], Register(u, ref))
  }

  /** standardizeRoles for one permission: everything but a method becomes a dict of roles, None the empty one. */
  function Standardized(given: GivenRoles, used: map<string, Role>): (r: (PermRoles, map<string, Role>))
    ensures given.GivenMethod? <==> r.0.Computed?
    ensures given.Nobody? ==> r.0 == Named(map[])
  {
    match given
    case OneRef(ref) => (Named(map[RefName(ref) := Resolve(used, ref)]), Register(used, ref))
    case RoleDict(entries) =>
      var (rs, u) := DictEntries(used, entries);
      (Named(rs), u)
    case GivenMethod(id) => (Computed(id), used)
    case RoleSeq(refs) =>
      var (rs, u) := DictOf(map[], used, refs);
      (Named(rs), u)
    case Nobody => (Named(map[]), used)
  }

  /** A given dict of roles: each entry keeps its key and gets the Role getRole returns for its value. */
  function DictEntries(used: map<string, Role>, entries: seq<(string, RoleRef)>): (r: (map<string, Role>, map<string, Role>))
    ensures r.0.Keys == set k | 0 <= k < |entries| :: entries[k].0
  {
    if entries == [] then (map[], used)
    else
      var (rs, u) := DictEntries(used, entries[..|entries| - 1]);
      var (key, ref) := entries[|entries| - 1];
      assert forall k | 0 <= k < |entries| - 1 :: entries[..|entries| - 1][k] == entries[k];
      (rs[key := Resolve(u, ref)], Register(u, ref))
  }

  /** standardizeRoles over the whole table, in the dict's order. */
  function StandardizedAll(given: seq<(string, GivenRoles)>, used: map<string, Role>): (r: (Permissions, map<string, Role>))
    ensures |r.0| == |given|
    ensures forall k | 0 <= k < |given| :: r.0[k].0 == given[k].0 && (r.0[k].1.Computed? <==> given[k].1.GivenMethod?)
    ensures forall k | 0 <= k < |given| :: given[k].1.Nobody? ==> r.0[k].1 == Named(map[])
  {
    if given == [] then ([], used)
    else
      var (ps, u) := StandardizedAll(given[..|given| - 1], used);
      var (perm, g) := given[|given| - 1];
      var (pr, u2) := Standardized(g, u);
      assert forall k | 0 <= k < |given| - 1 :: given[..|given| - 1][k] == given[k];
      (ps + [(perm, pr)], u2)
  }

  /** addRoles on one dict: the roles not there yet are added. */
  function AddTo(roles: map<string, Role>, used: map<string, Role>, refs: seq<RoleRef>): (r: (map<string, Role>, map<string, Role>))
    ensures r.0.Keys == roles.Keys + Names(refs)
    ensures forall n | n in roles :: r.0[n] == roles[n]
  {
    if refs == [] then (roles, used)
    else
      var (rs, u) := AddTo(roles, used, refs[..|refs| - 1]);
      var ref := refs[|refs| - 1];
      if RefName(ref) in rs then (rs, u)
      else (rs[RefName(ref) := Resolve(u, ref)], Register(u, ref))
  }

  /** addRoles: the selected permissions given by a dict get the missing roles; methods are skipped. */
  function AddRolesSpec(perms: Permissions, used: map<string, Role>, refs: seq<RoleRef>, selection: seq<string>): (r: (Permissions, map<string, Role>))
    ensures |r.0| == |perms|
  {
    if perms == [] then ([], used)
    else
      var (ps, u) := AddRolesSpec(perms[..|perms| - 1], used, refs, selection);
      var (perm, pr) := perms[|perms| - 1];
      if Selected(perm, selection) && pr.Named? then
        var (rs, u2) := AddTo(pr.roles, u, refs);
        (ps + [(perm, Named(rs))], u2)
      else (ps + [(perm, pr)], u)
  }

  /** removeRoles: the names are removed from the selected permissions; a selected method raises (when names are given), leaving the later permissions as they are. */
  function RemoveRolesSpec(perms: Permissions, names: seq<string>, selection: seq<string>): (r: (Permissions, Option<string>))
    ensures |r.0| == |perms|
  {
    if perms == [] then ([], None)
    else
      var (ps, err) := RemoveRolesSpec(perms[..|perms| - 1], names, selection);
      var (perm, pr) := perms[|perms| - 1];
      if err.Some? || !Selected(perm, selection) || names == [] then (ps + [(perm, pr)], err)
      else if pr.Computed? then (ps + [(perm, pr)], Some(TYPE_ERROR))
      else (ps + [(perm, Named(pr.roles - set k | 0 <= k < |names| :: names[k]))], None)
  }

  /** setRoles: each selected permission gets exactly the named roles. */
  function SetRolesSpec(perms: Permissions, used: map<string, Role>, names: seq<string>, selection: seq<string>): (r: (Permissions, map<string, Role>))
    ensures |r.0| == |perms|
  {
    if perms == [] then ([], used)
    else
      var (ps, u) := SetRolesSpec(perms[..|perms| - 1], used, names, selection);
      var (perm, pr) := perms[|perms| - 1];
      if Selected(perm, selection) then
        var (rs, u2) := DictOf(map[], u, Refs(names));
        (ps + [(perm, Named(rs))], u2)
      else (ps + [(perm, pr)], u)
  }

  /** Names as role references. */
  function Refs(names: seq<string>): (r: seq<RoleRef>)
    ensures |r| == |names| && forall k | 0 <= k < |names| :: r[k] == ByName(names[k])
  {
    seq(|names|, k requires 0 <= k < |names| => ByName(names[k]))
  }

  /** replaceRole: in each selected permission holding the old role, it gives way to the new one; a selected method raises. */
  function ReplaceRoleSpec(perms: Permissions, used: map<string, Role>, oldRole: string, newRole: string, selection: seq<string>)
    : (r: (Permissions, map<string, Role>, Option<string>))
    ensures |r.0| == |perms|
  {
    if perms == [] then ([], used, None)
    else
      var (ps, u, err) := ReplaceRoleSpec(perms[..|perms| - 1], used, oldRole, newRole, selection);
      var (perm, pr) := perms[|perms| - 1];
      if err.Some? || !Selected(perm, selection) then (ps + [(perm, pr)], u, err)
      else if pr.Computed? then (ps + [(perm, pr)], u, Some(TYPE_ERROR))
      else if oldRole !in pr.roles then (ps + [(perm, pr)], u, None)
      else (ps + [(perm, Named((pr.roles - {oldRole})[newRole := RoleFor(u, newRole)]))], Register(u, ByName(newRole)), None)
  }

  // ------------------------------------------------------------------------
  // State
  // ------------------------------------------------------------------------

  class State {
    var permissions: Permissions
    var usedRoles: map<string, Role>
    const initial: bool

    /** State.__init__: the table is standardized as it is stored. */
    constructor (given: seq<(string, GivenRoles)>, initial: bool)
      ensures (permissions, usedRoles) == StandardizedAll(given, map[])
      ensures this.initial == initial
    {
      this.initial := initial;
      permissions := [];
      usedRoles := map[];
      new;
      StandardizeRoles(given);
    }

    /** getRole */
    method GetRole(ref: RoleRef) returns (r: Role)
      modifies this
      ensures r == Resolve(old(usedRoles), ref) && usedRoles == Register(old(usedRoles), ref)
      ensures permissions == old(permissions)
    {
      match ref
      case ByName(n) =>
        if n in usedRoles {
          r := usedRoles[n];
        } else {
          r := NewRole(n, false, true);
          usedRoles := usedRoles[n := r];
        }
      case ARole(role) =>
        if role.name !in usedRoles {
          usedRoles := usedRoles[role.name := role];
        }
        r := role;
    }

    /** The loop turning references into a dict of roles, through getRole. */
    method BuildDict(roles: map<string, Role>, refs: seq<RoleRef>) returns (d: map<string, Role>)
      modifies this
      ensures (d, usedRoles) == DictOf(roles, old(usedRoles), refs)
      ensures permissions == old(permissions)
    {
      d := roles;
      for j := 0 to |refs|
        invariant (d, usedRoles) == DictOf(roles, old(usedRoles), refs[..j])
        invariant permissions == old(permissions)
      {
        assert refs[..j + 1][..j] == refs[..j];
        var role := GetRole(refs[j]);
        d := d[RefName(refs[j]) := role];
      }
      assert refs[..|refs|] == refs;
    }

    /** standardizeRoles, for the table given to the constructor. */
    method StandardizeRoles(given: seq<(string, GivenRoles)>)
      modifies this
      ensures (permissions, usedRoles) == StandardizedAll(given, old(usedRoles))
    {
      ghost var used0 := usedRoles;
      permissions := [];
      for i := 0 to |given|
        invariant (permissions, usedRoles) == StandardizedAll(given[..i], used0)
      {
        assert given[..i + 1][..i] == given[..i];
        var (perm, g) := given[i];
        var pr: PermRoles;
        match g {
          case OneRef(ref) =>
            var role := GetRole(ref);
            pr := Named(map[RefName(ref) := role]);
          case RoleDict(entries) =>
            var d: map<string, Role> := map[];
            ghost var u0 := usedRoles;
            for j := 0 to |entries|
              invariant (d, usedRoles) == DictEntries(u0, entries[..j])
              invariant permissions == StandardizedAll(given[..i], used0).0
            {
              assert entries[..j + 1][..j] == entries[..j];
              var role := GetRole(entries[j].1);
              d := d[entries[j].0 := role];
            }
            assert entries[..|entries|] == entries;
            pr := Named(d);
          case GivenMethod(id) =>
            pr := Computed(id);
          case RoleSeq(refs) =>
            var d := BuildDict(map[], refs);
            pr := Named(d);
          case Nobody =>
            pr := Named(map[]);
        }
        permissions := permissions + [(perm, pr)];
      }
      assert given[..|given|] == given;
    }

    /** addRoles: `refs` are added to the selected permissions (all of them when none is named), methods aside. */
    method AddRoles(refs: seq<RoleRef>, selection: seq<string>)
      modifies this
      ensures (permissions, usedRoles) == AddRolesSpec(old(permissions), old(usedRoles), refs, selection)
    {
      var perms := permissions;
      ghost var used0 := usedRoles;
      var done: Permissions := [];
      for i := 0 to |perms|
        invariant (done, usedRoles) == AddRolesSpec(perms[..i], used0, refs, selection)
      {
        assert perms[..i + 1][..i] == perms[..i];
        var (perm, existing) := perms[i];
        if !Selected(perm, selection) || existing.Computed? {
          done := done + [(perm, existing)];
          continue;
        }
        var rs := existing.roles;
        ghost var u0 := usedRoles;
        for j := 0 to |refs|
          invariant (rs, usedRoles) == AddTo(existing.roles, u0, refs[..j])
        {
          assert refs[..j + 1][..j] == refs[..j];
          var name := RefName(refs[j]);
          if name in rs {
            continue;
          }
          var role := GetRole(refs[j]);
          rs := rs[name := role];
        }
        assert refs[..|refs|] == refs;
        done := done + [(perm, Named(rs))];
      }
      assert perms[..|perms|] == perms;
      permissions := done;
    }

    /** removeRoles: `names` are removed from the selected permissions. */
    method RemoveRoles(names: seq<string>, selection: seq<string>) returns (error: Option<string>)
      modifies this
      ensures (permissions, error) == RemoveRolesSpec(old(permissions), names, selection)
      ensures usedRoles == old(usedRoles)
    {
      var perms := permissions;
      var done: Permissions := [];
      for i := 0 to |perms|
        invariant (done, None) == RemoveRolesSpec(perms[..i], names, selection)
      {
        assert perms[..i + 1][..i] == perms[..i];
        var (perm, roles) := perms[i];
        if !Selected(perm, selection) || names == [] {
          done := done + [(perm, roles)];
          continue;
        }
        if roles.Computed? {
          RemoveRolesStops(perms, i, |perms|, names, selection);
          assert perms[..|perms|] == perms;
          permissions := done + perms[i..];
          return Some(TYPE_ERROR);
        }
        var rs := roles.roles;
        for j := 0 to |names|
          invariant rs == roles.roles - set k | 0 <= k < j :: names[k]
        {
          if names[j] in rs {
            rs := rs - {names[j]};
          }
        }
        done := done + [(perm, Named(rs))];
      }
      assert perms[..|perms|] == perms;
      permissions := done;
      return None;
    }

    /** setRoles: the selected permissions get exactly the roles named. */
    method SetRoles(names: seq<string>, selection: seq<string>)
      modifies this
      ensures (permissions, usedRoles) == SetRolesSpec(old(permissions), old(usedRoles), names, selection)
    {
      var perms := permissions;
      ghost var used0 := usedRoles;
      var done: Permissions := [];
      for i := 0 to |perms|
        invariant (done, usedRoles) == SetRolesSpec(perms[..i], used0, names, selection)
        invariant permissions == perms
      {
        assert perms[..i + 1][..i] == perms[..i];
        var (perm, roles) := perms[i];
        if !Selected(perm, selection) {
          done := done + [(perm, roles)];
          continue;
        }
        var rs := BuildDict(map[], Refs(names));
        done := done + [(perm, Named(rs))];
      }
      assert perms[..|perms|] == perms;
      permissions := done;
    }

    /** replaceRole: `oldRole` gives way to `newRole` in the selected permissions holding it. */
    method ReplaceRole(oldRole: string, newRole: string, selection: seq<string>) returns (error: Option<string>)
      modifies this
      ensures (permissions, usedRoles, error) == ReplaceRoleSpec(old(permissions), old(usedRoles), oldRole, newRole, selection)
    {
      var perms := permissions;
      ghost var used0 := usedRoles;
      var done: Permissions := [];
      for i := 0 to |perms|
        invariant (done, usedRoles, None) == ReplaceRoleSpec(perms[..i], used0, oldRole, newRole, selection)
        invariant permissions == perms
      {
        assert perms[..i + 1][..i] == perms[..i];
        var (perm, roles) := perms[i];
        if !Selected(perm, selection) {
          done := done + [(perm, roles)];
          continue;
        }
        if roles.Computed? {
          ReplaceRoleStops(perms, used0, i, |perms|, oldRole, newRole, selection);
          assert perms[..|perms|] == perms;
          permissions := done + perms[i..];
          return Some(TYPE_ERROR);
        }
        if oldRole in roles.roles {
          var role := GetRole(ByName(newRole));
          done := done + [(perm, Named((roles.roles - {oldRole})[newRole := role]))];
        } else {
          done := done + [(perm, roles)];
        }
      }
      assert perms[..|perms|] == perms;
      permissions := done;
      return None;
    }

    /** isIsolated: not the initial state, and each transition touching it only loops on it. */
    method IsIsolated(name: Transitions.StateName, transitions: seq<Transitions.States>) returns (r: bool)
      ensures r == Isolated(initial, name, transitions)
    {
      if initial {
        return false;
      }
      for i := 0 to |transitions|
        invariant forall k | 0 <= k < i :: OnlyLoops(name, transitions[k])
      {
        match transitions[i] {
          case Single(s, e) =>
            if (s == name || e == name) && (s != name || e != name) {
              return false;
            }
          case Multi(pairs) =>
            for j := 0 to |pairs|
              invariant forall k | 0 <= k < j :: Touches(name, pairs[k]) ==> pairs[k] == (name, name)
            {
              if Touches(name, pairs[j]) && pairs[j] != (name, name) {
                return false;
              }
            }
        }
      }
      return true;
    }
  }

  predicate Touches(name: Transitions.StateName, p: (Transitions.StateName, Transitions.StateName))
  {
    p.0 == name || p.1 == name
  }

  /** Every pair of the transition that touches the state goes from it to itself. */
  predicate OnlyLoops(name: Transitions.StateName, t: Transitions.States)
  {
    match t
    case Single(s, e) => (s == name || e == name) ==> s == name && e == name
    case Multi(pairs) => forall k | 0 <= k < |pairs| :: Touches(name, pairs[k]) ==> pairs[k] == (name, name)
  }

  /** A state is isolated when it is not initial and no transition leads from it or to it from another state. */
  predicate Isolated(initial: bool, name: Transitions.StateName, transitions: seq<Transitions.States>)
  {
    !initial && forall k | 0 <= k < |transitions| :: OnlyLoops(name, transitions[k])
  }

  /** Once a selected method has raised in removeRoles, the permissions after it are left as they are. */
  lemma {:induction false} RemoveRolesStops(perms: Permissions, i: nat, j: nat, names: seq<string>, selection: seq<string>)
    requires i < j <= |perms| && Selected(perms[i].0, selection) && names != [] && perms[i].1.Computed?
    requires RemoveRolesSpec(perms[..i], names, selection).1.None?
    ensures RemoveRolesSpec(perms[..j], names, selection) == (RemoveRolesSpec(perms[..i], names, selection).0 + perms[i..j], Some(TYPE_ERROR))
    decreases j
  {
    assert perms[..j][..j - 1] == perms[..j - 1];
    assert perms[..j][j - 1] == perms[j - 1];
    if j == i + 1 {
      assert perms[i..j] == [perms[i]];
    } else {
      RemoveRolesStops(perms, i, j - 1, names, selection);
      var ps := RemoveRolesSpec(perms[..i], names, selection).0;
      assert perms[i..j] == perms[i..j - 1] + [perms[j - 1]];
      assert ps + perms[i..j] == (ps + perms[i..j - 1]) + [perms[j - 1]];
    }
  }

  /** Once a selected method has raised in replaceRole, the permissions after it are left as they are. */
  lemma {:induction false} ReplaceRoleStops(perms: Permissions, used: map<string, Role>, i: nat, j: nat, oldRole: string, newRole: string, selection: seq<string>)
    requires i < j <= |perms| && Selected(perms[i].0, selection) && perms[i].1.Computed?
    requires ReplaceRoleSpec(perms[..i], used, oldRole, newRole, selection).2.None?
    ensures var (ps, u, _) := ReplaceRoleSpec(perms[..i], used, oldRole, newRole, selection);
            ReplaceRoleSpec(perms[..j], used, oldRole, newRole, selection) == (ps + perms[i..j], u, Some(TYPE_ERROR))
    decreases j
  {
    assert perms[..j][..j - 1] == perms[..j - 1];
    assert perms[..j][j - 1] == perms[j - 1];
    if j == i + 1 {
      assert perms[i..j] == [perms[i]];
    } else {
      ReplaceRoleStops(perms, used, i, j - 1, oldRole, newRole, selection);
      var ps := ReplaceRoleSpec(perms[..i], used, oldRole, newRole, selection).0;
      assert perms[i..j] == perms[i..j - 1] + [perms[j - 1]];
      assert ps + perms[i..j] == (ps + perms[i..j - 1]) + [perms[j - 1]];
    }
  }

  // ------------------------------------------------------------------------
  // What the edits do to each permission
  // ------------------------------------------------------------------------

  /** addRoles keeps the order and the names of the permissions; a selected dict gains the roles, keeping those it had; the rest is unchanged. */
  lemma {:induction false} AddRolesMeaning(perms: Permissions, used: map<string, Role>, refs: seq<RoleRef>, selection: seq<string>, k: nat)
    requires k < |perms|
    ensures var p := AddRolesSpec(perms, used, refs, selection).0[k];
            p.0 == perms[k].0
            && (if Selected(perms[k].0, selection) && perms[k].1.Named?
                then p.1.Named? && p.1.roles.Keys == perms[k].1.roles.Keys + Names(refs)
                     && forall n | n in perms[k].1.roles :: p.1.roles[n] == perms[k].1.roles[n]
                else p.1 == perms[k].1)
  {
    var init := perms[..|perms| - 1];
    if k < |perms| - 1 {
      AddRolesMeaning(init, used, refs, selection, k);
      assert init[k] == perms[k];
    }
  }

  /** setRoles gives each selected permission exactly the roles named, and leaves the others unchanged. */
  lemma {:induction false} SetRolesMeaning(perms: Permissions, used: map<string, Role>, names: seq<string>, selection: seq<string>, k: nat)
    requires k < |perms|
    ensures var p := SetRolesSpec(perms, used, names, selection).0[k];
            p.0 == perms[k].0
            && (if Selected(perms[k].0, selection)
                then p.1.Named? && forall n :: n in p.1.roles <==> n in names
                else p.1 == perms[k].1)
  {
    var init := perms[..|perms| - 1];
    if k < |perms| - 1 {
      SetRolesMeaning(init, used, names, selection, k);
      assert init[k] == perms[k];
    } else if Selected(perms[k].0, selection) {
      NamesOfRefs(names);
    }
  }

  lemma {:induction false} NamesOfRefs(names: seq<string>)
    ensures forall n :: n in Names(Refs(names)) <==> n in names
  {
    NamesMeaning(Refs(names));
  }

  /** When removeRoles raises no error, each selected dict loses exactly the names given, and the rest is unchanged. */
  lemma {:induction false} RemoveRolesMeaning(perms: Permissions, names: seq<string>, selection: seq<string>, k: nat)
    requires k < |perms| && RemoveRolesSpec(perms, names, selection).1.None?
    ensures var p := RemoveRolesSpec(perms, names, selection).0[k];
            p.0 == perms[k].0
            && (if Selected(perms[k].0, selection) && names != []
                then perms[k].1.Named? && p.1.Named? && forall n :: n in p.1.roles <==> n in perms[k].1.roles && n !in names
                else p.1 == perms[k].1)
  {
    var init := perms[..|perms| - 1];
    if k < |perms| - 1 {
      RemoveRolesMeaning(init, names, selection, k);
      assert init[k] == perms[k];
    }
  }

  /** removeRoles raises exactly when names are given and a selected permission's roles are a method. */
  lemma {:induction false} RemoveRolesRaisesIff(perms: Permissions, names: seq<string>, selection: seq<string>)
    ensures RemoveRolesSpec(perms, names, selection).1.Some?
            <==> names != [] && exists k | 0 <= k < |perms| :: Selected(perms[k].0, selection) && perms[k].1.Computed?
  {
    if perms != [] {
      var init := perms[..|perms| - 1];
      RemoveRolesRaisesIff(init, names, selection);
      assert forall k | 0 <= k < |init| :: init[k] == perms[k];
    }
  }

  /** When replaceRole raises no error, each selected dict that held the old role now holds the new one instead, and nothing else changes. */
  lemma {:induction false} ReplaceRoleMeaning(perms: Permissions, used: map<string, Role>, oldRole: string, newRole: string, selection: seq<string>, k: nat)
    requires k < |perms| && ReplaceRoleSpec(perms, used, oldRole, newRole, selection).2.None?
    ensures var p := ReplaceRoleSpec(perms, used, oldRole, newRole, selection).0[k];
            p.0 == perms[k].0
            && (if Selected(perms[k].0, selection) && perms[k].1.Named? && oldRole in perms[k].1.roles
                then p.1.Named? && p.1.roles.Keys == perms[k].1.roles.Keys - {oldRole} + {newRole}
                     && forall n | n in perms[k].1.roles && n != oldRole && n != newRole :: p.1.roles[n] == perms[k].1.roles[n]
                else p.1 == perms[k].1)
  {
    var init := perms[..|perms| - 1];
    if k < |perms| - 1 {
      ReplaceRoleMeaning(init, used, oldRole, newRole, selection, k);
      assert init[k] == perms[k];
    }
  }

  /** replaceRole raises exactly when a selected permission's roles are a method. */
  lemma {:induction false} ReplaceRoleRaisesIff(perms: Permissions, used: map<string, Role>, oldRole: string, newRole: string, selection: seq<string>)
    ensures ReplaceRoleSpec(perms, used, oldRole, newRole, selection).2.Some?
            <==> exists k | 0 <= k < |perms| :: Selected(perms[k].0, selection) && perms[k].1.Computed?
  {
    if perms != [] {
      var init := perms[..|perms| - 1];
      ReplaceRoleRaisesIff(init, used, oldRole, newRole, selection);
      assert forall k | 0 <= k < |init| :: init[k] == perms[k];
    }
  }

  /** The transition goes from state `s` to state `e`. */
  predicate HasPair(t: Transitions.States, s: Transitions.StateName, e: Transitions.StateName)
  {
    match t
    case Single(s0, e0) => s == s0 && e == e0
    case Multi(pairs) => (s, e) in pairs
  }

  /** A transition only loops on a state when each of its pairs that touches the state goes from it to itself. */
  lemma {:induction false} OnlyLoopsMeaning(name: Transitions.StateName, t: Transitions.States)
    ensures OnlyLoops(name, t) <==> forall s, e | HasPair(t, s, e) && (s == name || e == name) :: s == name && e == name
  {
    if t.Single? {
      assert HasPair(t, t.start, t.end);
    } else {
      var pairs := t.pairs;
      if OnlyLoops(name, t) {
        forall s, e | HasPair(t, s, e) && (s == name || e == name) ensures s == name && e == name {
          var j :| 0 <= j < |pairs| && pairs[j] == (s, e);
          assert Touches(name, pairs[j]);
        }
      } else {
        var j :| 0 <= j < |pairs| && Touches(name, pairs[j]) && pairs[j] != (name, name);
        assert HasPair(t, pairs[j].0, pairs[j].1);
      }
    }
  }

  /** An isolated state is not initial and can neither be reached from another state nor left for another state. */
  lemma {:induction false} IsolatedMeaning(initial: bool, name: Transitions.StateName, transitions: seq<Transitions.States>)
    ensures Isolated(initial, name, transitions) <==>
              !initial && forall k, s, e | 0 <= k < |transitions| && HasPair(transitions[k], s, e) && (s == name || e == name) ::
                            s == name && e == name
  {
    forall k | 0 <= k < |transitions| {
      OnlyLoopsMeaning(name, transitions[k]);
    }
  }
}
