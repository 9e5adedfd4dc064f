/** The `etcd_role` resource (internal/provider/resource_role.go): a role
    named by the `name` attribute. Renaming a role creates the new role,
    copies every permission of the old one and then deletes the old one. */
module Roles {
  import opened Etcd
  import opened Resource

  /** The level a copied permission gets: the rename compares the level's
      printed name with "READWRITE" and grants READ otherwise. */
  function MigratedLevel(t: PermType): (level: PermType)
    ensures level == PermReadWrite <==> t == PermReadWrite
    ensures level != PermWrite
    ensures t != PermWrite ==> level == t
  {
    if TypeName(t) == "READWRITE" then PermReadWrite else PermRead
  }

  /** The permission the rename grants to the new role for `p`. */
  function Migrated(p: Permission): Permission
  {
    Permission(p.key, p.rangeEnd, MigratedLevel(p.permType))
  }

  function MigratedAll(ps: seq<Permission>): (r: seq<Permission>)
    ensures |r| == |ps|
    ensures forall i :: 0 <= i < |ps| ==> r[i] == Migrated(ps[i])
  {
    seq(|ps|, i requires 0 <= i < |ps| => Migrated(ps[i]))
  }

  /** The grant request the rename issues for `p`. */
  function GrantRequest(role: string, p: Permission): Request
  {
    Request.RoleGrantPermission(role, Migrated(p))
  }

  /** Position of the first copied permission whose grant fails, if any. */
  function FirstFailedGrant(role: string, ps: seq<Permission>, faults: set<Request>): (k: Option<nat>)
    ensures k.None? <==> forall i :: 0 <= i < |ps| ==> GrantRequest(role, ps[i]) !in faults
    ensures k.Some? ==> k.value < |ps| && GrantRequest(role, ps[k.value]) in faults
    ensures k.Some? ==> forall i :: 0 <= i < k.value ==> GrantRequest(role, ps[i]) !in faults
  {
    if ps == [] then None
    else if GrantRequest(role, ps[0]) in faults then Some(0)
    else
      match FirstFailedGrant(role, ps[1..], faults)
      case None =>
        assert forall i :: 1 <= i < |ps| ==> ps[i] == ps[1..][i - 1];
        None
      case Some(k) =>
        assert forall i :: 1 <= i < |ps| ==> ps[i] == ps[1..][i - 1];
        Some(k + 1)
  }

  /** A failing grant with none failing before it is the first failed one. */
  lemma {:induction false} FirstFailedGrantAt(role: string, ps: seq<Permission>, faults: set<Request>, i: nat)
    requires i < |ps| && GrantRequest(role, ps[i]) in faults
    requires forall j :: 0 <= j < i ==> GrantRequest(role, ps[j]) !in faults
    ensures FirstFailedGrant(role, ps, faults) == Some(i)
  {
    if i > 0 {
      assert GrantRequest(role, ps[0]) !in faults;
      FirstFailedGrantAt(role, ps[1..], faults, i - 1);
    }
  }

  /** Where a rename stops. `GrantFailed(k)`: the first `k` permissions were
      copied and the next grant failed. */
  datatype RenameStage =
    | OldMissing
    | NewExists
    | AddFailed
    | GrantFailed(granted: nat)
    | DeleteFailed
    | Renamed

  datatype RenameOutcome = RenameOutcome(stage: RenameStage, roles: map<string, seq<Permission>>)

  /** The effect of resourceRoleUpdate's store requests on the roles, renaming
      `from` to `to`. */
  function Rename(roles: map<string, seq<Permission>>, from: string, to: string, faults: set<Request>): (r: RenameOutcome)
    ensures r.stage.OldMissing? || r.stage.NewExists? || r.stage.AddFailed? ==> r.roles == roles
    ensures !r.stage.OldMissing? ==> from in roles
    ensures r.stage.Renamed? ==> from !in r.roles && to in r.roles
  {
    if Request.RoleGet(from) in faults || from !in roles then RenameOutcome(OldMissing, roles)
    else if !(Request.RoleGet(to) in faults || to !in roles) then RenameOutcome(NewExists, roles)
    else if Request.RoleAdd(to) in faults || to in roles then RenameOutcome(AddFailed, roles)
    else
      var ps := roles[from];
      match FirstFailedGrant(to, ps, faults)
      case Some(k) => RenameOutcome(GrantFailed(k), roles[to := MigratedAll(ps[..k])])
      case None =>
        if Request.RoleDelete(from) in faults then RenameOutcome(DeleteFailed, roles[to := MigratedAll(ps)])
        else RenameOutcome(Renamed, roles[to := MigratedAll(ps)] - {from})
  }

  /** Copying permissions one at a time: since a role's ranges are distinct,
      no grant replaces an earlier copy, so each grant appends. */
  lemma MigratedGrantAppends(ps: seq<Permission>, i: nat)
    requires DistinctRanges(ps) && i < |ps|
    ensures Granted(MigratedAll(ps[..i]), Migrated(ps[i])) == MigratedAll(ps[..i + 1])
  {
    var copied := MigratedAll(ps[..i]);
    var p := Migrated(ps[i]);
    assert !HasRange(copied, p.key, p.rangeEnd) by {
      forall j | 0 <= j < |copied|
        ensures !Covers(copied[j], p.key, p.rangeEnd)
      {
        assert copied[j] == Migrated(ps[j]);
        assert !Covers(ps[i], ps[j].key, ps[j].rangeEnd);
      }
    }
    assert MigratedAll(ps[..i + 1]) == copied + [p];
  }

  /** The roles change exactly when the rename gets past its three checks. */
  lemma RenameChangesOnlyPastChecks(roles: map<string, seq<Permission>>, from: string, to: string, faults: set<Request>)
    ensures var r := Rename(roles, from, to, faults);
      r.roles == roles <==> r.stage in {OldMissing, NewExists, AddFailed}
  {
  }

  /** Every stage but a completed rename leaves the old role as it was. */
  lemma RenameKeepsOldRoleUntilDone(roles: map<string, seq<Permission>>, from: string, to: string, faults: set<Request>)
    requires from in roles
    ensures var r := Rename(roles, from, to, faults);
      !r.stage.Renamed? <==> from in r.roles && r.roles[from] == roles[from]
  {
  }

  /** Roles other than the two names are never touched. */
  lemma RenameTouchesOnlyTheTwoRoles(roles: map<string, seq<Permission>>, from: string, to: string,
                                     faults: set<Request>, other: string)
    requires other != from && other != to
    ensures var r := Rename(roles, from, to, faults);
      (other in r.roles <==> other in roles) && (other in roles ==> r.roles[other] == roles[other])
  {
  }

  /** A failed grant leaves the new role with exactly the copies made so far
      and the old role in place; the failing grant is the first one the
      oracle refuses. */
  lemma RenamePartial(roles: map<string, seq<Permission>>, from: string, to: string, faults: set<Request>)
    requires Rename(roles, from, to, faults).stage.GrantFailed?
    ensures var r := Rename(roles, from, to, faults);
      var k := r.stage.granted;
      && from in roles && to !in roles && from != to
      && k < |roles[from]|
      && GrantRequest(to, roles[from][k]) in faults
      && to in r.roles && r.roles[to] == MigratedAll(roles[from][..k])
      && from in r.roles && r.roles[from] == roles[from]
  {
  }

  /** A completed rename: the old role is gone, the new role holds one copy
      of each old permission, in order, on the same key and range end, READ
      unless the old level was READWRITE. */
  lemma {:induction false} RenamedCopies(roles: map<string, seq<Permission>>, from: string, to: string, faults: set<Request>)
    requires Rename(roles, from, to, faults).stage.Renamed?
    ensures var r := Rename(roles, from, to, faults);
      && from in roles && to !in roles
      && from !in r.roles && to in r.roles
      && |r.roles[to]| == |roles[from]|
      && forall i :: 0 <= i < |roles[from]| ==>
           var (p, q) := (roles[from][i], r.roles[to][i]);
           && q.key == p.key && q.rangeEnd == p.rangeEnd
           && (q.permType == PermReadWrite <==> p.permType == PermReadWrite)
           && (q.permType == PermRead <==> p.permType != PermReadWrite)
  {
    var ps := roles[from];
    assert FirstFailedGrant(to, ps, faults).None?;
  }

  /** Without WRITE permissions in the old role the new role is an exact copy,
      so in particular both hold the same set of permissions. */
  lemma {:induction false} RenamedExactCopy(roles: map<string, seq<Permission>>, from: string, to: string, faults: set<Request>)
    requires Rename(roles, from, to, faults).stage.Renamed?
    requires forall p :: p in roles[from] ==> p.permType != PermWrite
    ensures var r := Rename(roles, from, to, faults);
      r.roles[to] == roles[from] && (set p | p in r.roles[to]) == (set p | p in roles[from])
  {
    var ps := roles[from];
    assert FirstFailedGrant(to, ps, faults).None?;
    forall i | 0 <= i < |ps|
      ensures MigratedAll(ps)[i] == ps[i]
    {
      assert ps[i] in ps;
    }
  }

  /** resourceRoleRead: looks the role up under `name`, or under the ID when
      `name` is empty, and takes a fresh ID when the role exists. */
  method Read(store: Store, d: ResourceData, faults: set<Request>, newId: string)
    returns (diags: Diagnostics)
    modifies d
    ensures diags != Panic
    ensures var name := WithFallback(old(d.strings), "name", old(d.id));
      && (diags == Error <==> Request.RoleGet(name) in faults || name !in store.roles)
      && d.id == (if diags == Error then old(d.id) else newId)
    ensures d.strings == Backfilled(old(d.strings), "name", old(d.id))
    ensures d.bools == old(d.bools) && d.prior == old(d.prior)
  {
    var role := d.Get("name");
    if role == "" {
      role := d.id;
      d.Set("name", role);
    }
    var err, _ := store.RoleGet(role, faults);
    if err {
      return Error;
    }
    d.SetId(newId);
    diags := Nil;
  }

  /** resourceRoleCreate: a role that the lookup finds is left alone and, as
      the nil lookup error is what gets wrapped, no diagnostic is returned;
      otherwise the role is added with no permissions and read back. */
  method Create(store: Store, d: ResourceData, faults: set<Request>, newId: string)
    returns (diags: Diagnostics)
    requires store.Valid()
    modifies store, d
    ensures diags != Panic
    ensures store.Valid()
    ensures store.users == old(store.users) && store.kv == old(store.kv)
    ensures var role := Lookup(old(d.strings), "name");
      if !(Request.RoleGet(role) in faults || role !in old(store.roles)) then
        diags == Nil && store.roles == old(store.roles) && d.id == old(d.id) && d.strings == old(d.strings)
      else if Request.RoleAdd(role) in faults || role in old(store.roles) then
        diags == Error && store.roles == old(store.roles) && d.id == old(d.id) && d.strings == old(d.strings)
      else
        var readName := WithFallback(old(d.strings), "name", newId);
        && store.roles == old(store.roles)[role := []]
        && d.id == newId
        && d.strings == Backfilled(old(d.strings), "name", newId)
        && (diags == Error <==> Request.RoleGet(readName) in faults || readName !in store.roles)
    ensures d.bools == old(d.bools) && d.prior == old(d.prior)
  {
    var role := d.Get("name");
    var err, _ := store.RoleGet(role, faults);
    if !err {
      return Nil;
    }
    err := store.RoleAdd(role, faults);
    if err {
      return Error;
    }
    d.SetId(newId);
    diags := Read(store, d, faults, newId);
  }

  /** One turn of the copying loop: grants the copy of `perms[i]` to `to`. */
  method CopyOne(store: Store, to: string, perms: seq<Permission>, i: nat, faults: set<Request>)
    returns (err: bool)
    requires store.Valid() && DistinctRanges(perms) && i < |perms|
    requires to in store.roles && store.roles[to] == MigratedAll(perms[..i])
    modifies store
    ensures store.Valid()
    ensures store.users == old(store.users) && store.kv == old(store.kv)
    ensures err <==> GrantRequest(to, perms[i]) in faults
    ensures store.roles == if err then old(store.roles) else old(store.roles)[to := MigratedAll(perms[..i + 1])]
  {
    var p := perms[i];
    var level := if TypeName(p.permType) == "READWRITE" then PermReadWrite else PermRead;
    assert Permission(p.key, p.rangeEnd, level) == Migrated(p);
    MigratedGrantAppends(perms, i);
    err := store.RoleGrantPermission(to, Permission(p.key, p.rangeEnd, level), faults);
  }

  /** The copying loop of resourceRoleUpdate: grants each permission of
      `perms` to the (new, empty) role `to` in order, READ unless the level
      is READWRITE, and stops at the first grant that fails. */
  method CopyPermissions(store: Store, to: string, perms: seq<Permission>, faults: set<Request>)
    returns (err: bool)
    requires store.Valid() && to in store.roles && store.roles[to] == []
    requires DistinctRanges(perms)
    modifies store
    ensures store.Valid()
    ensures store.users == old(store.users) && store.kv == old(store.kv)
    ensures err ==> (FirstFailedGrant(to, perms, faults).Some?
      && store.roles == old(store.roles)[to := MigratedAll(perms[..FirstFailedGrant(to, perms, faults).value])])
    ensures !err ==> (FirstFailedGrant(to, perms, faults).None?
      && store.roles == old(store.roles)[to := MigratedAll(perms)])
  {
    ghost var start := store.roles;
    var i := 0;
    while i < |perms|
      invariant 0 <= i <= |perms|
      invariant store.Valid()
      invariant store.roles == start[to := MigratedAll(perms[..i])]
      invariant store.users == old(store.users) && store.kv == old(store.kv)
      invariant forall j :: 0 <= j < i ==> GrantRequest(to, perms[j]) !in faults
    {
      err := CopyOne(store, to, perms, i, faults);
      if err {
        FirstFailedGrantAt(to, perms, faults, i);
        return;
      }
      i := i + 1;
    }
    assert perms[..i] == perms;
    err := false;
  }

  /** The store requests of resourceRoleUpdate, in order: look up the old
      role, look up the new name, add the new role, copy the permissions,
      delete the old role; the first failure ends the sequence. */
  method RenameRole(store: Store, from: string, to: string, faults: set<Request>)
    returns (stage: RenameStage)
    requires store.Valid()
    modifies store
    ensures store.Valid()
    ensures store.users == old(store.users) && store.kv == old(store.kv)
    ensures stage == Rename(old(store.roles), from, to, faults).stage
    ensures store.roles == Rename(old(store.roles), from, to, faults).roles
  {
    ghost var roles := store.roles;
    var err, perms := store.RoleGet(from, faults);
    if err {
      return OldMissing;
    }
    var errNew, _ := store.RoleGet(to, faults);
    if !errNew {
      return NewExists;
    }
    err := store.RoleAdd(to, faults);
    if err {
      return AddFailed;
    }
    assert from != to && perms == roles[from];
    err := CopyPermissions(store, to, perms, faults);
    if err {
      return GrantFailed(FirstFailedGrant(to, perms, faults).value);
    }
    assert store.roles == roles[to := MigratedAll(perms)];
    err := store.RoleDelete(from, faults);
    if err {
      return DeleteFailed;
    }
    stage := Renamed;
  }

  /** resourceRoleUpdate: renames the role from the previous `name` to the
      planned one as `Rename` describes; an existing new name stops with no
      diagnostic (a nil error is wrapped), every other stop is an error, and a
      completed rename sets `name`, takes a fresh ID and reads the role back. */
  method Update(store: Store, d: ResourceData, faults: set<Request>, newId: string)
    returns (diags: Diagnostics)
    requires store.Valid()
    modifies store, d
    ensures diags != Panic
    ensures store.Valid()
    ensures store.users == old(store.users) && store.kv == old(store.kv)
    ensures var (from, to) := (Lookup(old(d.prior), "name"), Lookup(old(d.strings), "name"));
      var outcome := Rename(old(store.roles), from, to, faults);
      && store.roles == outcome.roles
      && (outcome.stage.NewExists? ==> diags == Nil)
      && (!outcome.stage.NewExists? && !outcome.stage.Renamed? ==> diags == Error)
      && (!outcome.stage.Renamed? ==> d.id == old(d.id) && d.strings == old(d.strings))
    ensures var (from, to) := (Lookup(old(d.prior), "name"), Lookup(old(d.strings), "name"));
      Rename(old(store.roles), from, to, faults).stage.Renamed? ==>
        var renamed := old(d.strings)["name" := to];
        var readName := WithFallback(renamed, "name", newId);
        && d.id == newId
        && d.strings == Backfilled(renamed, "name", newId)
        && (diags == Error <==> Request.RoleGet(readName) in faults || readName !in store.roles)
    ensures d.bools == old(d.bools) && d.prior == old(d.prior)
  {
    var (oldValue, newValue) := d.GetChange("name");
    var stage := RenameRole(store, oldValue, newValue, faults);
    if stage.NewExists? {
      return Nil;
    } else if !stage.Renamed? {
      return Error;
    }
    d.Set("name", newValue);
    d.SetId(newId);
    diags := Read(store, d, faults, newId);
  }

  /** resourceRoleDelete: a role the lookup does not find is an error and
      nothing is deleted; otherwise the role is deleted. */
  method Delete(store: Store, d: ResourceData, faults: set<Request>) returns (diags: Diagnostics)
    requires store.Valid()
    modifies store
    ensures diags != Panic
    ensures store.Valid()
    ensures store.users == old(store.users) && store.kv == old(store.kv)
    ensures var name := d.Get("name");
      && (diags == Error <==> Request.RoleGet(name) in faults || name !in old(store.roles)
                              || Request.RoleDelete(name) in faults)
      && store.roles == (if diags == Error then old(store.roles) else old(store.roles) - {name})
  {
    var name := d.Get("name");
    var err, _ := store.RoleGet(name, faults);
    if err {
      return Error;
    }
    err := store.RoleDelete(name, faults);
    diags := if err then Error else Nil;
  }
}
