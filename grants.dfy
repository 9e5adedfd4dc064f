/** The `etcd_grant_role_user` resource
    (internal/provider/resource_grant_role_user.go): the role in `role`
    granted to the user in `user_name`. */
module Grants {
  import opened Etcd
  import opened Resource

  /** resourceGrantRoleUserRead: only the role is looked up, the user is not.
      A failed lookup logs fields of the nil response and so panics; on
      success `user_name` is written back unchanged and a fresh ID is
      taken. */
  method Read(store: Store, d: ResourceData, faults: set<Request>, newId: string)
    returns (diags: Diagnostics)
    modifies d
    ensures var (user, role) := (Lookup(old(d.strings), "user_name"), Lookup(old(d.strings), "role"));
      && diags != Error
      && (diags == Panic <==> Request.RoleGet(role) in faults || role !in store.roles)
      && (diags == Panic ==> d.strings == old(d.strings) && d.id == old(d.id))
      && (diags == Nil ==> d.strings == old(d.strings)["user_name" := user] && d.id == newId)
    ensures d.bools == old(d.bools) && d.prior == old(d.prior)
  {
    var user := d.Get("user_name");
    var role := d.Get("role");
    var err, _ := store.RoleGet(role, faults);
    if err {
      return Panic;
    }
    d.Set("user_name", user);
    d.SetId(newId);
    diags := Nil;
  }

  /** resourceGrantRoleUserCreate: the user is looked up first, then the
      role, and only when both are found is the role granted; a failed
      grant sets no ID. The Read that follows repeats the role lookup that
      just succeeded, so it does not panic. */
  method Create(store: Store, d: ResourceData, faults: set<Request>, newId: string)
    returns (diags: Diagnostics)
    requires store.Valid()
    modifies store, d
    ensures store.Valid()
    ensures store.roles == old(store.roles) && store.kv == old(store.kv)
    ensures var (user, role) := (Lookup(old(d.strings), "user_name"), Lookup(old(d.strings), "role"));
      var users := old(store.users);
      if Request.UserGet(user) in faults || user !in users
         || Request.RoleGet(role) in faults || role !in store.roles
         || Request.UserGrantRole(user, role) in faults then
        diags == Error && store.users == users && d.strings == old(d.strings) && d.id == old(d.id)
      else
        && store.users == users[user := users[user].(roles := users[user].roles + {role})]
        && diags == Nil
        && d.strings == old(d.strings)["user_name" := user]
        && d.id == newId
    ensures d.bools == old(d.bools) && d.prior == old(d.prior)
  {
    var user := d.Get("user_name");
    var role := d.Get("role");
    var errUserGet := store.UserGet(user, faults);
    if errUserGet {
      return Error;
    }
    var errRoleGet, _ := store.RoleGet(role, faults);
    if errRoleGet {
      return Error;
    }
    var err := store.UserGrantRole(user, role, faults);
    if err {
      return Error;
    }
    d.SetId(newId);
    diags := Read(store, d, faults, newId);
  }

  /** resourceGrantRoleUserUpdate: as Create, except that a role the lookup
      does not find ends the update with no diagnostic (the nil user lookup
      error is what gets wrapped) and nothing granted. */
  method Update(store: Store, d: ResourceData, faults: set<Request>, newId: string)
    returns (diags: Diagnostics)
    requires store.Valid()
    modifies store, d
    ensures store.Valid()
    ensures store.roles == old(store.roles) && store.kv == old(store.kv)
    ensures var (user, role) := (Lookup(old(d.strings), "user_name"), Lookup(old(d.strings), "role"));
      var users := old(store.users);
      if Request.UserGet(user) in faults || user !in users then
        diags == Error && store.users == users && d.strings == old(d.strings) && d.id == old(d.id)
      else if Request.RoleGet(role) in faults || role !in store.roles then
        diags == Nil && store.users == users && d.strings == old(d.strings) && d.id == old(d.id)
      else if Request.UserGrantRole(user, role) in faults then
        diags == Error && store.users == users && d.strings == old(d.strings) && d.id == old(d.id)
      else
        && store.users == users[user := users[user].(roles := users[user].roles + {role})]
        && diags == Nil
        && d.strings == old(d.strings)["user_name" := user]
        && d.id == newId
    ensures d.bools == old(d.bools) && d.prior == old(d.prior)
  {
    var user := d.Get("user_name");
    var role := d.Get("role");
    var errUserGet := store.UserGet(user, faults);
    if errUserGet {
      return Error;
    }
    var errRoleGet, _ := store.RoleGet(role, faults);
    if errRoleGet {
      return if errUserGet then Error else Nil;
    }
    var err := store.UserGrantRole(user, role, faults);
    if err {
      return Error;
    }
    d.SetId(newId);
    diags := Read(store, d, faults, newId);
  }

  /** resourceGrantRoleUserRevoke: revokes the role from the user; a refused
      revoke (no such user, a role the user does not hold) is an error. */
  method Revoke(store: Store, d: ResourceData, faults: set<Request>) returns (diags: Diagnostics)
    requires store.Valid()
    modifies store
    ensures diags != Panic
    ensures store.Valid()
    ensures store.roles == old(store.roles) && store.kv == old(store.kv)
    ensures var (user, role) := (d.Get("user_name"), d.Get("role"));
      var users := old(store.users);
      && (diags == Error <==> Request.UserRevokeRole(user, role) in faults || user !in users
                              || role !in users[user].roles)
      && store.users == (if diags == Error then users
                         else users[user := users[user].(roles := users[user].roles - {role})])
  {
    var err := store.UserRevokeRole(d.Get("user_name"), d.Get("role"), faults);
    diags := if err then Error else Nil;
  }
}
