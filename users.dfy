/** The `etcd_user` resource (internal/provider/resource_user.go): a user
    named by the `name` attribute with the password of the `password`
    attribute. */
module Users {
  import opened Etcd
  import opened Resource
  import Password

  /** The password Create registers: the configured one, or a generated
      24-character one with at least three special characters, three digits
      and three upper-case letters when none is configured. */
  function PasswordFor(attrs: map<string, string>, draws: seq<nat>): (password: string)
    requires Password.DrawsNeeded(24, 3, 3, 3) <= |draws|
    ensures Lookup(attrs, "password") != "" ==> password == Lookup(attrs, "password")
    ensures Lookup(attrs, "password") == "" ==> password == Password.Generated(24, 3, 3, 3, draws)
  {
    if Lookup(attrs, "password") == "" then Password.Generated(24, 3, 3, 3, draws)
    else Lookup(attrs, "password")
  }

  /** The attributes once Create has written a generated password back. */
  function WithPassword(attrs: map<string, string>, draws: seq<nat>): (r: map<string, string>)
    requires Password.DrawsNeeded(24, 3, 3, 3) <= |draws|
    ensures Lookup(r, "password") == PasswordFor(attrs, draws)
    ensures forall other :: other != "password" ==> Lookup(r, other) == Lookup(attrs, other)
  {
    if Lookup(attrs, "password") == "" then attrs["password" := PasswordFor(attrs, draws)] else attrs
  }

  /** resourceUserRead: looks the user up under `name`, or under the ID when
      `name` is empty, and takes a fresh ID when the user exists. */
  method Read(store: Store, d: ResourceData, faults: set<Request>, newId: string)
    returns (diags: Diagnostics)
    modifies d
    ensures diags != Panic
    ensures var name := WithFallback(old(d.strings), "name", old(d.id));
      && (diags == Error <==> Request.UserGet(name) in faults || name !in store.users)
      && d.id == (if diags == Error then old(d.id) else newId)
    ensures d.strings == Backfilled(old(d.strings), "name", old(d.id))
    ensures d.bools == old(d.bools) && d.prior == old(d.prior)
  {
    var name := d.Get("name");
    if name == "" {
      name := d.id;
      d.Set("name", name);
    }
    var err := store.UserGet(name, faults);
    if err {
      return Error;
    }
    d.SetId(newId);
    diags := Nil;
  }

  /** The first step of resourceUserCreate: an empty `password` attribute is
      replaced by a generated password, which is written back to the state
      at once. */
  method ChoosePassword(d: ResourceData, draws: seq<nat>) returns (password: string)
    requires Password.DrawsNeeded(24, 3, 3, 3) <= |draws|
    modifies d
    ensures password == PasswordFor(old(d.strings), draws)
    ensures d.strings == WithPassword(old(d.strings), draws)
    ensures d.id == old(d.id) && d.bools == old(d.bools) && d.prior == old(d.prior)
  {
    password := d.Get("password");
    if password == "" {
      password := Password.GeneratePassword(24, 3, 3, 3, draws);
      d.Set("password", password);
    }
  }

  /** resourceUserCreate: an empty password is replaced by a generated one,
      which is written back to the state before the user is added; the user
      starts with no roles. A refused add is an error and sets no ID. */
  method Create(store: Store, d: ResourceData, faults: set<Request>, draws: seq<nat>, newId: string)
    returns (diags: Diagnostics)
    requires store.Valid()
    requires Password.DrawsNeeded(24, 3, 3, 3) <= |draws|
    modifies store, d
    ensures diags != Panic
    ensures store.Valid()
    ensures store.roles == old(store.roles) && store.kv == old(store.kv)
    ensures var name := Lookup(old(d.strings), "name");
      var password := PasswordFor(old(d.strings), draws);
      var written := WithPassword(old(d.strings), draws);
      if Request.UserAdd(name, password) in faults || name in old(store.users) then
        && diags == Error
        && store.users == old(store.users)
        && d.strings == written && d.id == old(d.id)
      else
        var readName := WithFallback(written, "name", newId);
        && store.users == old(store.users)[name := User(password, {})]
        && d.strings == Backfilled(written, "name", newId)
        && (diags == Error <==> Request.UserGet(readName) in faults || readName !in store.users)
        && d.id == newId
    ensures d.bools == old(d.bools) && d.prior == old(d.prior)
  {
    var name := d.Get("name");
    var password := ChoosePassword(d, draws);
    var err := store.UserAdd(name, password, faults);
    if err {
      return Error;
    }
    d.SetId(newId);
    diags := Read(store, d, faults, newId);
  }

  /** resourceUserUpdate: with an unchanged name only the password changes;
      with a new name the old user is deleted first and a user with the new
      name and no roles is added, and a failed delete stops before the add. */
  method Update(store: Store, d: ResourceData, faults: set<Request>, newId: string)
    returns (diags: Diagnostics)
    requires store.Valid()
    modifies store, d
    ensures diags != Panic
    ensures store.Valid()
    ensures store.roles == old(store.roles) && store.kv == old(store.kv)
    ensures var (oldName, newName) := (Lookup(old(d.prior), "name"), Lookup(old(d.strings), "name"));
      var password := Lookup(old(d.strings), "password");
      var users := old(store.users);
      if oldName == newName then
        store.users == (if Request.UserChangePassword(oldName, password) in faults || oldName !in users then users
                        else users[oldName := users[oldName].(password := password)])
      else if Request.UserDelete(oldName) in faults || oldName !in users then
        store.users == users
      else if Request.UserAdd(newName, password) in faults || newName in users then
        store.users == users - {oldName}
      else
        store.users == (users - {oldName})[newName := User(password, {})]
    ensures var (oldName, newName) := (Lookup(old(d.prior), "name"), Lookup(old(d.strings), "name"));
      var password := Lookup(old(d.strings), "password");
      var users := old(store.users);
      var stored := if oldName == newName then
          !(Request.UserChangePassword(oldName, password) in faults || oldName !in users)
        else
          !(Request.UserDelete(oldName) in faults || oldName !in users)
          && !(Request.UserAdd(newName, password) in faults || newName in users);
      if stored then
        var readName := WithFallback(old(d.strings), "name", newId);
        && d.id == newId
        && d.strings == Backfilled(old(d.strings), "name", newId)
        && (diags == Error <==> Request.UserGet(readName) in faults || readName !in store.users)
      else
        diags == Error && d.id == old(d.id) && d.strings == old(d.strings)
    ensures d.bools == old(d.bools) && d.prior == old(d.prior)
  {
    var (oldName, newName) := d.GetChange("name");
    var (_, newPassword) := d.GetChange("password");
    if oldName == newName {
      var err := store.UserChangePassword(oldName, newPassword, faults);
      if err {
        return Error;
      }
    } else {
      var errUserDelete := store.UserDelete(oldName, faults);
      if errUserDelete {
        return Error;
      }
      var errUserAdd := store.UserAdd(newName, newPassword, faults);
      if errUserAdd {
        return Error;
      }
    }
    d.SetId(newId);
    diags := Read(store, d, faults, newId);
  }

  /** resourceUserDelete: removes the user named by `name`; a refused delete
      is an error. */
  method Delete(store: Store, d: ResourceData, faults: set<Request>) returns (diags: Diagnostics)
    requires store.Valid()
    modifies store
    ensures diags != Panic
    ensures store.Valid()
    ensures var name := d.Get("name");
      && (diags == Error <==> Request.UserDelete(name) in faults || name !in old(store.users))
      && store.users == (if diags == Error then old(store.users) else old(store.users) - {name})
    ensures store.roles == old(store.roles) && store.kv == old(store.kv)
  {
    var err := store.UserDelete(d.Get("name"), faults);
    diags := if err then Error else Nil;
  }
}
