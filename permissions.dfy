/** The `etcd_permission` resource (internal/provider/resource_permission.go):
    a permission of the role in `role` on `key`, up to the prefix's range end
    when `withprefix` is set and up to `endrange` otherwise, at the level
    named by `permission`. */
module Permissions {
  import opened Etcd
  import opened Resource
  import Common

  /** The validation of the `permission` attribute: only the exact texts
      "READ" and "READWRITE" pass, so for instance "read" does not. */
  function ValidPermission(v: string): (ok: bool)
    ensures ok <==> v == "READ" || v == "READWRITE"
  {
    var allowed := ["READ", "READWRITE"];
    assert allowed[0] == "READ" && allowed[1] == "READWRITE";
    Common.Contains(allowed, v)
  }

  /** The range end Create and Update grant: the prefix's range end when
      `withprefix` is set (then `endrange` plays no part), otherwise
      `endrange`, which must not be empty. */
  function RangeEnd(withPrefix: bool, key: string, endRange: string, prefixRangeEnd: string -> string)
    : (r: Option<string>)
    ensures withPrefix ==> r == Some(prefixRangeEnd(key))
    ensures !withPrefix ==> (r.None? <==> endRange == "")
    ensures !withPrefix && r.Some? ==> r.value == endRange
  {
    if withPrefix then Some(prefixRangeEnd(key))
    else if endRange == "" then None
    else Some(endRange)
  }

  /** The level a grant gets from a text: READWRITE for exactly "READWRITE",
      READ for anything else. */
  function LevelFor(text: string): (t: PermType)
    ensures t == PermReadWrite <==> text == "READWRITE"
    ensures t == PermRead <==> text != "READWRITE"
  {
    if text == "READWRITE" then PermReadWrite else PermRead
  }

  /** A valid `permission` text is granted at the level it names, and Read
      prints that level back as the same text. */
  lemma LevelRoundTrip(v: string)
    requires ValidPermission(v)
    ensures TypeName(LevelFor(v)) == v
  {
  }

  /** The position of the last permission of `ps` on `key`, whatever its
      range end. */
  function LastWithKey(ps: seq<Permission>, key: string): (r: Option<nat>)
    ensures r.None? <==> forall i :: 0 <= i < |ps| ==> ps[i].key != key
    ensures r.Some? ==> r.value < |ps| && ps[r.value].key == key
    ensures r.Some? ==> forall j :: r.value < j < |ps| ==> ps[j].key != key
  {
    if ps == [] then None
    else if ps[|ps| - 1].key == key then Some(|ps| - 1)
    else
      var r := LastWithKey(ps[..|ps| - 1], key);
      assert forall i :: 0 <= i < |ps| - 1 ==> ps[..|ps| - 1][i] == ps[i];
      r
  }

  /** One more permission: it is the last on the key if it has the key. */
  lemma LastWithKeyStep(ps: seq<Permission>, i: nat, key: string)
    requires i < |ps|
    ensures LastWithKey(ps[..i + 1], key)
      == if ps[i].key == key then Some(i) else LastWithKey(ps[..i], key)
  {
    assert ps[..i + 1][..i] == ps[..i];
  }

  /** The attributes after Read has gone through `ps`: `permission` holds the
      printed level of the last permission on the key, if there is one. */
  function ReadBack(attrs: map<string, string>, ps: seq<Permission>, key: string): map<string, string>
  {
    match LastWithKey(ps, key)
    case None => attrs
    case Some(k) => attrs["permission" := TypeName(ps[k].permType)]
  }

  /** Going through one more permission. */
  lemma ReadBackStep(attrs: map<string, string>, ps: seq<Permission>, i: nat, key: string)
    requires i < |ps|
    ensures ReadBack(attrs, ps[..i + 1], key)
      == if ps[i].key == key then attrs["permission" := TypeName(ps[i].permType)] else ReadBack(attrs, ps[..i], key)
  {
    LastWithKeyStep(ps, i, key);
  }

  /** resourcePermissionRead: for every permission of the role on `key` (any
      range end) it records the printed level in `permission` and takes a
      fresh ID, so the last such permission wins; with none, nothing changes.
      The write to the undeclared `withPrefix` attribute is refused by the
      SDK and has no effect. */
  method Read(store: Store, d: ResourceData, faults: set<Request>, newId: string)
    returns (diags: Diagnostics)
    modifies d
    ensures diags != Panic
    ensures var (role, key) := (Lookup(old(d.strings), "role"), Lookup(old(d.strings), "key"));
      if Request.RoleGet(role) in faults || role !in store.roles then
        diags == Error && d.strings == old(d.strings) && d.id == old(d.id)
      else
        && diags == Nil
        && d.strings == ReadBack(old(d.strings), store.roles[role], key)
        && d.id == (if LastWithKey(store.roles[role], key).Some? then newId else old(d.id))
    ensures d.bools == old(d.bools) && d.prior == old(d.prior)
  {
    var role := d.Get("role");
    var key := d.Get("key");
    var err, perms := store.RoleGet(role, faults);
    if err {
      return Error;
    }
    var i := 0;
    while i < |perms|
      invariant 0 <= i <= |perms|
      invariant d.strings == ReadBack(old(d.strings), perms[..i], key)
      invariant d.id == (if LastWithKey(perms[..i], key).Some? then newId else old(d.id))
      invariant d.bools == old(d.bools) && d.prior == old(d.prior)
    {
      LastWithKeyStep(perms, i, key);
      ReadBackStep(old(d.strings), perms, i, key);
      if perms[i].key == key {
        d.Set("permission", TypeName(perms[i].permType));
        d.SetId(newId);
      }
      i := i + 1;
    }
    assert perms[..i] == perms;
    diags := Nil;
  }

  /** The grant Create and Update share, once they have chosen the level:
      a missing range end is an error before any request, a refused grant is
      an error and sets no ID, and a granted permission is read back. */
  method GrantAndRead(store: Store, d: ResourceData, level: PermType, faults: set<Request>,
                      prefixRangeEnd: string -> string, newId: string)
    returns (diags: Diagnostics)
    requires store.Valid()
    modifies store, d
    ensures store.Valid()
    ensures store.users == old(store.users) && store.kv == old(store.kv)
    ensures diags != Panic
    ensures var (role, key) := (Lookup(old(d.strings), "role"), Lookup(old(d.strings), "key"));
      var rangeEnd := RangeEnd(d.GetBool("withprefix"), key, Lookup(old(d.strings), "endrange"), prefixRangeEnd);
      if rangeEnd.None? then
        diags == Error && store.roles == old(store.roles) && d.strings == old(d.strings) && d.id == old(d.id)
      else
        var perm := Permission(key, rangeEnd.value, level);
        if Request.RoleGrantPermission(role, perm) in faults || role !in old(store.roles) then
          diags == Error && store.roles == old(store.roles) && d.strings == old(d.strings) && d.id == old(d.id)
        else
          var granted := Granted(old(store.roles)[role], perm);
          && store.roles == old(store.roles)[role := granted]
          && (diags == Error <==> Request.RoleGet(role) in faults)
          && (diags == Error ==> d.strings == old(d.strings) && d.id == newId)
          && (diags == Nil ==> d.strings == old(d.strings)["permission" := TypeName(level)] && d.id == newId)
    ensures d.bools == old(d.bools) && d.prior == old(d.prior)
  {
    var role := d.Get("role");
    var key := d.Get("key");
    var withPrefix := d.GetBool("withprefix");
    var rangeEnd: string;
    if withPrefix {
      rangeEnd := prefixRangeEnd(key);
    } else {
      rangeEnd := d.Get("endrange");
      if rangeEnd == "" {
        return Error;
      }
    }
    var err := store.RoleGrantPermission(role, Permission(key, rangeEnd, level), faults);
    if err {
      return Error;
    }
    d.SetId(newId);
    GrantedHasKey(old(store.roles)[role], Permission(key, rangeEnd, level));
    diags := Read(store, d, faults, newId);
  }

  /** A role just granted a permission on `key` has a permission on `key`. */
  lemma GrantedHasKey(ps: seq<Permission>, p: Permission)
    ensures var r := Granted(ps, p);
      LastWithKey(r, p.key) == Some(|r| - 1) && r[|r| - 1] == p
  {
    var r := Granted(ps, p);
    assert r[|r| - 1] == p;
  }

  /** resourcePermissionCreate: grants at READWRITE exactly when the
      `permission` attribute is "READWRITE", READ otherwise. */
  method Create(store: Store, d: ResourceData, faults: set<Request>, prefixRangeEnd: string -> string, newId: string)
    returns (diags: Diagnostics)
    requires store.Valid()
    modifies store, d
    ensures diags != Panic
    ensures store.Valid()
    ensures store.users == old(store.users) && store.kv == old(store.kv)
    ensures var (role, key) := (Lookup(old(d.strings), "role"), Lookup(old(d.strings), "key"));
      var rangeEnd := RangeEnd(d.GetBool("withprefix"), key, Lookup(old(d.strings), "endrange"), prefixRangeEnd);
      var perm := Permission(key, if rangeEnd.Some? then rangeEnd.value else "", LevelFor(Lookup(old(d.strings), "permission")));
      if rangeEnd.None? || Request.RoleGrantPermission(role, perm) in faults || role !in old(store.roles) then
        diags == Error && store.roles == old(store.roles) && d.strings == old(d.strings) && d.id == old(d.id)
      else
        && store.roles == old(store.roles)[role := Granted(old(store.roles)[role], perm)]
        && d.id == newId
        && (diags == Error <==> Request.RoleGet(role) in faults)
        && d.strings == (if diags == Error then old(d.strings)
                         else old(d.strings)["permission" := TypeName(perm.permType)])
    ensures d.bools == old(d.bools) && d.prior == old(d.prior)
  {
    var level := LevelFor(d.Get("permission"));
    diags := GrantAndRead(store, d, level, faults, prefixRangeEnd, newId);
  }

  /** resourcePermissionUpdate: as Create, except that the level comes from
      the `role` attribute, so the grant is READWRITE only for a role whose
      name is "READWRITE" and READ otherwise, whatever `permission` says. */
  method Update(store: Store, d: ResourceData, faults: set<Request>, prefixRangeEnd: string -> string, newId: string)
    returns (diags: Diagnostics)
    requires store.Valid()
    modifies store, d
    ensures diags != Panic
    ensures store.Valid()
    ensures store.users == old(store.users) && store.kv == old(store.kv)
    ensures var (role, key) := (Lookup(old(d.strings), "role"), Lookup(old(d.strings), "key"));
      var rangeEnd := RangeEnd(d.GetBool("withprefix"), key, Lookup(old(d.strings), "endrange"), prefixRangeEnd);
      var perm := Permission(key, if rangeEnd.Some? then rangeEnd.value else "", LevelFor(role));
      if rangeEnd.None? || Request.RoleGrantPermission(role, perm) in faults || role !in old(store.roles) then
        diags == Error && store.roles == old(store.roles) && d.strings == old(d.strings) && d.id == old(d.id)
      else
        && store.roles == old(store.roles)[role := Granted(old(store.roles)[role], perm)]
        && d.id == newId
        && (diags == Error <==> Request.RoleGet(role) in faults)
        && d.strings == (if diags == Error then old(d.strings)
                         else old(d.strings)["permission" := TypeName(perm.permType)])
    ensures d.bools == old(d.bools) && d.prior == old(d.prior)
  {
    var level := LevelFor(d.Get("role"));
    diags := GrantAndRead(store, d, level, faults, prefixRangeEnd, newId);
  }

  /** What Delete does to a prefix permission whose `endrange` was left at
      its default "": Delete then revokes the range end "", which leaves
      every permission with a non-empty range end, the prefix permission
      among them, in the role. */
  lemma PrefixPermissionSurvivesDelete(ps: seq<Permission>, p: Permission)
    requires p in ps && p.rangeEnd != ""
    ensures p in Without(ps, p.key, "")
  {
  }

  /** Extending a prefix of `ps` by one element adds that element's range. */
  lemma HasRangeExtend(ps: seq<Permission>, i: nat, key: string, rangeEnd: string)
    requires i < |ps|
    ensures HasRange(ps[..i + 1], key, rangeEnd) <==> HasRange(ps[..i], key, rangeEnd) || Covers(ps[i], key, rangeEnd)
  {
    assert ps[..i + 1] == ps[..i] + [ps[i]];
    if HasRange(ps[..i + 1], key, rangeEnd) && !Covers(ps[i], key, rangeEnd) {
      var j :| 0 <= j < i + 1 && Covers(ps[..i + 1][j], key, rangeEnd);
      assert ps[..i][j] == ps[..i + 1][j];
    }
    if HasRange(ps[..i], key, rangeEnd) {
      var j :| 0 <= j < i && Covers(ps[..i][j], key, rangeEnd);
      assert ps[..i + 1][j] == ps[..i][j];
    }
  }

  /** resourcePermissionDelete: revokes the role's permission whose key is
      `key` and whose range end is the `endrange` attribute, and nothing else;
      a failed role lookup or revoke is an error. A permission created with
      `withprefix` has an empty `endrange` in the state, so the revoke looks
      for the single-key permission and leaves the prefix permission alone. */
  method Delete(store: Store, d: ResourceData, faults: set<Request>) returns (diags: Diagnostics)
    requires store.Valid()
    modifies store
    ensures diags != Panic
    ensures store.Valid()
    ensures store.users == old(store.users) && store.kv == old(store.kv)
    ensures var (role, key, rangeEnd) := (d.Get("role"), d.Get("key"), d.Get("endrange"));
      if Request.RoleGet(role) in faults || role !in old(store.roles) then
        diags == Error && store.roles == old(store.roles)
      else if !HasRange(old(store.roles)[role], key, rangeEnd) then
        diags == Nil && store.roles == old(store.roles)
      else if Request.RoleRevokePermission(role, key, rangeEnd) in faults then
        diags == Error && store.roles == old(store.roles)
      else
        diags == Nil && store.roles == old(store.roles)[role := Without(old(store.roles)[role], key, rangeEnd)]
  {
    var role := d.Get("role");
    var key := d.Get("key");
    var rangeEnd := d.Get("endrange");
    var err, perms := store.RoleGet(role, faults);
    if err {
      return Error;
    }
    ghost var start := store.roles;
    assert DistinctRanges(perms);
    var i := 0;
    while i < |perms|
      invariant 0 <= i <= |perms|
      invariant store.Valid()
      invariant store.users == old(store.users) && store.kv == old(store.kv)
      invariant !HasRange(perms[..i], key, rangeEnd) ==> store.roles == start
      invariant HasRange(perms[..i], key, rangeEnd) ==>
        && store.roles == start[role := Without(perms, key, rangeEnd)]
        && Request.RoleRevokePermission(role, key, rangeEnd) !in faults
        && forall j :: i <= j < |perms| ==> !Covers(perms[j], key, rangeEnd)
    {
      HasRangeExtend(perms, i, key, rangeEnd);
      if perms[i].key == key && perms[i].rangeEnd == rangeEnd {
        assert HasRange(perms, key, rangeEnd);
        err := store.RoleRevokePermission(role, key, rangeEnd, faults);
        if err {
          return Error;
        }
      }
      i := i + 1;
    }
    assert perms[..i] == perms;
    diags := Nil;
  }
}
