/** The etcd v3 client the provider talks to, replaced by an in-memory store.

    Every remote request can fail: the caller passes the set `faults` of
    requests whose transport fails (a timeout, an unreachable endpoint). A
    request also fails when the store refuses it: a missing user or role,
    a name that already exists, a permission that was never granted. A
    handler that repeats an identical request gets the same verdict twice. */
module Etcd {

  datatype Option<T> = None | Some(value: T)

  /** Access levels of a role permission, as the client enumerates them. */
  datatype PermType = PermRead | PermWrite | PermReadWrite

  /** The text `%v` formatting prints for a level. */
  function TypeName(t: PermType): (name: string)
    ensures name == "READWRITE" <==> t == PermReadWrite
  {
    match t
    case PermRead => "READ"
    case PermWrite => "WRITE"
    case PermReadWrite => "READWRITE"
  }

  /** A key range with an access level; an empty range end means the single key. */
  datatype Permission = Permission(key: string, rangeEnd: string, permType: PermType)

  datatype User = User(password: string, roles: set<string>)

  /** One remote request, as the failure oracle sees it. */
  datatype Request =
    | UserAdd(name: string, password: string)
    | UserGet(name: string)
    | UserDelete(name: string)
    | UserChangePassword(name: string, password: string)
    | UserGrantRole(user: string, role: string)
    | UserRevokeRole(user: string, role: string)
    | RoleAdd(role: string)
    | RoleGet(role: string)
    | RoleDelete(role: string)
    | RoleGrantPermission(role: string, perm: Permission)
    | RoleRevokePermission(role: string, key: string, rangeEnd: string)
    | Get(key: string)
    | Put(key: string, value: string)
    | Delete(key: string)

  /** `p` sits on exactly the range `key .. rangeEnd`. */
  predicate Covers(p: Permission, key: string, rangeEnd: string)
  {
    p.key == key && p.rangeEnd == rangeEnd
  }

  /** Some permission of `ps` sits on the range. */
  predicate HasRange(ps: seq<Permission>, key: string, rangeEnd: string)
  {
    exists i :: 0 <= i < |ps| && Covers(ps[i], key, rangeEnd)
  }

  /** etcd keeps at most one permission per range in a role. */
  predicate DistinctRanges(ps: seq<Permission>)
  {
    forall i, j :: 0 <= i < j < |ps| ==> !Covers(ps[j], ps[i].key, ps[i].rangeEnd)
  }

  /** The permissions of `ps` not on the given range, in their order. */
  function Without(ps: seq<Permission>, key: string, rangeEnd: string): (r: seq<Permission>)
    ensures |r| <= |ps|
    ensures forall p :: p in r <==> p in ps && !Covers(p, key, rangeEnd)
    ensures !HasRange(ps, key, rangeEnd) ==> r == ps
  {
    if ps == [] then []
    else
      var rest := Without(ps[1..], key, rangeEnd);
      assert !HasRange(ps, key, rangeEnd) ==> !HasRange(ps[1..], key, rangeEnd) by {
        if HasRange(ps[1..], key, rangeEnd) {
          var i :| 0 <= i < |ps[1..]| && Covers(ps[1..][i], key, rangeEnd);
          assert Covers(ps[i + 1], key, rangeEnd);
        }
      }
      if Covers(ps[0], key, rangeEnd) then rest
      else
        assert forall p :: p in ps <==> p == ps[0] || p in ps[1..];
        [ps[0]] + rest
  }

  /** A role after a grant: the grant replaces whatever sat on its range. */
  function Granted(ps: seq<Permission>, p: Permission): (r: seq<Permission>)
    ensures |r| > 0 && r[|r| - 1] == p
    ensures forall q :: q in r <==> q == p || (q in ps && !Covers(q, p.key, p.rangeEnd))
  {
    Without(ps, p.key, p.rangeEnd) + [p]
  }

  /** The tail of a role with distinct ranges has distinct ranges, none of
      them the head's. */
  lemma TailDistinct(ps: seq<Permission>)
    requires ps != [] && DistinctRanges(ps)
    ensures DistinctRanges(ps[1..])
    ensures forall q :: q in ps[1..] ==> !Covers(q, ps[0].key, ps[0].rangeEnd)
  {
    forall q | q in ps[1..]
      ensures !Covers(q, ps[0].key, ps[0].rangeEnd)
    {
      var m :| 0 <= m < |ps[1..]| && ps[1..][m] == q;
      assert ps[m + 1] == q;
    }
  }

  /** Putting a permission in front of distinct ranges none of which is its
      own keeps them distinct. */
  lemma ConsDistinct(x: Permission, rest: seq<Permission>)
    requires DistinctRanges(rest)
    requires forall q :: q in rest ==> !Covers(q, x.key, x.rangeEnd)
    ensures DistinctRanges([x] + rest)
  {
    var r := [x] + rest;
    forall i, j | 0 <= i < j < |r|
      ensures !Covers(r[j], r[i].key, r[i].rangeEnd)
    {
      if i == 0 {
        assert r[j] == rest[j - 1];
      } else {
        assert r[i] == rest[i - 1] && r[j] == rest[j - 1];
      }
    }
  }

  /** Dropping one range keeps the remaining ranges distinct. */
  lemma {:induction false} WithoutKeepsDistinct(ps: seq<Permission>, key: string, rangeEnd: string)
    requires DistinctRanges(ps)
    ensures DistinctRanges(Without(ps, key, rangeEnd))
  {
    if ps != [] {
      TailDistinct(ps);
      WithoutKeepsDistinct(ps[1..], key, rangeEnd);
      if !Covers(ps[0], key, rangeEnd) {
        ConsDistinct(ps[0], Without(ps[1..], key, rangeEnd));
      }
    }
  }

  /** A grant keeps a role's ranges distinct. */
  lemma GrantedKeepsDistinct(ps: seq<Permission>, p: Permission)
    requires DistinctRanges(ps)
    ensures DistinctRanges(Granted(ps, p))
  {
    var w := Without(ps, p.key, p.rangeEnd);
    WithoutKeepsDistinct(ps, p.key, p.rangeEnd);
    var r := w + [p];
    forall i, j | 0 <= i < j < |r|
      ensures !Covers(r[j], r[i].key, r[i].rangeEnd)
    {
      if j == |r| - 1 {
        assert r[i] in w;
      } else {
        assert r[i] == w[i] && r[j] == w[j];
      }
    }
  }

  /** The abstract etcd cluster: roles with their permissions, users with
      their password and granted roles, and the key-value space. */
  class Store {
    var roles: map<string, seq<Permission>>
    var users: map<string, User>
    var kv: map<string, string>

    ghost predicate Valid()
      reads this
    {
      forall r | r in roles :: DistinctRanges(roles[r])
    }

    /** A fresh cluster: no roles, no users and no keys. */
    constructor ()
      ensures Valid() && roles == map[] && users == map[] && kv == map[]
    {
      roles := map[];
      users := map[];
      kv := map[];
    }

    method UserAdd(name: string, password: string, faults: set<Request>) returns (err: bool)
      requires Valid()
      modifies this
      ensures Valid()
      ensures err <==> Request.UserAdd(name, password) in faults || name in old(users)
      ensures users == if err then old(users) else old(users)[name := User(password, {})]
      ensures roles == old(roles) && kv == old(kv)
    {
      err := Request.UserAdd(name, password) in faults || name in users;
      if !err {
        users := users[name := User(password, {})];
      }
    }

    method UserGet(name: string, faults: set<Request>) returns (err: bool)
      ensures err <==> Request.UserGet(name) in faults || name !in users
    {
      err := Request.UserGet(name) in faults || name !in users;
    }

    method UserDelete(name: string, faults: set<Request>) returns (err: bool)
      requires Valid()
      modifies this
      ensures Valid()
      ensures err <==> Request.UserDelete(name) in faults || name !in old(users)
      ensures users == if err then old(users) else old(users) - {name}
      ensures roles == old(roles) && kv == old(kv)
    {
      err := Request.UserDelete(name) in faults || name !in users;
      if !err {
        users := users - {name};
      }
    }

    method UserChangePassword(name: string, password: string, faults: set<Request>) returns (err: bool)
      requires Valid()
      modifies this
      ensures Valid()
      ensures err <==> Request.UserChangePassword(name, password) in faults || name !in old(users)
      ensures users == if err then old(users)
                       else old(users)[name := old(users)[name].(password := password)]
      ensures roles == old(roles) && kv == old(kv)
    {
      err := Request.UserChangePassword(name, password) in faults || name !in users;
      if !err {
        users := users[name := users[name].(password := password)];
      }
    }

    /** Granting a role the user already holds is accepted and changes nothing. */
    method UserGrantRole(user: string, role: string, faults: set<Request>) returns (err: bool)
      requires Valid()
      modifies this
      ensures Valid()
      ensures err <==> Request.UserGrantRole(user, role) in faults || user !in old(users) || role !in old(roles)
      ensures users == if err then old(users)
                       else old(users)[user := old(users)[user].(roles := old(users)[user].roles + {role})]
      ensures roles == old(roles) && kv == old(kv)
    {
      err := Request.UserGrantRole(user, role) in faults || user !in users || role !in roles;
      if !err {
        users := users[user := users[user].(roles := users[user].roles + {role})];
      }
    }

    method UserRevokeRole(user: string, role: string, faults: set<Request>) returns (err: bool)
      requires Valid()
      modifies this
      ensures Valid()
      ensures err <==> Request.UserRevokeRole(user, role) in faults || user !in old(users)
                       || role !in old(users)[user].roles
      ensures users == if err then old(users)
                       else old(users)[user := old(users)[user].(roles := old(users)[user].roles - {role})]
      ensures roles == old(roles) && kv == old(kv)
    {
      err := Request.UserRevokeRole(user, role) in faults || user !in users || role !in users[user].roles;
      if !err {
        users := users[user := users[user].(roles := users[user].roles - {role})];
      }
    }

    method RoleAdd(role: string, faults: set<Request>) returns (err: bool)
      requires Valid()
      modifies this
      ensures Valid()
      ensures err <==> Request.RoleAdd(role) in faults || role in old(roles)
      ensures roles == if err then old(roles) else old(roles)[role := []]
      ensures users == old(users) && kv == old(kv)
    {
      err := Request.RoleAdd(role) in faults || role in roles;
      if !err {
        roles := roles[role := []];
      }
    }

    method RoleGet(role: string, faults: set<Request>) returns (err: bool, perms: seq<Permission>)
      ensures err <==> Request.RoleGet(role) in faults || role !in roles
      ensures !err ==> perms == roles[role]
    {
      err := Request.RoleGet(role) in faults || role !in roles;
      if !err {
        perms := roles[role];
      } else {
        perms := [];
      }
    }

    /** Deleting a role does not touch the users' role sets in this model. */
    method RoleDelete(role: string, faults: set<Request>) returns (err: bool)
      requires Valid()
      modifies this
      ensures Valid()
      ensures err <==> Request.RoleDelete(role) in faults || role !in old(roles)
      ensures roles == if err then old(roles) else old(roles) - {role}
      ensures users == old(users) && kv == old(kv)
    {
      err := Request.RoleDelete(role) in faults || role !in roles;
      if !err {
        roles := roles - {role};
      }
    }

    method RoleGrantPermission(role: string, perm: Permission, faults: set<Request>) returns (err: bool)
      requires Valid()
      modifies this
      ensures Valid()
      ensures err <==> Request.RoleGrantPermission(role, perm) in faults || role !in old(roles)
      ensures roles == if err then old(roles) else old(roles)[role := Granted(old(roles)[role], perm)]
      ensures users == old(users) && kv == old(kv)
    {
      err := Request.RoleGrantPermission(role, perm) in faults || role !in roles;
      if !err {
        GrantedKeepsDistinct(roles[role], perm);
        roles := roles[role := Granted(roles[role], perm)];
      }
    }

    method RoleRevokePermission(role: string, key: string, rangeEnd: string, faults: set<Request>)
      returns (err: bool)
      requires Valid()
      modifies this
      ensures Valid()
      ensures err <==> Request.RoleRevokePermission(role, key, rangeEnd) in faults || role !in old(roles)
                       || !HasRange(old(roles)[role], key, rangeEnd)
      ensures roles == if err then old(roles) else old(roles)[role := Without(old(roles)[role], key, rangeEnd)]
      ensures users == old(users) && kv == old(kv)
    {
      err := Request.RoleRevokePermission(role, key, rangeEnd) in faults || role !in roles
             || !HasRange(roles[role], key, rangeEnd);
      if !err {
        WithoutKeepsDistinct(roles[role], key, rangeEnd);
        roles := roles[role := Without(roles[role], key, rangeEnd)];
      }
    }

    /** A range-less Get: `None` is a response whose count is zero. */
    method Get(key: string, faults: set<Request>) returns (err: bool, value: Option<string>)
      ensures err <==> Request.Get(key) in faults
      ensures !err ==> value == if key in kv then Some(kv[key]) else None
    {
      err := Request.Get(key) in faults;
      value := if key in kv then Some(kv[key]) else None;
    }

    method Put(key: string, value: string, faults: set<Request>) returns (err: bool)
      requires Valid()
      modifies this
      ensures Valid()
      ensures err <==> Request.Put(key, value) in faults
      ensures kv == if err then old(kv) else old(kv)[key := value]
      ensures roles == old(roles) && users == old(users)
    {
      err := Request.Put(key, value) in faults;
      if !err {
        kv := kv[key := value];
      }
    }

    method Delete(key: string, faults: set<Request>) returns (err: bool)
      requires Valid()
      modifies this
      ensures Valid()
      ensures err <==> Request.Delete(key) in faults
      ensures kv == if err then old(kv) else old(kv) - {key}
      ensures roles == old(roles) && users == old(users)
    {
      err := Request.Delete(key) in faults;
      if !err {
        kv := kv - {key};
      }
    }
  }
}
