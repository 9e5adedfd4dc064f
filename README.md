# terraform-provider-etcd, modelled in Dafny

A model of the resource handlers of the Terraform provider for etcd v3.
The provider manages five kinds of resources. Users have a password. Roles
have key-range permissions. Permissions are single grants to a role. User-role
grants attach a role to a user. Keys are key-value pairs. Each resource has
Create, Read, Update and Delete handlers. They read the resource's
attributes, issue requests to etcd and write attributes and the resource ID
back.

What the model covers:

- **The etcd client** is replaced by an in-memory `Etcd.Store`. It holds
  three maps: roles to permissions, users to password and role set, and keys
  to values. Every request can fail. The caller passes the set `faults` of
  requests whose transport fails. A request also fails when the store refuses
  it: a missing user or role, a name that already exists, or a revoke of a
  permission that was never granted. Granting a permission on a range the
  role already has replaces the old one. So a role never holds two
  permissions on one range (`Store.Valid`).
- **The Terraform SDK's `schema.ResourceData`** becomes the class
  `Resource.ResourceData`. It holds the string and boolean attributes, the
  previous state's string attributes (for `GetChange`/`HasChange`) and the ID.
  A handler returns `Diagnostics`: `Nil`, `Error`, or `Panic` for a handler
  that crashes on the nil response of a failed request.
- **The password generator** appends the required special characters,
  digits and upper-case letters, then fills the rest from the full alphabet,
  then shuffles. Randomness is one stream of draws: `rand.Intn(n)` takes the
  next draw modulo `n`, and `rand.Shuffle` is Go's Fisher-Yates pass.
- **Each handler** is a method over the store and the resource data. Its
  contract states the new store and attributes for every outcome.

Behaviours of the code that the model keeps as written:

- `errors.Wrap(nil, …)` is nil. So three stops return no diagnostic: role
  Create on an existing role, role Update onto an existing name, and grant
  Update when the role lookup fails.
- Permission Update chooses the level from the `role` attribute, not from
  `permission`.
- Permission Delete revokes the range end stored in `endrange`, which
  Create ignores when `withprefix` is set. When `endrange` is left at its
  default "", Delete revokes the range end "": the prefix permission is not
  revoked (`Permissions.PrefixPermissionSurvivesDelete`), and a single-key
  permission on the same key, if the role has one, is revoked in its place.
  When `endrange` holds some other text, Delete revokes that range end
  instead (`Permissions.Delete`).
- Key Read writes the key back into `key` as a byte slice. The SDK refuses a
  byte slice for a string attribute, so Read returns there with no
  diagnostic. The line that takes a new ID is never reached.
- Permission Read writes `withPrefix`, with a capital P. The resource
  declares no attribute of that name, so the write has no effect.
- The generator raises no error when the minimums exceed the length. A role
  rename onto an existing name is not an error either: a nil error is
  wrapped there, so no diagnostic is returned.
- Two handlers read fields of a failed request's nil response and panic
  (`Panic`) instead of returning the error. Key Create logs `resp.Kvs` and
  `resp.Count` before checking the lookup's error
  (internal/provider/resource_key.go:48-51), so a failed lookup crashes it
  before anything is written. Grant Read logs `respRoleGet.Header` and
  `respRoleGet.Perm` inside its error branch
  (internal/provider/resource_grant_role_user.go:79-85), so a failed or
  refused role lookup crashes it. Grant Create and Update reach that Read
  only after the same role lookup succeeded, so in the model they never
  panic. Every other handler ensures `diags != Panic`.

## Model

| member | source | states |
|---|---|---|
| Common.Contains | internal/provider/common.go:13-21 | true exactly when some element equals the string; false for an empty slice; equality is exact |
| Common.ContainsEveryElement | internal/provider/common.go:14-18 | the search finds every element of the slice, whatever its position |
| Password.GeneratePassword | internal/provider/resource_user.go:47-77 | length is passwdLen when the minimums fit; otherwise it is the sum of the minimums, with no error; at least nSpecialChar special characters, nNum digits and nUpperCase upper-case letters; every character is from the full alphabet; a reordering of the filled builder |
| Password.Fill | internal/provider/resource_user.go:48-72 | the four filling loops leave special characters, then digits, then upper-case letters, then the remainder in the builder, and consume one draw per character |
| Password.AppendedLength | internal/provider/resource_user.go:50-72 | the loops append passwdLen characters when the minimums are non-negative and fit, and the sum of the minimums when they exceed passwdLen |
| Password.WriteRandom | internal/provider/resource_user.go:51-54 | one filling loop appends exactly max(n, 0) characters of its alphabet, the k-th picked by the k-th draw |
| Password.DrawnAt | internal/provider/resource_user.go:51-54 | the k-th character a filling loop appends is the one the k-th draw picks, the draw taken modulo the alphabet size |
| Password.DrawnCount | internal/provider/resource_user.go:51-54 | a filling loop of n turns appends exactly n characters of its own alphabet |
| Password.Shuffle | internal/provider/resource_user.go:73-76 | the in-place swaps leave the Fisher-Yates order and the same multiset of characters |
| Password.FisherYates | internal/provider/resource_user.go:73-76 | one pass of swaps from the last index down to 1, partner j = draw mod (i+1); keeps the length |
| Password.FisherYatesPermutes | internal/provider/resource_user.go:74-76 | a pass of swaps only permutes the characters |
| Password.ShuffledPermutes | internal/provider/resource_user.go:73-76 | the shuffle only reorders the characters |
| Password.CountInPermutation | internal/provider/resource_user.go:73-76 | class counts depend only on the multiset of characters, so the shuffle keeps them |
| Password.UnshuffledCounts | internal/provider/resource_user.go:50-66 | before the shuffle each class has at least its minimum count |
| Password.SegmentsCounts | internal/provider/resource_user.go:50-72 | filling loops run one after another keep each earlier loop's characters, so every class reaches the count of its own loop |
| Password.UnshuffledAlphabet | internal/provider/resource_user.go:18-22 | before the shuffle every character is from the full alphabet, which contains the three class alphabets |
| Password.Generated | internal/provider/resource_user.go:47-77 | the password one generation yields from the draws: the filled builder in the order the shuffle leaves it; its length is the number of characters the four loops append |
| Password.GeneratedShape | internal/provider/resource_user.go:47-77 | every generated password, whatever the draws, has the appended length, at least each class minimum, only characters of the full alphabet, and the characters of the filled builder |
| Password.SegmentsIn | internal/provider/resource_user.go:50-72 | when each class alphabet lies within the full alphabet, every character the four loops append is from the full alphabet |
| Password.ReorderedShape | internal/provider/resource_user.go:73-77 | a reordering keeps the length, each class count and the alphabet |
| Etcd.TypeName | internal/provider/resource_role.go:101 | the printed level is "READWRITE" exactly for the READWRITE level |
| Etcd.Without | internal/provider/resource_permission.go:177 | revoking a range keeps exactly the permissions not on that range, and changes nothing when the range is not granted |
| Etcd.Granted | internal/provider/resource_permission.go:82 | after a grant the role holds the new permission plus the old ones on other ranges |
| Etcd.WithoutKeepsDistinct | internal/provider/resource_permission.go:177 | a revoke keeps a role's ranges distinct |
| Etcd.GrantedKeepsDistinct | internal/provider/resource_permission.go:82 | a grant keeps a role's ranges distinct |
| Etcd.Store.UserAdd | internal/provider/resource_user.go:94 | fails for an existing name; otherwise adds the user with the password and no roles; nothing else changes |
| Etcd.Store.UserGet | internal/provider/resource_user.go:115 | fails exactly for a missing user or a failed request |
| Etcd.Store.UserDelete | internal/provider/resource_user.go:167 | fails for a missing user; otherwise removes exactly that user |
| Etcd.Store.UserChangePassword | internal/provider/resource_user.go:139 | fails for a missing user; otherwise changes only that user's password |
| Etcd.Store.UserGrantRole | internal/provider/resource_grant_role_user.go:61 | fails for a missing user or role; otherwise adds the role to the user's roles |
| Etcd.Store.UserRevokeRole | internal/provider/resource_grant_role_user.go:133 | fails for a missing user or a role the user does not hold; otherwise removes the role from the user's roles |
| Etcd.Store.RoleAdd | internal/provider/resource_role.go:45 | fails for an existing role; otherwise adds the role with no permissions |
| Etcd.Store.RoleGet | internal/provider/resource_role.go:67 | fails exactly for a missing role or a failed request, and returns the role's permissions |
| Etcd.Store.RoleDelete | internal/provider/resource_role.go:136 | fails for a missing role; otherwise removes exactly that role |
| Etcd.Store.RoleGrantPermission | internal/provider/resource_permission.go:82 | fails for a missing role; otherwise grants, replacing a permission on the same range, and keeps ranges distinct |
| Etcd.Store.RoleRevokePermission | internal/provider/resource_permission.go:177 | fails for a missing role or an ungranted range; otherwise removes that range only |
| Etcd.Store.Get | internal/provider/resource_key.go:48 | fails only for a failed request; answers with the stored value or none |
| Etcd.Store.Put | internal/provider/resource_key.go:56 | stores the value under the key, or changes nothing on failure |
| Etcd.Store.Delete | internal/provider/resource_key.go:141 | removes exactly the key, or changes nothing on failure |
| Resource.WithFallback | internal/provider/resource_user.go:109-113 | the name a Read uses is the attribute, or the ID when the attribute is empty |
| Resource.Backfilled | internal/provider/resource_user.go:110-113 | after the fallback the attribute holds the name used, and no other attribute changes |
| Users.PasswordFor | internal/provider/resource_user.go:86-89 | the configured password, or the generated 24/3/3/3 password when it is empty |
| Users.WithPassword | internal/provider/resource_user.go:87-90 | only `password` changes, and it holds the password Create registers |
| Users.ChoosePassword | internal/provider/resource_user.go:86-90 | keeps a configured password; an empty one is replaced by the generated 24/3/3/3 password, which is written back into `password`; nothing else changes |
| Users.Read | internal/provider/resource_user.go:104-123 | fails exactly when the user under the name (or ID) is not found; a new ID only on success |
| Users.Create | internal/provider/resource_user.go:80-102 | a generated password is written back before the add, even when the add fails; a refused add is an error with no ID; on success the user exists with that password and no roles, and the resource is read back |
| Users.Update | internal/provider/resource_user.go:125-158 | same name: only that user's password changes; new name: delete first, and a failed delete means no add; the renamed user has the new password and no roles; any failure leaves the ID |
| Users.Delete | internal/provider/resource_user.go:160-178 | removes exactly the named user; a refused delete is an error |
| Roles.MigratedLevel | internal/provider/resource_role.go:101-105 | the copied level is READWRITE exactly when the old one was, never WRITE, and unchanged unless it was WRITE |
| Roles.MigratedAll | internal/provider/resource_role.go:100-105 | one copy per old permission, in order |
| Roles.FirstFailedGrant | internal/provider/resource_role.go:100-109 | the position of the first refused grant, if any; all grants before it succeed |
| Roles.FirstFailedGrantAt | internal/provider/resource_role.go:100-109 | a refused grant with every earlier grant accepted is the first refused grant |
| Roles.Rename | internal/provider/resource_role.go:85-113 | the stop and the roles of a rename; a stop before the copies leaves the roles unchanged; any stop past the first lookup means the old role existed; a completed rename removes the old role and creates the new one |
| Roles.MigratedGrantAppends | internal/provider/resource_role.go:100-105 | since a role's ranges are distinct, each copy grant appends and replaces nothing |
| Roles.RenameChangesOnlyPastChecks | internal/provider/resource_role.go:85-99 | the roles change exactly when the rename passes its three checks: old role found, new name not found, new role added |
| Roles.RenameKeepsOldRoleUntilDone | internal/provider/resource_role.go:106-113 | the old role keeps its permissions at every stop except a completed rename |
| Roles.RenameTouchesOnlyTheTwoRoles | internal/provider/resource_role.go:85-113 | no role other than the old and the new name changes |
| Roles.RenamePartial | internal/provider/resource_role.go:106-108 | after a failed grant, the new role holds exactly the copies made so far and the old role survives |
| Roles.RenamedCopies | internal/provider/resource_role.go:100-113 | a completed rename removes the old role; the new role holds one copy per old permission, on the same key and range end, READ unless the old level was READWRITE |
| Roles.RenamedExactCopy | internal/provider/resource_role.go:100-113 | without WRITE permissions the new role equals the old one, so both hold the same set |
| Roles.Read | internal/provider/resource_role.go:56-76 | fails exactly when the role under the name (or ID) is not found; a new ID only on success |
| Roles.Create | internal/provider/resource_role.go:33-54 | an existing role: no diagnostic and no change; a missing one: added with no permissions and read back; a refused add is an error |
| Roles.CopyOne | internal/provider/resource_role.go:101-108 | one grant appends the copy of the permission to the new role, or fails and changes nothing |
| Roles.CopyPermissions | internal/provider/resource_role.go:100-109 | the new role holds the copies up to the first refused grant, or all of them |
| Roles.RenameRole | internal/provider/resource_role.go:85-113 | the store requests of a rename yield the stop and the roles of `Rename` |
| Roles.Update | internal/provider/resource_role.go:77-121 | the roles become those of `Rename`; an existing new name gives no diagnostic; other stops are errors that leave the attributes and ID; a completed rename sets `name` and reads the role back |
| Roles.Delete | internal/provider/resource_role.go:123-143 | a role that is not found is an error, and nothing is deleted; otherwise only that role is deleted |
| Permissions.ValidPermission | internal/provider/resource_permission.go:41-47 | accepted exactly for "READ" and "READWRITE" |
| Permissions.RangeEnd | internal/provider/resource_permission.go:69-76 | with `withprefix` the prefix's range end and `endrange` is ignored; otherwise `endrange`, and an empty one is an error |
| Permissions.LevelFor | internal/provider/resource_permission.go:77-81 | READWRITE exactly for "READWRITE", READ for any other text |
| Permissions.LevelRoundTrip | internal/provider/resource_permission.go:77-81 | a valid level text is granted at the level it names and printed back as the same text |
| Permissions.LastWithKey | internal/provider/resource_permission.go:106-117 | the last permission on the key, whatever its range end, or none when no permission has the key |
| Permissions.Read | internal/provider/resource_permission.go:93-120 | a failed role lookup is an error; otherwise `permission` holds the last matching level and the ID is new, or nothing changes when no permission has the key |
| Permissions.GrantAndRead | internal/provider/resource_permission.go:65-90 | a missing range end is an error before any request; a refused grant is an error with no ID; otherwise the grant happens and is read back |
| Permissions.Create | internal/provider/resource_permission.go:56-91 | grants at READWRITE exactly when `permission` is "READWRITE", READ otherwise, on the chosen range, and reads the level back |
| Permissions.Update | internal/provider/resource_permission.go:122-155 | as Create, but the level comes from the `role` attribute |
| Permissions.PrefixPermissionSurvivesDelete | internal/provider/resource_permission.go:164-181 | revoking the empty range end (the state of a prefix permission whose `endrange` is left at its default) leaves every permission with a non-empty range end, the prefix permission among them |
| Permissions.Delete | internal/provider/resource_permission.go:157-183 | revokes only the permission on `key` with the `endrange` range end; a failed lookup or revoke is an error; with no match, no change and no error |
| Grants.Read | internal/provider/resource_grant_role_user.go:72-93 | panics exactly when the role lookup fails (a failed request or a missing role), never returns an error, and the user is not checked; on success `user_name` is written back and the ID is new |
| Grants.Create | internal/provider/resource_grant_role_user.go:39-70 | a missing user, a missing role or a refused grant is an error, with no grant and no ID; otherwise the user gains the role |
| Grants.Update | internal/provider/resource_grant_role_user.go:95-123 | as Create, except that a missing role gives no diagnostic and grants nothing |
| Grants.Revoke | internal/provider/resource_grant_role_user.go:125-140 | the user loses the role; a refused revoke is an error |
| Keys.Read | internal/provider/resource_key.go:66-101 | uses the ID when `key` is empty; an absent key or failed lookup is an error; otherwise `value` holds the stored value; the ID never changes |
| Keys.Create | internal/provider/resource_key.go:39-64 | a failed lookup panics before any write; a refused write is an error; an existing key is overwritten; the resource is read back with a new ID and never panics there |
| Keys.Update | internal/provider/resource_key.go:103-131 | no request unless `value` changed; an absent key is an error and nothing is written; otherwise the new value is stored |
| Keys.Delete | internal/provider/resource_key.go:133-147 | removes exactly the key; a failed request is an error |

## Left out

- main.go and internal/provider/provider.go: these hold plugin serving, provider configuration, environment defaults and building the etcd client (endpoints, TLS). They are host plumbing and are not part of this model.
- internal/provider/data_source_key.go is not part of this model. It is one read-only lookup whose only rule (an error on zero results) is the one `Keys.Read` models.
- uuidGenerator (internal/provider/common.go:8-11): each handler takes the new ID as a parameter `newId`. A handler that asks for several UUIDs (Create followed by Read, or permission Read looping) gets the same value each time. The model does not claim that IDs are unique.
- The distribution of `math/rand`: the draws are an arbitrary caller-supplied sequence, so only facts that hold for every draw sequence are proved.
- `clientv3.GetPrefixRangeEnd` is a function parameter, `prefixRangeEnd`, about which nothing is assumed.
- etcd's own semantics beyond what the handlers rely on:
  - deleting a role does not remove it from users' role sets. etcd's own
    role delete also removes the role from every user holding it, so the
    clauses `store.users == old(store.users)` of `Roles.Update` and
    `Roles.Delete` hold for the model's store only: in etcd, a completed
    rename leaves the users that held the old role with neither role;
  - empty names and keys are not rejected;
  - a lookup of a key with `Get` returns at most one pair.
- The model assumes that a role lookup returns the permissions in the order they were granted: a new grant goes last (`Etcd.Granted`). etcd keeps a role's permissions sorted by key instead. So "the last permission on the key" of `Permissions.LastWithKey` and `Permissions.Read`, and the copy order of a role rename, hold for the model's order only.
- The model assumes that every role holds at most one permission per (key, range end) pair (`Etcd.Store.Valid`, through `DistinctRanges`), and that a grant on a range the role already holds replaces it. etcd finds an existing grant by a search on the key alone and then compares that one entry's range end, so it does not guarantee this when several permissions share a key. A fresh `Etcd.Store` starts valid, and the handlers require and keep it. `Permissions.Delete` (a single revoke) and `Roles.MigratedGrantAppends` (copies only append) depend on it.
- The failure oracle is a set of requests: the same request issued twice in one handler gets the same verdict. Examples are a failed lookup followed by Read's identical lookup in role Create, and key Create's lookup repeated by its Read. A transient failure that clears between two identical requests is not modelled.
- Contexts and timeouts, `tflog` output, and the texts of diagnostics and of panics are not modelled. A diagnostic is only `Nil`, `Error` or `Panic`; the two logging calls that panic are modelled by their outcome.
- Terraform schema declarations (required/optional, defaults) and importers. Attribute values are whatever the resource data holds, so an unset `endrange` reads as empty, like its declared default.
- The `permission` ValidateFunc runs in Terraform before any handler. The handlers are modelled for any attribute value, and `Permissions.ValidPermission` models the validation itself.
- `d.Set` of a declared string attribute always succeeds. In role Update, the error branch after setting `name` can therefore not be taken, and it is not modelled.
- Keys.Read: the loop over the lookup's pairs is modelled as a single step. The range-less lookup returns at most one pair, and the loop returns during its first turn.
