# Keystone identity backend — a Dafny reference model

This project models the identity manager of OpenStack Keystone as its
backend test suite (`IdentityTests`, `FilterTests`, `LimitTests` and
`ShadowUsersTests`) defines it. The manager keeps:

- users and groups, each unique per `(name, domain_id)` and each carrying an
  open map of extra attributes;
- the user–group membership relation;
- password authentication, which never returns the stored password;
- `list_*` calls driven by `driver_hints.Hints`: filters with the
  `equals`, `contains`, `startswith` and `endswith` comparators, which a
  driver consumes once it applies them, and a `list_limit` that clips the
  result and sets `truncated`;
- shadow users for nonlocal and federated identities;
- a read-through cache in front of `get_user`, `get_user_by_name`,
  `get_group` and `get_group_by_name`.

The suite is the contract. Each operation is modelled with the branches,
error kinds and error precedence that its assertions require. The model
proves the properties the suite checks for every input, not only for the
fixtures it uses.

Modules, one per file:

- `IdentityTypes` (`types.dfy`): records, request dictionaries, errors.
- `Validation` (`validation.dfy`): name and `enabled` rules, `str.strip()`
  for group names, and how a create request becomes a record and an update
  request is merged into one. All pure functions and lemmas.
- `Membership` (`membership.dfy`): the membership relation as a set of
  rows, with lemmas on counts and cascades.
- `Listing` (`listing.dfy`): listing a set once per element.
- `DriverHints` (`hints.dfy`): comparators, the `Hints` class and the list
  pipeline.
- `IdentityBackend` (`store.dfy`): the `IdentityStore` class. Its tables are
  fields that the methods update in place. `Valid()` keeps the name indexes
  and the membership and federated rows consistent with the tables. It
  also says every local or nonlocal user has a valid name and every
  federated row points at a shadow user.
- `IdentityCache` (`cache.dfy`): the `CachedIdentity` class over a store.
  `Coherent()` says that every remembered value is what the store holds.

## Model

| member | source | states |
|---|---|---|
| Validation.CoerceEnabled | keystone/tests/unit/identity/test_backends.py:518-530 | `enabled` of type bool is kept. An integer is true exactly when it is non-zero, so `0` stores false and `-42` stores exactly `True`. |
| Validation.TrimLeft | keystone/tests/unit/identity/test_backends.py:779-783 | The result is a suffix of the input that does not start with whitespace, and everything cut off is whitespace. |
| Validation.TrimRight | keystone/tests/unit/identity/test_backends.py:779-783 | The result is a prefix of the input that does not end with whitespace, and everything cut off is whitespace. |
| Validation.Strip | keystone/tests/unit/identity/test_backends.py:779-792 | The stripped name has no whitespace at either end and sits inside the input between two runs of whitespace only. Whitespace is what Python 3's `str.isspace()` accepts, the ASCII separators U+001C to U+001F and the Unicode space separators included. |
| Validation.TrimLeftSkipsPadding | keystone/tests/unit/identity/test_backends.py:779-783 | Left-trimming whitespace followed by a text that starts with a non-space gives back that text. |
| Validation.TrimRightSkipsPadding | keystone/tests/unit/identity/test_backends.py:779-783 | Right-trimming a text that ends with a non-space, followed by whitespace, gives back that text. |
| Validation.StripRemovesPadding | keystone/tests/unit/identity/test_backends.py:779-792 | `(name + '    ').strip() == name`, and the same for padding on both sides, for every name without border whitespace. |
| Validation.StripIdempotent | keystone/tests/unit/identity/test_backends.py:785-792 | Stripping an already stripped name changes nothing. |
| Validation.StripSeparatorsExample | keystone/tests/unit/identity/test_backends.py:779-783 | `'\x1ca\xa0'.strip() == 'a'`: separators other than the blank are stripped too. |
| Validation.NewUser | keystone/tests/unit/identity/test_backends.py:378-446 | Create succeeds exactly when the name is a string of 1..255 characters and `enabled` is absent, a bool or an int. Otherwise it raises ValidationError. A created user reads back with the request's name, domain (default domain when absent), extra attributes and `enabled`: true when absent, the bool given, or an int's truth value. The password is stored for a local user only; a nonlocal or federated user gets none. |
| Validation.PatchUser | keystone/tests/unit/identity/test_backends.py:280-293 | An update is refused with ValidationError exactly when it changes the id or carries an invalid name or `enabled`. Otherwise only the keys present change: a new name, domain, `enabled` (coerced) or password replaces the old one, an absent one is kept, and extra attributes merge. |
| Validation.EmptyPatchKeepsUser | keystone/tests/unit/identity/test_backends.py:505-509 | An update with no keys leaves the user as it was. |
| Validation.NewGroup | keystone/tests/unit/identity/test_backends.py:779-783 | A group is created exactly when its name is valid once stripped, and is stored with the stripped name, the domain (default when absent) and the extra attributes. |
| Validation.PatchGroup | keystone/tests/unit/identity/test_backends.py:785-792 | A group update is refused when it changes the id or carries an invalid name. A new name is stored stripped, the id is kept, and extra attributes merge. |
| Membership.GroupsOf | keystone/tests/unit/identity/test_backends.py:662-723 | The groups listed for a user are exactly those with a membership row for it. |
| Membership.UsersIn | keystone/tests/unit/identity/test_backends.py:636-655 | The users listed for a group are exactly those with a membership row for it. |
| Membership.DropUser | keystone/tests/unit/identity/test_backends.py:295-329 | Deleting a user removes exactly its rows. |
| Membership.DropGroup | keystone/tests/unit/identity/test_backends.py:331-363 | Deleting a group removes exactly its rows. |
| Membership.AddRaisesCount | keystone/tests/unit/identity/test_backends.py:684-703 | A new membership raises that user's group count by one and leaves every other user's groups unchanged. |
| Membership.RemoveLowersCount | keystone/tests/unit/identity/test_backends.py:705-723 | Removing a membership lowers that user's group count by one and leaves every other user's groups unchanged. |
| Membership.AddAllRaisesCount | keystone/tests/unit/identity/test_backends.py:684-703 | Adding a user to a run of distinct new groups raises its group count by the run's length, lists exactly the old groups plus the run, and leaves every other user's groups unchanged. |
| Membership.RemoveAllLowersCount | keystone/tests/unit/identity/test_backends.py:705-723 | Removing a user from a run of distinct groups it is in lowers its count by the run's length, lists exactly the old groups minus the run, and leaves every other user's groups unchanged. |
| Membership.DropUserCascade | keystone/tests/unit/identity/test_backends.py:295-329 | After a user is deleted it is in no group, and each group lost that user and no one else. |
| Membership.DropGroupCascade | keystone/tests/unit/identity/test_backends.py:331-363 | After a group is deleted it has no members, and each user lost that group and no other. |
| Listing.SetToSeq | keystone/tests/unit/identity/test_backends.py:457-482 | A list call returns every element of the set exactly once, so the list has the set's size. |
| Listing.PrefixDistinct | keystone/tests/unit/identity/test_backends.py:1296-1302 | A list clipped to a limit still has no repeated entries. |
| DriverHints.InexactIgnoresCase | keystone/tests/unit/identity/test_backends.py:1041-1082 | `contains`, `startswith` and `endswith` match the same values whatever the case of the filter value. |
| DriverHints.ComparatorsNest | keystone/tests/unit/identity/test_backends.py:1041-1072 | `startswith` or `endswith` implies `contains`, and `equals` implies `startswith` and `endswith`. |
| DriverHints.EqualsMeaning | keystone/tests/unit/identity/test_backends.py:1026-1038 | `equals` passes exactly the values equal to the filter value, with case. |
| DriverHints.ContainsMeaning | keystone/tests/unit/identity/test_backends.py:1059-1064 | `contains` passes exactly the values with a piece that equals the filter value once both are lower-cased. |
| DriverHints.StartsWithMeaning | keystone/tests/unit/identity/test_backends.py:1066-1071 | `startswith` passes exactly the values with a head that equals the filter value once both are lower-cased. |
| DriverHints.EndsWithMeaning | keystone/tests/unit/identity/test_backends.py:1073-1079 | `endswith` passes exactly the values with a tail that equals the filter value once both are lower-cased. |
| DriverHints.ContainsExample | keystone/tests/unit/identity/test_backends.py:1045-1062 | `contains 'ministry'` matches 'The Ministry'. |
| DriverHints.ContainsCounterExample | keystone/tests/unit/identity/test_backends.py:1045-1062 | `contains 'ministry'` does not match 'The'. |
| DriverHints.EndsWithExample | keystone/tests/unit/identity/test_backends.py:1045-1079 | `endswith 'of'` matches 'The ministry of silly walks OF'. |
| DriverHints.Supported | keystone/tests/unit/identity/test_backends.py:1026-1038 | The filters a driver applies are exactly those on attributes it stores. |
| DriverHints.Unsupported | keystone/tests/unit/identity/test_backends.py:1026-1038 | The filters left in the hints are exactly those on attributes the driver does not store. |
| DriverHints.ExactFilter | keystone/tests/unit/identity/test_backends.py:1036-1038 | `get_exact_filter_by_name` returns an `equals` filter on that attribute, and returns nothing exactly when there is none. |
| DriverHints.Selected | keystone/tests/unit/identity/test_backends.py:1144-1186 | A candidate is selected exactly when it is a stored entity and passes every filter. With no filters, every stored candidate is selected. |
| DriverHints.Hints.constructor | keystone/tests/unit/identity/test_backends.py:1033 | A new `Hints` has no filters and no limit. |
| DriverHints.Hints.AddFilter | keystone/tests/unit/identity/test_backends.py:1033-1034 | `add_filter` appends one filter and leaves the limit alone. |
| DriverHints.Hints.SetLimit | keystone/tests/unit/identity/test_backends.py:1296-1302 | The limit becomes the given number, not yet truncated, and the filters are untouched. |
| DriverHints.FinalLimit | keystone/tests/unit/identity/test_backends.py:1296-1313 | A configured `list_limit` replaces the caller's limit. Whenever more entities pass than the limit allows, `truncated` is set. |
| DriverHints.ApplyHints | keystone/tests/unit/identity/test_backends.py:1026-1038 | Without hints every candidate is listed. With hints, the applied filters leave the hints and no exact filter on a stored attribute remains. The ids listed are distinct and pass every filter. The list holds them all unless the limit cut it, in which case it has exactly `limit` entries. |
| DriverHints.ListEntities | keystone/tests/unit/identity/test_backends.py:1296-1322 | The same as ApplyHints, for the entities rather than their ids. The result is a list the call may return: no entity twice, each one a candidate that passes every applied filter, all such candidates when there is no limit or they fit, and exactly `limit` of them when they do not. A call with no hints returns every candidate. |
| IdentityBackend.IdentityStore.constructor | keystone/tests/unit/identity/test_backends.py:35-45 | An empty store is consistent. |
| IdentityBackend.IdentityStore.UserNamesUnique | keystone/tests/unit/identity/test_backends.py:213-218 | In a consistent store no two local or nonlocal users share a `(name, domain_id)`. |
| IdentityBackend.IdentityStore.GroupNamesUnique | keystone/tests/unit/identity/test_backends.py:837-844 | No two groups share a `(name, domain_id)`. |
| IdentityBackend.IdentityStore.UserViews | keystone/tests/unit/identity/test_backends.py:457-467 | Users are listed without passwords, one view per id. |
| IdentityBackend.IdentityStore.GetUser | keystone/tests/unit/identity/test_backends.py:116-129 | `get_user` returns the stored user without its password exactly when the id exists, and raises UserNotFound otherwise. |
| IdentityBackend.IdentityStore.GetUserByName | keystone/tests/unit/identity/test_backends.py:168-176 | `get_user_by_name` finds the user holding that `(name, domain_id)`, and raises UserNotFound when none does. |
| IdentityBackend.IdentityStore.GetGroup | keystone/tests/unit/identity/test_backends.py:761-777 | `get_group` returns the stored group exactly when the id exists, and raises GroupNotFound otherwise. |
| IdentityBackend.IdentityStore.GetGroupByName | keystone/tests/unit/identity/test_backends.py:794-809 | `get_group_by_name` finds the group holding that pair, and raises GroupNotFound otherwise. |
| IdentityBackend.IdentityStore.Authenticate | keystone/tests/unit/identity/test_backends.py:47-107 | Authentication succeeds exactly for an existing user with a stored password equal to the attempt. A user without a password fails even for `''` and None. Success returns the user without its password. Every failure is the same error. |
| IdentityBackend.IdentityStore.CreateUser | keystone/tests/unit/identity/test_backends.py:213-229 | Create raises ValidationError for a bad request and Conflict when the `(name, domain_id)` is taken. Otherwise it adds exactly the new user and its index entry. The same name in another domain succeeds. |
| IdentityBackend.IdentityStore.CreateNonlocalUser | keystone/tests/unit/identity/test_backends.py:1335-1352 | A nonlocal user keeps the id it is given and has the same name constraint. A taken id or pair is a Conflict. It has no local credential: no password is stored, whatever the request carries, and authenticating as it fails for every attempt. |
| IdentityBackend.IdentityStore.UpdateUser | keystone/tests/unit/identity/test_backends.py:231-293 | Update raises UserNotFound first. Then it raises ValidationError, for a changed id or an invalid name or `enabled`. Then it raises Conflict when renaming or moving into a pair another user holds. Otherwise it replaces the record and moves its index entry. `moved` reports a change of domain. |
| IdentityBackend.IdentityStore.DeleteUser | keystone/tests/unit/identity/test_backends.py:295-329 | Deleting an unknown id raises UserNotFound. Deleting a known one removes the user, its index entry, its memberships and its federated rows, and leaves groups alone. |
| IdentityBackend.IdentityStore.ListUsers | keystone/tests/unit/identity/test_backends.py:457-467 | Lists users under the hints rules. |
| IdentityBackend.IdentityStore.CreateGroup | keystone/tests/unit/identity/test_backends.py:837-853 | Creates a group with its name stripped. A taken pair is a Conflict, and the same name in another domain succeeds. |
| IdentityBackend.IdentityStore.UpdateGroup | keystone/tests/unit/identity/test_backends.py:855-891 | Group update has the same precedence as user update, with the new name stripped. A move into a domain that holds the name is a Conflict. |
| IdentityBackend.IdentityStore.DeleteGroup | keystone/tests/unit/identity/test_backends.py:331-363 | Deleting a group removes it and its memberships, and leaves the member users alone. |
| IdentityBackend.IdentityStore.ListGroups | keystone/tests/unit/identity/test_backends.py:469-482 | Lists groups under the hints rules. |
| IdentityBackend.IdentityStore.EndpointError | keystone/tests/unit/identity/test_backends.py:569-588 | A membership call checks the user before the group. Two unknown ids raise UserNotFound, which is a NotFound. |
| IdentityBackend.IdentityStore.AddUserToGroup | keystone/tests/unit/identity/test_backends.py:553-588 | Adds exactly one row, or raises UserNotFound or GroupNotFound and changes nothing. |
| IdentityBackend.IdentityStore.RemoveUserFromGroup | keystone/tests/unit/identity/test_backends.py:725-759 | Removes exactly one row. Raises UserNotFound or GroupNotFound for unknown ids, and NotFound when the user is not a member. |
| IdentityBackend.IdentityStore.CheckUserInGroup | keystone/tests/unit/identity/test_backends.py:590-634 | Passes exactly for an existing membership. Every failure is a NotFound, and unknown ids raise UserNotFound or GroupNotFound. |
| IdentityBackend.IdentityStore.AddUserToGroups | keystone/tests/unit/identity/test_backends.py:684-703 | The suite's loop of additions raises the user's group count by one per group, and the other user keeps its groups. |
| IdentityBackend.IdentityStore.RemoveUserFromGroups | keystone/tests/unit/identity/test_backends.py:705-723 | The loop of removals lowers the count by one per group, and the other user keeps its groups. |
| IdentityBackend.IdentityStore.ListGroupsForUser | keystone/tests/unit/identity/test_backends.py:1125-1186 | Raises UserNotFound for an unknown user. Otherwise lists the user's groups that pass the filters. |
| IdentityBackend.IdentityStore.ListUsersInGroup | keystone/tests/unit/identity/test_backends.py:636-660 | Raises GroupNotFound for an unknown group. Otherwise lists the group's members that pass the filters, without passwords. |
| IdentityBackend.IdentityStore.CreateFederatedUser | keystone/tests/unit/identity/test_backends.py:1363-1370 | A second create for the same `(idp_id, protocol_id, unique_id)` is a Conflict. The first adds an enabled shadow user without a password, plus its federated row. |
| IdentityBackend.IdentityStore.GetFederatedUser | keystone/tests/unit/identity/test_backends.py:1372-1381 | Returns the shadow user created for that identity, with the same id. |
| IdentityBackend.IdentityStore.UpdateFederatedDisplayName | keystone/tests/unit/identity/test_backends.py:1383-1399 | Changes the display name of the row and keeps the user it belongs to. The shadow user takes the new name, so the next `get_federated_user` returns it. An unknown identity raises UserNotFound and changes nothing. |
| IdentityBackend.DeleteMemberThenCheck | keystone/tests/unit/identity/test_backends.py:295-329 | After a member is deleted, `check_user_in_group` raises a NotFound. |
| IdentityBackend.DeleteGroupKeepsMember | keystone/tests/unit/identity/test_backends.py:331-363 | After a group is deleted, its member is still retrievable. |
| IdentityBackend.UpdateUserIdRejected | keystone/tests/unit/identity/test_backends.py:280-293 | An update to another id raises ValidationError. The user keeps its id and the other id still raises UserNotFound. |
| IdentityBackend.TakeNameOfOther | keystone/tests/unit/identity/test_backends.py:248-278 | Renaming or moving into another local user's pair is a Conflict and changes no user. `moved` is set exactly when the pair is in another domain. |
| IdentityCache.CachedIdentity.constructor | keystone/tests/unit/identity/test_backends.py:131-161 | An empty cache over a consistent store is coherent. |
| IdentityCache.CachedIdentity.GetUser | keystone/tests/unit/identity/test_backends.py:131-161 | A remembered user is returned without reading the store. Otherwise the store's answer is returned and remembered when it is a user. Over a coherent cache the answer is the store's. |
| IdentityCache.CachedIdentity.GetUserByName | keystone/tests/unit/identity/test_backends.py:177-205 | The same, keyed by `(name, domain_id)`. |
| IdentityCache.CachedIdentity.GetGroup | keystone/tests/unit/identity/test_backends.py:811-835 | The same for groups by id. |
| IdentityCache.CachedIdentity.GetGroupByName | keystone/tests/unit/identity/test_backends.py:794-803 | The same for groups by name. |
| IdentityCache.CachedIdentity.InvalidateUser | keystone/tests/unit/identity/test_backends.py:145-147 | `get_user.invalidate` forgets exactly that id and keeps coherence. |
| IdentityCache.CachedIdentity.InvalidateUserByName | keystone/tests/unit/identity/test_backends.py:190-194 | `get_user_by_name.invalidate` forgets exactly that pair. |
| IdentityCache.CachedIdentity.InvalidateGroup | keystone/tests/unit/identity/test_backends.py:823-825 | `get_group.invalidate` forgets exactly that id. |
| IdentityCache.CachedIdentity.InvalidateGroupByName | keystone/tests/unit/identity/test_backends.py:794-803 | Forgets exactly that pair. |
| IdentityCache.CachedIdentity.UpdateUser | keystone/tests/unit/identity/test_backends.py:149-161 | An update through the API keeps the cache coherent, so later reads return the updated user. |
| IdentityCache.CachedIdentity.DeleteUser | keystone/tests/unit/identity/test_backends.py:295-329 | A deletion through the API keeps the cache coherent. |
| IdentityCache.CachedIdentity.UpdateGroup | keystone/tests/unit/identity/test_backends.py:826-835 | A group update through the API keeps the cache coherent. |
| IdentityCache.CachedIdentity.DeleteGroup | keystone/tests/unit/identity/test_backends.py:331-363 | A group deletion through the API keeps the cache coherent. |
| IdentityCache.StaleUserAfterBypass | keystone/tests/unit/identity/test_backends.py:131-147 | A cached user survives a deletion made on the driver. After `invalidate`, reading it raises UserNotFound. |
| IdentityCache.StaleUserByNameAfterBypass | keystone/tests/unit/identity/test_backends.py:177-194 | The same for the `(name, domain_id)` key. |
| IdentityCache.StaleGroupAfterBypass | keystone/tests/unit/identity/test_backends.py:811-825 | The same for `get_group`, ending in GroupNotFound. |
| IdentityCache.FreshUserAfterUpdate | keystone/tests/unit/identity/test_backends.py:149-161 | After a cached read, an update through the API is what the next reads return, by id and by the new name. |
| IdentityCache.FreshGroupAfterUpdate | keystone/tests/unit/identity/test_backends.py:826-835 | After a cached read, a renamed group reads back renamed. |

## Left out

- SQL and LDAP drivers, sessions and ORM rows (`_get_user_ref`, `local_user`): the store keeps plain maps. Whether a user is local, nonlocal or federated is the `origin` field.
- `last_active_at` and `datetime.utcnow()`: they depend on the clock and configuration.
- `uuid` generation: a fresh id is a parameter that the caller guarantees is unused.
- Case sensitivity of `equals`, which the suite leaves backend-dependent: the model compares exactly. Only ASCII letters are case-folded for the inexact comparators.
- The filter-value-wider-than-field behaviour, which is optional per backend.
- Unicode names: strings are sequences of characters with no normalisation.
- `domain_scope`, `CONF`, `config_fixture`: the default domain and `list_limit` are parameters. The identity-specific limit overriding the global one is the caller's choice of the parameter.
- Assignment, role, grant, project and domain APIs: these are collaborators outside the identity manager. Deletion cascades into them are not modelled.
- `password_expires_at` and the email attribute: they are not part of the record.
- Projects in the filter and limit tests: only users and groups are listed.
- IdentityBackend.IdentityStore.UpdateUser: the deprecation warning logged on a domain move is reduced to the returned flag `moved`.
- IdentityBackend.IdentityStore.UpdateGroup: the same reduction of the deprecation warning to `moved`.
- IdentityBackend.IdentityStore.ListGroupsForUser: the limit reached is not restated in its contract. ListEntities states it.
- IdentityBackend.IdentityStore.ListUsersInGroup: the same as ListGroupsForUser.
- IdentityCache.CachedIdentity.UpdateUser: its contract states coherence and the stored record, not the error cases. Those are in IdentityStore.UpdateUser.
- IdentityCache.CachedIdentity.UpdateGroup: the same as UpdateUser.
- `create_user` and `create_group` go to the store directly: the cache remembers no value under a fresh id or a free pair, and no cached create is modelled.
- IdentityBackend.IdentityStore.UpdateUser: an update carrying a password stores it whatever the user's origin, so a nonlocal user given a password by a later update can authenticate. The suite does not say what happens then.
- IdentityBackend.IdentityStore.UpdateUser: renaming a federated shadow user through `update_user` leaves the display name of its federated row as it was.
- The suite's own fixtures, cleanup loops and `assertDictContainsSubset` on the full record shape.
