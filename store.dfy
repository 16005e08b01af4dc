/** The identity backend: users and groups with their per-domain name
    constraint, the membership relation, password authentication, list calls
    driven by hints, and the shadow-user records of nonlocal and federated
    identities. Every operation raises the error the identity API raises and
    leaves the store as it was when it fails. */
module IdentityBackend {
  import opened IdentityTypes
  import opened Validation
  import opened Membership
  import opened DriverHints
  import opened Listing

  /** (idp_id, protocol_id, unique_id): the key of a federated identity. */
  type FedKey = (string, string, string)

  /** The dictionary passed to `create_federated_user`. */
  datatype FederatedRef = FederatedRef(idpId: string, protocolId: string, uniqueId: string, displayName: string)

  /** A federated identity's row: the shadow user it belongs to and its display name. */
  datatype FedLink = FedLink(userId: Id, displayName: string)

  function FedKeyOf(f: FederatedRef): FedKey
  {
    (f.idpId, f.protocolId, f.uniqueId)
  }

  /** The shadow user created for a federated identity: enabled, no password. */
  function ShadowUser(f: FederatedRef, id: Id, domainId: Id): User
  {
    User(id, f.displayName, domainId, true, None, map[], Federated)
  }

  /** The attributes list filters can name; a filter on any other attribute
      is left in the hints unapplied. */
  const ListFields: set<string> := {"id", "name", "domain_id"}

  function UserField(u: UserView, f: string): string
  {
    if f == "id" then u.id else if f == "name" then u.name else if f == "domain_id" then u.domainId else ""
  }

  function GroupField(g: Group, f: string): string
  {
    if f == "id" then g.id else if f == "name" then g.name else if f == "domain_id" then g.domainId else ""
  }

  /** Storing `u` under `id` would take a (name, domain) pair that another
      user holds. */
  predicate UserClash(index: map<NameKey, Id>, id: Id, u: User)
  {
    Indexed(u) && UserKey(u) in index && index[UserKey(u)] != id
  }

  predicate GroupClash(index: map<NameKey, Id>, id: Id, g: Group)
  {
    GroupKey(g) in index && index[GroupKey(g)] != id
  }

  /** The name index after the user stored under `id` changes from `prev` to `next`. */
  function Reindex(index: map<NameKey, Id>, id: Id, prevKey: NameKey, nextKey: NameKey, indexed: bool): map<NameKey, Id>
  {
    if indexed then (index - {prevKey})[nextKey := id] else index
  }

  /** The federated rows left after deleting user `id`. */
  function DropLinks(fed: map<FedKey, FedLink>, id: Id): (r: map<FedKey, FedLink>)
    ensures forall k :: k in r <==> k in fed && fed[k].userId != id
  {
    map k | k in fed && fed[k].userId != id :: fed[k]
  }

  class IdentityStore {
    var users: map<Id, User>
    var groups: map<Id, Group>
    /** The unique constraint on (name, domain_id) of users, as an index. */
    var userIndex: map<NameKey, Id>
    /** The unique constraint on (name, domain_id) of groups, as an index. */
    var groupIndex: map<NameKey, Id>
    var members: set<Row>
    var federated: map<FedKey, FedLink>

    ghost predicate UsersIndexed()
      reads this`users, this`userIndex
    {
      && (forall id :: id in users ==> users[id].id == id)
      && (forall id :: id in users && Indexed(users[id]) ==> ValidName(Str(users[id].name)))
      && (forall id :: id in users && Indexed(users[id]) ==>
            UserKey(users[id]) in userIndex && userIndex[UserKey(users[id])] == id)
      && (forall k :: k in userIndex ==>
            userIndex[k] in users && Indexed(users[userIndex[k]]) && UserKey(users[userIndex[k]]) == k)
    }

    ghost predicate GroupsIndexed()
      reads this`groups, this`groupIndex
    {
      && (forall id :: id in groups ==> groups[id].id == id)
      && (forall id :: id in groups ==> GroupKey(groups[id]) in groupIndex && groupIndex[GroupKey(groups[id])] == id)
      && (forall k :: k in groupIndex ==> groupIndex[k] in groups && GroupKey(groups[groupIndex[k]]) == k)
    }

    /** Every membership row and every federated row refers to existing records. */
    ghost predicate RowsRefer()
      reads this`users, this`groups, this`members, this`federated
    {
      && (forall r :: r in members ==> r.0 in users && r.1 in groups)
      && (forall k :: k in federated ==> federated[k].userId in users && users[federated[k].userId].origin.Federated?)
    }

    ghost predicate Valid()
      reads this
    {
      UsersIndexed() && GroupsIndexed() && RowsRefer()
    }

    constructor ()
      ensures Valid()
      ensures users == map[] && groups == map[] && members == {} && federated == map[]
    {
      users, groups := map[], map[];
      userIndex, groupIndex := map[], map[];
      members, federated := {}, map[];
    }

    /** The (name, domain) pair of indexed users is unique. */
    lemma UserNamesUnique(i: Id, j: Id)
      requires Valid()
      requires i in users && j in users && Indexed(users[i]) && Indexed(users[j])
      requires UserKey(users[i]) == UserKey(users[j])
      ensures i == j
    {
    }

    /** The (name, domain) pair of groups is unique. */
    lemma GroupNamesUnique(i: Id, j: Id)
      requires Valid()
      requires i in groups && j in groups && GroupKey(groups[i]) == GroupKey(groups[j])
      ensures i == j
    {
    }

    function UserViews(): (m: map<Id, UserView>)
      reads this`users, this`userIndex
      requires UsersIndexed()
      ensures m.Keys == users.Keys && Injective(m)
    {
      map id | id in users :: View(users[id])
    }

    // -------------------------------------------------------------------
    // Reads

    /** `get_user(id)`: the user without its password, or UserNotFound. */
    function GetUser(id: Id): (r: Result<UserView>)
      reads this`users, this`userIndex
      requires UsersIndexed()
      ensures r.Ok? <==> id in users
      ensures r.Ok? ==> r.value.id == id && r.value == View(users[id])
      ensures r.Err? ==> r.error == UserNotFound(id)
    {
      if id in users then Ok(View(users[id])) else Err(UserNotFound(id))
    }

    /** `get_user_by_name(name, domain_id)`. */
    function GetUserByName(name: string, domainId: Id): (r: Result<UserView>)
      reads this`users, this`userIndex
      requires UsersIndexed()
      ensures r.Ok? <==> exists id :: id in users && Indexed(users[id]) && UserKey(users[id]) == (name, domainId)
      ensures r.Ok? ==> r.value.name == name && r.value.domainId == domainId
      ensures r.Ok? ==> r.value.id in users && r.value == View(users[r.value.id])
      ensures r.Err? ==> r.error == UserNotFound(name)
    {
      if (name, domainId) in userIndex then Ok(View(users[userIndex[(name, domainId)]]))
      else Err(UserNotFound(name))
    }

    /** `get_group(id)`. */
    function GetGroup(id: Id): (r: Result<Group>)
      reads this`groups, this`groupIndex
      requires GroupsIndexed()
      ensures r.Ok? <==> id in groups
      ensures r.Ok? ==> r.value.id == id && r.value == groups[id]
      ensures r.Err? ==> r.error == GroupNotFound(id)
    {
      if id in groups then Ok(groups[id]) else Err(GroupNotFound(id))
    }

    /** `get_group_by_name(name, domain_id)`. */
    function GetGroupByName(name: string, domainId: Id): (r: Result<Group>)
      reads this`groups, this`groupIndex
      requires GroupsIndexed()
      ensures r.Ok? <==> exists id :: id in groups && GroupKey(groups[id]) == (name, domainId)
      ensures r.Ok? ==> r.value.name == name && r.value.domainId == domainId
      ensures r.Ok? ==> r.value.id in groups && r.value == groups[r.value.id]
      ensures r.Err? ==> r.error == GroupNotFound(name)
    {
      if (name, domainId) in groupIndex then Ok(groups[groupIndex[(name, domainId)]])
      else Err(GroupNotFound(name))
    }

    /** `authenticate(user_id, password)`: succeeds exactly when the user
        exists, has a stored password and the attempt equals it; a missing
        stored password rejects every attempt, `''` and `None` included.
        Every failure is the same error, whatever its cause. */
    function Authenticate(userId: Id, password: Option<string>): (r: Result<UserView>)
      reads this`users, this`userIndex
      requires UsersIndexed()
      ensures r.Ok? <==> userId in users && users[userId].password.Some? && password == users[userId].password
      ensures r.Ok? ==> r.value == View(users[userId]) && r.value.id == userId
      ensures r.Err? ==> r.error == Unauthorized
    {
      if userId in users && users[userId].password.Some? && password == users[userId].password
      then Ok(View(users[userId]))
      else Err(Unauthorized)
    }

    // -------------------------------------------------------------------
    // Users

    /** `create_user(ref)`: validates the dictionary, refuses a (name,
        domain) pair already taken, and stores the user under a fresh id. */
    method CreateUser(ref: UserRef, freshId: Id, defaultDomain: Id) returns (r: Result<UserView>)
      requires Valid() && freshId !in users
      modifies this`users, this`userIndex
      ensures Valid()
      ensures var n := NewUser(ref, freshId, defaultDomain, Local);
              && (n.Err? ==> r == Err(ValidationError))
              && (n.Ok? && UserKey(n.value) in old(userIndex) ==> r == Err(Conflict))
              && (n.Ok? && UserKey(n.value) !in old(userIndex) ==>
                    r == Ok(View(n.value))
                    && users == old(users)[freshId := n.value]
                    && userIndex == old(userIndex)[UserKey(n.value) := freshId])
      ensures r.Err? ==> users == old(users) && userIndex == old(userIndex)
      ensures r.Ok? ==> freshId in users && users == old(users)[freshId := users[freshId]] && r == GetUser(freshId)
    {
      r := AddUser(NewUser(ref, freshId, defaultDomain, Local), freshId);
    }

    /** `create_nonlocal_user(ref)`: a user without a local credential, kept
        under the id the dictionary carries (or a fresh one), subject to the
        same name constraint. */
    method CreateNonlocalUser(ref: UserRef, freshId: Id, defaultDomain: Id) returns (r: Result<UserView>)
      requires Valid() && freshId !in users
      modifies this`users, this`userIndex
      ensures Valid()
      ensures var id := if ref.id.Some? then ref.id.value else freshId;
              var n := NewUser(ref, id, defaultDomain, Nonlocal);
              && (id in old(users) ==> r == Err(Conflict))
              && (id !in old(users) && n.Err? ==> r == Err(ValidationError))
              && (id !in old(users) && n.Ok? && UserKey(n.value) in old(userIndex) ==> r == Err(Conflict))
              && (id !in old(users) && n.Ok? && UserKey(n.value) !in old(userIndex) ==>
                    r == Ok(View(n.value)) && r.value.id == id
                    && users == old(users)[id := n.value]
                    && userIndex == old(userIndex)[UserKey(n.value) := id])
      ensures r.Err? ==> users == old(users) && userIndex == old(userIndex)
      ensures r.Ok? ==> r.value.id in users && users[r.value.id].password.None?
      ensures r.Ok? ==> forall p :: Authenticate(r.value.id, p) == Err(Unauthorized)
    {
      var id := if ref.id.Some? then ref.id.value else freshId;
      if id in users {
        return Err(Conflict);
      }
      r := AddUser(NewUser(ref, id, defaultDomain, Nonlocal), id);
    }

    /** Stores a validated local or nonlocal user unless its name is taken. */
    method AddUser(n: Result<User>, id: Id) returns (r: Result<UserView>)
      requires Valid() && id !in users
      requires n.Ok? ==> n.value.id == id && Indexed(n.value) && ValidName(Str(n.value.name))
      requires n.Err? ==> n.error == ValidationError
      modifies this`users, this`userIndex
      ensures Valid()
      ensures n.Err? ==> r == Err(ValidationError)
      ensures n.Ok? && UserKey(n.value) in old(userIndex) ==> r == Err(Conflict)
      ensures n.Ok? && UserKey(n.value) !in old(userIndex) ==>
                r == Ok(View(n.value))
                && users == old(users)[id := n.value]
                && userIndex == old(userIndex)[UserKey(n.value) := id]
      ensures r.Err? ==> users == old(users) && userIndex == old(userIndex)
    {
      if n.Err? {
        return Err(n.error);
      }
      var u := n.value;
      if UserKey(u) in userIndex {
        return Err(Conflict);
      }
      users := users[id := u];
      userIndex := userIndex[UserKey(u) := id];
      r := Ok(View(u));
    }

    /** `update_user(id, ref)`: UserNotFound for an unknown id; then
        ValidationError for a changed id or an invalid name or `enabled`;
        then Conflict when the new (name, domain) pair belongs to another
        user. `moved` reports the deprecated change of domain. */
    method UpdateUser(id: Id, patch: UserRef) returns (r: Result<UserView>, moved: bool)
      requires Valid()
      modifies this`users, this`userIndex
      ensures Valid()
      ensures id !in old(users) ==> r == Err(UserNotFound(id)) && !moved
      ensures id in old(users) ==>
                var prev := old(users)[id];
                var p := PatchUser(prev, patch);
                && (p.Err? ==> r == Err(ValidationError) && !moved)
                && (p.Ok? ==> moved == (p.value.domainId != prev.domainId))
                && (p.Ok? && UserClash(old(userIndex), id, p.value) ==> r == Err(Conflict))
                && (p.Ok? && !UserClash(old(userIndex), id, p.value) ==>
                      r == Ok(View(p.value))
                      && users == old(users)[id := p.value]
                      && userIndex == Reindex(old(userIndex), id, UserKey(prev), UserKey(p.value), Indexed(prev)))
      ensures r.Err? ==> users == old(users) && userIndex == old(userIndex)
      ensures r.Ok? ==> id in users && users == old(users)[id := users[id]] && r == GetUser(id)
    {
      if id !in users {
        return Err(UserNotFound(id)), false;
      }
      var prev := users[id];
      var p := PatchUser(prev, patch);
      if p.Err? {
        return Err(p.error), false;
      }
      var u := p.value;
      moved := u.domainId != prev.domainId;
      if UserClash(userIndex, id, u) {
        return Err(Conflict), moved;
      }
      users := users[id := u];
      userIndex := Reindex(userIndex, id, UserKey(prev), UserKey(u), Indexed(prev));
      r := Ok(View(u));
    }

    /** `delete_user(id)`: removes the user, its name from the index, its
        group memberships and its federated rows; groups are untouched. */
    method DeleteUser(id: Id) returns (r: Outcome)
      requires Valid()
      modifies this`users, this`userIndex, this`members, this`federated
      ensures Valid()
      ensures id !in old(users) ==>
                r == Fail(UserNotFound(id)) && users == old(users) && userIndex == old(userIndex)
                && members == old(members) && federated == old(federated)
      ensures id in old(users) ==>
                && r == Pass
                && users == old(users) - {id}
                && userIndex == (if Indexed(old(users)[id]) then old(userIndex) - {UserKey(old(users)[id])}
                                 else old(userIndex))
                && members == DropUser(old(members), id)
                && federated == DropLinks(old(federated), id)
    {
      if id !in users {
        return Fail(UserNotFound(id));
      }
      var u := users[id];
      if Indexed(u) {
        userIndex := userIndex - {UserKey(u)};
      }
      users := users - {id};
      members := DropUser(members, id);
      federated := DropLinks(federated, id);
      r := Pass;
    }

    /** `list_users(hints)`. */
    method ListUsers(hints: Hints?, listLimit: Option<nat>) returns (r: seq<UserView>)
      requires Valid()
      modifies hints
      ensures hints == null ==> Listed(r, UserViews(), users.Keys, [], UserField, None)
      ensures hints != null ==>
                && hints.filters == Unsupported(old(hints.filters), ListFields)
                && hints.limit == FinalLimit(old(hints.limit), listLimit,
                     |Selected(UserViews(), users.Keys, Supported(old(hints.filters), ListFields), UserField)|)
                && Listed(r, UserViews(), users.Keys, Supported(old(hints.filters), ListFields), UserField, hints.limit)
    {
      r := ListEntities(UserViews(), users.Keys, UserField, ListFields, hints, listLimit);
    }

    // -------------------------------------------------------------------
    // Groups

    /** `create_group(ref)`: validates and strips the name, refuses a
        (name, domain) pair already taken. */
    method CreateGroup(ref: GroupRef, freshId: Id, defaultDomain: Id) returns (r: Result<Group>)
      requires Valid() && freshId !in groups
      modifies this`groups, this`groupIndex
      ensures Valid()
      ensures var n := NewGroup(ref, freshId, defaultDomain);
              && (n.Err? ==> r == Err(ValidationError))
              && (n.Ok? && GroupKey(n.value) in old(groupIndex) ==> r == Err(Conflict))
              && (n.Ok? && GroupKey(n.value) !in old(groupIndex) ==>
                    r == Ok(n.value)
                    && groups == old(groups)[freshId := n.value]
                    && groupIndex == old(groupIndex)[GroupKey(n.value) := freshId])
      ensures r.Err? ==> groups == old(groups) && groupIndex == old(groupIndex)
      ensures r.Ok? ==> freshId in groups && groups == old(groups)[freshId := groups[freshId]] && r == GetGroup(freshId)
    {
      r := AddGroup(NewGroup(ref, freshId, defaultDomain), freshId);
    }

    /** Stores a validated group unless its name is taken. */
    method AddGroup(n: Result<Group>, id: Id) returns (r: Result<Group>)
      requires Valid() && id !in groups
      requires n.Ok? ==> n.value.id == id
      requires n.Err? ==> n.error == ValidationError
      modifies this`groups, this`groupIndex
      ensures Valid()
      ensures n.Err? ==> r == Err(ValidationError)
      ensures n.Ok? && GroupKey(n.value) in old(groupIndex) ==> r == Err(Conflict)
      ensures n.Ok? && GroupKey(n.value) !in old(groupIndex) ==>
                r == Ok(n.value)
                && groups == old(groups)[id := n.value]
                && groupIndex == old(groupIndex)[GroupKey(n.value) := id]
      ensures r.Err? ==> groups == old(groups) && groupIndex == old(groupIndex)
    {
      if n.Err? {
        return Err(n.error);
      }
      var g := n.value;
      if GroupKey(g) in groupIndex {
        return Err(Conflict);
      }
      groups := groups[id := g];
      groupIndex := groupIndex[GroupKey(g) := id];
      r := Ok(g);
    }

    /** `update_group(id, ref)`: as `update_user`, with the new name stripped. */
    method UpdateGroup(id: Id, patch: GroupRef) returns (r: Result<Group>, moved: bool)
      requires Valid()
      modifies this`groups, this`groupIndex
      ensures Valid()
      ensures id !in old(groups) ==> r == Err(GroupNotFound(id)) && !moved
      ensures id in old(groups) ==>
                var prev := old(groups)[id];
                var p := PatchGroup(prev, patch);
                && (p.Err? ==> r == Err(ValidationError) && !moved)
                && (p.Ok? ==> moved == (p.value.domainId != prev.domainId))
                && (p.Ok? && GroupClash(old(groupIndex), id, p.value) ==> r == Err(Conflict))
                && (p.Ok? && !GroupClash(old(groupIndex), id, p.value) ==>
                      r == Ok(p.value)
                      && groups == old(groups)[id := p.value]
                      && groupIndex == Reindex(old(groupIndex), id, GroupKey(prev), GroupKey(p.value), true))
      ensures r.Err? ==> groups == old(groups) && groupIndex == old(groupIndex)
      ensures r.Ok? ==> id in groups && groups == old(groups)[id := groups[id]] && r == GetGroup(id)
    {
      if id !in groups {
        return Err(GroupNotFound(id)), false;
      }
      var prev := groups[id];
      var p := PatchGroup(prev, patch);
      if p.Err? {
        return Err(p.error), false;
      }
      var g := p.value;
      moved := g.domainId != prev.domainId;
      if GroupClash(groupIndex, id, g) {
        return Err(Conflict), moved;
      }
      groups := groups[id := g];
      groupIndex := Reindex(groupIndex, id, GroupKey(prev), GroupKey(g), true);
      r := Ok(g);
    }

    /** `delete_group(id)`: removes the group and its membership rows; the
        member users stay. */
    method DeleteGroup(id: Id) returns (r: Outcome)
      requires Valid()
      modifies this`groups, this`groupIndex, this`members
      ensures Valid()
      ensures id !in old(groups) ==>
                r == Fail(GroupNotFound(id)) && groups == old(groups) && groupIndex == old(groupIndex)
                && members == old(members)
      ensures id in old(groups) ==>
                && r == Pass
                && groups == old(groups) - {id}
                && groupIndex == old(groupIndex) - {GroupKey(old(groups)[id])}
                && members == DropGroup(old(members), id)
    {
      if id !in groups {
        return Fail(GroupNotFound(id));
      }
      groupIndex := groupIndex - {GroupKey(groups[id])};
      groups := groups - {id};
      members := DropGroup(members, id);
      r := Pass;
    }

    /** `list_groups(hints)`. */
    method ListGroups(hints: Hints?, listLimit: Option<nat>) returns (r: seq<Group>)
      requires Valid()
      modifies hints
      ensures hints == null ==> Listed(r, groups, groups.Keys, [], GroupField, None)
      ensures hints != null ==>
                && hints.filters == Unsupported(old(hints.filters), ListFields)
                && hints.limit == FinalLimit(old(hints.limit), listLimit,
                     |Selected(groups, groups.Keys, Supported(old(hints.filters), ListFields), GroupField)|)
                && Listed(r, groups, groups.Keys, Supported(old(hints.filters), ListFields), GroupField, hints.limit)
    {
      r := ListEntities(groups, groups.Keys, GroupField, ListFields, hints, listLimit);
    }

    // -------------------------------------------------------------------
    // Membership

    /** The error a membership call raises for its two ids, if any: the
        user is looked up first, so two unknown ids raise UserNotFound. */
    function EndpointError(userId: Id, groupId: Id): (e: Option<Error>)
      reads this`users, this`groups
      ensures e.Some? <==> userId !in users || groupId !in groups
      ensures userId !in users ==> e == Some(UserNotFound(userId))
      ensures userId in users && groupId !in groups ==> e == Some(GroupNotFound(groupId))
    {
      if userId !in users then Some(UserNotFound(userId))
      else if groupId !in groups then Some(GroupNotFound(groupId))
      else None
    }

    /** `add_user_to_group(user_id, group_id)`; adding twice is harmless. */
    method AddUserToGroup(userId: Id, groupId: Id) returns (r: Outcome)
      requires Valid()
      modifies this`members
      ensures Valid()
      ensures EndpointError(userId, groupId).Some? ==>
                r == Fail(EndpointError(userId, groupId).value) && members == old(members)
      ensures EndpointError(userId, groupId).None? ==> r == Pass && members == old(members) + {(userId, groupId)}
    {
      var e := EndpointError(userId, groupId);
      if e.Some? {
        return Fail(e.value);
      }
      members := members + {(userId, groupId)};
      r := Pass;
    }

    /** `remove_user_from_group(user_id, group_id)`: NotFound as well when the
        user is not a member. */
    method RemoveUserFromGroup(userId: Id, groupId: Id) returns (r: Outcome)
      requires Valid()
      modifies this`members
      ensures Valid()
      ensures EndpointError(userId, groupId).Some? ==>
                r == Fail(EndpointError(userId, groupId).value) && members == old(members)
      ensures EndpointError(userId, groupId).None? && (userId, groupId) !in old(members) ==>
                r == Fail(NotFound) && members == old(members)
      ensures EndpointError(userId, groupId).None? && (userId, groupId) in old(members) ==>
                r == Pass && members == old(members) - {(userId, groupId)}
    {
      var e := EndpointError(userId, groupId);
      if e.Some? {
        return Fail(e.value);
      }
      if (userId, groupId) !in members {
        return Fail(NotFound);
      }
      members := members - {(userId, groupId)};
      r := Pass;
    }

    /** `check_user_in_group(user_id, group_id)`: passes exactly for a
        membership; every failure is a NotFound. */
    function CheckUserInGroup(userId: Id, groupId: Id): (r: Outcome)
      reads this
      requires Valid()
      ensures r.Pass? <==> (userId, groupId) in members
      ensures r.Fail? ==> IsNotFound(r.error)
      ensures userId !in users ==> r == Fail(UserNotFound(userId))
      ensures userId in users && groupId !in groups ==> r == Fail(GroupNotFound(groupId))
    {
      var e := EndpointError(userId, groupId);
      if e.Some? then Fail(e.value)
      else if (userId, groupId) in members then Pass
      else Fail(NotFound)
    }

    /** The loop of `test_list_groups_for_user` that adds one user to a run
        of new groups: each `add_user_to_group` raises that user's group count
        by one, and no other user's groups change. */
    method AddUserToGroups(userId: Id, gs: seq<Id>)
      requires Valid() && userId in users && Distinct(gs)
      requires forall g :: g in gs ==> g in groups && (userId, g) !in members
      modifies this`members
      ensures Valid()
      ensures forall g :: g in GroupsOf(members, userId) <==> g in GroupsOf(old(members), userId) || g in gs
      ensures |GroupsOf(members, userId)| == |GroupsOf(old(members), userId)| + |gs|
      ensures forall other :: other != userId ==> GroupsOf(members, other) == GroupsOf(old(members), other)
    {
      AddAllRaisesCount(members, userId, gs);
      var i := 0;
      while i < |gs|
        invariant 0 <= i <= |gs| && Valid()
        invariant members == old(members) + Rows(userId, gs[..i])
      {
        var g := gs[i];
        RowsStep(old(members), userId, gs, i);
        assert EndpointError(userId, g) == None;
        var r := AddUserToGroup(userId, g);
        i := i + 1;
      }
      assert gs[..i] == gs;
    }

    /** The loop of `test_list_groups_for_user` that takes the user out of
        those groups again: each `remove_user_from_group` lowers the count by
        one, and no other user's groups change. */
    method RemoveUserFromGroups(userId: Id, gs: seq<Id>)
      requires Valid() && userId in users && Distinct(gs)
      requires forall g :: g in gs ==> (userId, g) in members
      modifies this`members
      ensures Valid()
      ensures forall g :: g in GroupsOf(members, userId) <==> g in GroupsOf(old(members), userId) && g !in gs
      ensures |GroupsOf(members, userId)| == |GroupsOf(old(members), userId)| - |gs|
      ensures forall other :: other != userId ==> GroupsOf(members, other) == GroupsOf(old(members), other)
    {
      RemoveAllLowersCount(members, userId, gs);
      var i := 0;
      while i < |gs|
        invariant 0 <= i <= |gs| && Valid()
        invariant members == old(members) - Rows(userId, gs[..i])
      {
        var g := gs[i];
        RowsStep(old(members), userId, gs, i);
        var r := RemoveUserFromGroup(userId, g);
        i := i + 1;
      }
      assert gs[..i] == gs;
    }

    /** `list_groups_for_user(user_id, hints)`: the user's groups, filtered. */
    method ListGroupsForUser(userId: Id, hints: Hints?, listLimit: Option<nat>) returns (r: Result<seq<Group>>)
      requires Valid()
      modifies hints
      ensures userId !in users ==> r == Err(UserNotFound(userId))
      ensures userId in users ==> r.Ok?
      ensures r.Ok? && hints == null ==> Listed(r.value, groups, GroupsOf(members, userId), [], GroupField, None)
      ensures r.Ok? && hints != null ==>
                && hints.filters == Unsupported(old(hints.filters), ListFields)
                && Listed(r.value, groups, GroupsOf(members, userId), Supported(old(hints.filters), ListFields),
                          GroupField, hints.limit)
    {
      if userId !in users {
        return Err(UserNotFound(userId));
      }
      var rs := ListEntities(groups, GroupsOf(members, userId), GroupField, ListFields, hints, listLimit);
      r := Ok(rs);
    }

    /** `list_users_in_group(group_id, hints)`: the group's members, filtered. */
    method ListUsersInGroup(groupId: Id, hints: Hints?, listLimit: Option<nat>) returns (r: Result<seq<UserView>>)
      requires Valid()
      modifies hints
      ensures groupId !in groups ==> r == Err(GroupNotFound(groupId))
      ensures groupId in groups ==> r.Ok?
      ensures r.Ok? && hints == null ==> Listed(r.value, UserViews(), UsersIn(members, groupId), [], UserField, None)
      ensures r.Ok? && hints != null ==>
                && hints.filters == Unsupported(old(hints.filters), ListFields)
                && Listed(r.value, UserViews(), UsersIn(members, groupId), Supported(old(hints.filters), ListFields),
                          UserField, hints.limit)
    {
      if groupId !in groups {
        return Err(GroupNotFound(groupId));
      }
      var rs := ListEntities(UserViews(), UsersIn(members, groupId), UserField, ListFields, hints, listLimit);
      r := Ok(rs);
    }

    // -------------------------------------------------------------------
    // Federated identities

    /** `create_federated_user(ref)`: Conflict when the (idp, protocol,
        unique id) triple is already known; otherwise a shadow user and its
        federated row. */
    method CreateFederatedUser(f: FederatedRef, freshId: Id, domainId: Id) returns (r: Result<UserView>)
      requires Valid() && freshId !in users
      modifies this`users, this`federated
      ensures Valid()
      ensures FedKeyOf(f) in old(federated) ==>
                r == Err(Conflict) && users == old(users) && federated == old(federated)
      ensures FedKeyOf(f) !in old(federated) ==>
                && r == Ok(View(ShadowUser(f, freshId, domainId)))
                && users == old(users)[freshId := ShadowUser(f, freshId, domainId)]
                && federated == old(federated)[FedKeyOf(f) := FedLink(freshId, f.displayName)]
    {
      if FedKeyOf(f) in federated {
        return Err(Conflict);
      }
      var u := ShadowUser(f, freshId, domainId);
      users := users[freshId := u];
      federated := federated[FedKeyOf(f) := FedLink(freshId, f.displayName)];
      r := Ok(View(u));
    }

    /** `get_federated_user(idp_id, protocol_id, unique_id)`. */
    function GetFederatedUser(idpId: string, protocolId: string, uniqueId: string): (r: Result<UserView>)
      reads this
      requires Valid()
      ensures r.Ok? <==> (idpId, protocolId, uniqueId) in federated
      ensures r.Ok? ==> r.value.id == federated[(idpId, protocolId, uniqueId)].userId
      ensures r.Ok? ==> r.value == View(users[r.value.id])
      ensures r.Err? ==> r.error == UserNotFound(uniqueId)
    {
      var k := (idpId, protocolId, uniqueId);
      if k in federated then Ok(View(users[federated[k].userId])) else Err(UserNotFound(uniqueId))
    }

    /** `update_federated_user_display_name(idp_id, protocol_id, unique_id, name)`:
        the row keeps its user and takes the new display name. */
    method UpdateFederatedDisplayName(idpId: string, protocolId: string, uniqueId: string, name: string)
      returns (r: Outcome)
      requires Valid()
      modifies this`users, this`federated
      ensures Valid()
      ensures (idpId, protocolId, uniqueId) !in old(federated) ==>
                r == Fail(UserNotFound(uniqueId)) && federated == old(federated) && users == old(users)
      ensures (idpId, protocolId, uniqueId) in old(federated) ==>
                var k := (idpId, protocolId, uniqueId);
                var id := old(federated)[k].userId;
                && r == Pass
                && federated == old(federated)[k := FedLink(id, name)]
                && users == old(users)[id := old(users)[id].(name := name)]
      ensures r.Pass? ==> GetFederatedUser(idpId, protocolId, uniqueId).Ok?
                          && GetFederatedUser(idpId, protocolId, uniqueId).value.name == name
    {
      var k := (idpId, protocolId, uniqueId);
      if k !in federated {
        return Fail(UserNotFound(uniqueId));
      }
      var id := federated[k].userId;
      users := users[id := users[id].(name := name)];
      federated := federated[k := FedLink(id, name)];
      r := Pass;
    }
  }

  /** `test_delete_user_with_group_project_domain_links`: once a member is
      deleted, checking its membership raises a NotFound. */
  method DeleteMemberThenCheck(s: IdentityStore, userId: Id, groupId: Id) returns (before: Outcome, after: Outcome)
    requires s.Valid() && (userId, groupId) in s.members
    modifies s
    ensures before == Pass
    ensures after == Fail(UserNotFound(userId)) && IsNotFound(after.error)
  {
    before := s.CheckUserInGroup(userId, groupId);
    var _ := s.DeleteUser(userId);
    after := s.CheckUserInGroup(userId, groupId);
  }

  /** `test_delete_group_with_user_project_domain_links`: deleting a group
      leaves its members retrievable. */
  method DeleteGroupKeepsMember(s: IdentityStore, userId: Id, groupId: Id) returns (member: Result<UserView>)
    requires s.Valid() && (userId, groupId) in s.members
    modifies s
    ensures member.Ok? && member.value.id == userId
    ensures s.Valid() && s.CheckUserInGroup(userId, groupId) == Fail(GroupNotFound(groupId))
  {
    var _ := s.DeleteGroup(groupId);
    member := s.GetUser(userId);
  }

  /** `test_update_user_id_fails`: an update carrying another id is refused,
      the user keeps its id and the other id still names nobody. */
  method UpdateUserIdRejected(s: IdentityStore, id: Id, other: Id, patch: UserRef)
    returns (r: Result<UserView>, kept: Result<UserView>, missing: Result<UserView>)
    requires s.Valid() && id in s.users && other !in s.users && patch.id == Some(other)
    modifies s
    ensures r == Err(ValidationError)
    ensures kept.Ok? && kept.value.id == id
    ensures missing == Err(UserNotFound(other))
  {
    var moved;
    r, moved := s.UpdateUser(id, patch);
    kept := s.GetUser(id);
    missing := s.GetUser(other);
  }

  /** `test_rename_duplicate_user_name_fails` and
      `test_move_user_between_domains_with_clashing_names_fails`: taking the
      (name, domain) pair of another local user is a Conflict and changes
      nothing. */
  method TakeNameOfOther(s: IdentityStore, id: Id, holder: Id) returns (r: Result<UserView>, moved: bool)
    requires s.Valid() && id in s.users && holder in s.users && id != holder
    requires Indexed(s.users[id]) && Indexed(s.users[holder])
    modifies s
    ensures r == Err(Conflict)
    ensures s.users == old(s.users)
    ensures moved <==> old(s.users[holder].domainId != s.users[id].domainId)
  {
    var u := s.users[holder];
    var patch := UserRef(None, Some(Str(u.name)), Some(u.domainId), None, None, map[]);
    r, moved := s.UpdateUser(id, patch);
  }
}
