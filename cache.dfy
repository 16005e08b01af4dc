/** The read-through cache in front of the identity store. `get_user`,
    `get_user_by_name`, `get_group` and `get_group_by_name` remember what they
    returned, keyed by id or by (name, domain_id); a remembered value is
    returned without consulting the store, so a change made to the store
    behind the cache's back stays invisible until the key is invalidated.
    Updates and deletions made through the cache invalidate the keys they
    affect, which keeps every remembered value equal to the store's. */
module IdentityCache {
  import opened IdentityTypes
  import opened Validation
  import opened IdentityBackend

  /** Every remembered user is the record `users` holds under that id, or
      under the id `index` gives for that (name, domain) pair. */
  ghost predicate RemembersUsers(byId: map<Id, UserView>, byName: map<NameKey, UserView>,
                                 users: map<Id, User>, index: map<NameKey, Id>)
  {
    && (forall id :: id in byId ==> id in users && byId[id] == View(users[id]))
    && (forall k :: k in byName ==> k in index && index[k] in users && byName[k] == View(users[index[k]]))
  }

  /** The same for remembered groups. */
  ghost predicate RemembersGroups(byId: map<Id, Group>, byName: map<NameKey, Group>,
                                  groups: map<Id, Group>, index: map<NameKey, Id>)
  {
    && (forall id :: id in byId ==> id in groups && byId[id] == groups[id])
    && (forall k :: k in byName ==> k in index && index[k] in groups && byName[k] == groups[index[k]])
  }

  /** Every remembered pair other than `prevKey` names a user other than `id`. */
  ghost predicate NamesElsewhere(byName: map<NameKey, UserView>, index: map<NameKey, Id>,
                                 users: map<Id, User>, id: Id, prevKey: NameKey)
  {
    forall k :: k in byName && k != prevKey ==>
      k in index && index[k] != id && index[k] in users && Indexed(users[index[k]]) && UserKey(users[index[k]]) == k
  }

  /** Every remembered pair other than `prevKey` names a group other than `id`. */
  ghost predicate GroupNamesElsewhere(byName: map<NameKey, Group>, index: map<NameKey, Id>,
                                      groups: map<Id, Group>, id: Id, prevKey: NameKey)
  {
    forall k :: k in byName && k != prevKey ==>
      k in index && index[k] != id && index[k] in groups && GroupKey(groups[index[k]]) == k
  }

  class CachedIdentity {
    /** The backend driver underneath; a caller holding it can bypass the cache. */
    const store: IdentityStore
    var userById: map<Id, UserView>
    var userByName: map<NameKey, UserView>
    var groupById: map<Id, Group>
    var groupByName: map<NameKey, Group>

    ghost predicate UsersCoherent()
      reads this`userById, this`userByName, store`users, store`userIndex
    {
      RemembersUsers(userById, userByName, store.users, store.userIndex)
    }

    ghost predicate GroupsCoherent()
      reads this`groupById, this`groupByName, store`groups, store`groupIndex
    {
      RemembersGroups(groupById, groupByName, store.groups, store.groupIndex)
    }

    /** Every remembered value is what the store would return now. */
    ghost predicate Coherent()
      reads this, store
    {
      store.Valid() && UsersCoherent() && GroupsCoherent()
    }

    constructor (s: IdentityStore)
      requires s.Valid()
      ensures store == s && Coherent()
      ensures userById == map[] && userByName == map[] && groupById == map[] && groupByName == map[]
    {
      store := s;
      userById, userByName := map[], map[];
      groupById, groupByName := map[], map[];
    }

    // -------------------------------------------------------------------
    // Cached reads

    /** `get_user(id)`: a remembered value if there is one; otherwise the
        store's answer, remembered when it is a user. Errors are not
        remembered. Over a coherent cache the answer is the store's. */
    method GetUser(id: Id) returns (r: Result<UserView>)
      requires store.UsersIndexed()
      modifies this`userById
      ensures id in old(userById) ==> r == Ok(old(userById)[id]) && userById == old(userById)
      ensures id !in old(userById) ==> r == store.GetUser(id)
      ensures id !in old(userById) && r.Ok? ==> userById == old(userById)[id := r.value]
      ensures id !in old(userById) && r.Err? ==> userById == old(userById)
      ensures old(Coherent()) ==> Coherent() && r == store.GetUser(id)
    {
      if id in userById {
        return Ok(userById[id]);
      }
      r := store.GetUser(id);
      if r.Ok? {
        userById := userById[id := r.value];
      }
    }

    /** `get_user_by_name(name, domain_id)`, cached under the pair. */
    method GetUserByName(name: string, domainId: Id) returns (r: Result<UserView>)
      requires store.UsersIndexed()
      modifies this`userByName
      ensures (name, domainId) in old(userByName) ==>
                r == Ok(old(userByName)[(name, domainId)]) && userByName == old(userByName)
      ensures (name, domainId) !in old(userByName) ==> r == store.GetUserByName(name, domainId)
      ensures (name, domainId) !in old(userByName) && r.Ok? ==>
                userByName == old(userByName)[(name, domainId) := r.value]
      ensures (name, domainId) !in old(userByName) && r.Err? ==> userByName == old(userByName)
      ensures old(Coherent()) ==> Coherent() && r == store.GetUserByName(name, domainId)
    {
      if (name, domainId) in userByName {
        return Ok(userByName[(name, domainId)]);
      }
      r := store.GetUserByName(name, domainId);
      if r.Ok? {
        userByName := userByName[(name, domainId) := r.value];
      }
    }

    /** `get_group(id)`, cached under the id. */
    method GetGroup(id: Id) returns (r: Result<Group>)
      requires store.GroupsIndexed()
      modifies this`groupById
      ensures id in old(groupById) ==> r == Ok(old(groupById)[id]) && groupById == old(groupById)
      ensures id !in old(groupById) ==> r == store.GetGroup(id)
      ensures id !in old(groupById) && r.Ok? ==> groupById == old(groupById)[id := r.value]
      ensures id !in old(groupById) && r.Err? ==> groupById == old(groupById)
      ensures old(Coherent()) ==> Coherent() && r == store.GetGroup(id)
    {
      if id in groupById {
        return Ok(groupById[id]);
      }
      r := store.GetGroup(id);
      if r.Ok? {
        groupById := groupById[id := r.value];
      }
    }

    /** `get_group_by_name(name, domain_id)`, cached under the pair. */
    method GetGroupByName(name: string, domainId: Id) returns (r: Result<Group>)
      requires store.GroupsIndexed()
      modifies this`groupByName
      ensures (name, domainId) in old(groupByName) ==>
                r == Ok(old(groupByName)[(name, domainId)]) && groupByName == old(groupByName)
      ensures (name, domainId) !in old(groupByName) ==> r == store.GetGroupByName(name, domainId)
      ensures (name, domainId) !in old(groupByName) && r.Ok? ==>
                groupByName == old(groupByName)[(name, domainId) := r.value]
      ensures (name, domainId) !in old(groupByName) && r.Err? ==> groupByName == old(groupByName)
      ensures old(Coherent()) ==> Coherent() && r == store.GetGroupByName(name, domainId)
    {
      if (name, domainId) in groupByName {
        return Ok(groupByName[(name, domainId)]);
      }
      r := store.GetGroupByName(name, domainId);
      if r.Ok? {
        groupByName := groupByName[(name, domainId) := r.value];
      }
    }

    // -------------------------------------------------------------------
    // Invalidation

    /** `get_user.invalidate(id)`: the next `get_user(id)` reads the store. */
    method InvalidateUser(id: Id)
      modifies this`userById
      ensures userById == old(userById) - {id}
      ensures old(Coherent()) ==> Coherent()
    {
      userById := userById - {id};
    }

    /** `get_user_by_name.invalidate(name, domain_id)`. */
    method InvalidateUserByName(name: string, domainId: Id)
      modifies this`userByName
      ensures userByName == old(userByName) - {(name, domainId)}
      ensures old(Coherent()) ==> Coherent()
    {
      userByName := userByName - {(name, domainId)};
    }

    /** `get_group.invalidate(id)`. */
    method InvalidateGroup(id: Id)
      modifies this`groupById
      ensures groupById == old(groupById) - {id}
      ensures old(Coherent()) ==> Coherent()
    {
      groupById := groupById - {id};
    }

    /** `get_group_by_name.invalidate(name, domain_id)`. */
    method InvalidateGroupByName(name: string, domainId: Id)
      modifies this`groupByName
      ensures groupByName == old(groupByName) - {(name, domainId)}
      ensures old(Coherent()) ==> Coherent()
    {
      groupByName := groupByName - {(name, domainId)};
    }

    // -------------------------------------------------------------------
    // Writes through the cache

    /** Forgets `id` and the pair `prevKey` after the store has changed the
        record of `id` and nothing else in the user table: whatever else is
        remembered still agrees with the store. */
    method ForgetUser(id: Id, prevKey: NameKey, ghost before: map<Id, User>, ghost index: map<NameKey, Id>)
      requires store.Valid() && GroupsCoherent()
      requires RemembersUsers(userById, userByName, before, index)
      requires NamesElsewhere(userByName, index, before, id, prevKey)
      requires forall j :: j in before && j != id ==> j in store.users && store.users[j] == before[j]
      modifies this`userById, this`userByName
      ensures userById == old(userById) - {id} && userByName == old(userByName) - {prevKey}
      ensures Coherent()
    {
      userById := userById - {id};
      userByName := userByName - {prevKey};
      forall k | k in userByName
        ensures k in store.userIndex && store.userIndex[k] == index[k]
      {
        assert store.users[index[k]] == before[index[k]];
      }
    }

    /** The same for a group. */
    method ForgetGroup(id: Id, prevKey: NameKey, ghost before: map<Id, Group>, ghost index: map<NameKey, Id>)
      requires store.Valid() && UsersCoherent()
      requires RemembersGroups(groupById, groupByName, before, index)
      requires GroupNamesElsewhere(groupByName, index, before, id, prevKey)
      requires forall j :: j in before && j != id ==> j in store.groups && store.groups[j] == before[j]
      modifies this`groupById, this`groupByName
      ensures groupById == old(groupById) - {id} && groupByName == old(groupByName) - {prevKey}
      ensures Coherent()
    {
      groupById := groupById - {id};
      groupByName := groupByName - {prevKey};
      forall k | k in groupByName
        ensures k in store.groupIndex && store.groupIndex[k] == index[k]
      {
        assert store.groups[index[k]] == before[index[k]];
      }
    }

    /** In a coherent cache, every remembered pair other than the one of
        `id` belongs to another user. */
    lemma NamesOfOthers(id: Id)
      requires Coherent() && id in store.users
      ensures NamesElsewhere(userByName, store.userIndex, store.users, id, UserKey(store.users[id]))
    {
    }

    /** The same for groups. */
    lemma GroupNamesOfOthers(id: Id)
      requires Coherent() && id in store.groups
      ensures GroupNamesElsewhere(groupByName, store.groupIndex, store.groups, id, GroupKey(store.groups[id]))
    {
    }

    /** `update_user(id, ref)` through the identity API: on success the id
        key and the user's former (name, domain) key are invalidated, so the
        next reads return the updated user. */
    method UpdateUser(id: Id, patch: UserRef) returns (r: Result<UserView>, moved: bool)
      requires Coherent()
      modifies store`users, store`userIndex, this`userById, this`userByName
      ensures Coherent()
      ensures id !in old(store.users) ==> r == Err(UserNotFound(id))
      ensures id in old(store.users) ==> id in store.users
      ensures r.Err? ==> store.users == old(store.users)
      ensures r.Ok? ==> store.users == old(store.users)[id := store.users[id]] && r == store.GetUser(id)
    {
      if id !in store.users {
        return Err(UserNotFound(id)), false;
      }
      var prevKey := UserKey(store.users[id]);
      ghost var before, index := store.users, store.userIndex;
      NamesOfOthers(id);
      r, moved := store.UpdateUser(id, patch);
      if r.Ok? {
        ForgetUser(id, prevKey, before, index);
      }
    }

    /** `delete_user(id)` through the identity API: on success the id key
        and the user's (name, domain) key are invalidated. */
    method DeleteUser(id: Id) returns (r: Outcome)
      requires Coherent()
      modifies store`users, store`userIndex, store`members, store`federated, this`userById, this`userByName
      ensures Coherent()
      ensures id !in old(store.users) ==> r == Fail(UserNotFound(id)) && store.users == old(store.users)
      ensures id in old(store.users) ==> r == Pass && store.users == old(store.users) - {id}
    {
      if id !in store.users {
        return Fail(UserNotFound(id));
      }
      var prevKey := UserKey(store.users[id]);
      ghost var before, index := store.users, store.userIndex;
      NamesOfOthers(id);
      r := store.DeleteUser(id);
      ForgetUser(id, prevKey, before, index);
    }

    /** `update_group(id, ref)` through the identity API: on success the id
        key and the group's former (name, domain) key are invalidated. */
    method UpdateGroup(id: Id, patch: GroupRef) returns (r: Result<Group>, moved: bool)
      requires Coherent()
      modifies store`groups, store`groupIndex, this`groupById, this`groupByName
      ensures Coherent()
      ensures id !in old(store.groups) ==> r == Err(GroupNotFound(id))
      ensures r.Err? ==> store.groups == old(store.groups)
      ensures r.Ok? ==> id in store.groups && store.groups == old(store.groups)[id := store.groups[id]] && r == store.GetGroup(id)
    {
      if id !in store.groups {
        return Err(GroupNotFound(id)), false;
      }
      var prevKey := GroupKey(store.groups[id]);
      ghost var before, index := store.groups, store.groupIndex;
      GroupNamesOfOthers(id);
      r, moved := store.UpdateGroup(id, patch);
      if r.Ok? {
        ForgetGroup(id, prevKey, before, index);
      }
    }

    /** `delete_group(id)` through the identity API. */
    method DeleteGroup(id: Id) returns (r: Outcome)
      requires Coherent()
      modifies store`groups, store`groupIndex, store`members, this`groupById, this`groupByName
      ensures Coherent()
      ensures id !in old(store.groups) ==> r == Fail(GroupNotFound(id)) && store.groups == old(store.groups)
      ensures id in old(store.groups) ==> r == Pass && store.groups == old(store.groups) - {id}
    {
      if id !in store.groups {
        return Fail(GroupNotFound(id));
      }
      var prevKey := GroupKey(store.groups[id]);
      ghost var before, index := store.groups, store.groupIndex;
      GroupNamesOfOthers(id);
      r := store.DeleteGroup(id);
      ForgetGroup(id, prevKey, before, index);
    }
  }

  /** `test_cache_layer_get_user`: a user read through the cache survives a
      deletion made directly on the driver, and after `invalidate` the read
      raises UserNotFound. */
  method StaleUserAfterBypass(c: CachedIdentity, id: Id) returns (cached: Result<UserView>, stale: Result<UserView>, after: Result<UserView>)
    requires c.Coherent() && id in c.store.users
    modifies c, c.store
    ensures cached.Ok? && cached.value.id == id
    ensures stale == cached
    ensures after == Err(UserNotFound(id))
  {
    cached := c.GetUser(id);
    var _ := c.store.DeleteUser(id);
    stale := c.GetUser(id);
    c.InvalidateUser(id);
    after := c.GetUser(id);
  }

  /** `test_cache_layer_get_user_by_name`: the same for the (name, domain) key. */
  method StaleUserByNameAfterBypass(c: CachedIdentity, name: string, domainId: Id)
    returns (cached: Result<UserView>, stale: Result<UserView>, after: Result<UserView>)
    requires c.Coherent() && (name, domainId) in c.store.userIndex
    modifies c, c.store
    ensures cached.Ok? && cached.value.name == name && cached.value.domainId == domainId
    ensures stale == cached
    ensures after == Err(UserNotFound(name))
  {
    cached := c.GetUserByName(name, domainId);
    var _ := c.store.DeleteUser(cached.value.id);
    stale := c.GetUserByName(name, domainId);
    c.InvalidateUserByName(name, domainId);
    after := c.GetUserByName(name, domainId);
  }

  /** `test_cache_layer_group_crud`: the same for `get_group`. */
  method StaleGroupAfterBypass(c: CachedIdentity, id: Id) returns (cached: Result<Group>, stale: Result<Group>, after: Result<Group>)
    requires c.Coherent() && id in c.store.groups
    modifies c, c.store
    ensures cached.Ok? && cached.value.id == id
    ensures stale == cached
    ensures after == Err(GroupNotFound(id))
  {
    cached := c.GetGroup(id);
    var _ := c.store.DeleteGroup(id);
    stale := c.GetGroup(id);
    c.InvalidateGroup(id);
    after := c.GetGroup(id);
  }

  /** The second half of `test_cache_layer_get_user`: after a cached read,
      an update through the identity API is what the next reads return, by
      id and by the new (name, domain). */
  method FreshUserAfterUpdate(c: CachedIdentity, id: Id, patch: UserRef)
    returns (updated: Result<UserView>, byId: Result<UserView>, byName: Result<UserView>)
    requires c.Coherent() && id in c.store.users
    modifies c, c.store
    ensures updated.Ok? ==> byId == updated
    ensures updated.Ok? && id in c.store.users && Indexed(c.store.users[id]) ==> byName == updated
  {
    var _ := c.GetUser(id);
    var _ := c.GetUserByName(c.store.users[id].name, c.store.users[id].domainId);
    var moved;
    updated, moved := c.UpdateUser(id, patch);
    byId := c.GetUser(id);
    byName := c.GetUserByName(c.store.users[id].name, c.store.users[id].domainId);
  }

  /** The second half of `test_cache_layer_group_crud`: a group renamed
      through the identity API is read back renamed. */
  method FreshGroupAfterUpdate(c: CachedIdentity, id: Id, patch: GroupRef)
    returns (updated: Result<Group>, byId: Result<Group>)
    requires c.Coherent() && id in c.store.groups
    modifies c, c.store
    ensures updated.Ok? ==> byId == updated
  {
    var _ := c.GetGroup(id);
    var moved;
    updated, moved := c.UpdateGroup(id, patch);
    byId := c.GetGroup(id);
  }
}
