/** The user-group membership relation as a set of (user id, group id) rows,
    and how adding, removing and cascading deletes change what each user and
    each group sees. */
module Membership {
  import opened IdentityTypes
  import opened Listing

  /** One membership row: (user id, group id). */
  type Row = (Id, Id)

  /** The ids of the groups `u` belongs to (what `list_groups_for_user` lists). */
  function GroupsOf(m: set<Row>, u: Id): (gs: set<Id>)
    ensures forall g :: g in gs <==> (u, g) in m
  {
    set r | r in m && r.0 == u :: r.1
  }

  /** The ids of the members of `g` (what `list_users_in_group` lists). */
  function UsersIn(m: set<Row>, g: Id): (us: set<Id>)
    ensures forall u :: u in us <==> (u, g) in m
  {
    set r | r in m && r.1 == g :: r.0
  }

  /** The rows left after deleting user `u`. */
  function DropUser(m: set<Row>, u: Id): (m': set<Row>)
    ensures forall r :: r in m' <==> r in m && r.0 != u
  {
    set r | r in m && r.0 != u
  }

  /** The rows left after deleting group `g`. */
  function DropGroup(m: set<Row>, g: Id): (m': set<Row>)
    ensures forall r :: r in m' <==> r in m && r.1 != g
  {
    set r | r in m && r.1 != g
  }

  /** Adding `u` to a group it is not yet in raises its group count by one
      and leaves every other user's groups as they were. */
  lemma {:induction false} AddRaisesCount(m: set<Row>, u: Id, g: Id, other: Id)
    requires (u, g) !in m
    ensures |GroupsOf(m + {(u, g)}, u)| == |GroupsOf(m, u)| + 1
    ensures other != u ==> GroupsOf(m + {(u, g)}, other) == GroupsOf(m, other)
  {
    assert GroupsOf(m + {(u, g)}, u) == GroupsOf(m, u) + {g};
    assert g !in GroupsOf(m, u);
  }

  /** Removing `u` from a group it is in lowers its group count by one and
      leaves every other user's groups as they were. */
  lemma {:induction false} RemoveLowersCount(m: set<Row>, u: Id, g: Id, other: Id)
    requires (u, g) in m
    ensures |GroupsOf(m - {(u, g)}, u)| == |GroupsOf(m, u)| - 1
    ensures other != u ==> GroupsOf(m - {(u, g)}, other) == GroupsOf(m, other)
  {
    assert GroupsOf(m - {(u, g)}, u) == GroupsOf(m, u) - {g};
    assert g in GroupsOf(m, u);
  }

  /** The rows that put `u` into each group of `gs`. */
  function Rows(u: Id, gs: seq<Id>): (rs: set<Row>)
    ensures forall r :: r in rs <==> r.0 == u && r.1 in gs
  {
    set g | g in gs :: (u, g)
  }

  /** One more group of the run: the rows of `gs[..i + 1]` are those of
      `gs[..i]` and the row for `gs[i]`. */
  lemma RowsStep(m: set<Row>, u: Id, gs: seq<Id>, i: nat)
    requires i < |gs|
    ensures m + Rows(u, gs[..i + 1]) == (m + Rows(u, gs[..i])) + {(u, gs[i])}
    ensures m - Rows(u, gs[..i + 1]) == (m - Rows(u, gs[..i])) - {(u, gs[i])}
    ensures Distinct(gs) ==> gs[i] !in gs[..i]
  {
    assert gs[..i + 1] == gs[..i] + [gs[i]];
  }

  /** Adding `u` to a run of distinct groups it is not yet in raises its
      group count by the length of the run and leaves every other user's
      groups as they were. */
  lemma {:induction false} AddAllRaisesCount(m: set<Row>, u: Id, gs: seq<Id>)
    requires Distinct(gs)
    requires forall g :: g in gs ==> (u, g) !in m
    ensures forall g :: g in GroupsOf(m + Rows(u, gs), u) <==> g in GroupsOf(m, u) || g in gs
    ensures |GroupsOf(m + Rows(u, gs), u)| == |GroupsOf(m, u)| + |gs|
    ensures forall other :: other != u ==> GroupsOf(m + Rows(u, gs), other) == GroupsOf(m, other)
  {
    if gs == [] {
      assert m + Rows(u, gs) == m;
    } else {
      var init, last := gs[..|gs| - 1], gs[|gs| - 1];
      assert gs == init + [last];
      assert Distinct(init);
      assert last !in init;
      AddAllRaisesCount(m, u, init);
      var before := m + Rows(u, init);
      assert m + Rows(u, gs) == before + {(u, last)};
      AddRaisesCount(before, u, last, u);
      forall other | other != u
        ensures GroupsOf(m + Rows(u, gs), other) == GroupsOf(m, other)
      {
        AddRaisesCount(before, u, last, other);
      }
    }
  }

  /** Removing `u` from a run of distinct groups it is in lowers its group
      count by the length of the run and leaves every other user's groups as
      they were. */
  lemma {:induction false} RemoveAllLowersCount(m: set<Row>, u: Id, gs: seq<Id>)
    requires Distinct(gs)
    requires forall g :: g in gs ==> (u, g) in m
    ensures forall g :: g in GroupsOf(m - Rows(u, gs), u) <==> g in GroupsOf(m, u) && g !in gs
    ensures |GroupsOf(m - Rows(u, gs), u)| == |GroupsOf(m, u)| - |gs|
    ensures forall other :: other != u ==> GroupsOf(m - Rows(u, gs), other) == GroupsOf(m, other)
  {
    if gs == [] {
      assert m - Rows(u, gs) == m;
    } else {
      var init, last := gs[..|gs| - 1], gs[|gs| - 1];
      assert gs == init + [last];
      assert Distinct(init);
      assert last !in init;
      RemoveAllLowersCount(m, u, init);
      var before := m - Rows(u, init);
      assert m - Rows(u, gs) == before - {(u, last)};
      RemoveLowersCount(before, u, last, u);
      forall other | other != u
        ensures GroupsOf(m - Rows(u, gs), other) == GroupsOf(m, other)
      {
        RemoveLowersCount(before, u, last, other);
      }
    }
  }

  /** After the cascade of deleting `u`, `u` is in no group, and each group
      has lost `u` and nobody else. */
  lemma {:induction false} DropUserCascade(m: set<Row>, u: Id, g: Id)
    ensures GroupsOf(DropUser(m, u), u) == {}
    ensures UsersIn(DropUser(m, u), g) == UsersIn(m, g) - {u}
  {
    var m' := DropUser(m, u);
    assert forall x :: x !in GroupsOf(m', u);
    assert forall v :: v in UsersIn(m', g) <==> v in UsersIn(m, g) - {u};
  }

  /** After the cascade of deleting `g`, `g` has no members, and each user
      has lost `g` and no other group. */
  lemma {:induction false} DropGroupCascade(m: set<Row>, g: Id, u: Id)
    ensures UsersIn(DropGroup(m, g), g) == {}
    ensures GroupsOf(DropGroup(m, g), u) == GroupsOf(m, u) - {g}
  {
    var m' := DropGroup(m, g);
    assert forall x :: x !in UsersIn(m', g);
    assert forall h :: h in GroupsOf(m', u) <==> h in GroupsOf(m, u) - {g};
  }
}
