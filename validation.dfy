/** Field rules applied to the dictionaries passed to create and update:
    name and `enabled` validation, group-name stripping, and how a create
    request becomes a record and an update request is merged into one. */
module Validation {
  import opened IdentityTypes

  /** Longest accepted user or group name (a name of 256 characters is refused). */
  const MaxNameLength: nat := 255

  /** A name must be a string of 1 to 255 characters: `None`, `123`, `''`
      and `'a' * 256` are all refused. */
  predicate ValidName(v: Value)
  {
    v.Str? && 1 <= |v.s| <= MaxNameLength
  }

  /** `enabled` must be a boolean; Python integers are booleans too, the
      string `'true'` is not. */
  predicate ValidEnabled(v: Value)
  {
    v.Bool? || v.Int?
  }

  /** Python's truth value of an accepted `enabled`: 0 is false and every
      other integer, negative ones included, is exactly `True`. */
  function CoerceEnabled(v: Value): (b: bool)
    requires ValidEnabled(v)
    ensures v.Bool? ==> b == v.b
    ensures v.Int? ==> (b <==> v.i != 0)
  {
    match v
    case Bool(x) => x
    case Int(i) => i != 0
  }

  // ---------------------------------------------------------------------
  // str.strip()

  /** The characters Python 3's `str.strip()` removes: those `str.isspace()`
      accepts, i.e. tab to carriage return, the four ASCII separators
      U+001C to U+001F, space, U+0085, no-break space, and the Unicode space
      separators, line and paragraph separators. */
  predicate IsSpace(c: char)
  {
    || '\t' <= c <= '\r'
    || '\U{1C}' <= c <= '\U{1F}'
    || c == ' ' || c == '\U{85}' || c == '\U{A0}' || c == '\U{1680}'
    || '\U{2000}' <= c <= '\U{200A}'
    || c == '\U{2028}' || c == '\U{2029}' || c == '\U{202F}' || c == '\U{205F}' || c == '\U{3000}'
  }

  predicate AllSpace(s: string)
  {
    forall i :: 0 <= i < |s| ==> IsSpace(s[i])
  }

  /** Neither end of `s` is whitespace. */
  predicate Trimmed(s: string)
  {
    s == [] || (!IsSpace(s[0]) && !IsSpace(s[|s| - 1]))
  }

  function TrimLeft(s: string): (r: string)
    ensures |r| <= |s| && r == s[|s| - |r|..]
    ensures r == [] || !IsSpace(r[0])
    ensures AllSpace(s[..|s| - |r|])
  {
    if s != [] && IsSpace(s[0]) then
      var r := TrimLeft(s[1..]);
      assert s[..|s| - |r|] == [s[0]] + s[1..][..|s| - 1 - |r|];
      r
    else s
  }

  function TrimRight(s: string): (r: string)
    ensures |r| <= |s| && r == s[..|r|]
    ensures r == [] || !IsSpace(r[|r| - 1])
    ensures AllSpace(s[|r|..])
  {
    if s != [] && IsSpace(s[|s| - 1]) then
      var r := TrimRight(s[..|s| - 1]);
      assert s[|r|..] == s[..|s| - 1][|r|..] + [s[|s| - 1]];
      r
    else s
  }

  /** `s` is `r` with whitespace on either side. */
  ghost predicate PaddedBy(s: string, r: string)
  {
    exists i :: 0 <= i <= |s| - |r| && s[i..i + |r|] == r && AllSpace(s[..i]) && AllSpace(s[i + |r|..])
  }

  /** `s.strip()`: `s` without its leading and trailing whitespace. */
  function Strip(s: string): (r: string)
    ensures Trimmed(r)
    ensures PaddedBy(s, r)
  {
    TrimBothSides(s);
    TrimRight(TrimLeft(s))
  }

  /** Trimming the left and then the right leaves a middle slice of `s`
      with no whitespace at its ends and only whitespace around it. */
  lemma TrimBothSides(s: string)
    ensures Trimmed(TrimRight(TrimLeft(s)))
    ensures PaddedBy(s, TrimRight(TrimLeft(s)))
  {
    var l := TrimLeft(s);
    var r := TrimRight(l);
    assert r != [] ==> r[0] == l[0];
    MiddleSlice(s, l, r);
  }

  /** A prefix `r` of a suffix `l` of `s`, where only whitespace was cut off
      on either side, is `s` padded by whitespace. */
  lemma MiddleSlice(s: string, l: string, r: string)
    requires |l| <= |s| && l == s[|s| - |l|..] && AllSpace(s[..|s| - |l|])
    requires |r| <= |l| && r == l[..|r|] && AllSpace(l[|r|..])
    ensures PaddedBy(s, r)
  {
    var i := |s| - |l|;
    assert s[i + |r|..] == l[|r|..];
    assert s[i..i + |r|] == r;
  }

  lemma {:induction false} TrimLeftSkipsPadding(p: string, t: string)
    requires AllSpace(p)
    requires t == [] || !IsSpace(t[0])
    ensures TrimLeft(p + t) == t
  {
    if p != [] {
      assert (p + t)[1..] == p[1..] + t;
      TrimLeftSkipsPadding(p[1..], t);
    } else {
      assert p + t == t;
    }
  }

  lemma {:induction false} TrimRightSkipsPadding(t: string, q: string)
    requires AllSpace(q)
    requires t == [] || !IsSpace(t[|t| - 1])
    ensures TrimRight(t + q) == t
  {
    if q != [] {
      assert (t + q)[..|t + q| - 1] == t + q[..|q| - 1];
      TrimRightSkipsPadding(t, q[..|q| - 1]);
    } else {
      assert t + q == t;
    }
  }

  /** A name padded with whitespace on both sides strips back to the name:
      `(name + '    ').strip() == name` for any name without border whitespace. */
  lemma StripRemovesPadding(p: string, name: string, q: string)
    requires AllSpace(p) && AllSpace(q) && Trimmed(name)
    ensures Strip(p + name + q) == name
  {
    if name == [] {
      assert AllSpace(p + q);
      TrimLeftSkipsPadding(p + q, []);
      assert p + name + q == (p + q) + [];
    } else {
      assert p + name + q == p + (name + q);
      TrimLeftSkipsPadding(p, name + q);
      TrimRightSkipsPadding(name, q);
    }
  }

  /** Non-space separators such as U+001C and the no-break space are
      stripped like a blank: `'\x1ca\xa0'.strip() == 'a'`. */
  lemma StripSeparatorsExample()
    ensures Strip("\U{1C}a\U{A0}") == "a"
  {
    assert "\U{1C}a\U{A0}" == "\U{1C}" + "a" + "\U{A0}";
    StripRemovesPadding("\U{1C}", "a", "\U{A0}");
  }

  /** Stripping twice is stripping once. */
  lemma StripIdempotent(s: string)
    ensures Strip(Strip(s)) == Strip(s)
  {
    StripKeepsTrimmed(Strip(s));
  }

  /** A name without border whitespace strips to itself. */
  lemma StripKeepsTrimmed(r: string)
    requires Trimmed(r)
    ensures TrimRight(TrimLeft(r)) == r
  {
    assert [] + r == r && r + [] == r;
    TrimLeftSkipsPadding([], r);
    TrimRightSkipsPadding(r, []);
  }

  // ---------------------------------------------------------------------
  // Create and update requests

  /** What `create_user` demands of its dictionary. */
  predicate ValidUserRef(ref: UserRef)
  {
    ref.name.Some? && ValidName(ref.name.value) && (ref.enabled.None? || ValidEnabled(ref.enabled.value))
  }

  /** The stored value of `enabled` for a create request: true when absent. */
  function CreatedEnabled(ref: UserRef): bool
    requires ref.enabled.None? || ValidEnabled(ref.enabled.value)
  {
    if ref.enabled.None? then true else CoerceEnabled(ref.enabled.value)
  }

  /** A read of the created user returns every field of the request except the
      password (and except `id`, which the store assigns). */
  predicate RoundTrips(ref: UserRef, v: UserView, defaultDomain: Id)
  {
    && ref.name.Some? && ref.name.value.Str? && v.name == ref.name.value.s
    && v.domainId == (if ref.domainId.Some? then ref.domainId.value else defaultDomain)
    && (ref.enabled.None? ==> v.enabled)
    && (ref.enabled.Some? && ValidEnabled(ref.enabled.value) ==> v.enabled == CoerceEnabled(ref.enabled.value))
    && v.extra == ref.extra
  }

  /** The record a create request produces under id `id`. */
  function NewUser(ref: UserRef, id: Id, defaultDomain: Id, origin: Origin): (r: Result<User>)
    ensures r.Ok? <==> ValidUserRef(ref)
    ensures r.Err? ==> r.error == ValidationError
    ensures r.Ok? ==> r.value.id == id && r.value.origin == origin && ValidName(Str(r.value.name))
    ensures r.Ok? && origin.Local? ==> r.value.password == ref.password
    ensures r.Ok? && !origin.Local? ==> r.value.password.None?
    ensures r.Ok? ==> RoundTrips(ref, View(r.value), defaultDomain)
  {
    if !ValidUserRef(ref) then Err(ValidationError)
    else
      var domain := if ref.domainId.Some? then ref.domainId.value else defaultDomain;
      var password := if origin.Local? then ref.password else None;
      Ok(User(id, ref.name.value.s, domain, CreatedEnabled(ref), password, ref.extra, origin))
  }

  /** The dictionary with no keys at all. */
  const EmptyUserPatch := UserRef(None, None, None, None, None, map[])

  /** Why `update_user` refuses a dictionary outright: it tries to change the
      id, or carries an invalid name or `enabled`. */
  predicate BadUserPatch(prev: User, patch: UserRef)
  {
    || (patch.id.Some? && patch.id.value != prev.id)
    || (patch.name.Some? && !ValidName(patch.name.value))
    || (patch.enabled.Some? && !ValidEnabled(patch.enabled.value))
  }

  /** Attributes of `prev` the patch does not mention survive; attributes the
      patch mentions take the patch's value. */
  predicate MergedExtra(prev: Extra, patch: Extra, merged: Extra)
  {
    && merged.Keys == prev.Keys + patch.Keys
    && (forall k :: k in patch ==> merged[k] == patch[k])
    && (forall k :: k in prev && k !in patch ==> merged[k] == prev[k])
  }

  /** The record an update request produces from the stored one: only the
      keys present change; `id` and how the user was created never do. */
  function PatchUser(prev: User, patch: UserRef): (r: Result<User>)
    ensures r.Err? <==> BadUserPatch(prev, patch)
    ensures r.Err? ==> r.error == ValidationError
    ensures r.Ok? ==> r.value.id == prev.id && r.value.origin == prev.origin
    ensures r.Ok? ==> r.value.name == (if patch.name.Some? then patch.name.value.s else prev.name)
    ensures r.Ok? ==> r.value.domainId == (if patch.domainId.Some? then patch.domainId.value else prev.domainId)
    ensures r.Ok? && patch.enabled.None? ==> r.value.enabled == prev.enabled
    ensures r.Ok? && patch.enabled.Some? ==> r.value.enabled == CoerceEnabled(patch.enabled.value)
    ensures r.Ok? && patch.password.None? ==> r.value.password == prev.password
    ensures r.Ok? && patch.password.Some? ==> r.value.password == patch.password
    ensures r.Ok? ==> MergedExtra(prev.extra, patch.extra, r.value.extra)
  {
    if BadUserPatch(prev, patch) then Err(ValidationError)
    else
      Ok(User(
        prev.id,
        if patch.name.Some? then patch.name.value.s else prev.name,
        if patch.domainId.Some? then patch.domainId.value else prev.domainId,
        if patch.enabled.Some? then CoerceEnabled(patch.enabled.value) else prev.enabled,
        if patch.password.Some? then patch.password else prev.password,
        prev.extra + patch.extra,
        prev.origin))
  }

  /** Updating with an empty dictionary changes nothing. */
  lemma EmptyPatchKeepsUser(u: User)
    ensures PatchUser(u, EmptyUserPatch) == Ok(u)
  {
    assert u.extra + map[] == u.extra;
  }

  /** What `create_group` demands: a string name that is valid once stripped. */
  predicate ValidGroupName(v: Value)
  {
    v.Str? && ValidName(Str(Strip(v.s)))
  }

  /** The record a create request produces for a group under id `id`; the
      name is stored stripped. */
  function NewGroup(ref: GroupRef, id: Id, defaultDomain: Id): (r: Result<Group>)
    ensures r.Ok? <==> ref.name.Some? && ValidGroupName(ref.name.value)
    ensures r.Err? ==> r.error == ValidationError
    ensures r.Ok? ==> r.value.id == id && Trimmed(r.value.name) && PaddedBy(ref.name.value.s, r.value.name)
    ensures r.Ok? ==> r.value.domainId == (if ref.domainId.Some? then ref.domainId.value else defaultDomain)
    ensures r.Ok? ==> r.value.extra == ref.extra
  {
    if ref.name.None? || !ValidGroupName(ref.name.value) then Err(ValidationError)
    else
      var domain := if ref.domainId.Some? then ref.domainId.value else defaultDomain;
      Ok(Group(id, Strip(ref.name.value.s), domain, ref.extra))
  }

  predicate BadGroupPatch(prev: Group, patch: GroupRef)
  {
    || (patch.id.Some? && patch.id.value != prev.id)
    || (patch.name.Some? && !ValidGroupName(patch.name.value))
  }

  /** The record an update request produces from the stored group; a new
      name is stored stripped. */
  function PatchGroup(prev: Group, patch: GroupRef): (r: Result<Group>)
    ensures r.Err? <==> BadGroupPatch(prev, patch)
    ensures r.Err? ==> r.error == ValidationError
    ensures r.Ok? ==> r.value.id == prev.id
    ensures r.Ok? && patch.name.None? ==> r.value.name == prev.name
    ensures r.Ok? && patch.name.Some? ==> Trimmed(r.value.name) && PaddedBy(patch.name.value.s, r.value.name)
    ensures r.Ok? ==> r.value.domainId == (if patch.domainId.Some? then patch.domainId.value else prev.domainId)
    ensures r.Ok? ==> MergedExtra(prev.extra, patch.extra, r.value.extra)
  {
    if BadGroupPatch(prev, patch) then Err(ValidationError)
    else
      Ok(Group(
        prev.id,
        if patch.name.Some? then Strip(patch.name.value.s) else prev.name,
        if patch.domainId.Some? then patch.domainId.value else prev.domainId,
        prev.extra + patch.extra))
  }
}
