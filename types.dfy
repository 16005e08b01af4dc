/** Values shared by the whole identity model: the records the store keeps,
    the projections it hands back, the request dictionaries it accepts and
    the errors it raises. */
module IdentityTypes {

  datatype Option<+T> = None | Some(value: T)

  /** The exceptions the identity API raises. `Unauthorized` is the failed
      password check of `authenticate`; it carries nothing, so it cannot
      reveal whether the user exists. */
  datatype Error =
    | ValidationError
    | Conflict
    | UserNotFound(userId: Id)
    | GroupNotFound(groupId: Id)
    | NotFound
    | Unauthorized

  /** `exception.NotFound` and its refinements. */
  predicate IsNotFound(e: Error)
  {
    e.UserNotFound? || e.GroupNotFound? || e.NotFound?
  }

  datatype Result<+T> = Ok(value: T) | Err(error: Error)

  /** The result of an operation that returns nothing on success. */
  datatype Outcome = Pass | Fail(error: Error)

  type Id = string

  /** A loosely typed request value, as the API receives it in a dictionary. */
  datatype Value = Str(s: string) | Int(i: int) | Bool(b: bool) | Null

  /** The open mapping of attributes outside the canonical schema. */
  type Extra = map<string, Value>

  /** (name, domain id): the pair that must be unique among users, and among groups. */
  type NameKey = (string, Id)

  /** How a user record came to exist: through `create_user`, through
      `create_nonlocal_user` (no local credential), or as the shadow of a
      federated identity. */
  datatype Origin = Local | Nonlocal | Federated

  datatype User = User(
    id: Id,
    name: string,
    domainId: Id,
    enabled: bool,
    password: Option<string>,
    extra: Extra,
    origin: Origin)

  /** What a read returns for a user: every stored field except the password. */
  datatype UserView = UserView(id: Id, name: string, domainId: Id, enabled: bool, extra: Extra)

  datatype Group = Group(id: Id, name: string, domainId: Id, extra: Extra)

  /** A user dictionary passed to create or update; `None` means the key is absent. */
  datatype UserRef = UserRef(
    id: Option<Id>,
    name: Option<Value>,
    domainId: Option<Id>,
    enabled: Option<Value>,
    password: Option<string>,
    extra: Extra)

  /** A group dictionary passed to create or update; `None` means the key is absent. */
  datatype GroupRef = GroupRef(id: Option<Id>, name: Option<Value>, domainId: Option<Id>, extra: Extra)

  function View(u: User): UserView
  {
    UserView(u.id, u.name, u.domainId, u.enabled, u.extra)
  }

  function UserKey(u: User): NameKey
  {
    (u.name, u.domainId)
  }

  function GroupKey(g: Group): NameKey
  {
    (g.name, g.domainId)
  }

  /** Shadow users of federated identities are not subject to the per-domain
      name constraint; every other user is. */
  predicate Indexed(u: User)
  {
    !u.origin.Federated?
  }
}
