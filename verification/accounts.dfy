/** The persisted records shared by the authentication and user services:
    the `users` table, keyed by id, and the session rows. The store's unique
    columns (`email`, `googleId`) are stated as the predicate `ValidUsers`. */
module Accounts {
  import opened Wrappers
  import opened Clock
  import Seqs

  type UserId = string

  /** A `users` row; `name` and `picture` are nullable columns. */
  datatype User = User(id: UserId, email: string, name: Option<string>, picture: Option<string>,
                       googleId: string, createdAt: Time, updatedAt: Time)

  /** A session row: the bearer token, its owner and its absolute expiry. */
  datatype Session = Session(userId: UserId, token: string, expiresAt: Time)

  datatype Store = Store(users: map<UserId, User>, sessions: seq<Session>)

  predicate KeyedById(users: map<UserId, User>) {
    forall id :: id in users ==> users[id].id == id
  }

  predicate UniqueEmails(users: map<UserId, User>) {
    forall a, b :: a in users && b in users && users[a].email == users[b].email ==> a == b
  }

  predicate UniqueGoogleIds(users: map<UserId, User>) {
    forall a, b :: a in users && b in users && users[a].googleId == users[b].googleId ==> a == b
  }

  /** The invariant the table's primary key and unique columns maintain. */
  predicate ValidUsers(users: map<UserId, User>) {
    KeyedById(users) && UniqueEmails(users) && UniqueGoogleIds(users)
  }

  /** Writing a row under its own id keeps the table valid when no other row
      holds its email or its Google id. */
  lemma PutKeepsValid(users: map<UserId, User>, u: User)
    requires ValidUsers(users)
    requires forall id :: id in users && id != u.id ==> users[id].email != u.email && users[id].googleId != u.googleId
    ensures ValidUsers(users[u.id := u])
  {
  }

  /** `findOne({ where: { googleId } })`: the unique column pins down at most one row. */
  function UserByGoogleId(users: map<UserId, User>, googleId: string): (r: Option<User>)
    requires UniqueGoogleIds(users)
    ensures r.Some? <==> exists id :: id in users && users[id].googleId == googleId
    ensures r.Some? ==> r.value in users.Values && r.value.googleId == googleId
  {
    if exists id :: id in users && users[id].googleId == googleId then
      var id :| id in users && users[id].googleId == googleId;
      Some(users[id])
    else None
  }

  /** `findOne({ where: { email } })`. */
  function UserByEmail(users: map<UserId, User>, email: string): (r: Option<User>)
    requires UniqueEmails(users)
    ensures r.Some? <==> exists id :: id in users && users[id].email == email
    ensures r.Some? ==> r.value in users.Values && r.value.email == email
  {
    if exists id :: id in users && users[id].email == email then
      var id :| id in users && users[id].email == email;
      Some(users[id])
    else None
  }

  /** The `session.user` relation: null once the owning row is gone. */
  function UserOf(users: map<UserId, User>, id: UserId): Option<User>
  {
    if id in users then Some(users[id]) else None
  }

  /** A partial update through the ORM skips fields left undefined: a supplied
      value replaces the column, a missing one keeps it. */
  function Patch(current: Option<string>, supplied: Option<string>): Option<string>
  {
    if supplied.Some? then supplied else current
  }

  function WithToken(token: string): Session -> bool {
    (s: Session) => s.token == token
  }

  function WithoutToken(token: string): Session -> bool {
    (s: Session) => s.token != token
  }

  function ExpiredBefore(now: Time): Session -> bool {
    (s: Session) => s.expiresAt < now
  }

  function NotExpiredBefore(now: Time): Session -> bool {
    (s: Session) => s.expiresAt >= now
  }

  function OwnedBy(id: UserId): Session -> bool {
    (s: Session) => s.userId == id
  }

  function LiveOwnedBy(id: UserId, now: Time): Session -> bool {
    (s: Session) => s.userId == id && s.expiresAt > now
  }

  /** `findOne` over the session rows: the first row matching the filter. */
  function FindSession(sessions: seq<Session>, filter: Session -> bool): (r: Option<Session>)
    ensures r.Some? ==> r.value in sessions && filter(r.value)
    ensures r.None? <==> forall s :: s in sessions ==> !filter(s)
  {
    var matches := Seqs.Filter(sessions, filter);
    if |matches| == 0 then None else Some(matches[0])
  }
}
