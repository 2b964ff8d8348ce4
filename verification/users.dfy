/** The user service: lookups that fail with NotFound, the public listing,
    the partial profile update, deletion and the per-user session count. */
module Users {
  import opened Wrappers
  import opened Clock
  import opened Accounts
  import Seqs

  const USER_NOT_FOUND: string := "Usuário não encontrado"

  datatype UsersError = NotFound(message: string)

  /** `findById`. */
  function FindById(st: Store, id: UserId): (r: Result<User, UsersError>)
    ensures r.Success? <==> id in st.users
    ensures r.Success? ==> r.value == st.users[id]
    ensures r.Failure? ==> r.error == NotFound(USER_NOT_FOUND)
  {
    if id in st.users then Success(st.users[id]) else Failure(NotFound(USER_NOT_FOUND))
  }

  /** `findByEmail`: the unique email column selects at most one user. */
  function FindByEmail(st: Store, email: string): (r: Result<User, UsersError>)
    requires UniqueEmails(st.users)
    ensures r.Success? <==> exists id :: id in st.users && st.users[id].email == email
    ensures r.Success? ==> r.value in st.users.Values && r.value.email == email
    ensures r.Failure? ==> r.error == NotFound(USER_NOT_FOUND)
  {
    match UserByEmail(st.users, email)
    case Some(u) => Success(u)
    case None => Failure(NotFound(USER_NOT_FOUND))
  }

  /** On a well-formed table, the user found by email is the one stored under its own id. */
  lemma FindByEmailAgreesWithFindById(st: Store, email: string)
    requires ValidUsers(st.users)
    ensures FindByEmail(st, email).Success? ==>
      FindById(st, FindByEmail(st, email).value.id) == FindByEmail(st, email)
    ensures forall id :: id in st.users && st.users[id].email == email ==>
      FindByEmail(st, email) == FindById(st, id)
  {
  }

  /** The columns `findAll` selects: the Google id is never exposed. */
  datatype PublicUser = PublicUser(id: UserId, email: string, name: Option<string>, picture: Option<string>,
                                   createdAt: Time, updatedAt: Time)

  function Project(u: User): PublicUser {
    PublicUser(u.id, u.email, u.name, u.picture, u.createdAt, u.updatedAt)
  }

  function Listing(users: map<UserId, User>): set<PublicUser> {
    set id | id in users :: Project(users[id])
  }

  /** `findAll`: every user, projected to its public columns. */
  function FindAll(st: Store): (r: set<PublicUser>)
    ensures forall id :: id in st.users ==> Project(st.users[id]) in r
    ensures forall p :: p in r ==> exists id :: id in st.users && Project(st.users[id]) == p
  {
    Listing(st.users)
  }

  /** Each user appears in the listing exactly once. */
  lemma {:induction false} ListingSize(users: map<UserId, User>)
    requires KeyedById(users)
    ensures |Listing(users)| == |users|
    decreases |users|
  {
    if |users| > 0 {
      var id :| id in users;
      var rest := users - {id};
      assert |rest| == |users| - 1;
      ListingSize(rest);
      forall p | p in Listing(users)
        ensures p in Listing(rest) + {Project(users[id])}
      {
        var k :| k in users && Project(users[k]) == p;
        if k != id {
          assert k in rest && Project(rest[k]) == p;
        }
      }
      assert Listing(users) == Listing(rest) + {Project(users[id])};
      assert Project(users[id]) !in Listing(rest);
    } else {
      assert Listing(users) == {};
    }
  }

  /** On a well-formed table, `findAll` lists exactly as many entries as there are users. */
  lemma FindAllListsEveryUserOnce(st: Store)
    requires KeyedById(st.users)
    ensures |FindAll(st)| == |st.users|
    ensures forall p :: p in FindAll(st) ==> p.id in st.users && Project(st.users[p.id]) == p
  {
    ListingSize(st.users);
  }

  datatype Outcome = Outcome(store: Store, result: Result<User, UsersError>)

  /** `update`: overwrite the supplied name/picture and stamp `updatedAt`,
      then re-read with `findById`; an unknown id updates no row and ends in
      NotFound. */
  function Update(st: Store, id: UserId, name: Option<string>, picture: Option<string>, now: Time): (r: Outcome)
    ensures r.store.sessions == st.sessions
    ensures r.result == FindById(r.store, id)
    ensures id !in st.users ==> r.store == st && r.result.Failure?
    ensures id in st.users ==>
      && r.store.users.Keys == st.users.Keys
      && (forall other :: other in st.users && other != id ==> r.store.users[other] == st.users[other])
      && r.result.Success?
      && r.result.value.id == st.users[id].id
      && r.result.value.email == st.users[id].email
      && r.result.value.googleId == st.users[id].googleId
      && r.result.value.createdAt == st.users[id].createdAt
      && r.result.value.name == Patch(st.users[id].name, name)
      && r.result.value.picture == Patch(st.users[id].picture, picture)
      && r.result.value.updatedAt == now
  {
    var users := if id in st.users then
      var u := st.users[id];
      st.users[id := u.(name := Patch(u.name, name), picture := Patch(u.picture, picture), updatedAt := now)]
    else st.users;
    var st' := st.(users := users);
    Outcome(st', FindById(st', id))
  }

  /** The profile update leaves the unique columns alone, so the table stays well formed. */
  lemma UpdatePreservesValid(st: Store, id: UserId, name: Option<string>, picture: Option<string>, now: Time)
    requires ValidUsers(st.users)
    ensures ValidUsers(Update(st, id, name, picture, now).store.users)
  {
  }

  /** `delete`: NotFound and no change for an unknown id; otherwise the row
      is removed and returned as it was. Session rows are not touched here. */
  function Delete(st: Store, id: UserId): (r: Outcome)
    ensures id !in st.users ==> r.store == st && r.result == Failure(NotFound(USER_NOT_FOUND))
    ensures id in st.users ==> r.result == Success(st.users[id])
    ensures r.store.users.Keys == st.users.Keys - {id}
    ensures forall other :: other in r.store.users ==> r.store.users[other] == st.users[other]
    ensures r.store.sessions == st.sessions
  {
    if id !in st.users then Outcome(st, Failure(NotFound(USER_NOT_FOUND)))
    else Outcome(st.(users := st.users - {id}), Success(st.users[id]))
  }

  /** Removing a row keeps the remaining rows' unique columns unique; a
      deleted user can no longer be found. */
  lemma DeletePreservesValid(st: Store, id: UserId)
    requires ValidUsers(st.users)
    ensures ValidUsers(Delete(st, id).store.users)
    ensures FindById(Delete(st, id).store, id).Failure?
  {
  }

  datatype UserStats = UserStats(id: UserId, email: string, name: Option<string>, picture: Option<string>,
                                 createdAt: Time, updatedAt: Time, activeSessions: nat)

  /** `getUserStats`: the public profile plus how many of the user's sessions
      expire strictly after `now`. */
  function GetUserStats(st: Store, id: UserId, now: Time): (r: Result<UserStats, UsersError>)
    ensures r.Failure? <==> id !in st.users
    ensures r.Failure? ==> r.error == NotFound(USER_NOT_FOUND)
    ensures r.Success? ==>
      && r.value == UserStats(id, st.users[id].email, st.users[id].name, st.users[id].picture,
                              st.users[id].createdAt, st.users[id].updatedAt, r.value.activeSessions)
      && r.value.activeSessions == Seqs.Count(st.sessions, LiveOwnedBy(id, now))
      && r.value.activeSessions <= Seqs.Count(st.sessions, OwnedBy(id))
      && (r.value.activeSessions == 0 <==> forall s :: s in st.sessions && s.userId == id ==> s.expiresAt <= now)
  {
    if id !in st.users then Failure(NotFound(USER_NOT_FOUND))
    else
      var u := st.users[id];
      var active := Seqs.Count(st.sessions, LiveOwnedBy(id, now));
      Seqs.CountMonotonic(st.sessions, LiveOwnedBy(id, now), OwnedBy(id));
      Seqs.CountZero(st.sessions, LiveOwnedBy(id, now));
      Success(UserStats(id, u.email, u.name, u.picture, u.createdAt, u.updatedAt, active))
  }
}
