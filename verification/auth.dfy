/** The authentication service: upsert of a Google user, issue of a signed
    bearer token backed by a session row, validation, logout and the sweep
    of expired sessions.

    The JWT library is abstract: `sign` maps the claims and the signing
    instant to a token, `verify` says whether a token's signature (and the
    expiry claim inside it) is accepted. */
module Auth {
  import opened Wrappers
  import opened Clock
  import opened Accounts
  import Seqs

  /** Sessions live 24 hours from issue. */
  const SESSION_TTL: int := DAY_MS

  const INVALID_TOKEN: string := "Token inválido"

  /** Every validation failure surfaces as this one exception. */
  datatype AuthError = Unauthorized(message: string)

  /** A rejected write: the store's unique constraint on a column. */
  datatype StoreError = UniqueViolation(column: string)

  /** The claims the identity provider hands over after the OAuth exchange. */
  datatype GoogleProfile = GoogleProfile(googleId: string, email: string, name: Option<string>, picture: Option<string>)

  datatype Resolved = Resolved(store: Store, user: User)

  /** Some user other than the one with this Google id already owns the email. */
  predicate EmailOwnedElsewhere(users: map<UserId, User>, email: string, googleId: string) {
    exists id :: id in users && users[id].email == email && users[id].googleId != googleId
  }

  /** `validateGoogleUser`: find the user by Google id; insert it under the
      freshly generated id `freshId` if unseen, otherwise overwrite its email
      and the supplied name/picture and re-read it. The insert or update is
      refused by the store when another user already owns the email. */
  function ValidateGoogleUser(st: Store, profile: GoogleProfile, freshId: UserId, now: Time): (r: Result<Resolved, StoreError>)
    requires ValidUsers(st.users)
    requires freshId !in st.users
    ensures r.Failure? <==> EmailOwnedElsewhere(st.users, profile.email, profile.googleId)
    ensures r.Success? ==> ValidUsers(r.value.store.users) && r.value.store.sessions == st.sessions
    ensures r.Success? ==>
      var u := r.value.user;
      && u.id in r.value.store.users && r.value.store.users[u.id] == u
      && u.googleId == profile.googleId && u.email == profile.email
      && r.value.store.users.Keys == st.users.Keys + {u.id}
      && (forall id :: id in st.users && id != u.id ==> r.value.store.users[id] == st.users[id])
    ensures r.Success? && UserByGoogleId(st.users, profile.googleId).None? ==>
      r.value.user == User(freshId, profile.email, profile.name, profile.picture, profile.googleId, now, now)
    ensures r.Success? && UserByGoogleId(st.users, profile.googleId).Some? ==>
      var known := UserByGoogleId(st.users, profile.googleId).value;
      r.value.user == known.(email := profile.email, name := Patch(known.name, profile.name),
                            picture := Patch(known.picture, profile.picture), updatedAt := now)
  {
    match UserByGoogleId(st.users, profile.googleId)
    case None =>
      if EmailOwnedElsewhere(st.users, profile.email, profile.googleId) then Failure(UniqueViolation("email"))
      else
        var u := User(freshId, profile.email, profile.name, profile.picture, profile.googleId, now, now);
        PutKeepsValid(st.users, u);
        Success(Resolved(st.(users := st.users[freshId := u]), u))
    case Some(known) =>
      if EmailOwnedElsewhere(st.users, profile.email, profile.googleId) then Failure(UniqueViolation("email"))
      else
        var u := known.(email := profile.email, name := Patch(known.name, profile.name),
                        picture := Patch(known.picture, profile.picture), updatedAt := now);
        PutKeepsValid(st.users, u);
        Success(Resolved(st.(users := st.users[known.id := u]), u))
  }

  /** Resolving the same Google id twice keeps a single user for it, holding
      the latest claims. */
  lemma ResolveTwiceKeepsOneUser(st: Store, p1: GoogleProfile, p2: GoogleProfile,
                                 id1: UserId, id2: UserId, t1: Time, t2: Time)
    requires ValidUsers(st.users) && id1 !in st.users
    requires p1.googleId == p2.googleId
    requires ValidateGoogleUser(st, p1, id1, t1).Success?
    requires id2 !in ValidateGoogleUser(st, p1, id1, t1).value.store.users
    ensures var first := ValidateGoogleUser(st, p1, id1, t1).value;
            var second := ValidateGoogleUser(first.store, p2, id2, t2);
            second.Success? ==>
              && second.value.user.id == first.user.id
              && second.value.store.users.Keys == first.store.users.Keys
              && second.value.user.email == p2.email
              && (forall id :: id in second.value.store.users && second.value.store.users[id].googleId == p2.googleId ==>
                    id == first.user.id)
  {
  }

  datatype JwtClaims = JwtClaims(email: string, sub: UserId)

  /** The user summary returned with a token: no Google id, no timestamps. */
  datatype UserSummary = UserSummary(id: UserId, email: string, name: Option<string>, picture: Option<string>)

  datatype TokenResponse = TokenResponse(accessToken: string, user: UserSummary)

  datatype Issued = Issued(store: Store, response: TokenResponse)

  function Summary(u: User): UserSummary {
    UserSummary(u.id, u.email, u.name, u.picture)
  }

  /** `generateTokens`: sign `{email, sub}` and record one new session that
      expires 24 hours from now; nothing already stored is touched. */
  function GenerateTokens(st: Store, user: User, sign: (JwtClaims, Time) -> string, now: Time): (r: Issued)
    ensures r.store.users == st.users
    ensures |r.store.sessions| == |st.sessions| + 1
    ensures r.store.sessions[..|st.sessions|] == st.sessions
    ensures r.store.sessions[|st.sessions|] == Session(user.id, r.response.accessToken, now + SESSION_TTL)
    ensures r.response.accessToken == sign(JwtClaims(user.email, user.id), now)
    ensures r.response.user == Summary(user)
  {
    var token := sign(JwtClaims(user.email, user.id), now);
    Issued(st.(sessions := st.sessions + [Session(user.id, token, now + SESSION_TTL)]), TokenResponse(token, Summary(user)))
  }

  /** Token validation as intended: signature first, then the session row
      looked up by token alone, then the expiry check `expiresAt > now`.
      Every failure is the same `Unauthorized("Token inválido")`. */
  function ValidateToken(st: Store, token: string, verify: string -> bool, now: Time): (r: Result<Option<User>, AuthError>)
    ensures r.Failure? ==> r.error == Unauthorized(INVALID_TOKEN)
    ensures !verify(token) ==> r.Failure?
    ensures (forall s :: s in st.sessions && s.token == token ==> s.expiresAt <= now) ==> r.Failure?
    ensures r.Success? ==> exists s :: s in st.sessions && s.token == token && s.expiresAt > now && r.value == UserOf(st.users, s.userId)
    ensures r.Success? ==> r.value == UserOf(st.users, FindSession(st.sessions, WithToken(token)).value.userId)
    ensures r.Success? <==> verify(token) && FindSession(st.sessions, WithToken(token)).Some? &&
                            FindSession(st.sessions, WithToken(token)).value.expiresAt > now
  {
    if !verify(token) then Failure(Unauthorized(INVALID_TOKEN))
    else
      match FindSession(st.sessions, WithToken(token))
      case None => Failure(Unauthorized(INVALID_TOKEN))
      case Some(s) =>
        if s.expiresAt <= now then Failure(Unauthorized(INVALID_TOKEN))
        else Success(UserOf(st.users, s.userId))
  }

  function WithTokenExpiringAt(token: string, at: Time): Session -> bool {
    (s: Session) => s.token == token && s.expiresAt == at
  }

  /** Token validation as written: the session query filters on `expiresAt`
      EQUAL to the instant `queryAt` of the query, and the guard that follows
      rejects any session with `expiresAt <= checkAt`, read at a later
      instant `checkAt`. */
  function ValidateTokenAsWritten(st: Store, token: string, verify: string -> bool,
                                  queryAt: Time, checkAt: Time): (r: Result<Option<User>, AuthError>)
    ensures r.Failure? ==> r.error == Unauthorized(INVALID_TOKEN)
    ensures r.Success? ==> checkAt < queryAt
  {
    if !verify(token) then Failure(Unauthorized(INVALID_TOKEN))
    else
      match FindSession(st.sessions, WithTokenExpiringAt(token, queryAt))
      case None => Failure(Unauthorized(INVALID_TOKEN))
      case Some(s) =>
        if s.expiresAt <= checkAt then Failure(Unauthorized(INVALID_TOKEN))
        else Success(UserOf(st.users, s.userId))
  }

  /** As written, a freshly issued token with a valid signature is rejected
      at once, while the intended lookup accepts it and returns its owner. */
  lemma IssueThenValidate(st: Store, user: User, sign: (JwtClaims, Time) -> string, verify: string -> bool,
                          issuedAt: Time, queryAt: Time, checkAt: Time)
    requires user.id in st.users && st.users[user.id] == user
    requires forall s :: s in st.sessions ==> s.token != sign(JwtClaims(user.email, user.id), issuedAt)
    requires verify(sign(JwtClaims(user.email, user.id), issuedAt))
    requires issuedAt <= queryAt <= checkAt < issuedAt + SESSION_TTL
    ensures var issued := GenerateTokens(st, user, sign, issuedAt);
            && ValidateToken(issued.store, issued.response.accessToken, verify, checkAt) == Success(Some(user))
            && ValidateTokenAsWritten(issued.store, issued.response.accessToken, verify, queryAt, checkAt).Failure?
  {
    var issued := GenerateTokens(st, user, sign, issuedAt);
    var token := issued.response.accessToken;
    var newSession := Session(user.id, token, issuedAt + SESSION_TTL);
    assert issued.store.sessions == st.sessions + [newSession];
    FirstMatchOfAppended(st.sessions, newSession, WithToken(token));
  }

  /** The first row matching a filter that no earlier row matches is the appended one. */
  lemma FirstMatchOfAppended(sessions: seq<Session>, s: Session, filter: Session -> bool)
    requires forall x :: x in sessions ==> !filter(x)
    requires filter(s)
    ensures FindSession(sessions + [s], filter) == Some(s)
  {
  }

  /** `logout`: delete every session row carrying the token; nothing else. */
  function Logout(st: Store, token: string): (r: Store)
    ensures r.users == st.users
    ensures forall s :: s in r.sessions <==> s in st.sessions && s.token != token
    ensures forall s :: multiset(r.sessions)[s] == (if s.token != token then multiset(st.sessions)[s] else 0)
    ensures |r.sessions| + Seqs.Count(st.sessions, WithToken(token)) == |st.sessions|
    ensures forall t :: t != token ==> FindSession(r.sessions, WithToken(t)) == FindSession(st.sessions, WithToken(t))
  {
    var kept := Seqs.Filter(st.sessions, WithoutToken(token));
    Seqs.FilterLength(st.sessions, WithoutToken(token));
    Seqs.CountSplit(st.sessions, WithToken(token), WithoutToken(token));
    OtherLookupsUnchanged(st.sessions, token);
    st.(sessions := kept)
  }

  /** Dropping the rows of one token keeps the first row found for any other token. */
  lemma OtherLookupsUnchanged(sessions: seq<Session>, token: string)
    ensures forall t :: t != token ==>
      FindSession(Seqs.Filter(sessions, WithoutToken(token)), WithToken(t)) == FindSession(sessions, WithToken(t))
  {
    forall t | t != token
      ensures FindSession(Seqs.Filter(sessions, WithoutToken(token)), WithToken(t)) == FindSession(sessions, WithToken(t))
    {
      Seqs.FilterAbsorbs(sessions, WithoutToken(token), WithToken(t));
    }
  }

  /** Logging out twice is logging out once, and afterwards the token no
      longer validates, whatever its signature and the clock say. */
  lemma LogoutRevokes(st: Store, token: string, verify: string -> bool, now: Time)
    ensures Logout(Logout(st, token), token) == Logout(st, token)
    ensures ValidateToken(Logout(st, token), token, verify, now).Failure?
  {
    Seqs.FilterAbsorbs(st.sessions, WithoutToken(token), WithoutToken(token));
  }

  datatype Swept = Swept(store: Store, deleted: nat)

  /** `cleanupExpiredSessions`: delete the rows with `expiresAt < now`
      (strictly) and report how many went. */
  function CleanupExpiredSessions(st: Store, now: Time): (r: Swept)
    ensures r.store.users == st.users
    ensures forall s :: s in r.store.sessions <==> s in st.sessions && s.expiresAt >= now
    ensures forall s :: multiset(r.store.sessions)[s] == (if s.expiresAt >= now then multiset(st.sessions)[s] else 0)
    ensures r.deleted == Seqs.Count(st.sessions, ExpiredBefore(now))
    ensures r.deleted + |r.store.sessions| == |st.sessions|
  {
    var kept := Seqs.Filter(st.sessions, NotExpiredBefore(now));
    Seqs.FilterLength(st.sessions, NotExpiredBefore(now));
    Seqs.CountSplit(st.sessions, ExpiredBefore(now), NotExpiredBefore(now));
    Swept(st.(sessions := kept), Seqs.Count(st.sessions, ExpiredBefore(now)))
  }

  /** A second sweep at the same instant finds nothing to delete. */
  lemma CleanupTwiceDeletesNothing(st: Store, now: Time)
    ensures CleanupExpiredSessions(CleanupExpiredSessions(st, now).store, now).deleted == 0
  {
    var once := CleanupExpiredSessions(st, now).store;
    Seqs.CountZero(once.sessions, ExpiredBefore(now));
  }

  /** The boundary gap between the two expiry checks: a session whose expiry
      is exactly `now` survives the sweep, yet validation already rejects it. */
  lemma ExpiryBoundaryGap(st: Store, token: string, verify: string -> bool, now: Time)
    requires FindSession(st.sessions, WithToken(token)).Some?
    requires FindSession(st.sessions, WithToken(token)).value.expiresAt == now
    ensures FindSession(st.sessions, WithToken(token)).value in CleanupExpiredSessions(st, now).store.sessions
    ensures ValidateToken(st, token, verify, now).Failure?
  {
  }
}
