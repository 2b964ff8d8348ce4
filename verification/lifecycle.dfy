/** Properties that tie the authentication and user services together over
    the shared session rows. */
module Lifecycle {
  import Wrappers
  import opened Clock
  import opened Accounts
  import Seqs
  import Auth
  import Users

  /** Issuing a token adds exactly one active session to its owner's count
      for the whole 24 hours of its life, and none to any other user's. */
  lemma IssueAddsActiveSession(st: Store, user: User, sign: (Auth.JwtClaims, Time) -> string,
                               issuedAt: Time, now: Time, id: UserId)
    requires id in st.users
    requires now < issuedAt + Auth.SESSION_TTL
    ensures var after := Auth.GenerateTokens(st, user, sign, issuedAt).store;
            Users.GetUserStats(after, id, now).value.activeSessions ==
            Users.GetUserStats(st, id, now).value.activeSessions + (if id == user.id then 1 else 0)
  {
    var after := Auth.GenerateTokens(st, user, sign, issuedAt).store;
    var s := after.sessions[|st.sessions|];
    assert after.sessions == st.sessions + [s];
    Seqs.CountAppend(st.sessions, s, LiveOwnedBy(id, now));
  }

  /** The sweep deletes only sessions that had already expired, so no user's
      active-session count changes. */
  lemma CleanupKeepsActiveCounts(st: Store, now: Time, id: UserId)
    requires id in st.users
    ensures Users.GetUserStats(Auth.CleanupExpiredSessions(st, now).store, id, now).value.activeSessions ==
            Users.GetUserStats(st, id, now).value.activeSessions
  {
    Seqs.FilterKeepsCount(st.sessions, NotExpiredBefore(now), LiveOwnedBy(id, now));
  }

  /** A user just resolved from Google claims is what `findByEmail` returns for the claimed email. */
  lemma ResolvedUserFoundByEmail(st: Store, profile: Auth.GoogleProfile, freshId: UserId, now: Time)
    requires ValidUsers(st.users) && freshId !in st.users
    requires Auth.ValidateGoogleUser(st, profile, freshId, now).Success?
    ensures var resolved := Auth.ValidateGoogleUser(st, profile, freshId, now).value;
            Users.FindByEmail(resolved.store, profile.email) == Wrappers.Success(resolved.user)
  {
    var resolved := Auth.ValidateGoogleUser(st, profile, freshId, now).value;
    Users.FindByEmailAgreesWithFindById(resolved.store, profile.email);
  }
}
