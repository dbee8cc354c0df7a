/** The signed-in user as the auth client reports it, and the outcome of an access decision. */
module Auth {
  import opened Wrappers

  /** `user.id`, `user.email` and `user.user_metadata.role` of the auth client's user object. */
  datatype Identity = Identity(id: string, email: Option<string>, role: Option<string>)

  /** The role test every page repeats: `user_metadata?.role === 'admin'`. */
  predicate IsAdmin(u: Identity) {
    u.role == Some("admin")
  }

  /**
   * What `supabase.auth.getUser()` yields: the promise rejects, it resolves with an
   * error (and no user), it resolves without a user, or it resolves with one.
   */
  datatype UserLookup = LookupThrew | LookupError | Anonymous | Authenticated(user: Identity)

  /** Outcome of a unit access decision. */
  datatype Access = Unauthenticated | Allowed | Denied | Failed
}
