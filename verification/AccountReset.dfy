/**
 The password views: a reset consumes a one-time token, sets the password and
 signs every session out, all or nothing; a change does the last two for a user
 who knows the current password.
 */
module AccountReset {
  import opened Wrappers
  import Tokens = OneTimeTokens
  import Sess = Sessions
  import Runs = AccountRuns

  class Accounts {
    const tokens: Tokens.TokenStore
    const sessions: Sess.SessionStore
    var passwords: map<Tokens.UserId, string>

    ghost function State(): Runs.State
      reads this, tokens, sessions
    {
      Runs.State(tokens.rows, sessions.State())
    }

    constructor (tokens: Tokens.TokenStore, sessions: Sess.SessionStore)
      ensures this.tokens == tokens && this.sessions == sessions && passwords == map[]
    {
      this.tokens, this.sessions := tokens, sessions;
      passwords := map[];
    }

    /** Without a user nothing is issued, and the answer is the same. */
    method ForgotPassword(user: Option<Tokens.UserId>, raw: string, id: Tokens.RowId, now: Tokens.Time)
      requires id !in tokens.rows
      modifies tokens`rows
      ensures tokens.rows ==
              if user.None? then old(tokens.rows)
              else Tokens.Issued(old(tokens.rows), tokens.digest, user.value, Tokens.PasswordReset, raw, id, now)
      ensures user.Some? ==>
                Runs.Next(old(State()), State(), tokens.digest,
                          Runs.Token(Tokens.Issue(user.value, Tokens.PasswordReset, raw, id, now)))
    {
      if user.Some? {
        tokens.Issue(user.value, Tokens.PasswordReset, raw, id, now);
      }
    }

    method ResetPassword(raw: string, password: string, now: Tokens.Time) returns (user: Option<Tokens.UserId>)
      requires sessions.Valid()
      modifies this`passwords, tokens`rows, sessions`blacklisted
      ensures sessions.Valid()
      ensures Tokens.Consumes(old(tokens.rows), tokens.rows, tokens.digest, raw, Tokens.PasswordReset, now, user)
      ensures passwords == if user.None? then old(passwords) else old(passwords)[user.value := password]
      ensures sessions.State() ==
              if user.None? then old(sessions.State()) else Sess.RevokedEvery(old(sessions.State()), user.value)
      ensures Runs.Next(old(State()), State(), tokens.digest, Runs.Reset(raw, now, user))
    {
      user := tokens.Consume(raw, Tokens.PasswordReset, now);
      if user.Some? {
        passwords := passwords[user.value := password];
        sessions.RevokeEvery(user.value);
      }
    }

    method ChangePassword(user: Tokens.UserId, current: string, password: string) returns (ok: bool)
      requires sessions.Valid() && user in passwords
      modifies this`passwords, sessions`blacklisted
      ensures sessions.Valid() && ok == (current == old(passwords)[user])
      ensures passwords == if ok then old(passwords)[user := password] else old(passwords)
      ensures sessions.State() == if ok then Sess.RevokedEvery(old(sessions.State()), user) else old(sessions.State())
    {
      ok := current == passwords[user];
      if ok {
        passwords := passwords[user := password];
        sessions.RevokeEvery(user);
      }
    }
  }
}
