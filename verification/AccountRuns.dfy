/**
 Whole runs of the account system: tokens are issued, consumed and swept,
 sessions begin, are revoked and pruned, and passwords are reset, in any order.

 A reset is one step on both tables.  What it ends stays ended.
 */
module AccountRuns {
  import opened Wrappers
  import Tokens = OneTimeTokens
  import Sess = Sessions

  datatype Event =
    | Token(token: Tokens.Event)
    | Session(session: Sess.Event)
    | Reset(raw: string, now: Tokens.Time, result: Option<Tokens.UserId>)

  datatype State = State(tokens: Tokens.Table, sessions: Sess.Tables)

  const EMPTY := State(map[], Sess.Tables(map[], {}))

  function At(e: Event): Tokens.Time {
    match e
    case Token(t) => t.now
    case Session(s) => s.now
    case Reset(_, now, _) => now
  }

  /** Reset tokens are consumed by resets only. */
  ghost predicate Next(s: State, s': State, digest: string -> string, e: Event) {
    match e
    case Token(t) =>
      && !(t.Consume? && t.purpose == Tokens.PasswordReset)
      && Tokens.Next(s.tokens, s'.tokens, digest, t) && s'.sessions == s.sessions
    case Session(x) => s'.tokens == s.tokens && s'.sessions == Sess.Apply(s.sessions, x)
    case Reset(raw, now, result) =>
      && Tokens.Consumes(s.tokens, s'.tokens, digest, raw, Tokens.PasswordReset, now, result)
      && s'.sessions == if result.None? then s.sessions else Sess.RevokedEvery(s.sessions, result.value)
  }

  /** `ss` are the states before, between and after the events, starting empty. */
  ghost predicate Runs(digest: string -> string, es: seq<Event>, ss: seq<State>) {
    && |ss| == |es| + 1 && ss[0] == EMPTY
    && forall i :: 0 <= i < |es| ==> Next(ss[i], ss[i + 1], digest, es[i])
  }

  /** Clocks do not run back, no raw token is drawn twice and no session id is used twice. */
  ghost predicate Sane(es: seq<Event>) {
    && (forall i, j :: 0 <= i < j < |es| ==> At(es[i]) <= At(es[j]))
    && (forall i, j :: 0 <= i < j < |es| ==> !Clash(es[i], es[j]))
  }

  predicate Clash(e: Event, f: Event) {
    || (e.Token? && f.Token? && e.token.Issue? && f.token.Issue? && e.token.raw == f.token.raw)
    || (e.Session? && f.Session? && e.session.Login? && f.session.Login? && e.session.id == f.session.id)
  }

  // ---------------------------------------------------------------- one run, two histories

  /** What an event does to the token table. */
  function TokenPart(e: Event): seq<Tokens.Event> {
    match e
    case Token(t) => [t]
    case Session(_) => []
    case Reset(raw, now, result) => [Tokens.Consume(raw, Tokens.PasswordReset, now, result)]
  }

  /** What an event does to the sessions. */
  function SessionPart(e: Event): seq<Sess.Event> {
    match e
    case Token(_) => []
    case Session(s) => [s]
    case Reset(_, now, result) => if result.None? then [] else [Sess.RevokeEvery(result.value, now)]
  }

  function TokenEvents(es: seq<Event>): seq<Tokens.Event> {
    if es == [] then [] else TokenEvents(es[..|es| - 1]) + TokenPart(es[|es| - 1])
  }

  function SessionEvents(es: seq<Event>): seq<Sess.Event> {
    if es == [] then [] else SessionEvents(es[..|es| - 1]) + SessionPart(es[|es| - 1])
  }

  lemma {:induction false} TokenSource(es: seq<Event>, t: Tokens.Event) returns (i: nat)
    requires t in TokenEvents(es)
    ensures i < |es| && t in TokenPart(es[i])
  {
    var n := |es| - 1;
    if t in TokenPart(es[n]) { i := n; } else { i := TokenSource(es[..n], t); }
  }

  lemma {:induction false} SessionSource(es: seq<Event>, s: Sess.Event) returns (i: nat)
    requires s in SessionEvents(es)
    ensures i < |es| && s in SessionPart(es[i])
  {
    var n := |es| - 1;
    if s in SessionPart(es[n]) { i := n; } else { i := SessionSource(es[..n], s); }
  }

  lemma SanePrefix(es: seq<Event>, n: nat)
    requires Sane(es) && n <= |es|
    ensures Sane(es[..n])
  {
  }

  lemma {:induction false} TokensSane(es: seq<Event>)
    requires Sane(es)
    ensures Tokens.Sane(TokenEvents(es))
  {
    if es != [] {
      var n := |es| - 1;
      SanePrefix(es, n);
      TokensSane(es[..n]);
      var init, all := TokenEvents(es[..n]), TokenEvents(es);
      forall i, j | 0 <= i < j < |all|
        ensures all[i].now <= all[j].now && (all[i].Issue? && all[j].Issue? ==> all[i].raw != all[j].raw)
      {
        if j < |init| {
          assert all[i] == init[i] && all[j] == init[j];
        } else {
          assert all[i] == init[i] && init[i] in init;
          var k := TokenSource(es[..n], init[i]);
          assert At(es[k]) <= At(es[n]) && !Clash(es[k], es[n]);
        }
      }
    }
  }

  lemma TokensSaneTo(es: seq<Event>, n: nat)
    requires Sane(es) && n <= |es|
    ensures Tokens.Sane(TokenEvents(es[..n]))
  {
    SanePrefix(es, n);
    TokensSane(es[..n]);
  }

  lemma SessionsSaneTo(es: seq<Event>, n: nat)
    requires Sane(es) && n <= |es|
    ensures Sess.Sane(SessionEvents(es[..n]))
  {
    SanePrefix(es, n);
    SessionsSane(es[..n]);
  }

  lemma {:induction false} SessionsSane(es: seq<Event>)
    requires Sane(es)
    ensures Sess.Sane(SessionEvents(es))
  {
    if es != [] {
      var n := |es| - 1;
      SanePrefix(es, n);
      SessionsSane(es[..n]);
      var init, all := SessionEvents(es[..n]), SessionEvents(es);
      forall i, j | 0 <= i < j < |all|
        ensures all[i].now <= all[j].now && (all[i].Login? && all[j].Login? ==> all[i].id != all[j].id)
      {
        if j < |init| {
          assert all[i] == init[i] && all[j] == init[j];
        } else {
          assert all[i] == init[i] && init[i] in init;
          var k := SessionSource(es[..n], init[i]);
          assert At(es[k]) <= At(es[n]) && !Clash(es[k], es[n]);
        }
      }
    }
  }

  lemma PartsAt(es: seq<Event>, i: nat)
    requires i < |es|
    ensures TokenEvents(es[..i + 1]) == TokenEvents(es[..i]) + TokenPart(es[i])
    ensures SessionEvents(es[..i + 1]) == SessionEvents(es[..i]) + SessionPart(es[i])
  {
    assert es[..i + 1][..i] == es[..i];
  }

  lemma AfterPart(init: seq<Sess.Event>, e: Event)
    ensures Sess.After(init + SessionPart(e)) ==
            if SessionPart(e) == [] then Sess.After(init) else Sess.Apply(Sess.After(init), SessionPart(e)[0])
  {
    if SessionPart(e) == [] {
      assert init + [] == init;
    } else {
      assert (init + SessionPart(e))[..|init|] == init;
    }
  }

  lemma FollowPart(digest: string -> string, init: seq<Sess.Event>, s: State, s': State, e: Event)
    requires Next(s, s', digest, e) && s.sessions == Sess.After(init)
    ensures s'.sessions == Sess.After(init + SessionPart(e))
  {
    AfterPart(init, e);
  }

  lemma {:induction false} SessionsFollow(digest: string -> string, es: seq<Event>, ss: seq<State>, n: nat)
    requires Runs(digest, es, ss) && n <= |es|
    ensures ss[n].sessions == Sess.After(SessionEvents(es[..n]))
  {
    if n > 0 {
      SessionsFollow(digest, es, ss, n - 1);
      PartsAt(es, n - 1);
      FollowPart(digest, SessionEvents(es[..n - 1]), ss[n - 1], ss[n], es[n - 1]);
    }
  }

  lemma MirrorPart(digest: string -> string, init: seq<Tokens.Event>, s: State, s': State, e: Event)
    requires Tokens.Injective(digest) && Tokens.Sane(init + TokenPart(e)) && Next(s, s', digest, e)
    requires Tokens.Mirrors(digest, init, s.tokens)
    ensures Tokens.Mirrors(digest, init + TokenPart(e), s'.tokens)
  {
    if TokenPart(e) == [] {
      assert init + [] == init;
    } else {
      Tokens.NextMirrors(digest, init, s.tokens, s'.tokens, TokenPart(e)[0]);
    }
  }

  lemma {:induction false} TokensMirror(digest: string -> string, es: seq<Event>, ss: seq<State>, n: nat)
    requires Tokens.Injective(digest) && Sane(es) && Runs(digest, es, ss) && n <= |es|
    ensures Tokens.Mirrors(digest, TokenEvents(es[..n]), ss[n].tokens)
  {
    if n > 0 {
      TokensMirror(digest, es, ss, n - 1);
      PartsAt(es, n - 1);
      TokensSaneTo(es, n);
      assert Next(ss[n - 1], ss[n], digest, es[n - 1]);
      MirrorPart(digest, TokenEvents(es[..n - 1]), ss[n - 1], ss[n], es[n - 1]);
    }
  }

  // ---------------------------------------------------------------- what a reset ends

  /** Histories of a longer run continue those of a shorter one. */
  lemma {:induction false} HistoriesGrow(es: seq<Event>, m: nat, n: nat)
    requires m <= n <= |es|
    ensures TokenEvents(es[..m]) <= TokenEvents(es[..n]) && SessionEvents(es[..m]) <= SessionEvents(es[..n])
  {
    if m < n {
      HistoriesGrow(es, m, n - 1);
      assert es[..n][..n - 1] == es[..n - 1];
    }
  }

  /** Event `j` logs the user in with this session id. */
  predicate LogsIn(es: seq<Event>, j: int, user: Tokens.UserId, id: Sess.TokenId) {
    && 0 <= j < |es| && es[j].Session? && es[j].session.Login?
    && es[j].session.id == id && es[j].session.token.user == user
  }

  /** Event `j` issues the user this reset token. */
  predicate IssuesReset(es: seq<Event>, j: int, user: Tokens.UserId, raw: string) {
    && 0 <= j < |es| && es[j].Token? && es[j].token.Issue? && es[j].token.user == user
    && es[j].token.purpose == Tokens.PasswordReset && es[j].token.raw == raw
  }

  lemma LoggedInBefore(es: seq<Event>, j: nat, i: nat, user: Tokens.UserId, id: Sess.TokenId)
    requires j < i <= |es| && LogsIn(es, j, user, id)
    ensures Sess.LoggedInAs(SessionEvents(es[..i]), id, user)
  {
    PartsAt(es, j);
    HistoriesGrow(es, j + 1, i);
    assert SessionEvents(es[..i])[|SessionEvents(es[..j])|] == es[j].session;
  }

  lemma IssuedBefore(es: seq<Event>, j: nat, i: nat, user: Tokens.UserId, raw: string)
    requires j < i <= |es| && IssuesReset(es, j, user, raw)
    ensures Tokens.IssuedTo(TokenEvents(es[..i]), user, Tokens.PasswordReset, raw)
  {
    PartsAt(es, j);
    HistoriesGrow(es, j + 1, i);
    assert TokenEvents(es[..i])[|TokenEvents(es[..j])|] == es[j].token;
  }

  predicate ResetsAt(es: seq<Event>, i: int, user: Tokens.UserId) {
    0 <= i < |es| && es[i].Reset? && es[i].result == Some(user)
  }

  lemma SessionsAfterReset(es: seq<Event>, i: nat, user: Tokens.UserId, n: nat) returns (more: seq<Sess.Event>)
    requires ResetsAt(es, i, user) && i < n <= |es|
    ensures SessionEvents(es[..n]) == SessionEvents(es[..i]) + [Sess.RevokeEvery(user, es[i].now)] + more
  {
    PartsAt(es, i);
    HistoriesGrow(es, i + 1, n);
    more := SessionEvents(es[..n])[|SessionEvents(es[..i + 1])|..];
  }

  lemma TokensAfterReset(es: seq<Event>, i: nat, user: Tokens.UserId, n: nat) returns (more: seq<Tokens.Event>)
    requires ResetsAt(es, i, user) && i < n <= |es|
    ensures TokenEvents(es[..n]) == TokenEvents(es[..i + 1]) + more
    ensures Tokens.Held(TokenEvents(es[..i + 1]), user, Tokens.PasswordReset) == None
  {
    PartsAt(es, i);
    HistoriesGrow(es, i + 1, n);
    more := TokenEvents(es[..n])[|TokenEvents(es[..i + 1])|..];
    Tokens.HeldNext(TokenEvents(es[..i]), TokenPart(es[i])[0], user, Tokens.PasswordReset);
  }

  /** No session begun before a reset is usable in any later state. */
  lemma {:induction false} SessionsEnd(digest: string -> string, es: seq<Event>, ss: seq<State>, i: nat,
                                       user: Tokens.UserId, j: nat, id: Sess.TokenId, n: nat, later: Sess.Time)
    requires Sane(es) && Runs(digest, es, ss) && ResetsAt(es, i, user)
    requires j < i < n <= |es| && LogsIn(es, j, user, id)
    ensures id !in Sess.Usable(ss[n].sessions, later)
  {
    LoggedInBefore(es, j, i, user, id);
    SessionsSaneTo(es, n);
    var more := SessionsAfterReset(es, i, user, n);
    Sess.RevokedEveryIsFinal(SessionEvents(es[..i]), user, es[i].now, more, id, later);
    SessionsFollow(digest, es, ss, n);
  }

  /** A reset succeeds for exactly the user whom the history entitles. */
  lemma ResetIffEntitled(digest: string -> string, es: seq<Event>, ss: seq<State>, k: nat, user: Tokens.UserId)
    requires Tokens.Injective(digest) && Sane(es) && Runs(digest, es, ss) && k < |es| && es[k].Reset?
    ensures es[k].result == Some(user) <==>
            Tokens.Entitled(TokenEvents(es[..k]), user, Tokens.PasswordReset, es[k].raw, es[k].now)
  {
    var now, call := TokenEvents(es[..k]), TokenPart(es[k])[0];
    TokensMirror(digest, es, ss, k);
    PartsAt(es, k);
    TokensSaneTo(es, k + 1);
    assert Next(ss[k], ss[k + 1], digest, es[k]);
    if now != [] {
      assert (now + [call])[|now| - 1] == now[|now| - 1] && (now + [call])[|now|] == call;
    }
    Tokens.ConsumeTells(digest, now, ss[k].tokens, ss[k + 1].tokens, call, user);
  }

  lemma SpentBehind(all: seq<Tokens.Event>, done: seq<Tokens.Event>, more: seq<Tokens.Event>,
                    user: Tokens.UserId, raw: string, u: Tokens.UserId)
    requires Tokens.Sane(all) && all == done + more
    requires Tokens.IssuedTo(done, user, Tokens.PasswordReset, raw)
    requires Tokens.Held(done, user, Tokens.PasswordReset) == None
    ensures var held := Tokens.Held(all, u, Tokens.PasswordReset); held.Some? ==> held.value.raw != raw
  {
    Tokens.SpentStaysSpent(done, more, user, Tokens.PasswordReset, raw, u, Tokens.PasswordReset);
  }

  /** The token history around a reset: `done` ends with it. */
  lemma AroundReset(es: seq<Event>, i: nat, user: Tokens.UserId, j: nat, raw: string, k: nat)
    returns (done: seq<Tokens.Event>, more: seq<Tokens.Event>)
    requires ResetsAt(es, i, user) && j < i < k <= |es| && IssuesReset(es, j, user, raw)
    ensures TokenEvents(es[..k]) == done + more
    ensures Tokens.IssuedTo(done, user, Tokens.PasswordReset, raw)
    ensures Tokens.Held(done, user, Tokens.PasswordReset) == None
  {
    done := TokenEvents(es[..i + 1]);
    IssuedBefore(es, j, i + 1, user, raw);
    more := TokensAfterReset(es, i, user, k);
  }

  /** A reset token issued before a reset is held by nobody after it. */
  lemma NotHeldAfter(es: seq<Event>, i: nat, user: Tokens.UserId, j: nat, raw: string, k: nat, u: Tokens.UserId)
    requires Sane(es) && ResetsAt(es, i, user) && j < i < k <= |es| && IssuesReset(es, j, user, raw)
    ensures var held := Tokens.Held(TokenEvents(es[..k]), u, Tokens.PasswordReset); held.Some? ==> held.value.raw != raw
  {
    TokensSaneTo(es, k);
    var done, more := AroundReset(es, i, user, j, raw, k);
    SpentBehind(TokenEvents(es[..k]), done, more, user, raw, u);
  }

  /** No reset token issued before a reset is accepted at any later step. */
  lemma {:induction false} TokensEnd(digest: string -> string, es: seq<Event>, ss: seq<State>, i: nat,
                                     user: Tokens.UserId, j: nat, k: nat)
    requires Tokens.Injective(digest) && Sane(es) && Runs(digest, es, ss) && ResetsAt(es, i, user)
    requires j < i < k < |es| && es[k].Reset? && IssuesReset(es, j, user, es[k].raw)
    ensures es[k].result == None
  {
    if es[k].result.Some? {
      NotHeldAfter(es, i, user, j, es[k].raw, k, es[k].result.value);
      ResetIffEntitled(digest, es, ss, k, es[k].result.value);
    }
  }

  /** A reset leaves no outstanding reset token of the user, and nobody else loses a session. */
  lemma ResetEffect(digest: string -> string, es: seq<Event>, ss: seq<State>, i: nat, user: Tokens.UserId)
    requires Tokens.Injective(digest) && Sane(es) && Runs(digest, es, ss) && ResetsAt(es, i, user)
    ensures !Tokens.HasRow(ss[i + 1].tokens, user, Tokens.PasswordReset)
    ensures ss[i + 1].sessions == Sess.RevokedEvery(ss[i].sessions, user)
  {
    var more := TokensAfterReset(es, i, user, i + 1);
    TokensMirror(digest, es, ss, i + 1);
    Tokens.NothingHeldNoRow(digest, TokenEvents(es[..i + 1]), ss[i + 1].tokens, user, Tokens.PasswordReset);
    assert Next(ss[i], ss[i + 1], digest, es[i]);
  }

  lemma OthersKeepSessions(s: Sess.Tables, user: Tokens.UserId, u: Tokens.UserId, later: Sess.Time)
    requires u != user
    ensures Sess.UsableBy(Sess.RevokedEvery(s, user), u, later) == Sess.UsableBy(s, u, later)
  {
  }

  /**
   A successful reset ends what came before it, in every run: no session that the
   user began before is usable in any later state, no reset token that the user
   was issued before is accepted at any later step, none is outstanding, and
   other users keep their sessions.
   */
  lemma {:induction false} ResetLeavesNothingLive(digest: string -> string, es: seq<Event>, ss: seq<State>, i: nat,
                                                  user: Tokens.UserId)
    requires Tokens.Injective(digest) && Sane(es) && Runs(digest, es, ss) && ResetsAt(es, i, user)
    ensures forall j: nat, id, n: nat, later :: j < i < n <= |es| && LogsIn(es, j, user, id) ==>
                                                  id !in Sess.Usable(ss[n].sessions, later)
    ensures forall j: nat, k: nat :: j < i < k < |es| && es[k].Reset? && IssuesReset(es, j, user, es[k].raw) ==>
                                       es[k].result == None
    ensures !Tokens.HasRow(ss[i + 1].tokens, user, Tokens.PasswordReset)
    ensures forall u, later :: u != user ==>
                                 Sess.UsableBy(ss[i + 1].sessions, u, later) == Sess.UsableBy(ss[i].sessions, u, later)
  {
    forall j: nat, id, n: nat, later | j < i < n <= |es| && LogsIn(es, j, user, id)
      ensures id !in Sess.Usable(ss[n].sessions, later)
    {
      SessionsEnd(digest, es, ss, i, user, j, id, n, later);
    }
    forall j: nat, k: nat | j < i < k < |es| && es[k].Reset? && IssuesReset(es, j, user, es[k].raw)
      ensures es[k].result == None
    {
      TokensEnd(digest, es, ss, i, user, j, k);
    }
    ResetEffect(digest, es, ss, i, user);
    forall u, later | u != user
      ensures Sess.UsableBy(ss[i + 1].sessions, u, later) == Sess.UsableBy(ss[i].sessions, u, later)
    {
      OthersKeepSessions(ss[i].sessions, user, u, later);
    }
  }
}
