/**
 Refresh-token sessions: outstanding tokens, the blacklist, the two ways of
 revoking, and the pruning of expired rows.

 A session is usable when its token is outstanding, unexpired and not
 blacklisted; that is also what the session list shows.
 */
module Sessions {
  import opened Wrappers

  type UserId = nat
  type TokenId = nat
  type Time = int

  datatype Token = Token(user: UserId, jti: string, expiresAt: Time)

  datatype Tables = Tables(outstanding: map<TokenId, Token>, blacklisted: set<TokenId>)

  function Usable(s: Tables, now: Time): set<TokenId> {
    set id | id in s.outstanding && s.outstanding[id].expiresAt > now && id !in s.blacklisted
  }

  function UsableBy(s: Tables, user: UserId, now: Time): set<TokenId> {
    set id | id in Usable(s, now) && s.outstanding[id].user == user
  }

  /** An empty `keep_jti` keeps nothing. */
  predicate Kept(t: Token, keepJti: Option<string>) {
    keepJti.Some? && keepJti.value != "" && t.jti == keepJti.value
  }

  function Doomed(s: Tables, user: UserId, keepJti: Option<string>, now: Time): set<TokenId> {
    set id |
      && id in s.outstanding && s.outstanding[id].user == user && s.outstanding[id].expiresAt > now
      && !Kept(s.outstanding[id], keepJti)
  }

  function Revoked(s: Tables, user: UserId, keepJti: Option<string>, now: Time): Tables {
    s.(blacklisted := s.blacklisted + Doomed(s, user, keepJti, now))
  }

  /** Every outstanding token of the user, expired or not. */
  function RevokedEvery(s: Tables, user: UserId): Tables {
    s.(blacklisted := s.blacklisted + set id | id in s.outstanding && s.outstanding[id].user == user)
  }

  /** Deleting an outstanding token deletes its blacklist row with it. */
  function Pruned(s: Tables, now: Time): Tables {
    var kept := map id | id in s.outstanding && s.outstanding[id].expiresAt >= now :: s.outstanding[id];
    Tables(kept, s.blacklisted * kept.Keys)
  }

  class SessionStore {
    var outstanding: map<TokenId, Token>
    var blacklisted: set<TokenId>

    /** Blacklist rows refer to outstanding tokens. */
    ghost predicate Valid()
      reads this
    {
      blacklisted <= outstanding.Keys
    }

    function State(): Tables
      reads this
    {
      Tables(outstanding, blacklisted)
    }

    constructor ()
      ensures Valid() && State() == Tables(map[], {})
    {
      outstanding, blacklisted := map[], {};
    }

    method RevokeAllSessions(user: UserId, keepJti: Option<string>, now: Time) returns (revoked: nat)
      requires Valid()
      modifies this`blacklisted
      ensures Valid() && State() == Revoked(old(State()), user, keepJti, now)
      ensures State() == Apply(old(State()), Event.RevokeAll(user, keepJti, now))
      ensures outstanding == old(outstanding)
      ensures forall id :: id in blacklisted <==>
                || id in old(blacklisted)
                || (&& id in outstanding && outstanding[id].user == user && outstanding[id].expiresAt > now
                    && !(keepJti.Some? && keepJti.value != "" && outstanding[id].jti == keepJti.value))
      ensures revoked == |Usable(old(State()), now)| - |Usable(State(), now)|
    {
      var tokens := set id | id in outstanding && outstanding[id].user == user && outstanding[id].expiresAt > now;
      RevokedCount(State(), user, keepJti, now);
      revoked := BlacklistEach(tokens, keepJti, Doomed(State(), user, keepJti, now));
    }

    /** The loop over the fetched tokens. */
    method BlacklistEach(tokens: set<TokenId>, keepJti: Option<string>, ghost doomed: set<TokenId>)
      returns (revoked: nat)
      requires tokens <= outstanding.Keys
      requires forall id :: id in doomed <==> id in tokens && !Kept(outstanding[id], keepJti)
      modifies this`blacklisted
      ensures blacklisted == old(blacklisted) + doomed
      ensures revoked == |doomed - old(blacklisted)|
    {
      revoked := 0;
      var todo := tokens;
      ghost var newly: set<TokenId> := {};
      while todo != {}
        invariant todo <= tokens
        invariant forall id :: id in newly <==> id in doomed && id !in todo && id !in old(blacklisted)
        invariant forall id :: id in blacklisted <==> id in old(blacklisted) || id in newly
        invariant revoked == |newly|
        decreases todo
      {
        var id :| id in todo;
        todo := todo - {id};
        if keepJti.Some? && keepJti.value != "" && outstanding[id].jti == keepJti.value {
          continue;
        }
        if id !in blacklisted {
          blacklisted := blacklisted + {id};
          newly := newly + {id};
          revoked := revoked + 1;
        }
      }
      assert newly == doomed - old(blacklisted);
      assert blacklisted == old(blacklisted) + doomed;
    }

    /** The view's own helper: every session of the user, none spared. */
    method RevokeEvery(user: UserId)
      requires Valid()
      modifies this`blacklisted
      ensures Valid() && State() == RevokedEvery(old(State()), user)
      ensures forall now :: State() == Apply(old(State()), Event.RevokeEvery(user, now))
      ensures outstanding == old(outstanding)
      ensures forall id :: id in blacklisted <==>
                id in old(blacklisted) || (id in outstanding && outstanding[id].user == user)
    {
      ghost var s := State();
      var todo := set id | id in outstanding && outstanding[id].user == user;
      ghost var all := todo;
      while todo != {}
        invariant outstanding == s.outstanding && todo <= all
        invariant blacklisted == s.blacklisted + (all - todo)
        decreases todo
      {
        var id :| id in todo;
        todo := todo - {id};
        blacklisted := blacklisted + {id};
      }
    }

    /** The count includes the blacklist rows that go with their tokens. */
    method PruneExpiredTokens(now: Time) returns (deleted: nat)
      requires Valid()
      modifies this
      ensures Valid() && State() == Pruned(old(State()), now)
      ensures State() == Apply(old(State()), Event.Prune(now))
      ensures forall id :: id in outstanding <==> id in old(outstanding) && old(outstanding)[id].expiresAt >= now
      ensures forall id :: id in outstanding ==> outstanding[id] == old(outstanding)[id]
      ensures forall id :: id in blacklisted <==> id in old(blacklisted) && id in outstanding
      ensures deleted == |old(outstanding)| - |outstanding| + |old(blacklisted)| - |blacklisted|
    {
      var expired := set id | id in outstanding && outstanding[id].expiresAt < now;
      PrunedIsRest(State(), now, expired);
      MapCount(outstanding, expired);
      SetCount(blacklisted, expired);
      PrunedExact(State(), now);
      deleted := |expired| + |blacklisted * expired|;
      outstanding := outstanding - expired;
      blacklisted := blacklisted - expired;
    }
  }

  // ---------------------------------------------------------------- one call

  lemma MapCount(m: map<TokenId, Token>, gone: set<TokenId>)
    requires gone <= m.Keys
    ensures |m| == |m - gone| + |gone|
  {
    assert m.Keys == (m - gone).Keys + gone;
    assert |m.Keys| == |(m - gone).Keys| + |gone|;
  }

  lemma SetCount(all: set<TokenId>, gone: set<TokenId>)
    ensures |all| == |all - gone| + |all * gone|
  {
    assert all == (all - gone) + (all * gone);
  }

  /** What pruning deletes. */
  lemma PrunedIsRest(s: Tables, now: Time, expired: set<TokenId>)
    requires s.blacklisted <= s.outstanding.Keys
    requires expired == set id | id in s.outstanding && s.outstanding[id].expiresAt < now
    ensures Pruned(s, now).outstanding == s.outstanding - expired
    ensures Pruned(s, now).blacklisted == s.blacklisted - expired
  {
  }

  lemma PrunedExact(s: Tables, now: Time)
    ensures forall id :: id in Pruned(s, now).outstanding <==>
              id in s.outstanding && s.outstanding[id].expiresAt >= now
    ensures forall id :: id in Pruned(s, now).outstanding ==> Pruned(s, now).outstanding[id] == s.outstanding[id]
    ensures forall id :: id in Pruned(s, now).blacklisted <==>
              id in s.blacklisted && id in Pruned(s, now).outstanding
  {
  }

  lemma RevokedCount(s: Tables, user: UserId, keepJti: Option<string>, now: Time)
    ensures |Doomed(s, user, keepJti, now) - s.blacklisted| ==
            |Usable(s, now)| - |Usable(Revoked(s, user, keepJti, now), now)|
  {
    var newly := Doomed(s, user, keepJti, now) - s.blacklisted;
    var left := Usable(Revoked(s, user, keepJti, now), now);
    assert Usable(s, now) == left + newly && left !! newly;
  }

  /**
   Revoking leaves usable exactly what was usable and belongs to somebody else or,
   when a non-empty token id is kept, has that id; a second call finds nothing left
   to revoke.
   */
  lemma {:induction false} RevokeExact(s: Tables, user: UserId, keepJti: Option<string>, now: Time, later: Time)
    requires now <= later
    ensures var s' := Revoked(s, user, keepJti, now);
            && s'.outstanding == s.outstanding
            && (forall id ::
                  id in s.outstanding && s.outstanding[id].expiresAt > later && id !in s'.blacklisted <==>
                  && id in s.outstanding && s.outstanding[id].expiresAt > later && id !in s.blacklisted
                  && (s.outstanding[id].user == user ==>
                        keepJti.Some? && keepJti.value != "" && s.outstanding[id].jti == keepJti.value))
            && Revoked(s', user, keepJti, now) == s'
  {
  }

  /**
   The password-change view promises to spare the session that makes the call.
   It revokes every session, so the promise is met only where there was nothing
   to spare.
   */
  lemma ChangePasswordSparesIff(s: Tables, user: UserId, current: TokenId, now: Time)
    ensures UsableBy(RevokedEvery(s, user), user, now) == {}
    ensures UsableBy(RevokedEvery(s, user), user, now) == UsableBy(s, user, now) * {current} <==>
            current !in UsableBy(s, user, now)
  {
    if current !in UsableBy(s, user, now) {
      assert UsableBy(s, user, now) * {current} == {};
    } else {
      assert current in UsableBy(s, user, now) * {current};
    }
  }

  /** A session in use that the view revokes with the others. */
  lemma ChangePasswordRevokesTheCaller() returns (s: Tables, user: UserId, current: TokenId, now: Time)
    ensures current in UsableBy(s, user, now) && current !in UsableBy(RevokedEvery(s, user), user, now)
  {
    user, current, now := 0, 0, 5;
    s := Tables(map[current := Token(user, "a", 9)], {});
    assert s.outstanding[current].user == user;
  }

  // ---------------------------------------------------------------- whole runs

  datatype Event =
    | Login(id: TokenId, token: Token, now: Time)
    | RevokeAll(user: UserId, keepJti: Option<string>, now: Time)
    | RevokeEvery(user: UserId, now: Time)
    | Prune(now: Time)

  function Apply(s: Tables, e: Event): Tables {
    match e
    case Login(id, token, _) => s.(outstanding := s.outstanding[id := token])
    case RevokeAll(user, keepJti, now) => Revoked(s, user, keepJti, now)
    case RevokeEvery(user, _) => RevokedEvery(s, user)
    case Prune(now) => Pruned(s, now)
  }

  function After(es: seq<Event>): Tables {
    if es == [] then Tables(map[], {}) else Apply(After(es[..|es| - 1]), es[|es| - 1])
  }

  /** Clocks do not run back and ids are not used twice. */
  ghost predicate Sane(es: seq<Event>) {
    && (forall i, j :: 0 <= i < j < |es| ==> es[i].now <= es[j].now)
    && (forall i, j :: 0 <= i < j < |es| && es[i].Login? && es[j].Login? ==> es[i].id != es[j].id)
  }

  function Unpruned(es: seq<Event>): seq<Event> {
    if es == [] then []
    else Unpruned(es[..|es| - 1]) + (if es[|es| - 1].Prune? then [] else [es[|es| - 1]])
  }

  ghost predicate LoggedIn(es: seq<Event>, id: TokenId) {
    exists i :: 0 <= i < |es| && es[i].Login? && es[i].id == id
  }

  /** The tables know the same about every token that has not expired, and nothing of unknown ids. */
  ghost predicate Agree(es: seq<Event>, s: Tables, t: Tables) {
    && Known(es, s) && Known(es, t)
    && SameTokens(es, s, t)
    && SameBlacklist(es, s, t)
  }

  /** Blacklisted tokens are outstanding, and outstanding ones were logged in. */
  ghost predicate Known(es: seq<Event>, s: Tables) {
    s.blacklisted <= s.outstanding.Keys && forall id :: id in s.outstanding ==> LoggedIn(es, id)
  }

  ghost predicate SameTokens(es: seq<Event>, s: Tables, t: Tables) {
    && (forall id :: id in s.outstanding ==> id in t.outstanding && t.outstanding[id] == s.outstanding[id])
    && (forall id :: id in t.outstanding && t.outstanding[id].expiresAt >= Clock(es) ==> id in s.outstanding)
  }

  ghost predicate SameBlacklist(es: seq<Event>, s: Tables, t: Tables) {
    forall id :: id in s.outstanding && s.outstanding[id].expiresAt >= Clock(es) ==>
                   (id in s.blacklisted <==> id in t.blacklisted)
  }

  /** The latest clock reading. */
  function Clock(es: seq<Event>): Time {
    if es == [] then 0 else es[|es| - 1].now
  }

  lemma LoggedInNext(es: seq<Event>, e: Event, id: TokenId)
    ensures LoggedIn(es + [e], id) <==> LoggedIn(es, id) || (e.Login? && e.id == id)
  {
    if LoggedIn(es, id) {
      var i :| 0 <= i < |es| && es[i].Login? && es[i].id == id;
      assert (es + [e])[i] == es[i];
    }
    if e.Login? && e.id == id {
      assert (es + [e])[|es|] == e;
    }
  }

  lemma NewId(es: seq<Event>, e: Event)
    requires Sane(es + [e]) && e.Login?
    ensures !LoggedIn(es, e.id)
  {
    forall i | 0 <= i < |es| && es[i].Login?
      ensures es[i].id != e.id
    {
      assert (es + [e])[i] == es[i] && (es + [e])[|es|] == e;
    }
  }

  lemma ClockRises(es: seq<Event>, e: Event)
    requires Sane(es + [e])
    ensures Clock(es + [e]) == e.now && (es != [] ==> Clock(es) <= e.now)
  {
    if es != [] {
      assert (es + [e])[|es| - 1] == es[|es| - 1] && (es + [e])[|es|] == e;
    }
  }

  lemma StepKnown(es: seq<Event>, s: Tables, e: Event)
    requires Known(es, s)
    ensures Known(es + [e], Apply(s, e))
  {
    forall id | id in Apply(s, e).outstanding
      ensures LoggedIn(es + [e], id)
    {
      LoggedInNext(es, e, id);
    }
  }

  lemma NothingKnown(s: Tables)
    requires Known([], s)
    ensures s == Tables(map[], {})
  {
  }

  lemma StepSameTokens(es: seq<Event>, s: Tables, t: Tables, e: Event)
    requires Sane(es + [e]) && es != [] && SameTokens(es, s, t) && !e.Prune?
    ensures SameTokens(es + [e], Apply(s, e), Apply(t, e))
  {
    ClockRises(es, e);
  }

  lemma PruneSameTokens(es: seq<Event>, s: Tables, t: Tables, e: Event)
    requires Sane(es + [e]) && es != [] && SameTokens(es, s, t) && e.Prune?
    ensures SameTokens(es + [e], Apply(s, e), t)
  {
    ClockRises(es, e);
  }

  lemma LoginSameBlacklist(es: seq<Event>, s: Tables, t: Tables, e: Event)
    requires Sane(es + [e]) && es != [] && Known(es, s) && Known(es, t) && SameBlacklist(es, s, t) && e.Login?
    ensures SameBlacklist(es + [e], Apply(s, e), Apply(t, e))
  {
    ClockRises(es, e);
    NewId(es, e);
    assert e.id !in s.blacklisted && e.id !in t.blacklisted;
  }

  lemma RevokeSameBlacklist(es: seq<Event>, s: Tables, t: Tables, e: Event)
    requires Sane(es + [e]) && es != [] && SameTokens(es, s, t) && SameBlacklist(es, s, t)
    requires e.RevokeAll? || e.RevokeEvery?
    ensures SameBlacklist(es + [e], Apply(s, e), Apply(t, e))
  {
    ClockRises(es, e);
  }

  lemma PruneSameBlacklist(es: seq<Event>, s: Tables, t: Tables, e: Event)
    requires Sane(es + [e]) && es != [] && SameBlacklist(es, s, t) && e.Prune?
    ensures SameBlacklist(es + [e], Apply(s, e), t)
  {
    ClockRises(es, e);
  }

  lemma FirstAgrees(e: Event)
    ensures var none := Tables(map[], {});
            SameTokens([e], Apply(none, e), if e.Prune? then none else Apply(none, e))
            && SameBlacklist([e], Apply(none, e), if e.Prune? then none else Apply(none, e))
  {
  }

  lemma StepAgrees(es: seq<Event>, s: Tables, t: Tables, e: Event)
    requires Sane(es + [e]) && Agree(es, s, t)
    ensures Agree(es + [e], Apply(s, e), if e.Prune? then t else Apply(t, e))
  {
    StepKnown(es, s, e);
    StepKnown(es, t, e);
    if es == [] {
      NothingKnown(s);
      NothingKnown(t);
      FirstAgrees(e);
      assert es + [e] == [e];
    } else if e.Prune? {
      KnownLonger(es, t, e);
      PruneSameTokens(es, s, t, e);
      PruneSameBlacklist(es, s, t, e);
    } else {
      StepSameTokens(es, s, t, e);
      if e.Login? {
        LoginSameBlacklist(es, s, t, e);
      } else {
        RevokeSameBlacklist(es, s, t, e);
      }
    }
  }

  lemma KnownLonger(es: seq<Event>, s: Tables, e: Event)
    requires Known(es, s)
    ensures Known(es + [e], s)
  {
    forall id | id in s.outstanding
      ensures LoggedIn(es + [e], id)
    {
      LoggedInNext(es, e, id);
    }
  }

  lemma UnprunedNext(es: seq<Event>, e: Event)
    ensures After(es + [e]) == Apply(After(es), e)
    ensures After(Unpruned(es + [e])) == if e.Prune? then After(Unpruned(es)) else Apply(After(Unpruned(es)), e)
  {
    assert (es + [e])[..|es|] == es;
    if e.Prune? {
      assert Unpruned(es + [e]) == Unpruned(es);
    } else {
      assert Unpruned(es + [e])[..|Unpruned(es)|] == Unpruned(es);
    }
  }

  lemma {:induction false} PrunedAgrees(es: seq<Event>)
    requires Sane(es)
    ensures Agree(es, After(es), After(Unpruned(es)))
  {
    if es != [] {
      var init, e := es[..|es| - 1], es[|es| - 1];
      assert es == init + [e];
      PrunedAgrees(init);
      UnprunedNext(init, e);
      StepAgrees(init, After(init), After(Unpruned(init)), e);
    }
  }

  /** Pruning expired rows, at any points of a run, never changes which sessions are usable. */
  lemma PruningIsInvisible(es: seq<Event>, now: Time)
    requires Sane(es) && Clock(es) <= now
    ensures Usable(After(es), now) == Usable(After(Unpruned(es)), now)
  {
    PrunedAgrees(es);
  }

  /** A session that is not usable never becomes usable again. */
  lemma {:induction false} DeadStaysDead(es: seq<Event>, more: seq<Event>, id: TokenId, now: Time, later: Time)
    requires Sane(es + more) && LoggedIn(es, id) && now <= later
    requires id !in Usable(After(es), now)
    ensures id !in Usable(After(es + more), later)
    decreases |more|
  {
    if more == [] {
      assert es + more == es;
    } else {
      var init, e := more[..|more| - 1], more[|more| - 1];
      assert es + more == (es + init) + [e];
      assert (es + more)[..|es + more| - 1] == es + init;
      assert Sane(es + init) by {
        assert forall i :: 0 <= i < |es + init| ==> (es + init)[i] == (es + more)[i];
      }
      DeadStaysDead(es, init, id, now, later);
      if e.Login? {
        var i :| 0 <= i < |es| && es[i].Login? && es[i].id == id;
        assert (es + more)[i] == es[i] && (es + more)[|es + init|] == e;
      }
    }
  }

  // ---------------------------------------------------------------- usable, told by the history

  /** The event ends the sessions of this token. */
  predicate Ends(e: Event, t: Token) {
    match e
    case RevokeAll(user, keepJti, _) =>
      t.user == user && !(keepJti.Some? && keepJti.value != "" && t.jti == keepJti.value)
    case RevokeEvery(user, _) => t.user == user
    case Login(_, _, _) => false
    case Prune(_) => false
  }

  /** Event `i` began this session, the token outlives `now`, and no later event ended it. */
  ghost predicate BegunAndNotEnded(es: seq<Event>, id: TokenId, now: Time, i: int) {
    && 0 <= i < |es| && es[i].Login? && es[i].id == id && es[i].token.expiresAt > now
    && forall k :: i < k < |es| ==> !Ends(es[k], es[i].token)
  }

  lemma {:induction false} OnlyKnown(es: seq<Event>)
    ensures Known(es, After(es))
  {
    if es != [] {
      var n := |es| - 1;
      OnlyKnown(es[..n]);
      assert es == es[..n] + [es[n]];
      StepKnown(es[..n], After(es[..n]), es[n]);
    }
  }

  lemma StepUsable(s: Tables, e: Event, id: TokenId, t: Token, now: Time)
    requires e.now <= now && t.expiresAt > now && !(e.Login? && e.id == id)
    requires id in s.outstanding ==> s.outstanding[id] == t
    ensures var s' := Apply(s, e);
            && (id in s'.outstanding ==> s'.outstanding[id] == t)
            && (id in Usable(s', now) <==> id in Usable(s, now) && !Ends(e, t))
  {
  }

  lemma LoginUsable(s: Tables, e: Event, now: Time)
    requires e.Login? && e.id !in s.outstanding && s.blacklisted <= s.outstanding.Keys
    ensures var s' := Apply(s, e);
            && e.id in s'.outstanding && s'.outstanding[e.id] == e.token
            && (e.id in Usable(s', now) <==> e.token.expiresAt > now)
  {
  }

  /** Seen from the event that began it, a session is usable exactly while nothing ended it. */
  lemma {:induction false} UsableSince(es: seq<Event>, i: nat, now: Time)
    requires Sane(es) && i < |es| && es[i].Login? && Clock(es) <= now && es[i].token.expiresAt > now
    ensures var s, id := After(es), es[i].id;
            && (id in s.outstanding ==> s.outstanding[id] == es[i].token)
            && (id in Usable(s, now) <==> forall k :: i < k < |es| ==> !Ends(es[k], es[i].token))
    decreases |es|
  {
    var n := |es| - 1;
    var init, e := es[..n], es[n];
    assert es == init + [e];
    if i == n {
      OnlyKnown(init);
      NewId(init, e);
      LoginUsable(After(init), e, now);
    } else {
      ClockRises(init, e);
      assert Sane(init) && init[i] == es[i];
      UsableSince(init, i, now);
      assert !(e.Login? && e.id == es[i].id);
      StepUsable(After(init), e, es[i].id, es[i].token, now);
      NotEndedSplit(init, e, i, es[i].token);
    }
  }

  lemma NotEndedSplit(es: seq<Event>, e: Event, i: int, t: Token)
    requires 0 <= i < |es|
    ensures (forall k :: i < k < |es + [e]| ==> !Ends((es + [e])[k], t)) <==>
            (forall k :: i < k < |es| ==> !Ends(es[k], t)) && !Ends(e, t)
  {
    assert (es + [e])[|es|] == e && forall k :: 0 <= k < |es| ==> (es + [e])[k] == es[k];
  }

  lemma {:induction false} ExpiredNotUsable(es: seq<Event>, i: nat, now: Time)
    requires Sane(es) && i < |es| && es[i].Login? && es[i].token.expiresAt <= now
    ensures es[i].id !in Usable(After(es), now)
    decreases |es|
  {
    var n := |es| - 1;
    if i < n {
      assert es[..n][i] == es[i] && Sane(es[..n]);
      ExpiredNotUsable(es[..n], i, now);
      assert !(es[n].Login? && es[n].id == es[i].id);
    }
  }

  /**
   The tables refine their history: in every run a session is usable exactly when
   it was begun, its token has not expired, and since then no event revoked all
   sessions of its user without sparing it.
   */
  lemma {:induction false} UsableIffBegunAndNotEnded(es: seq<Event>, id: TokenId, now: Time)
    requires Sane(es) && (es != [] ==> es[|es| - 1].now <= now)
    ensures id in Usable(After(es), now) <==> exists i :: BegunAndNotEnded(es, id, now, i)
  {
    forall i: nat | i < |es| && es[i].Login? && es[i].id == id
      ensures id in Usable(After(es), now) <==> BegunAndNotEnded(es, id, now, i)
    {
      if es[i].token.expiresAt > now {
        UsableSince(es, i, now);
      } else {
        ExpiredNotUsable(es, i, now);
      }
    }
    if id in Usable(After(es), now) {
      OnlyKnown(es);
      var i :| 0 <= i < |es| && es[i].Login? && es[i].id == id;
      assert BegunAndNotEnded(es, id, now, i);
    }
  }

  // ---------------------------------------------------------------- whose session

  ghost predicate LoggedInAs(es: seq<Event>, id: TokenId, user: UserId) {
    exists i :: 0 <= i < |es| && es[i].Login? && es[i].id == id && es[i].token.user == user
  }

  /** An outstanding token belongs to who logged in with it. */
  lemma {:induction false} OwnerStays(es: seq<Event>, id: TokenId, user: UserId)
    requires Sane(es) && LoggedInAs(es, id, user) && id in After(es).outstanding
    ensures After(es).outstanding[id].user == user
  {
    var i :| 0 <= i < |es| && es[i].Login? && es[i].id == id && es[i].token.user == user;
    var n := |es| - 1;
    if i < n {
      assert es[..n][i] == es[i];
      OwnerStays(es[..n], id, user);
      assert !(es[n].Login? && es[n].id == id);
    }
  }

  /** When every session of a user is revoked, those logged in until then are never usable again. */
  lemma {:induction false} RevokedEveryIsFinal(es: seq<Event>, user: UserId, at: Time, more: seq<Event>, id: TokenId,
                                               later: Time)
    requires Sane(es + [RevokeEvery(user, at)] + more) && LoggedInAs(es, id, user)
    ensures id !in Usable(After(es + [RevokeEvery(user, at)] + more), later)
  {
    var all, done := es + [RevokeEvery(user, at)] + more, es + [RevokeEvery(user, at)];
    assert all[..|es|] == es && done[..|es|] == es;
    assert Sane(es) by { assert forall i :: 0 <= i < |es| ==> es[i] == all[i]; }
    if id in After(es).outstanding { OwnerStays(es, id, user); }
    assert id !in Usable(After(done), later);
    assert LoggedIn(done, id) by {
      var i :| 0 <= i < |es| && es[i].Login? && es[i].id == id && es[i].token.user == user;
      assert done[i] == es[i];
    }
    DeadStaysDead(done, more, id, later, later);
  }
}
