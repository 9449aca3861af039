/**
 One-time credentials: a growing table of hashed tokens that is invalidated,
 added to, consumed from and swept.  What the table is for is told by the history
 of calls alone; here the table is proved to tell it.

 Random values, hashing and the clock are parameters: `raw` is the value drawn,
 `id` the row's drawn primary key, `digest` any injective function, and `now` the
 clock reading of the call.
 */
module OneTimeTokens {
  import opened Wrappers

  type UserId = nat
  type RowId = nat
  type Time = int

  datatype Purpose = PasswordReset | EmailVerify

  const MINUTE := 60
  const DAY := 24 * 60 * MINUTE
  const RETENTION := 7 * DAY

  function Ttl(p: Purpose): nat {
    match p
    case PasswordReset => 30 * MINUTE
    case EmailVerify => DAY
  }

  datatype Row = Row(user: UserId, purpose: Purpose, tokenHash: string, expiresAt: Time, consumedAt: Option<Time>)

  type Table = map<RowId, Row>

  predicate Outstanding(r: Row, user: UserId, purpose: Purpose) {
    r.user == user && r.purpose == purpose && r.consumedAt.None?
  }

  predicate Matches(r: Row, purpose: Purpose, hash: string, now: Time) {
    r.purpose == purpose && r.tokenHash == hash && r.consumedAt.None? && r.expiresAt > now
  }

  function Used(r: Row, now: Time): Row {
    r.(consumedAt := Some(now))
  }

  /** Outstanding tokens of the same purpose are used up. */
  function Invalidated(rows: Table, user: UserId, purpose: Purpose, now: Time): Table {
    map id | id in rows :: if Outstanding(rows[id], user, purpose) then Used(rows[id], now) else rows[id]
  }

  function Issued(rows: Table, digest: string -> string, user: UserId, purpose: Purpose, raw: string, id: RowId,
                  now: Time): Table
  {
    Invalidated(rows, user, purpose, now)[id := Row(user, purpose, digest(raw), now + Ttl(purpose), None)]
  }

  /** One matching row, whichever the database picks, is used; without a match nothing happens. */
  ghost predicate Consumes(rows: Table, rows': Table, digest: string -> string, raw: string, purpose: Purpose,
                           now: Time, result: Option<UserId>)
  {
    match result
    case None => rows' == rows && forall id :: id in rows ==> !Matches(rows[id], purpose, digest(raw), now)
    case Some(u) => exists id :: UsesRow(rows, rows', id, digest(raw), purpose, now, u)
  }

  ghost predicate UsesRow(rows: Table, rows': Table, id: RowId, hash: string, purpose: Purpose, now: Time,
                          user: UserId)
  {
    && id in rows && Matches(rows[id], purpose, hash, now)
    && rows[id].user == user && rows' == rows[id := Used(rows[id], now)]
  }

  /** The retention sweep keeps what expired less than seven days ago, or not at all. */
  function Swept(rows: Table, now: Time): Table {
    map id | id in rows && rows[id].expiresAt >= now - RETENTION :: rows[id]
  }

  lemma SweptExact(rows: Table, now: Time)
    ensures forall id :: id in Swept(rows, now) <==> id in rows && rows[id].expiresAt >= now - 7 * 24 * 60 * 60
    ensures forall id :: id in Swept(rows, now) ==> Swept(rows, now)[id] == rows[id]
  {
  }

  class TokenStore {
    const digest: string -> string
    var rows: Table

    constructor (digest: string -> string)
      ensures this.digest == digest && rows == map[]
    {
      this.digest := digest;
      rows := map[];
    }

    method Issue(user: UserId, purpose: Purpose, raw: string, id: RowId, now: Time)
      requires id !in rows
      modifies this`rows
      ensures rows == Issued(old(rows), digest, user, purpose, raw, id, now)
      ensures Next(old(rows), rows, digest, Event.Issue(user, purpose, raw, id, now))
      ensures rows.Keys == old(rows).Keys + {id}
      ensures rows[id] ==
              Row(user, purpose, digest(raw), now + (if purpose.PasswordReset? then 30 * 60 else 24 * 60 * 60), None)
      ensures forall i :: i in old(rows) ==>
                var was := old(rows)[i];
                rows[i] == if was.user == user && was.purpose == purpose && was.consumedAt == None
                           then was.(consumedAt := Some(now)) else was
    {
      rows := map i | i in rows :: if Outstanding(rows[i], user, purpose)
          then rows[i].(consumedAt := Some(now)) else rows[i];
      rows := rows[id := Row(user, purpose, digest(raw), now + Ttl(purpose), None)];
    }

    method Consume(raw: string, purpose: Purpose, now: Time) returns (user: Option<UserId>)
      modifies this`rows
      ensures Consumes(old(rows), rows, digest, raw, purpose, now, user)
      ensures Next(old(rows), rows, digest, Event.Consume(raw, purpose, now, user))
      ensures user == None ==>
                && rows == old(rows)
                && forall id :: id in rows ==>
                     !(&& rows[id].purpose == purpose && rows[id].tokenHash == digest(raw)
                       && rows[id].consumedAt == None && now < rows[id].expiresAt)
      ensures user.Some? ==>
                exists id :: && id in old(rows) && old(rows)[id].user == user.value
                             && old(rows)[id].purpose == purpose && old(rows)[id].tokenHash == digest(raw)
                             && old(rows)[id].consumedAt == None && now < old(rows)[id].expiresAt
                             && rows == old(rows)[id := old(rows)[id].(consumedAt := Some(now))]
    {
      var hash := digest(raw);
      if id :| id in rows && Matches(rows[id], purpose, hash, now) {
        user := Some(rows[id].user);
        rows := rows[id := rows[id].(consumedAt := Some(now))];
        assert UsesRow(old(rows), rows, id, hash, purpose, now, user.value);
      } else {
        user := None;
      }
    }

    method Sweep(now: Time) returns (purged: nat)
      modifies this`rows
      ensures rows == Swept(old(rows), now) && |rows| + purged == |old(rows)|
      ensures Next(old(rows), rows, digest, Event.Sweep(now))
      ensures forall id :: id in rows <==> id in old(rows) && old(rows)[id].expiresAt >= now - 7 * 24 * 60 * 60
      ensures forall id :: id in rows ==> rows[id] == old(rows)[id]
    {
      var doomed := set id | id in rows && rows[id].expiresAt < now - RETENTION;
      purged := |doomed|;
      SweptExact(rows, now);
      rows := rows - doomed;
      assert old(rows).Keys == rows.Keys + doomed;
    }
  }

  // ---------------------------------------------------------------- histories

  datatype Event =
    | Issue(user: UserId, purpose: Purpose, raw: string, id: RowId, now: Time)
    | Consume(raw: string, purpose: Purpose, now: Time, result: Option<UserId>)
    | Sweep(now: Time)

  ghost predicate Next(rows: Table, rows': Table, digest: string -> string, e: Event) {
    match e
    case Issue(user, purpose, raw, id, now) => id !in rows && rows' == Issued(rows, digest, user, purpose, raw, id, now)
    case Consume(raw, purpose, now, result) => Consumes(rows, rows', digest, raw, purpose, now, result)
    case Sweep(now) => rows' == Swept(rows, now)
  }

  /** `ts` are the tables before, between and after calls that returned what `es` says, starting empty. */
  ghost predicate Runs(digest: string -> string, es: seq<Event>, ts: seq<Table>) {
    && |ts| == |es| + 1 && ts[0] == map[]
    && forall i :: 0 <= i < |es| ==> Next(ts[i], ts[i + 1], digest, es[i])
  }

  ghost predicate Injective(digest: string -> string) {
    forall a, b :: digest(a) == digest(b) ==> a == b
  }

  /** Clocks do not run back and no raw token is drawn twice. */
  ghost predicate Sane(es: seq<Event>) {
    && (forall i, j :: 0 <= i < j < |es| ==> es[i].now <= es[j].now)
    && (forall i, j :: 0 <= i < j < |es| && es[i].Issue? && es[j].Issue? ==> es[i].raw != es[j].raw)
  }

  datatype Credential = Credential(raw: string, expiresAt: Time)

  /**
   What a user holds for a purpose, told by the history alone: the latest issue
   or successful consume for that user and purpose decides.
   */
  function Held(es: seq<Event>, user: UserId, purpose: Purpose): Option<Credential> {
    if es == [] then None
    else
      var e := es[|es| - 1];
      if e.Issue? && e.user == user && e.purpose == purpose then Some(Credential(e.raw, e.now + Ttl(purpose)))
      else if e.Consume? && e.result == Some(user) && e.purpose == purpose then None
      else Held(es[..|es| - 1], user, purpose)
  }

  predicate Entitled(es: seq<Event>, user: UserId, purpose: Purpose, raw: string, now: Time) {
    match Held(es, user, purpose)
    case Some(c) => c.raw == raw && c.expiresAt > now
    case None => false
  }

  // ---------------------------------------------------------------- refinement

  ghost predicate WasIssued(es: seq<Event>, digest: string -> string, hash: string) {
    exists i :: 0 <= i < |es| && es[i].Issue? && digest(es[i].raw) == hash
  }

  /** Unconsumed rows are exactly what is held, except that what has expired may have been swept. */
  ghost predicate Mirrors(digest: string -> string, es: seq<Event>, rows: Table) {
    && RowsAreHeld(digest, es, rows)
    && HeldHasRows(es, rows)
    && HashesDiffer(rows)
    && HashesIssued(digest, es, rows)
  }

  ghost predicate RowsAreHeld(digest: string -> string, es: seq<Event>, rows: Table) {
    forall id :: id in rows && rows[id].consumedAt.None? ==> RowIsHeld(digest, es, rows[id])
  }

  ghost predicate HeldHasRows(es: seq<Event>, rows: Table) {
    forall u, p :: Held(es, u, p).Some? && Unexpired(es, Held(es, u, p).value) ==> HasRow(rows, u, p)
  }

  ghost predicate HashesDiffer(rows: Table) {
    forall i, j :: i in rows && j in rows && rows[i].tokenHash == rows[j].tokenHash ==> i == j
  }

  ghost predicate HashesIssued(digest: string -> string, es: seq<Event>, rows: Table) {
    forall id :: id in rows ==> WasIssued(es, digest, rows[id].tokenHash)
  }

  ghost predicate RowIsHeld(digest: string -> string, es: seq<Event>, r: Row) {
    match Held(es, r.user, r.purpose)
    case Some(c) => r.tokenHash == digest(c.raw) && r.expiresAt == c.expiresAt
    case None => false
  }

  ghost predicate HasRow(rows: Table, u: UserId, p: Purpose) {
    exists id :: id in rows && Outstanding(rows[id], u, p)
  }

  /** Not yet expired at the latest clock reading. */
  predicate Unexpired(es: seq<Event>, c: Credential) {
    es == [] || c.expiresAt > es[|es| - 1].now
  }

  /** A consume succeeds for exactly the user that the history entitles. */
  lemma ConsumeTells(digest: string -> string, es: seq<Event>, rows: Table, rows': Table, e: Event, user: UserId)
    requires Injective(digest) && Mirrors(digest, es, rows) && e.Consume? && Next(rows, rows', digest, e)
    requires es != [] ==> es[|es| - 1].now <= e.now
    ensures e.result == Some(user) <==> Entitled(es, user, e.purpose, e.raw, e.now)
  {
  }

  lemma HeldNext(es: seq<Event>, e: Event, u: UserId, p: Purpose)
    ensures Held(es + [e], u, p) ==
            if e.Issue? && e.user == u && e.purpose == p then Some(Credential(e.raw, e.now + Ttl(p)))
            else if e.Consume? && e.result == Some(u) && e.purpose == p then None
            else Held(es, u, p)
  {
  }

  lemma WasIssuedNext(es: seq<Event>, e: Event, digest: string -> string, hash: string)
    requires WasIssued(es, digest, hash)
    ensures WasIssued(es + [e], digest, hash)
  {
    var i :| 0 <= i < |es| && es[i].Issue? && digest(es[i].raw) == hash;
    assert (es + [e])[i] == es[i];
  }

  lemma HashIsNew(digest: string -> string, es: seq<Event>, rows: Table, e: Event)
    requires Injective(digest) && Sane(es + [e]) && HashesIssued(digest, es, rows) && e.Issue?
    ensures forall id :: id in rows ==> rows[id].tokenHash != digest(e.raw)
  {
    forall id | id in rows
      ensures rows[id].tokenHash != digest(e.raw)
    {
      var i :| 0 <= i < |es| && es[i].Issue? && digest(es[i].raw) == rows[id].tokenHash;
      assert (es + [e])[i] == es[i] && (es + [e])[|es|] == e;
    }
  }

  lemma StillUnexpired(es: seq<Event>, e: Event, c: Credential)
    requires Sane(es + [e]) && c.expiresAt > e.now
    ensures Unexpired(es, c)
  {
    if es != [] {
      assert (es + [e])[|es| - 1] == es[|es| - 1] && (es + [e])[|es|] == e;
    }
  }

  /** Issuing touches no other user's or purpose's outstanding row. */
  lemma IssueKeepsRow(digest: string -> string, rows: Table, rows': Table, e: Event, u: UserId, p: Purpose)
    requires e.Issue? && Next(rows, rows', digest, e)
    requires (e.user == u && e.purpose == p) || HasRow(rows, u, p)
    ensures HasRow(rows', u, p)
  {
    if e.user == u && e.purpose == p {
      assert Outstanding(rows'[e.id], u, p);
    } else {
      var id :| id in rows && Outstanding(rows[id], u, p);
      assert Outstanding(rows'[id], u, p);
    }
  }

  lemma IssueHeldRows(digest: string -> string, es: seq<Event>, rows: Table, rows': Table, e: Event)
    requires RowsAreHeld(digest, es, rows) && e.Issue? && Next(rows, rows', digest, e)
    ensures RowsAreHeld(digest, es + [e], rows')
  {
  }

  lemma IssueRowsHeld(digest: string -> string, es: seq<Event>, rows: Table, rows': Table, e: Event)
    requires Sane(es + [e]) && HeldHasRows(es, rows) && e.Issue? && Next(rows, rows', digest, e)
    ensures HeldHasRows(es + [e], rows')
  {
    forall u, p | Held(es + [e], u, p).Some? && Unexpired(es + [e], Held(es + [e], u, p).value)
      ensures HasRow(rows', u, p)
    {
      HeldNext(es, e, u, p);
      StillUnexpired(es, e, Held(es + [e], u, p).value);
      IssueKeepsRow(digest, rows, rows', e, u, p);
    }
  }

  lemma IssueHashesDiffer(digest: string -> string, rows: Table, rows': Table, e: Event)
    requires e.Issue? && Next(rows, rows', digest, e) && HashesDiffer(rows)
    requires forall id :: id in rows ==> rows[id].tokenHash != digest(e.raw)
    ensures HashesDiffer(rows')
  {
  }

  lemma IssueHashesIssued(digest: string -> string, es: seq<Event>, rows: Table, rows': Table, e: Event)
    requires e.Issue? && Next(rows, rows', digest, e) && HashesIssued(digest, es, rows)
    ensures HashesIssued(digest, es + [e], rows')
  {
    forall id | id in rows'
      ensures WasIssued(es + [e], digest, rows'[id].tokenHash)
    {
      if id == e.id {
        assert (es + [e])[|es|] == e;
      } else {
        WasIssuedNext(es, e, digest, rows[id].tokenHash);
      }
    }
  }

  lemma IssueMirrors(digest: string -> string, es: seq<Event>, rows: Table, rows': Table, e: Event)
    requires Injective(digest) && Sane(es + [e]) && Mirrors(digest, es, rows) && e.Issue?
             && Next(rows, rows', digest, e)
    ensures Mirrors(digest, es + [e], rows')
  {
    IssueHeldRows(digest, es, rows, rows', e);
    IssueRowsHeld(digest, es, rows, rows', e);
    HashIsNew(digest, es, rows, e);
    IssueHashesDiffer(digest, rows, rows', e);
    IssueHashesIssued(digest, es, rows, rows', e);
  }

  /** The hashes of the rows that stay are those that were there. */
  lemma HashesStay(digest: string -> string, es: seq<Event>, rows: Table, rows': Table, e: Event)
    requires HashesDiffer(rows) && HashesIssued(digest, es, rows)
    requires forall id :: id in rows' ==> id in rows && rows'[id].tokenHash == rows[id].tokenHash
    ensures HashesDiffer(rows') && HashesIssued(digest, es + [e], rows')
  {
    forall id | id in rows'
      ensures WasIssued(es + [e], digest, rows'[id].tokenHash)
    {
      WasIssuedNext(es, e, digest, rows[id].tokenHash);
    }
  }

  lemma UseHeldRows(digest: string -> string, es: seq<Event>, rows: Table, rows': Table, e: Event, used: RowId,
                    user: UserId)
    requires RowsAreHeld(digest, es, rows) && HashesDiffer(rows) && e.Consume? && e.result == Some(user)
    requires UsesRow(rows, rows', used, digest(e.raw), e.purpose, e.now, user)
    ensures RowsAreHeld(digest, es + [e], rows')
  {
  }

  lemma UseRowsHeld(digest: string -> string, es: seq<Event>, rows: Table, rows': Table, e: Event, used: RowId,
                    user: UserId)
    requires Sane(es + [e]) && HeldHasRows(es, rows) && e.Consume? && e.result == Some(user)
    requires UsesRow(rows, rows', used, digest(e.raw), e.purpose, e.now, user)
    ensures HeldHasRows(es + [e], rows')
  {
    forall u, p | Held(es + [e], u, p).Some? && Unexpired(es + [e], Held(es + [e], u, p).value)
      ensures HasRow(rows', u, p)
    {
      HeldNext(es, e, u, p);
      StillUnexpired(es, e, Held(es + [e], u, p).value);
      var id :| id in rows && Outstanding(rows[id], u, p);
      assert Outstanding(rows'[id], u, p);
    }
  }

  lemma UseMirrors(digest: string -> string, es: seq<Event>, rows: Table, rows': Table, e: Event, used: RowId,
                   user: UserId)
    requires Sane(es + [e]) && Mirrors(digest, es, rows) && e.Consume? && e.result == Some(user)
    requires UsesRow(rows, rows', used, digest(e.raw), e.purpose, e.now, user)
    ensures Mirrors(digest, es + [e], rows')
  {
    UseHeldRows(digest, es, rows, rows', e, used, user);
    UseRowsHeld(digest, es, rows, rows', e, used, user);
    HashesStay(digest, es, rows, rows', e);
  }

  lemma PassHeldRows(digest: string -> string, es: seq<Event>, rows: Table, rows': Table, e: Event)
    requires RowsAreHeld(digest, es, rows) && Next(rows, rows', digest, e)
    requires e.Sweep? || (e.Consume? && e.result.None?)
    ensures RowsAreHeld(digest, es + [e], rows')
  {
  }

  lemma PassRowsHeld(digest: string -> string, es: seq<Event>, rows: Table, rows': Table, e: Event)
    requires Sane(es + [e]) && RowsAreHeld(digest, es, rows) && HeldHasRows(es, rows) && Next(rows, rows', digest, e)
    requires e.Sweep? || (e.Consume? && e.result.None?)
    ensures HeldHasRows(es + [e], rows')
  {
    forall u, p | Held(es + [e], u, p).Some? && Unexpired(es + [e], Held(es + [e], u, p).value)
      ensures HasRow(rows', u, p)
    {
      HeldNext(es, e, u, p);
      StillUnexpired(es, e, Held(es + [e], u, p).value);
      var id :| id in rows && Outstanding(rows[id], u, p);
      assert RowIsHeld(digest, es, rows[id]);
      assert Outstanding(rows'[id], u, p);
    }
  }

  /** A sweep, or a consume that finds nothing, leaves what is held as it was and drops only expired rows. */
  lemma PassMirrors(digest: string -> string, es: seq<Event>, rows: Table, rows': Table, e: Event)
    requires Sane(es + [e]) && Mirrors(digest, es, rows) && Next(rows, rows', digest, e)
    requires e.Sweep? || (e.Consume? && e.result.None?)
    ensures Mirrors(digest, es + [e], rows')
  {
    PassHeldRows(digest, es, rows, rows', e);
    PassRowsHeld(digest, es, rows, rows', e);
    HashesStay(digest, es, rows, rows', e);
  }

  /** Every call keeps the table a mirror of its history. */
  lemma NextMirrors(digest: string -> string, es: seq<Event>, rows: Table, rows': Table, e: Event)
    requires Injective(digest) && Sane(es + [e]) && Mirrors(digest, es, rows) && Next(rows, rows', digest, e)
    ensures Mirrors(digest, es + [e], rows')
  {
    if e.Issue? {
      IssueMirrors(digest, es, rows, rows', e);
    } else if e.Consume? && e.result.Some? {
      var id :| UsesRow(rows, rows', id, digest(e.raw), e.purpose, e.now, e.result.value);
      UseMirrors(digest, es, rows, rows', e, id, e.result.value);
    } else {
      PassMirrors(digest, es, rows, rows', e);
    }
  }

  lemma SanePrefix(es: seq<Event>, n: nat)
    requires Sane(es) && n <= |es|
    ensures Sane(es[..n])
  {
  }

  lemma {:induction false} RunMirrors(digest: string -> string, es: seq<Event>, ts: seq<Table>, n: nat)
    requires Injective(digest) && Sane(es) && Runs(digest, es, ts) && n <= |es|
    ensures Mirrors(digest, es[..n], ts[n])
  {
    if n > 0 {
      RunMirrors(digest, es, ts, n - 1);
      var e := es[n - 1];
      assert es[..n] == es[..n - 1] + [e];
      SanePrefix(es, n);
      assert Next(ts[n - 1], ts[n], digest, e);
      NextMirrors(digest, es[..n - 1], ts[n - 1], ts[n], e);
    }
  }

  /**
   The table refines its history: in every run, a consume returns a user exactly
   when the latest issue or successful consume for that user and purpose is the
   issue that returned this raw token, and its lifetime has not passed.
   */
  lemma ConsumeIffEntitled(digest: string -> string, es: seq<Event>, ts: seq<Table>, i: nat, user: UserId)
    requires Injective(digest) && Sane(es) && Runs(digest, es, ts)
    requires i < |es| && es[i].Consume?
    ensures es[i].result == Some(user) <==> Entitled(es[..i], user, es[i].purpose, es[i].raw, es[i].now)
  {
    RunMirrors(digest, es, ts, i);
    assert Next(ts[i], ts[i + 1], digest, es[i]);
    ConsumeTells(digest, es[..i], ts[i], ts[i + 1], es[i], user);
  }

  lemma NothingHeldNoRow(digest: string -> string, es: seq<Event>, rows: Table, u: UserId, p: Purpose)
    requires Mirrors(digest, es, rows) && Held(es, u, p).None?
    ensures !HasRow(rows, u, p)
  {
  }

  /** A user has at most one outstanding row for a purpose. */
  lemma OneOutstanding(digest: string -> string, es: seq<Event>, ts: seq<Table>, n: nat, i: RowId, j: RowId,
                       u: UserId, p: Purpose)
    requires Injective(digest) && Sane(es) && Runs(digest, es, ts) && n <= |es|
    requires i in ts[n] && j in ts[n] && Outstanding(ts[n][i], u, p) && Outstanding(ts[n][j], u, p)
    ensures i == j
  {
    RunMirrors(digest, es, ts, n);
    assert RowIsHeld(digest, es[..n], ts[n][i]) && RowIsHeld(digest, es[..n], ts[n][j]);
  }

  ghost predicate IssuedTo(es: seq<Event>, u: UserId, p: Purpose, raw: string) {
    exists i :: 0 <= i < |es| && es[i].Issue? && es[i].user == u && es[i].purpose == p && es[i].raw == raw
  }

  /** What is held was issued to its holder. */
  lemma {:induction false} HeldIsIssued(es: seq<Event>, u: UserId, p: Purpose)
    requires Held(es, u, p).Some?
    ensures IssuedTo(es, u, p, Held(es, u, p).value.raw)
  {
    var init, e := es[..|es| - 1], es[|es| - 1];
    assert es == init + [e];
    HeldNext(init, e, u, p);
    if !(e.Issue? && e.user == u && e.purpose == p) {
      HeldIsIssued(init, u, p);
      var i :| 0 <= i < |init| && init[i].Issue? && init[i].user == u && init[i].purpose == p
               && init[i].raw == Held(es, u, p).value.raw;
      assert es[i] == init[i];
    }
  }

  /** A raw token is issued to one user for one purpose. */
  lemma IssuedOnce(es: seq<Event>, u: UserId, p: Purpose, v: UserId, q: Purpose, raw: string)
    requires Sane(es) && IssuedTo(es, u, p, raw) && IssuedTo(es, v, q, raw)
    ensures u == v && p == q
  {
  }

  /** A token that its user no longer holds is never held again by anyone. */
  lemma {:induction false} SpentStaysSpent(es: seq<Event>, more: seq<Event>, u: UserId, p: Purpose, raw: string,
                                           v: UserId, q: Purpose)
    requires Sane(es + more) && IssuedTo(es, u, p, raw) && Held(es, u, p).None?
    ensures Held(es + more, v, q).Some? ==> Held(es + more, v, q).value.raw != raw
    decreases |more|
  {
    var i :| 0 <= i < |es| && es[i].Issue? && es[i].user == u && es[i].purpose == p && es[i].raw == raw;
    if more == [] {
      assert es + more == es;
      if Held(es, v, q).Some? && Held(es, v, q).value.raw == raw {
        HeldIsIssued(es, v, q);
        IssuedOnce(es, u, p, v, q, raw);
      }
    } else {
      var init, e := more[..|more| - 1], more[|more| - 1];
      assert es + more == (es + init) + [e];
      SanePrefix(es + more, |es + init|);
      assert (es + more)[..|es + init|] == es + init;
      SpentStaysSpent(es, init, u, p, raw, v, q);
      HeldNext(es + init, e, v, q);
      assert (es + more)[i] == es[i] && (es + more)[|es + init|] == e;
    }
  }

  // ---------------------------------------------------------------- how long a token lives

  /** Event `k` takes the place of what the user holds for the purpose, or uses it. */
  predicate Replaces(es: seq<Event>, k: int, user: UserId, purpose: Purpose) {
    && 0 <= k < |es|
    && ((es[k].Issue? && es[k].user == user && es[k].purpose == purpose)
        || (es[k].Consume? && es[k].result == Some(user) && es[k].purpose == purpose))
  }

  /** From its issue on a token is held, for 30 minutes or a day, until something takes its place. */
  lemma {:induction false} HeldSince(es: seq<Event>, j: nat, n: nat)
    requires Sane(es) && j < n <= |es| && es[j].Issue?
    ensures var user, purpose := es[j].user, es[j].purpose;
            var held := Held(es[..n], user, purpose);
            var lifetime := if purpose.PasswordReset? then 30 * 60 else 24 * 60 * 60;
            if exists k :: j < k < n && Replaces(es, k, user, purpose) then held.Some? ==> held.value.raw != es[j].raw
            else held == Some(Credential(es[j].raw, es[j].now + lifetime))
  {
    var user, purpose, m := es[j].user, es[j].purpose, n - 1;
    assert es[..n] == es[..m] + [es[m]];
    HeldNext(es[..m], es[m], user, purpose);
    if j < m {
      HeldSince(es, j, m);
      if Replaces(es, m, user, purpose) {
        assert j < m < n && Replaces(es, m, user, purpose);
      } else {
        assert forall k :: j < k < n && Replaces(es, k, user, purpose) ==> k < m;
      }
    }
  }

  /**
   In every run a token is accepted, by whatever call presents it later for its
   purpose, exactly within 30 minutes of its issue for a password reset, or a day for
   an e-mail verification, and as long as its user was not issued another one for the
   purpose and did not use one.
   */
  lemma {:induction false} TokenAcceptedIff(digest: string -> string, es: seq<Event>, ts: seq<Table>, j: nat, i: nat)
    requires Injective(digest) && Sane(es) && Runs(digest, es, ts) && j < i < |es|
    requires es[j].Issue? && es[i].Consume? && es[i].raw == es[j].raw && es[i].purpose == es[j].purpose
    ensures es[i].result == Some(es[j].user) <==>
            && es[i].now < es[j].now + (if es[j].purpose.PasswordReset? then 30 * 60 else 24 * 60 * 60)
            && !exists k :: j < k < i && Replaces(es, k, es[j].user, es[j].purpose)
    ensures es[i].result.Some? ==> es[i].result == Some(es[j].user)
  {
    HeldSince(es, j, i);
    ConsumeIffEntitled(digest, es, ts, i, es[j].user);
    if es[i].result.Some? {
      var u := es[i].result.value;
      ConsumeIffEntitled(digest, es, ts, i, u);
      HeldIsIssued(es[..i], u, es[i].purpose);
      assert es[..i][j] == es[j];
      assert IssuedTo(es[..i], es[j].user, es[j].purpose, es[j].raw);
      SanePrefix(es, i);
      IssuedOnce(es[..i], es[j].user, es[j].purpose, u, es[i].purpose, es[j].raw);
    }
  }

  // ---------------------------------------------------------------- what a sweep deletes

  /** Event `k` issued this row. */
  predicate IssuedRow(es: seq<Event>, k: int, id: RowId, expiresAt: Time) {
    && 0 <= k < |es| && es[k].Issue? && es[k].id == id
    && expiresAt == es[k].now + if es[k].purpose.PasswordReset? then 30 * 60 else 24 * 60 * 60
  }

  lemma StepExpiry(digest: string -> string, rows: Table, rows': Table, e: Event, id: RowId)
    requires Next(rows, rows', digest, e) && id in rows'
    ensures || (id in rows && rows'[id].expiresAt == rows[id].expiresAt)
            || IssuedRow([e], 0, id, rows'[id].expiresAt)
  {
  }

  lemma {:induction false} RowsAreIssued(digest: string -> string, es: seq<Event>, ts: seq<Table>, n: nat, id: RowId)
    returns (k: int)
    requires Runs(digest, es, ts) && n <= |es| && id in ts[n]
    ensures k < n && IssuedRow(es, k, id, ts[n][id].expiresAt)
  {
    var m := n - 1;
    assert Next(ts[m], ts[m + 1], digest, es[m]);
    StepExpiry(digest, ts[m], ts[m + 1], es[m], id);
    if id in ts[m] && ts[n][id].expiresAt == ts[m][id].expiresAt {
      k := RowsAreIssued(digest, es, ts, m, id);
    } else {
      k := m;
    }
  }

  /**
   Right after a sweep the table holds no token that expired more than seven days ago,
   and none that was issued more than eight days ago.
   */
  lemma {:induction false} SweepForgets(digest: string -> string, es: seq<Event>, ts: seq<Table>, i: nat, id: RowId)
    returns (k: int)
    requires Runs(digest, es, ts) && i < |es| && es[i].Sweep? && id in ts[i + 1]
    ensures ts[i + 1][id].expiresAt >= es[i].now - 7 * 24 * 60 * 60
    ensures IssuedRow(es, k, id, ts[i + 1][id].expiresAt) && es[k].now >= es[i].now - 8 * 24 * 60 * 60
  {
    k := RowsAreIssued(digest, es, ts, i + 1, id);
    assert Next(ts[i], ts[i + 1], digest, es[i]);
  }

  // ---------------------------------------------------------------- the sweep is invisible

  /** The history without its sweeps. */
  function Unswept(es: seq<Event>): seq<Event> {
    if es == [] then []
    else Unswept(es[..|es| - 1]) + (if es[|es| - 1].Sweep? then [] else [es[|es| - 1]])
  }

  /** The calls of a history, without what they returned. */
  function Calls(es: seq<Event>): seq<Event> {
    if es == [] then [] else Calls(es[..|es| - 1]) + [Call(es[|es| - 1])]
  }

  function Call(e: Event): Event {
    if e.Consume? then e.(result := None) else e
  }

  lemma {:induction false} UnsweptHolds(es: seq<Event>, u: UserId, p: Purpose)
    ensures Held(Unswept(es), u, p) == Held(es, u, p)
  {
    if es != [] {
      var init, e := es[..|es| - 1], es[|es| - 1];
      UnsweptHolds(init, u, p);
      if e.Sweep? {
        assert Unswept(es) == Unswept(init);
      } else {
        HeldNext(Unswept(init), e, u, p);
        assert es == init + [e];
        HeldNext(init, e, u, p);
      }
    }
  }

  /** The last call of the history returned what the calls before it entitle. */
  ghost predicate LastTells(es: seq<Event>) {
    es != [] && es[|es| - 1].Consume? ==>
      var e := es[|es| - 1];
      forall u: UserId :: e.result == Some(u) <==> Entitled(es[..|es| - 1], u, e.purpose, e.raw, e.now)
  }

  /** Every call did. */
  ghost predicate Truthful(es: seq<Event>)
    decreases |es|
  {
    LastTells(es) && (es != [] ==> Truthful(es[..|es| - 1]))
  }

  /** The calls alone fix the results, and sweeps between them do not matter. */
  lemma {:induction false} CallsFixResults(es: seq<Event>, fs: seq<Event>)
    requires Truthful(es) && Truthful(fs) && Calls(Unswept(es)) == Calls(Unswept(fs))
    ensures Unswept(es) == Unswept(fs)
    decreases |es| + |fs|
  {
    if es != [] && es[|es| - 1].Sweep? {
      assert Unswept(es) == Unswept(es[..|es| - 1]);
      CallsFixResults(es[..|es| - 1], fs);
    } else if fs != [] && fs[|fs| - 1].Sweep? {
      assert Unswept(fs) == Unswept(fs[..|fs| - 1]);
      CallsFixResults(es, fs[..|fs| - 1]);
    } else if es != [] && fs != [] {
      UnsweptLast(es);
      UnsweptLast(fs);
      CallsLast(Unswept(es[..|es| - 1]), es[|es| - 1], Unswept(fs[..|fs| - 1]), fs[|fs| - 1]);
      CallsFixResults(es[..|es| - 1], fs[..|fs| - 1]);
      LastResultsAgree(es, fs);
    } else {
      assert Calls(Unswept(es)) == [] || Calls(Unswept(fs)) == [];
    }
  }

  lemma {:induction false} CallsLast(a: seq<Event>, e: Event, b: seq<Event>, f: Event)
    requires Calls(a + [e]) == Calls(b + [f])
    ensures Calls(a) == Calls(b) && Call(e) == Call(f)
  {
    assert (a + [e])[..|a|] == a && (b + [f])[..|b|] == b;
    var x, y := Calls(a + [e]), Calls(b + [f]);
    assert x == Calls(a) + [Call(e)] && y == Calls(b) + [Call(f)];
    assert x[..|x| - 1] == Calls(a) && y[..|y| - 1] == Calls(b);
    assert x[|x| - 1] == Call(e) && y[|y| - 1] == Call(f);
  }

  lemma UnsweptLast(es: seq<Event>)
    requires es != [] && !es[|es| - 1].Sweep?
    ensures Unswept(es) == Unswept(es[..|es| - 1]) + [es[|es| - 1]]
  {
  }

  lemma {:induction false} LastResultsAgree(es: seq<Event>, fs: seq<Event>)
    requires Truthful(es) && Truthful(fs) && es != [] && fs != []
    requires Unswept(es[..|es| - 1]) == Unswept(fs[..|fs| - 1])
    requires Call(es[|es| - 1]) == Call(fs[|fs| - 1])
    ensures es[|es| - 1] == fs[|fs| - 1]
  {
    var e, f := es[|es| - 1], fs[|fs| - 1];
    if !e.Consume? { return; }
    forall u: UserId
      ensures e.result == Some(u) <==> f.result == Some(u)
    {
      UnsweptHolds(es[..|es| - 1], u, e.purpose);
      UnsweptHolds(fs[..|fs| - 1], u, e.purpose);
    }
    if e.result.Some? { assert f.result == Some(e.result.value); }
    if f.result.Some? { assert e.result == Some(f.result.value); }
  }

  /**
   Retention sweeps are invisible: two runs of the same calls, with sweeps
   anywhere between them, return the same results.
   */
  lemma SweepsAreInvisible(digest: string -> string, es: seq<Event>, ts: seq<Table>, fs: seq<Event>, us: seq<Table>)
    requires Injective(digest) && Sane(es) && Sane(fs) && Runs(digest, es, ts) && Runs(digest, fs, us)
    requires Calls(Unswept(es)) == Calls(Unswept(fs))
    ensures Unswept(es) == Unswept(fs)
  {
    RunIsTruthful(digest, es, ts);
    RunIsTruthful(digest, fs, us);
    CallsFixResults(es, fs);
  }

  lemma {:induction false} RunIsTruthful(digest: string -> string, es: seq<Event>, ts: seq<Table>)
    requires Injective(digest) && Sane(es) && Runs(digest, es, ts)
    ensures Truthful(es)
    decreases |es|
  {
    if es != [] {
      var n := |es| - 1;
      SanePrefix(es, n);
      RunIsTruthful(digest, es[..n], ts[..n + 1]);
      if es[n].Consume? {
        forall u: UserId
          ensures es[n].result == Some(u) <==> Entitled(es[..n], u, es[n].purpose, es[n].raw, es[n].now)
        {
          ConsumeIffEntitled(digest, es, ts, n, u);
        }
      }
    }
  }
}
