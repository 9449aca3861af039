/**
 Many callers consuming tokens at the same time, beside concurrent issues and
 sweeps.  A caller locks a row that still matches, marks it used in its own
 transaction, and commits or aborts; the two statements of an issue are two
 separate steps, because nothing makes them one.
 */
module TokenRaces {
  import opened Wrappers
  import opened OneTimeTokens

  type TxId = nat

  datatype Phase = Waiting | Holding(id: RowId) | Written(id: RowId, at: Time)

  datatype Caller = Caller(raw: string, purpose: Purpose, phase: Phase)

  /** What a raw token was issued for, and what it was accepted for. */
  datatype Grant = Grant(user: UserId, purpose: Purpose)

  datatype Win = Win(raw: string, grant: Grant)

  /** `issued` are all raw tokens ever drawn, `wins` the tokens returned to callers that committed. */
  datatype State = State(rows: Table, active: map<TxId, Caller>, issued: map<string, Grant>, wins: seq<Win>)

  datatype Event =
    | Start(t: TxId, raw: string, purpose: Purpose)
    | Lock(t: TxId, row: RowId, now: Time)
    | Miss(t: TxId, now: Time)
    | Write(t: TxId, now: Time)
    | Commit(t: TxId)
    | Abort(t: TxId)
    | Invalidate(user: UserId, purpose: Purpose, now: Time)
    | Create(user: UserId, purpose: Purpose, raw: string, row: RowId, now: Time)
    | Sweep(now: Time)

  ghost predicate Locked(s: State, id: RowId) {
    exists t :: t in s.active && Owns(s.active[t], id)
  }

  predicate Owns(c: Caller, id: RowId) {
    !c.phase.Waiting? && c.phase.id == id
  }

  /** A statement that meets a locked row waits, so it is not enabled. */
  ghost predicate Enabled(s: State, digest: string -> string, e: Event) {
    match e
    case Start(t, _, _) => t !in s.active
    case Lock(t, id, now) =>
      && t in s.active && s.active[t].phase.Waiting? && id in s.rows && !Locked(s, id)
      && Matches(s.rows[id], s.active[t].purpose, digest(s.active[t].raw), now)
    case Miss(t, now) =>
      && t in s.active && s.active[t].phase.Waiting?
      && forall id :: id in s.rows ==> !Matches(s.rows[id], s.active[t].purpose, digest(s.active[t].raw), now)
    case Write(t, _) => t in s.active && s.active[t].phase.Holding?
    case Commit(t) => t in s.active && s.active[t].phase.Written? && s.active[t].phase.id in s.rows
    case Abort(t) => t in s.active
    case Invalidate(user, purpose, _) =>
      forall id :: id in s.rows && Outstanding(s.rows[id], user, purpose) ==> !Locked(s, id)
    case Create(_, _, raw, id, _) => raw !in s.issued && id !in s.rows
    case Sweep(now) => forall id :: id in s.rows && id !in Swept(s.rows, now) ==> !Locked(s, id)
  }

  ghost function Do(s: State, digest: string -> string, e: Event): State
    requires Enabled(s, digest, e)
  {
    match e
    case Start(t, raw, purpose) => s.(active := s.active[t := Caller(raw, purpose, Waiting)])
    case Lock(t, id, _) => s.(active := s.active[t := s.active[t].(phase := Holding(id))])
    case Miss(t, _) => s.(active := s.active - {t})
    case Write(t, now) => s.(active := s.active[t := s.active[t].(phase := Written(s.active[t].phase.id, now))])
    case Commit(t) =>
      var c := s.active[t];
      var row := s.rows[c.phase.id];
      s.(rows := s.rows[c.phase.id := Used(row, c.phase.at)], active := s.active - {t},
         wins := s.wins + [Win(c.raw, Grant(row.user, c.purpose))])
    case Abort(t) => s.(active := s.active - {t})
    case Invalidate(user, purpose, now) => s.(rows := Invalidated(s.rows, user, purpose, now))
    case Create(user, purpose, raw, id, now) =>
      s.(rows := s.rows[id := Row(user, purpose, digest(raw), now + Ttl(purpose), None)],
         issued := s.issued[raw := Grant(user, purpose)])
    case Sweep(now) => s.(rows := Swept(s.rows, now))
  }

  const INITIAL := State(map[], map[], map[], [])

  ghost function After(digest: string -> string, es: seq<Event>): Option<State> {
    if es == [] then Some(INITIAL)
    else
      match After(digest, es[..|es| - 1])
      case Some(s) => if Enabled(s, digest, es[|es| - 1]) then Some(Do(s, digest, es[|es| - 1])) else None
      case None => None
  }

  // ---------------------------------------------------------------- the invariant

  /** No usable row is left for the token. */
  ghost predicate Spent(rows: Table, digest: string -> string, raw: string) {
    forall id :: id in rows && rows[id].tokenHash == digest(raw) ==> rows[id].consumedAt.Some?
  }

  /** The row is for what its token was issued for. */
  ghost predicate FromIssued(issued: map<string, Grant>, digest: string -> string, r: Row) {
    exists raw :: raw in issued && digest(raw) == r.tokenHash && issued[raw] == Grant(r.user, r.purpose)
  }

  predicate Earned(issued: map<string, Grant>, w: Win) {
    w.raw in issued && issued[w.raw] == w.grant
  }

  ghost predicate RowsOk(rows: Table, issued: map<string, Grant>, digest: string -> string) {
    && (forall i, j :: i in rows && j in rows && rows[i].tokenHash == rows[j].tokenHash ==> i == j)
    && (forall id :: id in rows ==> FromIssued(issued, digest, rows[id]))
  }

  /** Each holder has its own row, which is unused and its own token's. */
  ghost predicate HoldersOk(rows: Table, active: map<TxId, Caller>, digest: string -> string) {
    && (forall t, u, id :: t in active && u in active && Owns(active[t], id) && Owns(active[u], id) ==> t == u)
    && (forall t :: t in active && !active[t].phase.Waiting? ==> Holds(rows, active[t], digest))
  }

  ghost predicate Holds(rows: Table, c: Caller, digest: string -> string)
    requires !c.phase.Waiting?
  {
    && c.phase.id in rows && rows[c.phase.id].consumedAt.None?
    && rows[c.phase.id].tokenHash == digest(c.raw) && rows[c.phase.id].purpose == c.purpose
  }

  ghost predicate WinsOk(rows: Table, issued: map<string, Grant>, wins: seq<Win>, digest: string -> string) {
    WinsSpent(rows, issued, wins, digest) && WinsDiffer(wins)
  }

  ghost predicate WinsSpent(rows: Table, issued: map<string, Grant>, wins: seq<Win>, digest: string -> string) {
    forall i :: 0 <= i < |wins| ==> Earned(issued, wins[i]) && Spent(rows, digest, wins[i].raw)
  }

  predicate WinsDiffer(wins: seq<Win>) {
    forall i, j :: 0 <= i < j < |wins| ==> wins[i].raw != wins[j].raw
  }

  ghost predicate Inv(s: State, digest: string -> string) {
    RowsOk(s.rows, s.issued, digest) && HoldersOk(s.rows, s.active, digest) && WinsOk(s.rows, s.issued, s.wins, digest)
  }

  /** The table after some rows were used up or dropped. */
  ghost predicate OnlyUses(rows: Table, rows': Table) {
    forall id :: id in rows' ==>
      && id in rows && rows'[id].user == rows[id].user && rows'[id].purpose == rows[id].purpose
      && rows'[id].tokenHash == rows[id].tokenHash && (rows[id].consumedAt.Some? ==> rows'[id].consumedAt.Some?)
  }

  lemma UsesKeep(rows: Table, rows': Table, issued: map<string, Grant>, wins: seq<Win>, digest: string -> string)
    requires RowsOk(rows, issued, digest) && WinsOk(rows, issued, wins, digest) && OnlyUses(rows, rows')
    ensures RowsOk(rows', issued, digest) && WinsOk(rows', issued, wins, digest)
  {
  }

  lemma CommitKeeps(s: State, digest: string -> string, t: TxId)
    requires Injective(digest) && Inv(s, digest) && Enabled(s, digest, Commit(t))
    ensures Inv(Do(s, digest, Commit(t)), digest)
  {
    var s' := Do(s, digest, Commit(t));
    UsesKeep(s.rows, s'.rows, s.issued, s.wins, digest);
    CommitWins(s, digest, t);
    CommitHolders(s, digest, t);
  }

  lemma CommitHolders(s: State, digest: string -> string, t: TxId)
    requires Inv(s, digest) && Enabled(s, digest, Commit(t))
    ensures HoldersOk(Do(s, digest, Commit(t)).rows, Do(s, digest, Commit(t)).active, digest)
  {
    var id := s.active[t].phase.id;
    forall u | u in s.active && u != t && !s.active[u].phase.Waiting?
      ensures s.active[u].phase.id != id
    {
      assert Owns(s.active[u], s.active[u].phase.id) && Owns(s.active[t], id);
    }
  }

  /** The token that is returned was not returned before. */
  lemma CommitWins(s: State, digest: string -> string, t: TxId)
    requires Injective(digest) && Inv(s, digest) && Enabled(s, digest, Commit(t))
    requires WinsOk(Do(s, digest, Commit(t)).rows, s.issued, s.wins, digest)
    ensures WinsOk(Do(s, digest, Commit(t)).rows, s.issued, Do(s, digest, Commit(t)).wins, digest)
  {
    var c, rows' := s.active[t], Do(s, digest, Commit(t)).rows;
    var grant := Grant(s.rows[c.phase.id].user, c.purpose);
    HolderEarned(s, digest, t);
    HolderIsNew(s, digest, t);
    OneMoreWin(rows', s.issued, s.wins, digest, Win(c.raw, grant));
  }

  /** What a holder holds was issued for its user, and nobody else can use it once it is used. */
  lemma HolderEarned(s: State, digest: string -> string, t: TxId)
    requires Injective(digest) && Inv(s, digest) && Enabled(s, digest, Commit(t))
    ensures var c := s.active[t];
            && Earned(s.issued, Win(c.raw, Grant(s.rows[c.phase.id].user, c.purpose)))
            && Spent(Do(s, digest, Commit(t)).rows, digest, c.raw)
  {
    var c := s.active[t];
    assert Holds(s.rows, c, digest) && FromIssued(s.issued, digest, s.rows[c.phase.id]);
  }

  lemma HolderIsNew(s: State, digest: string -> string, t: TxId)
    requires Inv(s, digest) && Enabled(s, digest, Commit(t))
    ensures forall i :: 0 <= i < |s.wins| ==> s.wins[i].raw != s.active[t].raw
  {
  }

  lemma OneMoreWin(rows: Table, issued: map<string, Grant>, wins: seq<Win>, digest: string -> string, w: Win)
    requires WinsOk(rows, issued, wins, digest) && Earned(issued, w) && Spent(rows, digest, w.raw)
    requires forall i :: 0 <= i < |wins| ==> wins[i].raw != w.raw
    ensures WinsOk(rows, issued, wins + [w], digest)
  {
  }

  lemma CreateKeeps(s: State, digest: string -> string, e: Event)
    requires Injective(digest) && Inv(s, digest) && Enabled(s, digest, e) && e.Create?
    ensures Inv(Do(s, digest, e), digest)
  {
    NewHash(s, digest, e.raw);
    CreateRows(s, digest, e);
    SameHolders(s.rows, Do(s, digest, e).rows, s.active, digest);
  }

  /** Holders are not disturbed where their rows stay as they were. */
  lemma SameHolders(rows: Table, rows': Table, active: map<TxId, Caller>, digest: string -> string)
    requires HoldersOk(rows, active, digest)
    requires forall t :: t in active && !active[t].phase.Waiting? && active[t].phase.id in rows ==>
                           active[t].phase.id in rows' && rows'[active[t].phase.id] == rows[active[t].phase.id]
    ensures HoldersOk(rows', active, digest)
  {
  }

  lemma NewHash(s: State, digest: string -> string, raw: string)
    requires Injective(digest) && RowsOk(s.rows, s.issued, digest) && raw !in s.issued
    ensures forall id :: id in s.rows ==> s.rows[id].tokenHash != digest(raw)
  {
  }

  lemma CreateRows(s: State, digest: string -> string, e: Event)
    requires Injective(digest) && Inv(s, digest) && Enabled(s, digest, e) && e.Create?
    requires forall id :: id in s.rows ==> s.rows[id].tokenHash != digest(e.raw)
    ensures var s' := Do(s, digest, e);
            RowsOk(s'.rows, s'.issued, digest) && WinsOk(s'.rows, s'.issued, s'.wins, digest)
  {
    var s' := Do(s, digest, e);
    var grant := Grant(e.user, e.purpose);
    assert s'.issued == s.issued[e.raw := grant];
    forall id | id in s'.rows
      ensures FromIssued(s'.issued, digest, s'.rows[id])
    {
      if id == e.row {
        assert e.raw in s'.issued;
      } else {
        IssuedLonger(s.issued, e.raw, grant, digest, s.rows[id]);
      }
    }
    CreateWins(s, digest, e);
  }

  lemma IssuedLonger(issued: map<string, Grant>, raw: string, grant: Grant, digest: string -> string, r: Row)
    requires FromIssued(issued, digest, r) && raw !in issued
    ensures FromIssued(issued[raw := grant], digest, r)
  {
  }

  lemma CreateWins(s: State, digest: string -> string, e: Event)
    requires Injective(digest) && Inv(s, digest) && Enabled(s, digest, e) && e.Create?
    ensures var s' := Do(s, digest, e); WinsOk(s'.rows, s'.issued, s'.wins, digest)
  {
    var s' := Do(s, digest, e);
    forall i | 0 <= i < |s.wins|
      ensures Earned(s'.issued, s.wins[i]) && Spent(s'.rows, digest, s.wins[i].raw)
    {
      assert Earned(s.issued, s.wins[i]) && Spent(s.rows, digest, s.wins[i].raw);
    }
  }

  /** Bulk updates and deletions use rows up or drop them, and wait for locked ones. */
  lemma BulkKeeps(s: State, digest: string -> string, e: Event)
    requires Inv(s, digest) && Enabled(s, digest, e) && (e.Invalidate? || e.Sweep?)
    ensures Inv(Do(s, digest, e), digest)
  {
    var s' := Do(s, digest, e);
    UsesKeep(s.rows, s'.rows, s.issued, s.wins, digest);
    forall t | t in s.active && !s.active[t].phase.Waiting? && s.active[t].phase.id in s.rows
      ensures s.active[t].phase.id in s'.rows && s'.rows[s.active[t].phase.id] == s.rows[s.active[t].phase.id]
    {
      BulkWaits(s, digest, e, t);
    }
    SameHolders(s.rows, s'.rows, s.active, digest);
  }

  lemma BulkWaits(s: State, digest: string -> string, e: Event, t: TxId)
    requires Enabled(s, digest, e) && (e.Invalidate? || e.Sweep?)
    requires t in s.active && !s.active[t].phase.Waiting? && s.active[t].phase.id in s.rows
    ensures var id := s.active[t].phase.id;
            id in Do(s, digest, e).rows && Do(s, digest, e).rows[id] == s.rows[id]
  {
  }

  lemma FreeRow(s: State, id: RowId)
    requires !Locked(s, id)
    ensures forall u :: u in s.active ==> !Owns(s.active[u], id)
  {
  }

  /** A caller's own steps change only who holds what, and a lock is granted only on a free row. */
  lemma CallerKeeps(s: State, digest: string -> string, e: Event)
    requires Inv(s, digest) && Enabled(s, digest, e)
    requires e.Start? || e.Lock? || e.Miss? || e.Write? || e.Abort?
    ensures Inv(Do(s, digest, e), digest)
  {
    if e.Lock? {
      FreeRow(s, e.row);
    }
  }

  lemma {:induction false} AfterKeeps(digest: string -> string, es: seq<Event>)
    requires Injective(digest) && After(digest, es).Some?
    ensures Inv(After(digest, es).value, digest)
  {
    if es != [] {
      AfterKeeps(digest, es[..|es| - 1]);
      var s, e := After(digest, es[..|es| - 1]).value, es[|es| - 1];
      if e.Commit? {
        CommitKeeps(s, digest, e.t);
      } else if e.Create? {
        CreateKeeps(s, digest, e);
      } else if e.Invalidate? || e.Sweep? {
        BulkKeeps(s, digest, e);
      } else {
        CallerKeeps(s, digest, e);
      }
    }
  }

  // ---------------------------------------------------------------- the results

  /**
   Single use: in every interleaving each raw token is returned to at most one
   caller that commits, for the user and purpose it was issued for, and once
   returned no row of it can be used again.
   */
  lemma {:induction false} SingleUse(digest: string -> string, es: seq<Event>)
    requires Injective(digest) && After(digest, es).Some?
    ensures var s := After(digest, es).value;
            && (forall i, j :: 0 <= i < j < |s.wins| ==> s.wins[i].raw != s.wins[j].raw)
            && (forall i :: 0 <= i < |s.wins| ==> Earned(s.issued, s.wins[i]) && Spent(s.rows, digest, s.wins[i].raw))
  {
    AfterKeeps(digest, es);
  }

  /** A used row stays used and keeps its hash, for as long as it is there, whatever runs next. */
  lemma {:induction false} UsedStaysUsed(digest: string -> string, es: seq<Event>, more: seq<Event>, id: RowId)
    requires After(digest, es).Some? && After(digest, es + more).Some?
    requires id in After(digest, es).value.rows && After(digest, es).value.rows[id].consumedAt.Some?
    requires forall i :: 0 <= i < |more| && more[i].Create? ==> more[i].row != id
    ensures var rows := After(digest, es + more).value.rows;
            id in rows ==> rows[id].consumedAt.Some? && rows[id].tokenHash == After(digest, es).value.rows[id].tokenHash
    decreases |more|
  {
    if more == [] {
      assert es + more == es;
    } else {
      var init, e := more[..|more| - 1], more[|more| - 1];
      assert (es + more)[..|es + more| - 1] == es + init;
      UsedStaysUsed(digest, es, init, id);
      StepKeepsUse(After(digest, es + init).value, digest, e, id);
    }
  }

  lemma StepKeepsUse(s: State, digest: string -> string, e: Event, id: RowId)
    requires Enabled(s, digest, e) && (e.Create? ==> e.row != id)
    requires id in s.rows ==> s.rows[id].consumedAt.Some?
    ensures var rows := Do(s, digest, e).rows;
            id in rows ==> id in s.rows && rows[id].consumedAt.Some? && rows[id].tokenHash == s.rows[id].tokenHash
  {
  }

  // ---------------------------------------------------------------- wins, told by the events

  /** What the caller asks for: its latest start. */
  function Asked(es: seq<Event>, t: TxId): Option<(string, Purpose)> {
    if es == [] then None
    else
      match es[|es| - 1]
      case Start(u, raw, purpose) => if u == t then Some((raw, purpose)) else Asked(es[..|es| - 1], t)
      case _ => Asked(es[..|es| - 1], t)
  }

  /** The row that the caller locked last, and when. */
  function LockedLast(es: seq<Event>, t: TxId): Option<(RowId, Time)> {
    if es == [] then None
    else
      match es[|es| - 1]
      case Lock(u, id, now) => if u == t then Some((id, now)) else LockedLast(es[..|es| - 1], t)
      case _ => LockedLast(es[..|es| - 1], t)
  }

  /** The row as it was created last. */
  function CreatedLast(es: seq<Event>, digest: string -> string, id: RowId): Option<Row> {
    if es == [] then None
    else
      match es[|es| - 1]
      case Create(user, purpose, raw, row, now) =>
        var lifetime := if purpose.PasswordReset? then 30 * 60 else 24 * 60 * 60;
        if row == id then Some(Row(user, purpose, digest(raw), now + lifetime, None))
        else CreatedLast(es[..|es| - 1], digest, id)
      case _ => CreatedLast(es[..|es| - 1], digest, id)
  }

  /** A commit returns the token it asked for, for the purpose it asked for, to the owner of the row it locked. */
  function WinOf(es: seq<Event>, digest: string -> string, t: TxId): seq<Win> {
    match (Asked(es, t), LockedLast(es, t))
    case (Some(ask), Some(lock)) =>
      (match CreatedLast(es, digest, lock.0)
       case Some(row) => [Win(ask.0, Grant(row.user, ask.1))]
       case None => [])
    case _ => []
  }

  /** One entry for each commit, in order. */
  function CommittedWins(es: seq<Event>, digest: string -> string): seq<Win> {
    if es == [] then []
    else
      var init := es[..|es| - 1];
      match es[|es| - 1]
      case Commit(t) => CommittedWins(init, digest) + WinOf(init, digest, t)
      case _ => CommittedWins(init, digest)
  }

  function Commits(es: seq<Event>): nat {
    if es == [] then 0 else Commits(es[..|es| - 1]) + if es[|es| - 1].Commit? then 1 else 0
  }

  /** Rows are as created, but for their use; callers are as the events tell. */
  ghost predicate RowsTold(es: seq<Event>, digest: string -> string, rows: Table) {
    forall id :: id in rows ==> CreatedLast(es, digest, id) == Some(rows[id].(consumedAt := None))
  }

  ghost predicate CallersTold(es: seq<Event>, active: map<TxId, Caller>) {
    forall t :: t in active ==>
                  && Asked(es, t) == Some((active[t].raw, active[t].purpose))
                  && (!active[t].phase.Waiting? ==>
                        LockedLast(es, t).Some? && LockedLast(es, t).value.0 == active[t].phase.id)
  }

  lemma StepRowsTold(es: seq<Event>, digest: string -> string, s: State, e: Event)
    requires Enabled(s, digest, e) && RowsTold(es, digest, s.rows)
    ensures RowsTold(es + [e], digest, Do(s, digest, e).rows)
  {
    assert (es + [e])[..|es|] == es;
  }

  lemma StepCallersTold(es: seq<Event>, digest: string -> string, s: State, e: Event)
    requires Enabled(s, digest, e) && CallersTold(es, s.active)
    ensures CallersTold(es + [e], Do(s, digest, e).active)
  {
    assert (es + [e])[..|es|] == es;
  }

  lemma StepWinsTold(es: seq<Event>, digest: string -> string, s: State, e: Event)
    requires Enabled(s, digest, e) && RowsTold(es, digest, s.rows) && CallersTold(es, s.active)
    requires s.wins == CommittedWins(es, digest)
    ensures Do(s, digest, e).wins == CommittedWins(es + [e], digest)
    ensures |Do(s, digest, e).wins| == |s.wins| + if e.Commit? then 1 else 0
  {
    assert (es + [e])[..|es|] == es;
  }

  lemma {:induction false} RunTold(digest: string -> string, es: seq<Event>)
    requires After(digest, es).Some?
    ensures RowsTold(es, digest, After(digest, es).value.rows)
    ensures CallersTold(es, After(digest, es).value.active)
    ensures After(digest, es).value.wins == CommittedWins(es, digest)
    ensures |After(digest, es).value.wins| == Commits(es)
  {
    if es != [] {
      var init, e := es[..|es| - 1], es[|es| - 1];
      assert es == init + [e];
      RunTold(digest, init);
      var s := After(digest, init).value;
      StepRowsTold(init, digest, s, e);
      StepCallersTold(init, digest, s, e);
      StepWinsTold(init, digest, s, e);
    }
  }

  /**
   What is returned is exactly what is committed: in every run there is one win for
   each commit, in order, with the token and purpose that its caller asked for and
   the user to whom the row that it locked was issued.
   */
  lemma {:induction false} WinsAreCommits(digest: string -> string, es: seq<Event>)
    requires After(digest, es).Some?
    ensures After(digest, es).value.wins == CommittedWins(es, digest)
    ensures |After(digest, es).value.wins| == Commits(es)
  {
    RunTold(digest, es);
  }

  // ---------------------------------------------------------------- rows, told by the events

  /** The time of the caller's latest write. */
  function WroteLast(es: seq<Event>, t: TxId): Option<Time> {
    if es == [] then None
    else
      match es[|es| - 1]
      case Write(u, now) => if u == t then Some(now) else WroteLast(es[..|es| - 1], t)
      case _ => WroteLast(es[..|es| - 1], t)
  }

  /**
   A row from its creation on: an invalidation for its user and purpose, or the commit
   of the caller that locked it last, uses it up if it was unused, and a sweep more than
   seven days after its expiry deletes it.
   */
  function RowTold(es: seq<Event>, digest: string -> string, id: RowId): Option<Row> {
    if es == [] then None
    else
      var init := es[..|es| - 1];
      var was := RowTold(init, digest, id);
      match es[|es| - 1]
      case Create(_, _, _, row, _) => if row == id then CreatedLast(es, digest, id) else was
      case Invalidate(user, purpose, now) =>
        if was.Some? && was.value.user == user && was.value.purpose == purpose && was.value.consumedAt == None
        then Some(was.value.(consumedAt := Some(now))) else was
      case Commit(t) =>
        if was.Some? && LockedLast(init, t).Some? && LockedLast(init, t).value.0 == id
        then Some(was.value.(consumedAt := WroteLast(init, t))) else was
      case Sweep(now) => if was.Some? && was.value.expiresAt < now - 7 * 24 * 60 * 60 then None else was
      case _ => was
  }

  function RowAt(rows: Table, id: RowId): Option<Row> {
    if id in rows then Some(rows[id]) else None
  }

  ghost predicate WritesTold(es: seq<Event>, active: map<TxId, Caller>) {
    forall t :: t in active && active[t].phase.Written? ==> WroteLast(es, t) == Some(active[t].phase.at)
  }

  lemma StepWritesTold(es: seq<Event>, digest: string -> string, s: State, e: Event)
    requires Enabled(s, digest, e) && WritesTold(es, s.active)
    ensures WritesTold(es + [e], Do(s, digest, e).active)
  {
    assert (es + [e])[..|es|] == es;
  }

  lemma StepRowTold(es: seq<Event>, digest: string -> string, s: State, e: Event, id: RowId)
    requires Enabled(s, digest, e) && CallersTold(es, s.active) && WritesTold(es, s.active)
    requires RowAt(s.rows, id) == RowTold(es, digest, id)
    ensures RowAt(Do(s, digest, e).rows, id) == RowTold(es + [e], digest, id)
  {
    assert (es + [e])[..|es|] == es;
  }

  lemma {:induction false} RunWritesTold(digest: string -> string, es: seq<Event>)
    requires After(digest, es).Some?
    ensures WritesTold(es, After(digest, es).value.active)
  {
    if es != [] {
      var init, e := es[..|es| - 1], es[|es| - 1];
      assert es == init + [e];
      RunWritesTold(digest, init);
      StepWritesTold(init, digest, After(digest, init).value, e);
    }
  }

  /** In every interleaving each row of the table, its use and its deletion are what the events tell. */
  lemma {:induction false} RowsAreTold(digest: string -> string, es: seq<Event>, id: RowId)
    requires After(digest, es).Some?
    ensures RowAt(After(digest, es).value.rows, id) == RowTold(es, digest, id)
  {
    if es != [] {
      var init, e := es[..|es| - 1], es[|es| - 1];
      assert es == init + [e];
      RowsAreTold(digest, init, id);
      RunTold(digest, init);
      RunWritesTold(digest, init);
      StepRowTold(init, digest, After(digest, init).value, e, id);
    }
  }

  lemma Extend(digest: string -> string, es: seq<Event>, e: Event)
    requires After(digest, es).Some?
    ensures After(digest, es + [e]) ==
            if Enabled(After(digest, es).value, digest, e) then Some(Do(After(digest, es).value, digest, e)) else None
  {
    assert (es + [e])[..|es|] == es;
  }

  lemma {:induction false} PrefixRuns(digest: string -> string, es: seq<Event>, k: nat)
    requires After(digest, es).Some? && k <= |es|
    ensures After(digest, es[..k]).Some?
    decreases |es|
  {
    if k == |es| {
      assert es[..k] == es;
    } else {
      assert es[..|es| - 1][..k] == es[..k];
      PrefixRuns(digest, es[..|es| - 1], k);
    }
  }

  // ---------------------------------------------------------------- who wins, and who does not

  /** The caller locked the row that it holds before the row expired. */
  ghost predicate LockTimely(es: seq<Event>, rows: Table, active: map<TxId, Caller>, t: TxId) {
    t in active && !active[t].phase.Waiting? && active[t].phase.id in rows ==>
      LockedLast(es, t).Some? && LockedLast(es, t).value.1 < rows[active[t].phase.id].expiresAt
  }

  ghost predicate LocksTimely(es: seq<Event>, rows: Table, active: map<TxId, Caller>) {
    forall t :: LockTimely(es, rows, active, t)
  }

  lemma StepLockTimely(es: seq<Event>, digest: string -> string, s: State, e: Event, t: TxId)
    requires Enabled(s, digest, e) && LockTimely(es, s.rows, s.active, t)
    requires t in s.active && !s.active[t].phase.Waiting? ==> Holds(s.rows, s.active[t], digest)
    ensures LockTimely(es + [e], Do(s, digest, e).rows, Do(s, digest, e).active, t)
  {
    assert (es + [e])[..|es|] == es;
  }

  lemma StepLocksTimely(es: seq<Event>, digest: string -> string, s: State, e: Event)
    requires Enabled(s, digest, e) && LocksTimely(es, s.rows, s.active) && HoldersOk(s.rows, s.active, digest)
    ensures LocksTimely(es + [e], Do(s, digest, e).rows, Do(s, digest, e).active)
  {
    forall t
      ensures LockTimely(es + [e], Do(s, digest, e).rows, Do(s, digest, e).active, t)
    {
      StepLockTimely(es, digest, s, e, t);
    }
  }

  lemma {:induction false} RunLocksTimely(digest: string -> string, es: seq<Event>)
    requires Injective(digest) && After(digest, es).Some?
    ensures LocksTimely(es, After(digest, es).value.rows, After(digest, es).value.active)
  {
    if es != [] {
      var init, e := es[..|es| - 1], es[|es| - 1];
      assert es == init + [e];
      RunLocksTimely(digest, init);
      AfterKeeps(digest, init);
      StepLocksTimely(init, digest, After(digest, init).value, e);
    }
  }

  /**
   Whoever commits is entitled: the row it locked was created with the hash of the
   token it asked for, for the purpose it asked for, and was locked within its lifetime.
   */
  lemma {:induction false} CommitsAreEntitled(digest: string -> string, es: seq<Event>, t: TxId)
    requires Injective(digest) && After(digest, es + [Commit(t)]).Some?
    ensures Asked(es, t).Some? && LockedLast(es, t).Some?
    ensures CreatedLast(es, digest, LockedLast(es, t).value.0).Some?
    ensures var ask, lock := Asked(es, t).value, LockedLast(es, t).value;
            var row := CreatedLast(es, digest, lock.0).value;
            row.tokenHash == digest(ask.0) && row.purpose == ask.1 && lock.1 < row.expiresAt
  {
    assert (es + [Commit(t)])[..|es|] == es;
    RunTold(digest, es);
    AfterKeeps(digest, es);
    RunLocksTimely(digest, es);
    var s := After(digest, es).value;
    HolderIsEntitled(es, digest, s.rows, s.active, t);
  }

  lemma HolderIsEntitled(es: seq<Event>, digest: string -> string, rows: Table, active: map<TxId, Caller>, t: TxId)
    requires t in active && !active[t].phase.Waiting? && Holds(rows, active[t], digest)
    requires RowsTold(es, digest, rows) && CallersTold(es, active) && LockTimely(es, rows, active, t)
    ensures Asked(es, t) == Some((active[t].raw, active[t].purpose))
    ensures LockedLast(es, t).Some? && LockedLast(es, t).value.0 == active[t].phase.id
    ensures var row := CreatedLast(es, digest, active[t].phase.id);
            && row.Some? && row.value.tokenHash == digest(active[t].raw) && row.value.purpose == active[t].purpose
            && LockedLast(es, t).value.1 < row.value.expiresAt
  {
  }

  /** A caller is sent away empty-handed only when no row of its token could be used. */
  lemma {:induction false} MissesAreTrue(digest: string -> string, es: seq<Event>, t: TxId, now: Time)
    requires After(digest, es + [Miss(t, now)]).Some?
    ensures After(digest, es).Some? && Asked(es, t).Some?
    ensures var (raw, purpose) := Asked(es, t).value;
            forall r :: r in After(digest, es).value.rows.Values ==>
                          !(&& r.purpose == purpose && r.tokenHash == digest(raw)
                            && r.consumedAt == None && now < r.expiresAt)
  {
    assert (es + [Miss(t, now)])[..|es|] == es;
    RunTold(digest, es);
    var s := After(digest, es).value;
    forall r | r in s.rows.Values
      ensures !Matches(r, s.active[t].purpose, digest(s.active[t].raw), now)
    {
      var id :| id in s.rows && s.rows[id] == r;
    }
  }

  /**
   From every reachable state a new caller can win a token that has a free, unused
   and unexpired row, and its win is the only thing that is added.
   */
  lemma {:induction false} CallerCanWin(digest: string -> string, es: seq<Event>, t: TxId, id: RowId, raw: string,
                                        purpose: Purpose, now: Time) returns (more: seq<Event>)
    requires After(digest, es).Some? && t !in After(digest, es).value.active
    requires id in After(digest, es).value.rows && !Locked(After(digest, es).value, id)
    requires var r := After(digest, es).value.rows[id];
             r.purpose == purpose && r.tokenHash == digest(raw) && r.consumedAt == None && now < r.expiresAt
    ensures var s := After(digest, es).value;
            After(digest, es + more) ==
            Some(s.(rows := s.rows[id := s.rows[id].(consumedAt := Some(now))],
                    wins := s.wins + [Win(raw, Grant(s.rows[id].user, purpose))]))
  {
    var a, b, c, d := Start(t, raw, purpose), Lock(t, id, now), Write(t, now), Commit(t);
    more := [a, b, c, d];
    StartAndLock(digest, es, t, id, raw, purpose, now);
    Extend(digest, es + [a] + [b], c);
    Extend(digest, es + [a] + [b] + [c], d);
    assert es + more == es + [a] + [b] + [c] + [d];
    assert After(digest, es + more).value.active == After(digest, es).value.active;
  }

  lemma StartAndLock(digest: string -> string, es: seq<Event>, t: TxId, id: RowId, raw: string, purpose: Purpose,
                     now: Time)
    requires After(digest, es).Some? && t !in After(digest, es).value.active
    requires id in After(digest, es).value.rows && !Locked(After(digest, es).value, id)
    requires Matches(After(digest, es).value.rows[id], purpose, digest(raw), now)
    ensures var s := After(digest, es).value;
            After(digest, es + [Start(t, raw, purpose)] + [Lock(t, id, now)]) ==
            Some(s.(active := s.active[t := Caller(raw, purpose, Holding(id))]))
  {
    var s := After(digest, es).value;
    Extend(digest, es, Start(t, raw, purpose));
    var s1 := After(digest, es + [Start(t, raw, purpose)]).value;
    assert !Locked(s1, id) by {
      assert forall u :: u in s1.active && u != t ==> s1.active[u] == s.active[u];
    }
    assert s1.rows == s.rows && s1.active[t] == Caller(raw, purpose, Waiting);
    Extend(digest, es + [Start(t, raw, purpose)], Lock(t, id, now));
    assert s.active[t := Caller(raw, purpose, Waiting)][t := Caller(raw, purpose, Holding(id))] ==
           s.active[t := Caller(raw, purpose, Holding(id))];
  }

  // ---------------------------------------------------------------- nobody waits for ever

  /** Only caller t is gone, nobody aborted, and no row is used that was not. */
  ghost predicate Gone(s: State, s': State, t: TxId) {
    && s'.active == s.active - {t} && s'.issued == s.issued
    && s'.rows.Keys == s.rows.Keys
    && forall id :: id in s.rows ==> s'.rows[id] == s.rows[id] || s'.rows[id].consumedAt.Some?
  }

  predicate NoAbort(es: seq<Event>) {
    forall e :: e in es ==> !e.Abort?
  }

  lemma WriterCanCommit(digest: string -> string, es: seq<Event>, t: TxId)
    requires Injective(digest) && After(digest, es).Some?
    requires t in After(digest, es).value.active && After(digest, es).value.active[t].phase.Written?
    ensures After(digest, es + [Commit(t)]).Some?
    ensures var s, s' := After(digest, es).value, After(digest, es + [Commit(t)]).value;
            && Gone(s, s', t) && s.active[t].phase.id in s'.rows && s'.rows[s.active[t].phase.id].consumedAt.Some?
  {
    AfterKeeps(digest, es);
    var s := After(digest, es).value;
    assert Holds(s.rows, s.active[t], digest);
    Extend(digest, es, Commit(t));
  }

  /** Who holds a row can commit, and the row is used then. */
  lemma HolderCanFinish(digest: string -> string, es: seq<Event>, t: TxId, now: Time) returns (more: seq<Event>)
    requires Injective(digest) && After(digest, es).Some?
    requires t in After(digest, es).value.active && !After(digest, es).value.active[t].phase.Waiting?
    ensures NoAbort(more) && After(digest, es + more).Some?
    ensures var s, s' := After(digest, es).value, After(digest, es + more).value;
            && Gone(s, s', t) && s.active[t].phase.id in s'.rows && s'.rows[s.active[t].phase.id].consumedAt.Some?
  {
    if After(digest, es).value.active[t].phase.Written? {
      more := [Commit(t)];
      WriterCanCommit(digest, es, t);
    } else {
      more := [Write(t, now), Commit(t)];
      Extend(digest, es, Write(t, now));
      WriterCanCommit(digest, es + [Write(t, now)], t);
      assert es + more == es + [Write(t, now)] + [Commit(t)];
      SameOthers(After(digest, es).value.active, t, After(digest, es + [Write(t, now)]).value.active[t]);
    }
  }

  lemma SameOthers(active: map<TxId, Caller>, t: TxId, c: Caller)
    ensures active[t := c] - {t} == active - {t}
  {
  }

  lemma Joined(digest: string -> string, es: seq<Event>, a: seq<Event>, b: seq<Event>)
    requires NoAbort(a) && NoAbort(b)
    ensures NoAbort(a + b) && After(digest, es + a + b) == After(digest, es + (a + b))
  {
    assert es + a + b == es + (a + b);
  }

  /** Who waits can lock and commit, or is told that there is nothing, if no one holds a row of its token. */
  lemma FreeCallerCanFinish(digest: string -> string, es: seq<Event>, t: TxId, now: Time) returns (more: seq<Event>)
    requires Injective(digest) && After(digest, es).Some?
    requires t in After(digest, es).value.active && After(digest, es).value.active[t].phase.Waiting?
    requires var s := After(digest, es).value;
             forall id :: id in s.rows && Matches(s.rows[id], s.active[t].purpose, digest(s.active[t].raw), now) ==>
                            !Locked(s, id)
    ensures NoAbort(more) && After(digest, es + more).Some? && t !in After(digest, es + more).value.active
  {
    var s := After(digest, es).value;
    if id :| id in s.rows && Matches(s.rows[id], s.active[t].purpose, digest(s.active[t].raw), now) {
      Extend(digest, es, Lock(t, id, now));
      var rest := HolderCanFinish(digest, es + [Lock(t, id, now)], t, now);
      more := [Lock(t, id, now)] + rest;
      Joined(digest, es, [Lock(t, id, now)], rest);
    } else {
      more := [Miss(t, now)];
      Extend(digest, es, Miss(t, now));
    }
  }

  /**
   There is no deadlock: from every reachable state every caller can come to its end
   without anybody aborting, at most after the one who holds its token's row.
   */
  lemma {:induction false} EveryCallerCanFinish(digest: string -> string, es: seq<Event>, t: TxId, now: Time)
    returns (more: seq<Event>)
    requires Injective(digest) && After(digest, es).Some? && t in After(digest, es).value.active
    ensures NoAbort(more) && After(digest, es + more).Some? && t !in After(digest, es + more).value.active
  {
    var s := After(digest, es).value;
    if !s.active[t].phase.Waiting? {
      more := HolderCanFinish(digest, es, t, now);
    } else if id :| && id in s.rows && Locked(s, id)
                    && Matches(s.rows[id], s.active[t].purpose, digest(s.active[t].raw), now) {
      var u :| u in s.active && Owns(s.active[u], id);
      var first := HolderCanFinish(digest, es, u, now);
      AfterKeeps(digest, es);
      NothingLeft(s, After(digest, es + first).value, digest, t, u, id, now);
      var rest := FreeCallerCanFinish(digest, es + first, t, now);
      more := first + rest;
      Joined(digest, es, first, rest);
    } else {
      more := FreeCallerCanFinish(digest, es, t, now);
    }
  }

  /** Once the row of a token is used, no row of it can be used. */
  lemma NothingLeft(s: State, s': State, digest: string -> string, t: TxId, u: TxId, id: RowId, now: Time)
    requires RowsOk(s.rows, s.issued, digest) && Gone(s, s', u) && t in s.active && u != t
    requires id in s.rows && s.rows[id].tokenHash == digest(s.active[t].raw)
    requires id in s'.rows && s'.rows[id].consumedAt.Some?
    ensures t in s'.active && s'.active[t] == s.active[t]
    ensures forall other :: other in s'.rows ==>
                              !Matches(s'.rows[other], s.active[t].purpose, digest(s.active[t].raw), now)
  {
  }

  // ---------------------------------------------------------------- no use without a reason

  ghost predicate WonOrInvalidated(es: seq<Event>, digest: string -> string, wins: seq<Win>, r: Row) {
    || (exists i :: 0 <= i < |wins| && digest(wins[i].raw) == r.tokenHash && wins[i].grant == Grant(r.user, r.purpose))
    || (exists k :: 0 <= k < |es| && es[k].Invalidate? && es[k].user == r.user && es[k].purpose == r.purpose
                    && r.consumedAt == Some(es[k].now))
  }

  lemma ReasonStays(es: seq<Event>, e: Event, digest: string -> string, wins: seq<Win>, more: seq<Win>, r: Row)
    requires WonOrInvalidated(es, digest, wins, r)
    ensures WonOrInvalidated(es + [e], digest, wins + more, r)
  {
    if i :| 0 <= i < |wins| && digest(wins[i].raw) == r.tokenHash && wins[i].grant == Grant(r.user, r.purpose) {
      assert (wins + more)[i] == wins[i];
    } else {
      var k :| 0 <= k < |es| && es[k].Invalidate? && es[k].user == r.user && es[k].purpose == r.purpose
               && r.consumedAt == Some(es[k].now);
      assert (es + [e])[k] == es[k];
    }
  }

  /** A row that a step uses up has a reason. */
  lemma NewUse(es: seq<Event>, digest: string -> string, s: State, e: Event, id: RowId)
    requires Inv(s, digest) && Enabled(s, digest, e)
    requires id in Do(s, digest, e).rows && Do(s, digest, e).rows[id].consumedAt.Some?
    requires !(id in s.rows && s.rows[id] == Do(s, digest, e).rows[id])
    ensures WonOrInvalidated(es + [e], digest, Do(s, digest, e).wins, Do(s, digest, e).rows[id])
  {
    if e.Commit? {
      assert Holds(s.rows, s.active[e.t], digest);
      assert Do(s, digest, e).wins[|s.wins|].raw == s.active[e.t].raw;
    } else {
      assert (es + [e])[|es|] == e;
    }
  }

  /** Every used row in the table was won by a caller, or invalidated for its user and purpose at that time. */
  lemma {:induction false} UsedIsWonOrInvalidated(digest: string -> string, es: seq<Event>, id: RowId)
    requires Injective(digest) && After(digest, es).Some?
    requires id in After(digest, es).value.rows && After(digest, es).value.rows[id].consumedAt.Some?
    ensures WonOrInvalidated(es, digest, After(digest, es).value.wins, After(digest, es).value.rows[id])
  {
    var init, e := es[..|es| - 1], es[|es| - 1];
    assert es == init + [e];
    var s, s' := After(digest, init).value, After(digest, es).value;
    AfterKeeps(digest, init);
    if id in s.rows && s.rows[id] == s'.rows[id] {
      UsedIsWonOrInvalidated(digest, init, id);
      StepWins(digest, s, e);
      ReasonStays(init, e, digest, s.wins, s'.wins[|s.wins|..], s'.rows[id]);
    } else {
      NewUse(init, digest, s, e, id);
    }
  }

  lemma StepWins(digest: string -> string, s: State, e: Event)
    requires Enabled(s, digest, e)
    ensures s.wins <= Do(s, digest, e).wins
  {
  }

  // ---------------------------------------------------------------- a caller that returns nothing

  /** The event is a step of caller t. */
  predicate IsStepOf(e: Event, t: TxId) {
    match e
    case Start(u, _, _) => u == t
    case Lock(u, _, _) => u == t
    case Miss(u, _) => u == t
    case Write(u, _) => u == t
    case Commit(u) => u == t
    case Abort(u) => u == t
    case Invalidate(_, _, _) => false
    case Create(_, _, _, _, _) => false
    case Sweep(_) => false
  }

  function OthersOf(es: seq<Event>, t: TxId): seq<Event> {
    if es == [] then []
    else OthersOf(es[..|es| - 1], t) + if IsStepOf(es[|es| - 1], t) then [] else [es[|es| - 1]]
  }

  function Leave(s: State, t: TxId): State {
    s.(active := s.active - {t})
  }

  lemma OthersStep(s: State, digest: string -> string, t: TxId, e: Event)
    requires Enabled(s, digest, e) && !IsStepOf(e, t)
    ensures Enabled(Leave(s, t), digest, e)
    ensures Do(Leave(s, t), digest, e) == Leave(Do(s, digest, e), t)
  {
    var rest := Leave(s, t);
    assert forall id :: Locked(rest, id) ==> Locked(s, id);
    assert Do(rest, digest, e).active == Leave(Do(s, digest, e), t).active;
  }

  lemma OwnStep(s: State, digest: string -> string, t: TxId, e: Event)
    requires Enabled(s, digest, e) && IsStepOf(e, t) && !e.Commit?
    ensures Leave(Do(s, digest, e), t) == Leave(s, t)
  {
  }

  lemma {:induction false} OthersRun(digest: string -> string, es: seq<Event>, t: TxId)
    requires After(digest, es).Some? && Commit(t) !in es
    ensures After(digest, OthersOf(es, t)) == Some(Leave(After(digest, es).value, t))
  {
    if es != [] {
      var init, e := es[..|es| - 1], es[|es| - 1];
      assert es == init + [e];
      OthersRun(digest, init, t);
      var s := After(digest, init).value;
      if IsStepOf(e, t) {
        OwnStep(s, digest, t, e);
        assert OthersOf(es, t) == OthersOf(init, t);
      } else {
        OthersStep(s, digest, t, e);
        Extend(digest, OthersOf(init, t), e);
      }
    }
  }

  /**
   A caller that aborts, or finds nothing, leaves no trace: the state is the one of a
   run in which it never called.
   */
  lemma {:induction false} NoWinNoTrace(digest: string -> string, es: seq<Event>, t: TxId, now: Time)
    requires After(digest, es).Some? && Commit(t) !in es
    ensures After(digest, es + [Abort(t)]).Some? ==> After(digest, es + [Abort(t)]) == After(digest, OthersOf(es, t))
    ensures After(digest, es + [Miss(t, now)]).Some? ==>
              After(digest, es + [Miss(t, now)]) == After(digest, OthersOf(es, t))
  {
    Extend(digest, es, Abort(t));
    Extend(digest, es, Miss(t, now));
    OthersRun(digest, es, t);
  }
}
