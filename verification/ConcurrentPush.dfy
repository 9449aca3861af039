/**
 Any number of pushes at the same time, one small step at a time.

 Each transaction reads committed rows, locks the rows it finds, keeps its
 writes to itself until it commits, and may abort at any moment.  A read that
 finds no row locks nothing; only the unique constraint on (user, ayah) guards
 the insertion that follows.
 */
module ConcurrentPush {
  import opened Wrappers
  import opened HifzMerge
  import opened HifzLaws
  import opened HifzHistory
  import Conv = HifzConvergence

  type TxId = nat

  /** Where a transaction is inside the loop body for its current payload. */
  datatype Phase =
    | Ready
    | FoundNone
    | Found(existing: Card)
    | Logged(existing: Card)

  datatype Tx = Tx(
    reqs: seq<Req>,
    next: nat,
    phase: Phase,
    writes: Cards,
    log: seq<Conflict>,
    out: MergeOutcome,
    locks: set<Cell>)

  /** A push that committed, with the counters it returned. */
  datatype Done = Done(reqs: seq<Req>, out: MergeOutcome)

  datatype State = State(db: Db, active: map<TxId, Tx>, history: seq<Done>)

  datatype Action =
    | Begin(reqs: seq<Req>)
    | SkipMalformed
    | FindRow
    | FindNone
    | Insert
    | Reject
    | LogLoser
    | SaveRow
    | Commit
    | Abort

  datatype Event = Event(tx: TxId, action: Action)

  // ---------------------------------------------------------------- the step system

  /** What a transaction sees: committed rows under its own writes. */
  function View(s: State, tx: Tx): Cards {
    s.db.cards + tx.writes
  }

  ghost predicate LockedByOther(s: State, t: TxId, cell: Cell) {
    exists u :: u in s.active && u != t && cell in s.active[u].locks
  }

  ghost predicate InsertedByOther(s: State, t: TxId, cell: Cell) {
    exists u :: u in s.active && u != t && cell in s.active[u].writes
  }

  predicate AtPayload(tx: Tx) {
    tx.next < |tx.reqs| && WellFormed(tx.reqs[tx.next].payload)
  }

  function Current(tx: Tx): Req
    requires AtPayload(tx)
  {
    tx.reqs[tx.next]
  }

  ghost predicate Enabled(s: State, e: Event) {
    var t := e.tx;
    if e.action.Begin? then t !in s.active
    else
      && t in s.active
      && var tx := s.active[t];
         match e.action
         case SkipMalformed => tx.phase.Ready? && tx.next < |tx.reqs| && !WellFormed(tx.reqs[tx.next].payload)
         case FindRow =>
           && tx.phase.Ready? && AtPayload(tx) && CellOf(Current(tx)) in View(s, tx)
           && !LockedByOther(s, t, CellOf(Current(tx)))
         case FindNone => tx.phase.Ready? && AtPayload(tx) && CellOf(Current(tx)) !in View(s, tx)
         case Insert =>
           && tx.phase.FoundNone? && AtPayload(tx) && Creatable(Current(tx).payload)
           && CellOf(Current(tx)) !in s.db.cards && !InsertedByOther(s, t, CellOf(Current(tx)))
         case Reject => tx.phase.Found? && AtPayload(tx) && !IncomingWins(tx.phase.existing, Current(tx).payload)
         case LogLoser => tx.phase.Found? && AtPayload(tx) && IncomingWins(tx.phase.existing, Current(tx).payload)
         case SaveRow => tx.phase.Logged? && AtPayload(tx)
         case Commit => tx.phase.Ready? && tx.next == |tx.reqs|
         case Abort => true
         case Begin(_) => false
  }

  /** The transaction after a private step. */
  function Advance(s: State, tx: Tx, a: Action): Tx
    requires || a.SkipMalformed?
             || ((a.FindRow? || a.FindNone? || a.Insert? || a.Reject? || a.LogLoser? || a.SaveRow?) && AtPayload(tx))
    requires a.FindRow? ==> CellOf(Current(tx)) in View(s, tx)
    requires a.Insert? ==> Creatable(Current(tx).payload)
    requires a.LogLoser? ==> tx.phase.Found?
    requires a.SaveRow? ==> tx.phase.Logged?
  {
    match a
    case SkipMalformed => tx.(next := tx.next + 1, out := Plus(tx.out, MergeOutcome(0, 1, 0)))
    case FindRow => tx.(phase := Found(View(s, tx)[CellOf(Current(tx))]), locks := tx.locks + {CellOf(Current(tx))})
    case FindNone => tx.(phase := FoundNone)
    case Insert =>
      tx.(phase := Ready, next := tx.next + 1, out := Plus(tx.out, MergeOutcome(1, 0, 0)),
          writes := tx.writes[CellOf(Current(tx)) := Created(Current(tx))], locks := tx.locks + {CellOf(Current(tx))})
    case Reject => tx.(phase := Ready, next := tx.next + 1, out := Plus(tx.out, MergeOutcome(0, 1, 0)))
    case LogLoser =>
      tx.(phase := Logged(tx.phase.existing), log := tx.log + [ConflictFor(tx.phase.existing, Current(tx))])
    case SaveRow =>
      tx.(phase := Ready, next := tx.next + 1, out := Plus(tx.out, MergeOutcome(1, 0, 1)),
          writes := tx.writes[CellOf(Current(tx)) := Overwritten(tx.phase.existing, Current(tx).payload)])
  }

  ghost function Do(s: State, e: Event): State
    requires Enabled(s, e)
  {
    var t := e.tx;
    match e.action
    case Begin(reqs) => s.(active := s.active[t := Tx(reqs, 0, Ready, map[], [], NOTHING, {})])
    case Commit =>
      var tx := s.active[t];
      State(Db(s.db.cards + tx.writes, s.db.log + tx.log), s.active - {t}, s.history + [Done(tx.reqs, tx.out)])
    case Abort => s.(active := s.active - {t})
    case _ => s.(active := s.active[t := Advance(s, s.active[t], e.action)])
  }

  /** The state after a sequence of events, if each of them could happen. */
  ghost function After(s: State, es: seq<Event>): Option<State> {
    if es == [] then Some(s)
    else
      match After(s, es[..|es| - 1])
      case Some(s1) => if Enabled(s1, es[|es| - 1]) then Some(Do(s1, es[|es| - 1])) else None
      case None => None
  }

  // ---------------------------------------------------------------- the serial meaning

  /** The pushes of `history` merged one after another, each returning the counters it is recorded with. */
  ghost function Serial(db: Db, history: seq<Done>): Option<Db> {
    if history == [] then Some(db)
    else
      match Serial(db, history[..|history| - 1])
      case Some(d) =>
        var last := history[|history| - 1];
        if Merge(d, last.reqs).1 == Ok(last.out) then Some(Merge(d, last.reqs).0) else None
      case None => None
  }

  // ---------------------------------------------------------------- the invariant

  /** The private work of a transaction is the merge of its finished payloads on what is committed now. */
  ghost predicate Consistent(cards: Cards, tx: Tx) {
    && tx.next <= |tx.reqs|
    && tx.writes.Keys <= Footprint(tx.reqs[..tx.next]) <= tx.locks
    && tx.locks <= cards.Keys + tx.writes.Keys
    && Run(cards, tx.reqs[..tx.next]) == Ok(Ran(cards + tx.writes, FinishedLog(tx), tx.out))
    && PhaseOk(cards, tx)
  }

  /** The conflict rows of the finished payloads. */
  function FinishedLog(tx: Tx): seq<Conflict> {
    if tx.phase.Logged? && tx.log != [] then tx.log[..|tx.log| - 1] else tx.log
  }

  ghost predicate PhaseOk(cards: Cards, tx: Tx) {
    match tx.phase
    case Ready => true
    case FoundNone => AtPayload(tx) && CellOf(Current(tx)) !in tx.writes
    case Found(c) =>
      && AtPayload(tx) && CellOf(Current(tx)) in tx.locks
      && Find(cards + tx.writes, CellOf(Current(tx))) == Some(c)
    case Logged(c) =>
      && AtPayload(tx) && CellOf(Current(tx)) in tx.locks && Find(cards + tx.writes, CellOf(Current(tx))) == Some(c)
      && IncomingWins(c, Current(tx).payload)
      && tx.log != [] && tx.log[|tx.log| - 1] == ConflictFor(c, Current(tx))
  }

  ghost predicate Inv(db0: Db, s: State) {
    && Serial(db0, s.history) == Some(s.db)
    && AllConsistent(s.db.cards, s.active)
    && LocksApart(s.active)
  }

  ghost predicate AllConsistent(cards: Cards, active: map<TxId, Tx>) {
    forall t :: t in active ==> Consistent(cards, active[t])
  }

  ghost predicate LocksApart(active: map<TxId, Tx>) {
    forall t, u :: t in active && u in active && t != u ==> active[t].locks !! active[u].locks
  }

  // ---------------------------------------------------------------- each step keeps it

  /** Another transaction's commit does not disturb a transaction whose locks it does not touch. */
  lemma OthersCommit(cards: Cards, tx: Tx, writes: Cards)
    requires Consistent(cards, tx) && tx.locks !! writes.Keys
    ensures Consistent(cards + writes, tx)
  {
    RunOverOthers(cards, tx.reqs[..tx.next], tx.writes, writes);
  }

  /** A run whose cells nobody else writes has the same private effect on top of what others committed. */
  lemma RunOverOthers(cards: Cards, rs: seq<Req>, mine: Cards, theirs: Cards)
    requires Run(cards, rs).Ok? && Run(cards, rs).value.cards == cards + mine
    requires mine.Keys <= Footprint(rs) && Footprint(rs) !! theirs.Keys
    ensures var x := Run(cards, rs).value;
            Run(cards + theirs, rs) == Ok(Ran(cards + theirs + mine, x.log, x.out))
  {
    RunFrame(cards, cards + theirs, rs);
    var y := Run(cards + theirs, rs).value;
    forall cell
      ensures Find(y.cards, cell) == Find(cards + theirs + mine, cell)
    {
      if cell !in Footprint(rs) {
        RunElsewhere(cards + theirs, rs, cell);
      }
    }
    CardsAgree(y.cards, cards + theirs + mine);
  }

  /** One more payload of a run. */
  lemma RunNext(cards: Cards, reqs: seq<Req>, n: nat, x: Ran, step: Ran)
    requires n < |reqs| && Run(cards, reqs[..n]) == Ok(x) && Step(x.cards, reqs[n]) == Ok(step)
    ensures Run(cards, reqs[..n + 1]) == Ok(Ran(step.cards, x.log + step.log, Plus(x.out, step.out)))
  {
    assert reqs[..n + 1] == reqs[..n] + [reqs[n]];
    RunSnoc(cards, reqs[..n], reqs[n]);
  }

  /** The cell of the current payload, if it has one. */
  function Here(tx: Tx): set<Cell> {
    if AtPayload(tx) then {CellOf(Current(tx))} else {}
  }

  lemma FootprintNext(tx: Tx)
    requires tx.next < |tx.reqs|
    ensures Footprint(tx.reqs[..tx.next + 1]) == Footprint(tx.reqs[..tx.next]) + Here(tx)
  {
  }

  /** A transaction that finishes its payload as the merge would stays consistent. */
  lemma FinishKeeps(cards: Cards, tx: Tx, tx': Tx, step: Ran)
    requires Consistent(cards, tx) && tx.next < |tx.reqs|
    requires Step(cards + tx.writes, tx.reqs[tx.next]) == Ok(step)
    requires tx'.reqs == tx.reqs && tx'.next == tx.next + 1 && tx'.phase.Ready?
    requires cards + tx'.writes == step.cards && tx'.log == FinishedLog(tx) + step.log
             && tx'.out == Plus(tx.out, step.out)
    requires tx'.writes.Keys <= tx.writes.Keys + Here(tx) && tx.writes.Keys <= tx'.writes.Keys
    requires tx'.locks == tx.locks + Here(tx) && Here(tx) <= cards.Keys + tx'.writes.Keys
    ensures Consistent(cards, tx')
  {
    RunNext(cards, tx.reqs, tx.next, Ran(cards + tx.writes, FinishedLog(tx), tx.out), step);
    FootprintNext(tx);
  }

  lemma RejectKeeps(cards: Cards, tx: Tx)
    requires Consistent(cards, tx) && tx.next < |tx.reqs| && !tx.phase.Logged?
    requires AtPayload(tx) ==> tx.phase.Found? && !IncomingWins(tx.phase.existing, Current(tx).payload)
    ensures Consistent(cards, tx.(phase := Ready, next := tx.next + 1, out := Plus(tx.out, MergeOutcome(0, 1, 0))))
  {
    var tx' := tx.(phase := Ready, next := tx.next + 1, out := Plus(tx.out, MergeOutcome(0, 1, 0)));
    assert tx.log + [] == tx.log;
    assert tx.locks + Here(tx) == tx.locks;
    FinishKeeps(cards, tx, tx', Ran(cards + tx.writes, [], MergeOutcome(0, 1, 0)));
  }

  /** The write of one cell, seen through the committed rows. */
  lemma WriteShows(cards: Cards, writes: Cards, cell: Cell, card: Card)
    ensures cards + writes[cell := card] == (cards + writes)[cell := card]
    ensures writes[cell := card].Keys == writes.Keys + {cell}
  {
  }

  lemma InsertKeeps(cards: Cards, tx: Tx, tx': Tx)
    requires Consistent(cards, tx) && tx.phase.FoundNone? && Creatable(Current(tx).payload)
             && CellOf(Current(tx)) !in cards
    requires tx' == tx.(phase := Ready, next := tx.next + 1, out := Plus(tx.out, MergeOutcome(1, 0, 0)),
                        writes := tx.writes[CellOf(Current(tx)) := Created(Current(tx))],
                        locks := tx.locks + {CellOf(Current(tx))})
    ensures Consistent(cards, tx')
  {
    WriteShows(cards, tx.writes, CellOf(Current(tx)), Created(Current(tx)));
    var step := Ran(cards + tx'.writes, [], MergeOutcome(1, 0, 0));
    assert Step(cards + tx.writes, Current(tx)) == Ok(step);
    assert tx.log + [] == tx.log;
    FinishKeeps(cards, tx, tx', step);
  }

  lemma SaveIsStep(cards: Cards, writes: Cards, c: Card, r: Req)
    requires WellFormed(r.payload) && Find(cards + writes, CellOf(r)) == Some(c) && IncomingWins(c, r.payload)
    ensures Step(cards + writes, r) ==
            Ok(Ran(cards + writes[CellOf(r) := Overwritten(c, r.payload)], [ConflictFor(c, r)], MergeOutcome(1, 0, 1)))
  {
    WriteShows(cards, writes, CellOf(r), Overwritten(c, r.payload));
  }

  lemma LastLogged(cards: Cards, tx: Tx)
    requires Consistent(cards, tx) && tx.phase.Logged?
    ensures tx.log == FinishedLog(tx) + [ConflictFor(tx.phase.existing, Current(tx))]
    ensures tx.locks + Here(tx) == tx.locks
  {
  }

  lemma SaveKeeps(cards: Cards, tx: Tx, tx': Tx)
    requires Consistent(cards, tx) && tx.phase.Logged?
    requires tx' == tx.(phase := Ready, next := tx.next + 1, out := Plus(tx.out, MergeOutcome(1, 0, 1)),
                        writes := tx.writes[CellOf(Current(tx)) := Overwritten(tx.phase.existing, Current(tx).payload)])
    ensures Consistent(cards, tx')
  {
    var c, r := tx.phase.existing, Current(tx);
    SaveIsStep(cards, tx.writes, c, r);
    LastLogged(cards, tx);
    FinishKeeps(cards, tx, tx', Ran(cards + tx'.writes, [ConflictFor(c, r)], MergeOutcome(1, 0, 1)));
  }

  lemma LogKeeps(cards: Cards, tx: Tx, tx': Tx)
    requires Consistent(cards, tx) && tx.phase.Found? && IncomingWins(tx.phase.existing, Current(tx).payload)
    requires tx' == tx.(phase := Logged(tx.phase.existing),
                        log := tx.log + [ConflictFor(tx.phase.existing, Current(tx))])
    ensures Consistent(cards, tx')
  {
  }

  lemma LookKeeps(s: State, t: TxId, a: Action)
    requires Enabled(s, Event(t, a)) && (a.FindRow? || a.FindNone?)
    requires Consistent(s.db.cards, s.active[t])
    ensures Consistent(s.db.cards, Advance(s, s.active[t], a))
  {
  }

  lemma PassKeeps(s: State, t: TxId, a: Action)
    requires Enabled(s, Event(t, a)) && (a.SkipMalformed? || a.Reject?)
    requires Consistent(s.db.cards, s.active[t])
    ensures Consistent(s.db.cards, Advance(s, s.active[t], a))
  {
    var tx := s.active[t];
    assert Advance(s, tx, a) == tx.(phase := Ready, next := tx.next + 1, out := Plus(tx.out, MergeOutcome(0, 1, 0)));
    RejectKeeps(s.db.cards, tx);
  }

  lemma WriteKeeps(s: State, t: TxId, a: Action)
    requires Enabled(s, Event(t, a)) && (a.Insert? || a.SaveRow?)
    requires Consistent(s.db.cards, s.active[t])
    ensures Consistent(s.db.cards, Advance(s, s.active[t], a))
  {
    if a.Insert? {
      InsertKeeps(s.db.cards, s.active[t], Advance(s, s.active[t], a));
    } else {
      SaveKeeps(s.db.cards, s.active[t], Advance(s, s.active[t], a));
    }
  }

  lemma AdvanceKeeps(s: State, t: TxId, a: Action)
    requires Enabled(s, Event(t, a)) && !a.Begin? && !a.Commit? && !a.Abort?
    requires Consistent(s.db.cards, s.active[t])
    ensures Consistent(s.db.cards, Advance(s, s.active[t], a))
  {
    if a.FindRow? || a.FindNone? {
      LookKeeps(s, t, a);
    } else if a.SkipMalformed? || a.Reject? {
      PassKeeps(s, t, a);
    } else if a.LogLoser? {
      LogKeeps(s.db.cards, s.active[t], Advance(s, s.active[t], a));
    } else {
      WriteKeeps(s, t, a);
    }
  }

  /** A row that is new to the table is not held either: what is held is committed or an insertion of the holder. */
  lemma NewRowIsFree(s: State, u: TxId, cell: Cell)
    requires u in s.active && Consistent(s.db.cards, s.active[u])
    requires cell !in s.db.cards && cell !in s.active[u].writes
    ensures cell !in s.active[u].locks
  {
  }

  /** No lock is granted twice. */
  lemma {:induction false} LocksStayApart(db0: Db, s: State, t: TxId, a: Action, u: TxId)
    requires Inv(db0, s) && Enabled(s, Event(t, a)) && !a.Begin? && !a.Commit? && !a.Abort?
    requires u in s.active && u != t
    ensures Advance(s, s.active[t], a).locks !! s.active[u].locks
  {
    assert s.active[t].locks !! s.active[u].locks;
    if a.Insert? {
      NewRowIsFree(s, u, CellOf(Current(s.active[t])));
    }
  }

  lemma CommitIsSerial(db0: Db, s: State, t: TxId)
    requires Inv(db0, s) && Enabled(s, Event(t, Commit))
    ensures var s' := Do(s, Event(t, Commit)); Serial(db0, s'.history) == Some(s'.db)
  {
    var tx := s.active[t];
    var s' := Do(s, Event(t, Commit));
    assert tx.reqs[..tx.next] == tx.reqs;
    assert s'.history[..|s'.history| - 1] == s.history;
  }

  /** A transaction that has done nothing yet. */
  lemma NewIsConsistent(cards: Cards, reqs: seq<Req>)
    ensures Consistent(cards, Tx(reqs, 0, Ready, map[], [], NOTHING, {}))
  {
    assert reqs[..0] == [];
    assert cards + map[] == cards;
  }

  lemma BeginKeeps(db0: Db, s: State, e: Event)
    requires Inv(db0, s) && Enabled(s, e) && e.action.Begin?
    ensures Inv(db0, Do(s, e))
  {
    NewIsConsistent(s.db.cards, e.action.reqs);
    ReplaceKeeps(s.db.cards, s.active, e.tx, Tx(e.action.reqs, 0, Ready, map[], [], NOTHING, {}));
  }

  /** Putting in one consistent transaction, whose locks are apart from the others', keeps them all so. */
  lemma ReplaceKeeps(cards: Cards, active: map<TxId, Tx>, t: TxId, tx: Tx)
    requires AllConsistent(cards, active) && LocksApart(active) && Consistent(cards, tx)
    requires forall u :: u in active && u != t ==> tx.locks !! active[u].locks
    ensures AllConsistent(cards, active[t := tx]) && LocksApart(active[t := tx])
  {
  }

  lemma {:induction false} CommitKeeps(db0: Db, s: State, t: TxId)
    requires Inv(db0, s) && Enabled(s, Event(t, Commit))
    ensures Inv(db0, Do(s, Event(t, Commit)))
  {
    var s' := Do(s, Event(t, Commit));
    CommitIsSerial(db0, s, t);
    forall u | u in s'.active
      ensures Consistent(s'.db.cards, s'.active[u])
    {
      OthersCommit(s.db.cards, s.active[u], s.active[t].writes);
    }
  }

  lemma PrivateKeeps(db0: Db, s: State, e: Event)
    requires Inv(db0, s) && Enabled(s, e) && !e.action.Begin? && !e.action.Commit? && !e.action.Abort?
    ensures Inv(db0, Do(s, e))
  {
    AdvanceKeeps(s, e.tx, e.action);
    var tx := Advance(s, s.active[e.tx], e.action);
    forall u | u in s.active && u != e.tx
      ensures tx.locks !! s.active[u].locks
    {
      LocksStayApart(db0, s, e.tx, e.action, u);
    }
    ReplaceKeeps(s.db.cards, s.active, e.tx, tx);
  }

  lemma {:induction false} DoKeeps(db0: Db, s: State, e: Event)
    requires Inv(db0, s) && Enabled(s, e)
    ensures Inv(db0, Do(s, e))
  {
    match e.action
    case Begin(_) => BeginKeeps(db0, s, e);
    case Commit => CommitKeeps(db0, s, e.tx);
    case Abort =>
    case _ => PrivateKeeps(db0, s, e);
  }

  lemma {:induction false} AfterKeeps(db0: Db, s: State, es: seq<Event>)
    requires Inv(db0, s) && After(s, es).Some?
    ensures Inv(db0, After(s, es).value)
  {
    if es != [] {
      AfterKeeps(db0, s, es[..|es| - 1]);
      DoKeeps(db0, After(s, es[..|es| - 1]).value, es[|es| - 1]);
    }
  }

  // ---------------------------------------------------------------- the results

  /**
   Serialisability: in every state that any interleaving of any number of pushes
   can reach, the committed cards and conflict rows are those of merging exactly
   the committed pushes, whole and one after another in commit order, and each
   push returned the counters of its serial merge.
   */
  lemma {:induction false} CommittedIsSerial(db0: Db, es: seq<Event>)
    requires After(State(db0, map[], []), es).Some?
    ensures var s := After(State(db0, map[], []), es).value;
            Serial(db0, s.history) == Some(s.db)
  {
    AfterKeeps(db0, State(db0, map[], []), es);
  }

  // ---------------------------------------------------------------- nothing serial is lost

  lemma Extend(s0: State, es: seq<Event>, e: Event)
    requires After(s0, es).Some? && Enabled(After(s0, es).value, e)
    ensures After(s0, es + [e]) == Some(Do(After(s0, es).value, e))
  {
  }

  /** Only transaction t is running, and it is between payloads. */
  ghost predicate Alone(s: State, t: TxId, reqs: seq<Req>, n: nat) {
    && s.active.Keys == {t}
    && s.active[t].reqs == reqs && s.active[t].next == n && s.active[t].phase.Ready?
    && Consistent(s.db.cards, s.active[t])
  }

  lemma ActAlone(s0: State, es: seq<Event>, t: TxId, a: Action) returns (more: seq<Event>)
    requires After(s0, es).Some? && t in After(s0, es).value.active
    requires Consistent(After(s0, es).value.db.cards, After(s0, es).value.active[t])
    requires Enabled(After(s0, es).value, Event(t, a)) && !a.Begin? && !a.Commit? && !a.Abort?
    ensures var s := After(s0, es).value;
            && After(s0, more) == Some(s.(active := s.active[t := Advance(s, s.active[t], a)]))
            && Consistent(s.db.cards, Advance(s, s.active[t], a))
  {
    more := es + [Event(t, a)];
    Extend(s0, es, Event(t, a));
    AdvanceKeeps(After(s0, es).value, t, a);
  }

  lemma SkipAlone(s0: State, es: seq<Event>, t: TxId, reqs: seq<Req>, n: nat) returns (more: seq<Event>)
    requires After(s0, es).Some? && Alone(After(s0, es).value, t, reqs, n) && n < |reqs|
    requires !WellFormed(reqs[n].payload)
    ensures After(s0, more).Some? && Alone(After(s0, more).value, t, reqs, n + 1)
    ensures After(s0, more).value.db == After(s0, es).value.db
    ensures After(s0, more).value.history == After(s0, es).value.history
  {
    more := ActAlone(s0, es, t, SkipMalformed);
  }

  lemma CreateAlone(s0: State, es: seq<Event>, t: TxId, reqs: seq<Req>, n: nat) returns (more: seq<Event>)
    requires After(s0, es).Some? && Alone(After(s0, es).value, t, reqs, n) && n < |reqs|
    requires WellFormed(reqs[n].payload) && Creatable(reqs[n].payload)
    requires CellOf(reqs[n]) !in View(After(s0, es).value, After(s0, es).value.active[t])
    ensures After(s0, more).Some? && Alone(After(s0, more).value, t, reqs, n + 1)
    ensures After(s0, more).value.db == After(s0, es).value.db
    ensures After(s0, more).value.history == After(s0, es).value.history
  {
    more := ActAlone(s0, es, t, FindNone);
    more := ActAlone(s0, more, t, Insert);
  }

  lemma JudgeAlone(s0: State, es: seq<Event>, t: TxId, reqs: seq<Req>, n: nat) returns (more: seq<Event>)
    requires After(s0, es).Some? && Alone(After(s0, es).value, t, reqs, n) && n < |reqs|
    requires WellFormed(reqs[n].payload)
    requires CellOf(reqs[n]) in View(After(s0, es).value, After(s0, es).value.active[t])
    ensures After(s0, more).Some? && Alone(After(s0, more).value, t, reqs, n + 1)
    ensures After(s0, more).value.db == After(s0, es).value.db
    ensures After(s0, more).value.history == After(s0, es).value.history
  {
    var s := After(s0, es).value;
    more := ActAlone(s0, es, t, FindRow);
    if IncomingWins(View(s, s.active[t])[CellOf(reqs[n])], reqs[n].payload) {
      more := OverwriteAlone(s0, more, t);
    } else {
      more := RejectAlone(s0, more, t);
    }
  }

  lemma RejectAlone(s0: State, es: seq<Event>, t: TxId) returns (more: seq<Event>)
    requires After(s0, es).Some? && t in After(s0, es).value.active
    requires Consistent(After(s0, es).value.db.cards, After(s0, es).value.active[t])
    requires Enabled(After(s0, es).value, Event(t, Reject))
    ensures After(s0, more).Some?
    ensures Finished(After(s0, es).value, After(s0, more).value, t)
  {
    more := ActAlone(s0, es, t, Reject);
  }

  /** Only transaction t moved, and it finished its payload. */
  ghost predicate Finished(s: State, s': State, t: TxId) {
    && s'.db == s.db && s'.history == s.history && s'.active.Keys == s.active.Keys && t in s.active
    && s'.active[t].reqs == s.active[t].reqs && s'.active[t].next == s.active[t].next + 1 && s'.active[t].phase.Ready?
    && Consistent(s'.db.cards, s'.active[t])
  }

  lemma OverwriteAlone(s0: State, es: seq<Event>, t: TxId) returns (more: seq<Event>)
    requires After(s0, es).Some? && t in After(s0, es).value.active
    requires Consistent(After(s0, es).value.db.cards, After(s0, es).value.active[t])
    requires Enabled(After(s0, es).value, Event(t, LogLoser))
    ensures After(s0, more).Some?
    ensures Finished(After(s0, es).value, After(s0, more).value, t)
  {
    more := ActAlone(s0, es, t, LogLoser);
    more := ActAlone(s0, more, t, SaveRow);
  }

  /** One payload of a lone transaction: skip it, or find no row and insert, or find a row and judge it. */
  lemma PayloadAlone(s0: State, es: seq<Event>, t: TxId, reqs: seq<Req>, n: nat) returns (more: seq<Event>)
    requires After(s0, es).Some? && Alone(After(s0, es).value, t, reqs, n) && n < |reqs|
    requires Step(View(After(s0, es).value, After(s0, es).value.active[t]), reqs[n]).Ok?
    ensures After(s0, more).Some? && Alone(After(s0, more).value, t, reqs, n + 1)
    ensures After(s0, more).value.db == After(s0, es).value.db
    ensures After(s0, more).value.history == After(s0, es).value.history
  {
    if !WellFormed(reqs[n].payload) {
      more := SkipAlone(s0, es, t, reqs, n);
    } else if CellOf(reqs[n]) !in View(After(s0, es).value, After(s0, es).value.active[t]) {
      more := CreateAlone(s0, es, t, reqs, n);
    } else {
      more := JudgeAlone(s0, es, t, reqs, n);
    }
  }

  lemma {:induction false} PayloadsAlone(s0: State, es: seq<Event>, t: TxId, reqs: seq<Req>, n: nat)
    returns (more: seq<Event>)
    requires After(s0, es).Some? && After(s0, es).value.active == map[] && n <= |reqs|
    requires Run(After(s0, es).value.db.cards, reqs[..n]).Ok?
    ensures After(s0, more).Some? && Alone(After(s0, more).value, t, reqs, n)
    ensures After(s0, more).value.db == After(s0, es).value.db
    ensures After(s0, more).value.history == After(s0, es).value.history
    decreases n
  {
    var s := After(s0, es).value;
    if n == 0 {
      more := es + [Event(t, Begin(reqs))];
      Extend(s0, es, Event(t, Begin(reqs)));
      assert s.db.cards + map[] == s.db.cards;
    } else {
      assert reqs[..n] == reqs[..n - 1] + [reqs[n - 1]];
      RunSnoc(s.db.cards, reqs[..n - 1], reqs[n - 1]);
      more := PayloadsAlone(s0, es, t, reqs, n - 1);
      more := PayloadAlone(s0, more, t, reqs, n - 1);
    }
  }

  /** Every serial history is one that the step system can perform. */
  lemma {:induction false} SerialIsReachable(db0: Db, history: seq<Done>) returns (es: seq<Event>)
    requires Serial(db0, history).Some?
    ensures After(State(db0, map[], []), es) == Some(State(Serial(db0, history).value, map[], history))
  {
    var s0 := State(db0, map[], []);
    if history == [] {
      es := [];
    } else {
      var init, last := history[..|history| - 1], history[|history| - 1];
      es := SerialIsReachable(db0, init);
      var reqs := last.reqs;
      assert reqs[..|reqs|] == reqs;
      es := PayloadsAlone(s0, es, 0, reqs, |reqs|);
      var s := After(s0, es).value;
      Extend(s0, es, Event(0, Commit));
      es := es + [Event(0, Commit)];
      assert s.active - {0} == map[];
      assert history == init + [last];
    }
  }

  /** Interleaving gives exactly what serial pushes give: no more results, and no fewer. */
  lemma {:induction false} InterleavedIffSerial(db0: Db, db: Db, history: seq<Done>)
    ensures (exists es :: After(State(db0, map[], []), es).Some?
                          && After(State(db0, map[], []), es).value.db == db
                          && After(State(db0, map[], []), es).value.history == history)
            <==> Serial(db0, history) == Some(db)
  {
    forall es | After(State(db0, map[], []), es).Some?
      ensures var s := After(State(db0, map[], []), es).value;
              Serial(db0, s.history) == Some(s.db)
    {
      CommittedIsSerial(db0, es);
    }
    if Serial(db0, history) == Some(db) {
      var es := SerialIsReachable(db0, history);
    }
  }

  // ---------------------------------------------------------------- consequences

  /** The requests of the committed pushes, in commit order. */
  function AllReqs(history: seq<Done>): seq<Req> {
    if history == [] then [] else AllReqs(history[..|history| - 1]) + history[|history| - 1].reqs
  }

  /** A serial history is one run of all its requests. */
  lemma {:induction false} SerialIsRun(db0: Db, history: seq<Done>)
    requires Serial(db0, history).Some?
    ensures Merge(db0, AllReqs(history)).1.Ok? && Merge(db0, AllReqs(history)).0 == Serial(db0, history).value
  {
    if history == [] {
      assert db0.log + [] == db0.log;
    } else {
      var n := |history| - 1;
      SerialIsRun(db0, history[..n]);
      MergeConcat(db0, AllReqs(history[..n]), history[n].reqs);
    }
  }

  /** So every law of a run holds of concurrent pushes: stored progress never falls, whatever the interleaving. */
  lemma ConcurrentProgressNeverFalls(db0: Db, es: seq<Event>, cell: Cell)
    requires After(State(db0, map[], []), es).Some? && cell in db0.cards
    ensures var s := After(State(db0, map[], []), es).value;
            cell in s.db.cards && s.db.cards[cell].repetitions >= db0.cards[cell].repetitions
  {
    CommittedIsSerial(db0, es);
    var s := After(State(db0, map[], []), es).value;
    SerialIsRun(db0, s.history);
    ProgressNeverFalls(db0.cards, AllReqs(s.history), cell);
  }

  /** And each committed card's conflict rows spell out all its committed versions. */
  lemma {:induction false} ConcurrentVersionChain(es: seq<Event>, cell: Cell)
    requires After(State(Db(map[], []), map[], []), es).Some?
    requires cell in After(State(Db(map[], []), map[], []), es).value.db.cards
    requires Fresh(map[], AllReqs(After(State(Db(map[], []), map[], []), es).value.history))
    ensures var s := After(State(Db(map[], []), map[], []), es).value;
            && Run(map[], AllReqs(s.history)).Ok?
            && Chain(Versions(map[], AllReqs(s.history), cell), LogFor(s.db.log, s.db.cards[cell].id), s.db.cards[cell])
  {
    var db0 := Db(map[], []);
    CommittedIsSerial(db0, es);
    var s := After(State(db0, map[], []), es).value;
    SerialIsRun(db0, s.history);
    VersionChain(map[], AllReqs(s.history), cell);
    assert [] + Run(map[], AllReqs(s.history)).value.log == Run(map[], AllReqs(s.history)).value.log;
  }

  /**
   Concurrent devices converge: two interleavings whose committed pushes carry the
   same payloads, in any order, with any repetition and cut in any way, end in the
   same cards up to id and revision, when the payloads are tidy.
   */
  lemma {:induction false} ConcurrentPushesConverge(db0: Db, es: seq<Event>, fs: seq<Event>)
    requires After(State(db0, map[], []), es).Some? && After(State(db0, map[], []), fs).Some?
    requires Conv.SameDeliveries(AllReqs(After(State(db0, map[], []), es).value.history),
                                 AllReqs(After(State(db0, map[], []), fs).value.history))
    requires Conv.Tidy(db0.cards, AllReqs(After(State(db0, map[], []), es).value.history))
    ensures Conv.SameContents(After(State(db0, map[], []), fs).value.db.cards,
                              After(State(db0, map[], []), es).value.db.cards)
  {
    var s, z := After(State(db0, map[], []), es).value, After(State(db0, map[], []), fs).value;
    CommittedIsSerial(db0, es);
    CommittedIsSerial(db0, fs);
    SerialIsRun(db0, s.history);
    SerialIsRun(db0, z.history);
    Conv.TidyConverges(db0.cards, AllReqs(s.history), AllReqs(z.history));
  }

  // ---------------------------------------------------------------- a push that aborts

  /** The run without the steps of transaction t. */
  function OthersOf(es: seq<Event>, t: TxId): seq<Event> {
    if es == [] then []
    else OthersOf(es[..|es| - 1], t) + if es[|es| - 1].tx == t then [] else [es[|es| - 1]]
  }

  /** The state without transaction t. */
  function Leave(s: State, t: TxId): State {
    s.(active := s.active - {t})
  }

  ghost predicate NeverCommits(es: seq<Event>, t: TxId) {
    forall e :: e in es && e.tx == t ==> !e.action.Commit?
  }

  /** What another transaction can do, it can do without t, and it comes to the same. */
  lemma OthersStep(s: State, t: TxId, e: Event)
    requires Enabled(s, e) && e.tx != t
    ensures Enabled(Leave(s, t), e)
    ensures Do(Leave(s, t), e) == Leave(Do(s, e), t)
  {
    var rest := Leave(s, t);
    assert forall u :: u in rest.active <==> u in s.active && u != t;
    if !e.action.Begin? {
      assert rest.active[e.tx] == s.active[e.tx];
    }
    assert Do(rest, e).active == Leave(Do(s, e), t).active;
  }

  /** Until it commits, what t does shows nowhere else. */
  lemma OwnStep(s: State, t: TxId, e: Event)
    requires Enabled(s, e) && e.tx == t && !e.action.Commit?
    ensures Leave(Do(s, e), t) == Leave(s, t)
  {
  }

  lemma {:induction false} OthersRun(s0: State, es: seq<Event>, t: TxId)
    requires After(s0, es).Some? && t !in s0.active && NeverCommits(es, t)
    ensures After(s0, OthersOf(es, t)) == Some(Leave(After(s0, es).value, t))
  {
    if es == [] {
      assert s0.active - {t} == s0.active;
    } else {
      var init, e := es[..|es| - 1], es[|es| - 1];
      assert e in es && forall d :: d in init ==> d in es;
      OthersRun(s0, init, t);
      var s := After(s0, init).value;
      if e.tx == t {
        OwnStep(s, t, e);
        assert OthersOf(es, t) == OthersOf(init, t);
      } else {
        OthersStep(s, t, e);
        Extend(s0, OthersOf(init, t), e);
      }
    }
  }

  /**
   A push that aborts leaves no trace: wherever it was and whatever the others did
   meanwhile, the state is the one of a run in which it never took part.
   */
  lemma {:induction false} AbortLeavesNoTrace(s0: State, es: seq<Event>, t: TxId)
    requires After(s0, es + [Event(t, Abort)]).Some? && t !in s0.active && NeverCommits(es, t)
    ensures After(s0, es + [Event(t, Abort)]) == After(s0, OthersOf(es, t))
  {
    assert (es + [Event(t, Abort)])[..|es|] == es;
    OthersRun(s0, es, t);
  }
}
