/**
 What the conflict log keeps: every version ever stored, in order, and exactly
 when the contents of all of them can be read back from it.
 */
module HifzHistory {
  import opened Wrappers
  import opened HifzMerge
  import opened HifzLaws

  // ---------------------------------------------------------------- the version chain

  /** A stored version that an observer sees change. */
  function More(before: Option<Card>, after: Option<Card>): seq<Card> {
    if after == before || after.None? then [] else [after.value]
  }

  /**
   The versions of a cell's card as an observer of the table sees them: the
   first one, then each one that differs from the one before.
   */
  function Versions(cards: Cards, rs: seq<Req>, cell: Cell): seq<Card>
    requires Run(cards, rs).Ok?
  {
    if rs == [] then
      if cell in cards then [cards[cell]] else []
    else
      var init := rs[..|rs| - 1];
      var before, after := Find(Run(cards, init).value.cards, cell), Find(Run(cards, rs).value.cards, cell);
      Versions(cards, init, cell) + More(before, after)
  }

  /**
   `log` and `current` spell out `versions`: entry i holds version i, says when it
   was written and when its successor was, and versions only go up in the order.
   */
  ghost predicate Chain(versions: seq<Card>, log: seq<Conflict>, current: Card) {
    && |versions| == |log| + 1
    && versions[|log|] == current
    && (forall i :: 0 <= i < |log| ==>
          && log[i].losing == SnapshotOf(versions[i])
          && log[i].losingAt == versions[i].clientUpdatedAt
          && log[i].winningAt == versions[i + 1].clientUpdatedAt
          && Less(KeyOf(versions[i]), KeyOf(versions[i + 1])))
  }

  ghost predicate Chained(cards: Cards, rs: seq<Req>, cell: Cell)
    requires Run(cards, rs).Ok?
  {
    var x := Run(cards, rs).value;
    if cell in x.cards then Chain(Versions(cards, rs, cell), LogOf(x, cell), x.cards[cell])
    else Versions(cards, rs, cell) == []
  }

  /**
   The conflict rows of a card in order, followed by the card itself, are all
   versions the cell ever held, strictly increasing in (repetitions,
   client_updated_at) and linked by their timestamps.  What can be read back from
   the rows is told by `HistoryRestoresIff`.
   */
  lemma {:induction false} VersionChain(cards: Cards, rs: seq<Req>, cell: Cell)
    requires UniqueIds(cards) && Fresh(cards, rs) && Run(cards, rs).Ok?
    ensures Chained(cards, rs, cell)
  {
    if rs != [] {
      var n := |rs| - 1;
      VersionChain(cards, rs[..n], cell);
      RunIds(cards, rs[..n]);
      var x := Run(cards, rs[..n]).value;
      if cell in x.cards {
        ThenChain(x, rs[n], cell, Versions(cards, rs[..n], cell));
      } else if cell in Run(cards, rs).value.cards {
        NewCardHasNoLog(cards, rs);
        ThenFirst(x, rs[n], cell);
      }
    }
  }

  lemma ThenChain(x: Ran, r: Req, cell: Cell, versions: seq<Card>)
    requires UniqueIds(x.cards) && Step(x.cards, r).Ok? && cell in x.cards
             && Chain(versions, LogOf(x, cell), x.cards[cell])
    ensures var x' := Then(x, Step(x.cards, r)).value;
            && cell in x'.cards
            && Chain(versions + More(Find(x.cards, cell), Find(x'.cards, cell)), LogOf(x', cell), x'.cards[cell])
  {
    StepLog(x.cards, r, cell);
    LogForConcat(x.log, Step(x.cards, r).value.log, x.cards[cell].id);
    ChainStep(x.cards, r, cell, versions, LogOf(x, cell));
  }

  lemma ThenFirst(x: Ran, r: Req, cell: Cell)
    requires Step(x.cards, r).Ok? && cell !in x.cards && cell in Step(x.cards, r).value.cards
    requires LogFor(x.log, r.freshId) == []
    ensures var x' := Then(x, Step(x.cards, r)).value;
            Chain([] + More(None, Find(x'.cards, cell)), LogOf(x', cell), x'.cards[cell])
  {
    assert x.log + [] == x.log;
  }

  lemma ChainStep(cards: Cards, r: Req, cell: Cell, versions: seq<Card>, log: seq<Conflict>)
    requires Step(cards, r).Ok? && cell in cards && Chain(versions, log, cards[cell])
    ensures var s := Step(cards, r).value;
            Chain(versions + More(Find(cards, cell), Find(s.cards, cell)),
                  log + (if Addressed(r, cell) then s.log else []), s.cards[cell])
  {
  }

  /**
   The revision of a card counts its versions, when no payload carries
   `revision`.  A payload that does carry one sets the counter; see
   `RevisionRisesIff`.
   */
  lemma {:induction false} RevisionCountsVersions(cards: Cards, rs: seq<Req>, cell: Cell)
    requires Run(cards, rs).Ok? && cell in Run(cards, rs).value.cards
    requires forall r :: r in rs ==> r.payload.revision.None?
    ensures Run(cards, rs).value.cards[cell].revision ==
            |Versions(cards, rs, cell)| + (if cell in cards then cards[cell].revision - 1 else 0)
  {
    if rs != [] {
      var n := |rs| - 1;
      assert rs[n] in rs && forall r :: r in rs[..n] ==> r in rs;
      var before := Run(cards, rs[..n]).value.cards;
      StepRevision(before, rs[n], cell);
      if cell in before {
        RevisionCountsVersions(cards, rs[..n], cell);
      } else {
        NoVersions(cards, rs[..n], cell);
        StillAbsent(cards, rs[..n], cell);
      }
    }
  }

  lemma StepRevision(cards: Cards, r: Req, cell: Cell)
    requires Step(cards, r).Ok? && cell in Step(cards, r).value.cards && r.payload.revision.None?
    ensures var after := Step(cards, r).value.cards;
            after[cell].revision == (if cell in cards then cards[cell].revision
                else 0) + |More(Find(cards, cell), Find(after, cell))|
  {
  }

  lemma {:induction false} NoVersions(cards: Cards, rs: seq<Req>, cell: Cell)
    requires Run(cards, rs).Ok? && cell !in Run(cards, rs).value.cards
    ensures Versions(cards, rs, cell) == []
  {
    if rs != [] {
      NoVersions(cards, rs[..|rs| - 1], cell);
    }
  }

  lemma {:induction false} StillAbsent(cards: Cards, rs: seq<Req>, cell: Cell)
    requires Run(cards, rs).Ok? && cell !in Run(cards, rs).value.cards
    ensures cell !in cards
  {
    RunCells(cards, rs);
  }

  /** A winning payload raises the revision exactly when it carries none, or one at least as large. */
  lemma RevisionRisesIff(cards: Cards, r: Req)
    requires WellFormed(r.payload) && CellOf(r) in cards && IncomingWins(cards[CellOf(r)], r.payload)
    ensures Step(cards, r).value.cards[CellOf(r)].revision > cards[CellOf(r)].revision <==>
            r.payload.revision.GetOr(cards[CellOf(r)].revision) >= cards[CellOf(r)].revision
  {
  }

  // ---------------------------------------------------------------- what a conflict row gives back

  /** What a device sees of a card: everything but its id and revision. */
  datatype Content = Content(
    ease: real,
    intervalDays: nat,
    repetitions: nat,
    lapses: nat,
    dueAt: Time,
    lastReviewedAt: Option<Time>,
    clientUpdatedAt: Time)

  function ContentOf(c: Card): Content {
    Content(c.ease, c.intervalDays, c.repetitions, c.lapses, c.dueAt, c.lastReviewedAt, c.clientUpdatedAt)
  }

  /** The content that a snapshot gives back, once the time of the last review is known. */
  function Restored(s: Snapshot, lastReviewedAt: Option<Time>): Content {
    Content(s.ease, s.intervalDays, s.repetitions, s.lapses, s.dueAt, lastReviewedAt, s.clientUpdatedAt)
  }

  /** Request `i` overwrites the card of `cell` and sets another time of the last review. */
  ghost predicate ReviewChanged(cards: Cards, rs: seq<Req>, cell: Cell, i: nat) {
    && i < |rs| && Addressed(rs[i], cell) && Run(cards, rs[..i]).Ok?
    && var before := Run(cards, rs[..i]).value.cards;
       && cell in before && IncomingWins(before[cell], rs[i].payload)
       && rs[i].payload.lastReviewedAt.GetOr(before[cell].lastReviewedAt) != before[cell].lastReviewedAt
  }

  ghost predicate ReviewKept(cards: Cards, rs: seq<Req>, cell: Cell) {
    forall i: nat :: !ReviewChanged(cards, rs, cell, i)
  }

  /** All versions were last reviewed when the current one was. */
  ghost predicate SameReview(cards: Cards, rs: seq<Req>, cell: Cell)
    requires Run(cards, rs).Ok? && cell in Run(cards, rs).value.cards
  {
    forall v :: v in Versions(cards, rs, cell) ==> v.lastReviewedAt == Run(cards, rs).value.cards[cell].lastReviewedAt
  }

  lemma ReviewKeptSplit(cards: Cards, rs: seq<Req>, cell: Cell)
    requires rs != []
    ensures ReviewKept(cards, rs, cell) <==>
            ReviewKept(cards, rs[..|rs| - 1], cell) && !ReviewChanged(cards, rs, cell, |rs| - 1)
  {
    var n := |rs| - 1;
    forall i: nat | i < n
      ensures ReviewChanged(cards, rs[..n], cell, i) <==> ReviewChanged(cards, rs, cell, i)
    {
      assert rs[..n][..i] == rs[..i];
    }
    assert forall i: nat :: ReviewChanged(cards, rs, cell, i) ==> i < n || i == n;
  }

  lemma {:induction false} AbsentKept(cards: Cards, rs: seq<Req>, cell: Cell)
    requires Run(cards, rs).Ok? && cell !in Run(cards, rs).value.cards
    ensures ReviewKept(cards, rs, cell)
  {
    if rs != [] {
      AbsentKept(cards, rs[..|rs| - 1], cell);
      ReviewKeptSplit(cards, rs, cell);
    }
  }

  lemma {:induction false} LastIsVersion(cards: Cards, rs: seq<Req>, cell: Cell)
    requires Run(cards, rs).Ok? && cell in Run(cards, rs).value.cards
    ensures Run(cards, rs).value.cards[cell] in Versions(cards, rs, cell)
  {
    if rs != [] && Find(Run(cards, rs[..|rs| - 1]).value.cards, cell) == Find(Run(cards, rs).value.cards, cell) {
      LastIsVersion(cards, rs[..|rs| - 1], cell);
    }
  }

  lemma {:induction false} SameReviewIff(cards: Cards, rs: seq<Req>, cell: Cell)
    requires Run(cards, rs).Ok? && cell in Run(cards, rs).value.cards
    ensures SameReview(cards, rs, cell) <==> ReviewKept(cards, rs, cell)
  {
    if rs != [] {
      var init := rs[..|rs| - 1];
      ReviewKeptSplit(cards, rs, cell);
      if cell in Run(cards, init).value.cards {
        SameReviewIff(cards, init, cell);
        LastIsVersion(cards, init, cell);
      } else {
        NoVersions(cards, init, cell);
        AbsentKept(cards, init, cell);
      }
    }
  }

  /**
   Reading the log back: with the current card's time of the last review put in,
   the conflict rows give back the contents of all losing versions, exactly when
   no winning payload of the run changed that time.
   */
  lemma {:induction false} HistoryRestoresIff(cards: Cards, rs: seq<Req>, cell: Cell)
    requires UniqueIds(cards) && Fresh(cards, rs) && Run(cards, rs).Ok? && cell in Run(cards, rs).value.cards
    ensures var log, versions := LogOf(Run(cards, rs).value, cell), Versions(cards, rs, cell);
            && |versions| == |log| + 1
            && ((forall i :: 0 <= i < |log| ==>
                   Restored(log[i].losing, Run(cards, rs).value.cards[cell].lastReviewedAt) == ContentOf(versions[i]))
                <==> ReviewKept(cards, rs, cell))
  {
    VersionChain(cards, rs, cell);
    SameReviewIff(cards, rs, cell);
    var log, versions := LogOf(Run(cards, rs).value, cell), Versions(cards, rs, cell);
    var at := Run(cards, rs).value.cards[cell].lastReviewedAt;
    forall i | 0 <= i < |log|
      ensures Restored(log[i].losing, at) == ContentOf(versions[i]) <==> versions[i].lastReviewedAt == at
    {
      assert log[i].losing == SnapshotOf(versions[i]);
    }
  }

  /** When no payload for the card carries `last_reviewed_at`, the whole history can be read back. */
  lemma {:induction false} HistoryRestores(cards: Cards, rs: seq<Req>, cell: Cell)
    requires UniqueIds(cards) && Fresh(cards, rs) && Run(cards, rs).Ok? && cell in Run(cards, rs).value.cards
    requires forall r :: r in rs && Addressed(r, cell) ==> r.payload.lastReviewedAt.None?
    ensures var x := Run(cards, rs).value;
            var log, versions := LogOf(x, cell), Versions(cards, rs, cell);
            && |versions| == |log| + 1
            && forall i :: 0 <= i < |log| ==>
                 Restored(log[i].losing, x.cards[cell].lastReviewedAt) == ContentOf(versions[i])
  {
    HistoryRestoresIff(cards, rs, cell);
    assert ReviewKept(cards, rs, cell);
  }

  lemma OneWins(cell: Cell, c: Card, r: Req)
    requires Addressed(r, cell) && IncomingWins(c, r.payload)
    ensures Run(map[cell := c], [r]) ==
            Ok(Ran(map[cell := Overwritten(c, r.payload)], [ConflictFor(c, r)], MergeOutcome(1, 0, 1)))
  {
    RunOne(map[cell := c], r);
    assert map[cell := c][cell := Overwritten(c, r.payload)] == map[cell := Overwritten(c, r.payload)];
  }

  /**
   Otherwise it can be lost for good: two cards with different contents that one
   push turns into the same card, conflict row and counters.
   */
  lemma ReviewIsForgotten() returns (cell: Cell, c: Card, d: Card, r: Req)
    ensures ContentOf(c) != ContentOf(d)
    ensures Run(map[cell := c], [r]).Ok? && Run(map[cell := c], [r]).value.out.applied == 1
    ensures Run(map[cell := c], [r]) == Run(map[cell := d], [r])
  {
    cell := Cell(0, 0);
    c := Card(0, 2.5, 0, 0, 0, 0, Some(1), 0, 1);
    d := Card(0, 2.5, 0, 0, 0, 0, Some(2), 0, 1);
    r := Req(0, Payload(Some(0), Some(9), None, None, None, None, None, Some(Some(5)), None, false), 1);
    OneWins(cell, c, r);
    OneWins(cell, d, r);
    assert Overwritten(c, r.payload) == Overwritten(d, r.payload) && ConflictFor(c, r) == ConflictFor(d, r);
  }

  /** A winning payload that carries a smaller revision lowers the counter. */
  lemma RevisionCanFall() returns (cell: Cell, c: Card, r: Req)
    ensures Run(map[cell := c], [r]).Ok? && Run(map[cell := c], [r]).value.out.applied == 1
    ensures var after := Run(map[cell := c], [r]).value.cards; cell in after && after[cell].revision < c.revision
  {
    cell := Cell(0, 0);
    c := Card(0, 2.5, 0, 0, 0, 0, None, 0, 7);
    r := Req(0, Payload(Some(0), Some(9), None, None, None, None, None, None, Some(2), false), 1);
    OneWins(cell, c, r);
  }
}
