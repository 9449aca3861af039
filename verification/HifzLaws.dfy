/**
 Laws of the merge fold: splitting, failing, accounting, the stored order key,
 old news, and independence of cells.
 */
module HifzLaws {
  import opened Wrappers
  import opened HifzMerge

  // ---------------------------------------------------------------- splitting

  lemma ThenAssociates(x: Ran, y: Ran, z: Result<Ran, MergeError>)
    ensures Then(x, Then(y, z)) == Then(Ran(y.cards, x.log + y.log, Plus(x.out, y.out)), z)
  {
    if z.Ok? {
      assert x.log + (y.log + z.value.log) == (x.log + y.log) + z.value.log;
    }
  }

  /** Running `a + b` is running `a`, then `b` on what `a` left, with logs and counters added. */
  lemma {:induction false} RunConcat(cards: Cards, a: seq<Req>, b: seq<Req>)
    ensures Run(cards, a + b) ==
            match Run(cards, a)
            case Ok(x) => Then(x, Run(x.cards, b))
            case Err(e) => Err(e)
    decreases |b|
  {
    if b == [] {
      assert a + b == a;
      if Run(cards, a).Ok? {
        assert Run(cards, a).value.log + [] == Run(cards, a).value.log;
      }
    } else {
      var c, r := b[..|b| - 1], b[|b| - 1];
      assert a + b == (a + c) + [r];
      RunSnoc(cards, a + c, r);
      RunConcat(cards, a, c);
      match Run(cards, a)
      case Err(_) =>
      case Ok(x) =>
        assert b == c + [r];
        RunSnoc(x.cards, c, r);
        match Run(x.cards, c)
        case Err(_) =>
        case Ok(y) => ThenAssociates(x, y, Step(y.cards, r));
    }
  }

  lemma RunSnoc(cards: Cards, rs: seq<Req>, r: Req)
    ensures Run(cards, rs + [r]) ==
            match Run(cards, rs)
            case Ok(x) => Then(x, Step(x.cards, r))
            case Err(e) => Err(e)
  {
  }

  lemma RunOne(cards: Cards, r: Req)
    requires Step(cards, r).Ok?
    ensures Run(cards, [r]) == Step(cards, r)
  {
    RunSnoc(cards, [], r);
    assert [] + [r] == [r] && [] + Step(cards, r).value.log == Step(cards, r).value.log;
  }

  lemma RunBoth(cards: Cards, a: seq<Req>, b: seq<Req>, x: Ran, y: Ran)
    requires Run(cards, a) == Ok(x) && Run(x.cards, b) == Ok(y)
    ensures Run(cards, a + b) == Ok(Ran(y.cards, x.log + y.log, Plus(x.out, y.out)))
  {
    RunConcat(cards, a, b);
  }

  /** Pushing two batches one after the other, when neither fails, is pushing their concatenation. */
  lemma MergeConcat(db: Db, a: seq<Req>, b: seq<Req>)
    requires Merge(db, a).1.Ok? && Merge(Merge(db, a).0, b).1.Ok?
    ensures var (da, ra) := Merge(db, a);
            var (dab, rb) := Merge(da, b);
            Merge(db, a + b) == (dab, Ok(Plus(ra.value, rb.value)))
  {
    var x := Run(db.cards, a).value;
    var y := Run(x.cards, b).value;
    RunBoth(db.cards, a, b, x, y);
    LogsJoin(db.log, x.log, y.log);
  }

  lemma BatchJoins(user: UserId, a: seq<Payload>, i: seq<CardId>, b: seq<Payload>, j: seq<CardId>)
    requires |a| == |i| && |b| == |j|
    ensures Batch(user, a + b, i + j) == Batch(user, a, i) + Batch(user, b, j)
  {
  }

  /** The payloads of a push are merged in the order in which they are listed, each for the user who pushes. */
  lemma {:induction false} PayloadsInOrder(db: Db, user: UserId, a: seq<Payload>, i: seq<CardId>, p: Payload,
                                           id: CardId)
    requires |a| == |i| && Merge(db, Batch(user, a, i)).1.Ok?
    ensures var (after, _) := Merge(db, Batch(user, a, i));
            match Step(after.cards, Req(user, p, id))
            case Ok(step) =>
              && Merge(db, Batch(user, a + [p], i + [id])).0 == Db(step.cards, after.log + step.log)
              && Merge(db, Batch(user, a + [p], i + [id])).1 == Ok(Plus(Merge(db, Batch(user, a, i)).1.value, step.out))
            case Err(e) => Merge(db, Batch(user, a + [p], i + [id])) == (db, Err(e))
  {
    BatchJoins(user, a, i, [p], [id]);
    assert Batch(user, [p], [id]) == [Req(user, p, id)];
    RunSnoc(db.cards, Batch(user, a, i), Req(user, p, id));
  }

  lemma LogsJoin(a: seq<Conflict>, b: seq<Conflict>, c: seq<Conflict>)
    ensures a + (b + c) == (a + b) + c
  {
  }

  // ---------------------------------------------------------------- when a push fails

  /** Request `i` is the first of the batch to address a cell without a card. */
  ghost predicate Opens(cards: Cards, rs: seq<Req>, i: nat)
    requires i < |rs|
  {
    && WellFormed(rs[i].payload)
    && CellOf(rs[i]) !in cards
    && forall j :: 0 <= j < i ==> !Addressed(rs[j], CellOf(rs[i]))
  }

  /** After a run exactly the old cells and the addressed ones hold cards. */
  lemma {:induction false} RunCells(cards: Cards, rs: seq<Req>)
    requires Run(cards, rs).Ok?
    ensures Run(cards, rs).value.cards.Keys == cards.Keys + Footprint(rs)
  {
    if rs != [] {
      var n := |rs| - 1;
      RunCells(cards, rs[..n]);
      FootprintSnoc(rs);
      StepCells(Run(cards, rs[..n]).value.cards, rs[n]);
    }
  }

  /** The cell of a well-formed request. */
  function CellsOf(r: Req): set<Cell> {
    if WellFormed(r.payload) then {CellOf(r)} else {}
  }

  lemma StepCells(cards: Cards, r: Req)
    requires Step(cards, r).Ok?
    ensures Step(cards, r).value.cards.Keys == cards.Keys + CellsOf(r)
  {
  }

  lemma FootprintSnoc(rs: seq<Req>)
    requires rs != []
    ensures Footprint(rs) == Footprint(rs[..|rs| - 1]) + CellsOf(rs[|rs| - 1])
  {
  }

  /** Request `i` would have to create a card and cannot. */
  ghost predicate Blocks(cards: Cards, rs: seq<Req>, i: int) {
    0 <= i < |rs| && Opens(cards, rs, i) && !Creatable(rs[i].payload)
  }

  lemma OpensIffAbsent(cards: Cards, rs: seq<Req>, i: nat)
    requires i < |rs| && WellFormed(rs[i].payload)
    ensures Opens(cards, rs, i) <==> CellOf(rs[i]) !in cards.Keys + Footprint(rs[..i])
  {
  }

  lemma BlocksPrefix(cards: Cards, rs: seq<Req>, n: nat, i: nat)
    requires i < n <= |rs|
    ensures Blocks(cards, rs[..n], i) <==> Blocks(cards, rs, i)
  {
  }

  lemma LastBlocks(cards: Cards, rs: seq<Req>)
    requires rs != [] && Run(cards, rs[..|rs| - 1]).Ok?
    ensures Blocks(cards, rs, |rs| - 1) <==> Run(cards, rs).Err?
  {
    var n := |rs| - 1;
    RunCells(cards, rs[..n]);
    if WellFormed(rs[n].payload) {
      OpensIffAbsent(cards, rs, n);
    }
  }

  /**
   A push fails exactly when the first payload for some cell that has no card
   cannot create one.
   */
  lemma {:induction false} FailsIff(cards: Cards, rs: seq<Req>)
    ensures Run(cards, rs).Err? <==> exists i :: Blocks(cards, rs, i)
  {
    if rs != [] {
      var n := |rs| - 1;
      FailsIff(cards, rs[..n]);
      forall i: nat | i < n
        ensures Blocks(cards, rs[..n], i) <==> Blocks(cards, rs, i)
      {
        BlocksPrefix(cards, rs, n, i);
      }
      if Run(cards, rs[..n]).Ok? {
        LastBlocks(cards, rs);
      } else {
        var i :| Blocks(cards, rs[..n], i);
        assert Blocks(cards, rs, i);
      }
    }
  }

  /** A failing push leaves both tables as they were, wherever in the batch it fails. */
  lemma AllOrNothing(db: Db, rs: seq<Req>)
    ensures var (after, r) := Merge(db, rs);
            && (r.Err? <==> exists i :: Blocks(db.cards, rs, i))
            && (r.Err? ==> after == db)
            && (r.Ok? ==> after.cards.Keys == db.cards.Keys + Footprint(rs) && db.log <= after.log)
  {
    FailsIff(db.cards, rs);
    if Run(db.cards, rs).Ok? {
      RunCells(db.cards, rs);
    }
  }

  // ---------------------------------------------------------------- accounting

  ghost function SumRevisions(cards: Cards): nat
    decreases |cards|
  {
    if cards == map[] then 0
    else
      var c :| c in cards;
      assert |cards - {c}| < |cards| by { assert (cards - {c}).Keys == cards.Keys - {c}; }
      cards[c].revision + SumRevisions(cards - {c})
  }

  lemma {:induction false} SumRevisionsSplit(cards: Cards, c: Cell)
    requires c in cards
    ensures SumRevisions(cards) == cards[c].revision + SumRevisions(cards - {c})
    decreases |cards|
  {
    var d :| d in cards && SumRevisions(cards) == cards[d].revision + SumRevisions(cards - {d});
    if d != c {
      assert (cards - {d}).Keys == cards.Keys - {d};
      assert (cards - {c}).Keys == cards.Keys - {c};
      SumRevisionsSplit(cards - {d}, c);
      SumRevisionsSplit(cards - {c}, d);
      assert cards - {d} - {c} == cards - {c} - {d};
    }
  }

  lemma SumRevisionsPut(cards: Cards, c: Cell, card: Card)
    ensures SumRevisions(cards[c := card]) ==
            SumRevisions(cards) + card.revision - (if c in cards then cards[c].revision else 0)
  {
    SumRevisionsSplit(cards[c := card], c);
    if c in cards {
      SumRevisionsSplit(cards, c);
      assert cards[c := card] - {c} == cards - {c};
    } else {
      assert cards[c := card] - {c} == cards;
    }
  }

  /** Every payload is counted once; conflicts are log rows; the other applied ones are new cards. */
  lemma {:induction false} Accounting(cards: Cards, rs: seq<Req>)
    requires Run(cards, rs).Ok?
    ensures var x := Run(cards, rs).value;
            && x.out.applied + x.out.rejected == |rs|
            && x.out.conflicts == |x.log|
            && x.out.applied - x.out.conflicts == |x.cards| - |cards|
  {
    if rs != [] {
      Accounting(cards, rs[..|rs| - 1]);
      StepAccounting(Run(cards, rs[..|rs| - 1]).value.cards, rs[|rs| - 1]);
    }
  }

  lemma StepAccounting(cards: Cards, r: Req)
    requires Step(cards, r).Ok?
    ensures var x := Step(cards, r).value;
            && x.out.applied + x.out.rejected == 1
            && x.out.conflicts == |x.log|
            && x.out.applied - x.out.conflicts == |x.cards| - |cards|
  {
  }

  /** When no payload carries `revision`, the revisions together grow by exactly `applied`. */
  lemma {:induction false} RevisionsGrowByApplied(cards: Cards, rs: seq<Req>)
    requires Run(cards, rs).Ok?
    requires forall r :: r in rs ==> r.payload.revision.None?
    ensures SumRevisions(Run(cards, rs).value.cards) == SumRevisions(cards) + Run(cards, rs).value.out.applied
  {
    if rs != [] {
      var n := |rs| - 1;
      assert forall r :: r in rs[..n] ==> r in rs;
      RevisionsGrowByApplied(cards, rs[..n]);
      var before := Run(cards, rs[..n]).value.cards;
      var r := rs[n];
      assert r in rs;
      if WellFormed(r.payload) {
        SumRevisionsPut(before, CellOf(r), Run(cards, rs).value.cards[CellOf(r)]);
        var after := Run(cards, rs).value.cards;
        assert after == before[CellOf(r) := after[CellOf(r)]];
      }
    }
  }

  // ---------------------------------------------------------------- the stored key

  lemma WinsIffLess(c: Card, p: Payload)
    requires WellFormed(p)
    ensures IncomingWins(c, p) <==> Less(KeyOf(c), PayloadKey(p))
  {
  }

  /** One payload raises the key of the cell it addresses to its own, if that is greater. */
  lemma StepKey(cards: Cards, r: Req, cell: Cell)
    requires Step(cards, r).Ok? && cell in Step(cards, r).value.cards
    ensures var k := KeyOf(Step(cards, r).value.cards[cell]);
            if Addressed(r, cell) && (cell !in cards || Less(KeyOf(cards[cell]), PayloadKey(r.payload)))
            then k == PayloadKey(r.payload)
            else cell in cards && k == KeyOf(cards[cell])
  {
  }

  /**
   After a run the stored key of a cell is the greatest, by progress and then
   clock, of the key stored before and the keys of all payloads that addressed
   it, whether or not they carried `repetitions`.
   */
  lemma {:induction false} StoredKeyIsGreatest(cards: Cards, rs: seq<Req>, cell: Cell)
    requires Run(cards, rs).Ok?
    requires cell in Run(cards, rs).value.cards
    ensures var k := KeyOf(Run(cards, rs).value.cards[cell]);
            && (cell in cards ==> !Less(k, KeyOf(cards[cell])))
            && (forall r :: r in rs && Addressed(r, cell) ==> !Less(k, PayloadKey(r.payload)))
            && ((cell in cards && k == KeyOf(cards[cell]))
                || exists r :: r in rs && Addressed(r, cell) && k == PayloadKey(r.payload))
  {
    if rs != [] {
      var init, r := rs[..|rs| - 1], rs[|rs| - 1];
      assert rs == init + [r] && r in rs;
      var before := Run(cards, init).value.cards;
      StepKey(before, r, cell);
      if cell in before {
        StoredKeyIsGreatest(cards, init, cell);
        var k := KeyOf(before[cell]);
        if q :| q in init && Addressed(q, cell) && k == PayloadKey(q.payload) { assert q in rs; }
      } else {
        RunCells(cards, init);
        assert forall q :: q in init && WellFormed(q.payload) ==> CellOf(q) in Footprint(init);
      }
    }
  }

  /** Stored progress never falls and no card disappears, over any run. */
  lemma {:induction false} ProgressNeverFalls(cards: Cards, rs: seq<Req>, cell: Cell)
    requires Run(cards, rs).Ok? && cell in cards
    ensures var after := Run(cards, rs).value.cards;
            cell in after && after[cell].repetitions >= cards[cell].repetitions && after[cell].id == cards[cell].id
  {
    RunCells(cards, rs);
    StoredKeyIsGreatest(cards, rs, cell);
    IdsStay(cards, rs, cell);
  }

  lemma {:induction false} IdsStay(cards: Cards, rs: seq<Req>, cell: Cell)
    requires Run(cards, rs).Ok? && cell in cards
    ensures cell in Run(cards, rs).value.cards && Run(cards, rs).value.cards[cell].id == cards[cell].id
  {
    if rs != [] {
      IdsStay(cards, rs[..|rs| - 1], cell);
    }
  }

  // ---------------------------------------------------------------- old news

  /** The payload's cell holds no card, or a smaller one. */
  predicate Beats(cards: Cards, r: Req) {
    WellFormed(r.payload) && (CellOf(r) in cards ==> Less(KeyOf(cards[CellOf(r)]), PayloadKey(r.payload)))
  }

  /** The payload has nothing to say to these cards. */
  predicate OldNews(cards: Cards, r: Req) {
    !Beats(cards, r)
  }

  /** One more payload applies nothing exactly when it is old news, and then it is only counted. */
  lemma ThenInert(x: Ran, r: Req)
    ensures Then(x, Step(x.cards, r)).Ok? && Then(x, Step(x.cards, r)).value.out.applied == 0 <==>
            x.out.applied == 0 && OldNews(x.cards, r)
    ensures OldNews(x.cards, r) ==>
              Then(x, Step(x.cards, r)) ==
              Ok(Ran(x.cards, x.log, MergeOutcome(x.out.applied, x.out.rejected + 1, x.out.conflicts)))
  {
    if WellFormed(r.payload) && CellOf(r) in x.cards {
      WinsIffLess(x.cards[CellOf(r)], r.payload);
    }
    assert x.log + [] == x.log;
  }

  function Inert(cards: Cards, rs: seq<Req>): Result<Ran, MergeError> {
    Ok(Ran(cards, [], MergeOutcome(0, |rs|, 0)))
  }

  /** A push that applies nothing changes nothing. */
  lemma {:induction false} NothingAppliedNothingChanged(cards: Cards, rs: seq<Req>)
    requires Run(cards, rs).Ok? && Run(cards, rs).value.out.applied == 0
    ensures Run(cards, rs) == Inert(cards, rs)
  {
    if rs != [] {
      var n := |rs| - 1;
      var x := Run(cards, rs[..n]).value;
      ThenInert(x, rs[n]);
      NothingAppliedNothingChanged(cards, rs[..n]);
    }
  }

  /** A push changes nothing and rejects everything exactly when each of its payloads is malformed or beaten. */
  lemma {:induction false} InertIff(cards: Cards, rs: seq<Req>)
    ensures Run(cards, rs) == Inert(cards, rs) <==> forall r :: r in rs ==> OldNews(cards, r)
  {
    if rs != [] {
      var n := |rs| - 1;
      var init, last := rs[..n], rs[n];
      assert rs == init + [last];
      assert forall r :: r in rs <==> r in init || r == last;
      InertIff(cards, init);
      RunSnoc(cards, init, last);
      match Run(cards, init)
      case Err(_) =>
      case Ok(x) =>
        ThenInert(x, last);
        if x.out.applied == 0 {
          NothingAppliedNothingChanged(cards, init);
        }
    }
  }

  /**
   Old news is never applied again: once a batch was processed, and whatever was
   pushed since, any sequence of payloads drawn from it changes nothing and is
   rejected whole.
   */
  lemma ReplayIsInert(cards: Cards, seen: seq<Req>, since: seq<Req>, again: seq<Req>)
    requires Run(cards, seen + since).Ok?
    requires forall a :: a in again ==> exists r :: r in seen && r.user == a.user && r.payload == a.payload
    ensures var now := Run(cards, seen + since).value.cards;
            Run(now, again) == Inert(now, again)
  {
    var now := Run(cards, seen + since).value.cards;
    forall a | a in again
      ensures OldNews(now, a)
    {
      var r :| r in seen && r.user == a.user && r.payload == a.payload;
      assert r in seen + since;
      if WellFormed(a.payload) {
        RunCells(cards, seen + since);
        assert CellOf(r) in Footprint(seen + since);
        assert Addressed(r, CellOf(a));
        StoredKeyIsGreatest(cards, seen + since, CellOf(a));
      }
    }
    InertIff(now, again);
  }

  // ---------------------------------------------------------------- what is rejected, on the payload's fields

  /** A payload without ayah or timestamp, or one whose card is stored and not behind it. */
  predicate Refuses(cards: Cards, r: Req) {
    var p := r.payload;
    || p.ayah == None || p.clientUpdatedAt == None
    || (&& Cell(r.user, p.ayah.value) in cards
        && var c := cards[Cell(r.user, p.ayah.value)];
           var reps := if p.repetitions == None then 0 else p.repetitions.value;
           reps < c.repetitions || (reps == c.repetitions && p.clientUpdatedAt.value <= c.clientUpdatedAt))
  }

  /** A payload that is not refused and has no stored card fails without `due_at` or with a key that is no column. */
  predicate CannotCreate(cards: Cards, r: Req) {
    var p := r.payload;
    && p.ayah != None && p.clientUpdatedAt != None && Cell(r.user, p.ayah.value) !in cards
    && (p.dueAt == None || p.unknownField)
  }

  /** What becomes of a payload is told by its fields and the stored card, with nothing in between. */
  lemma {:induction false} StepDecides(cards: Cards, r: Req)
    ensures Step(cards, r).Err? <==> CannotCreate(cards, r)
    ensures Step(cards, r) == Ok(Ran(cards, [], MergeOutcome(0, 1, 0))) <==> Refuses(cards, r)
    ensures !CannotCreate(cards, r) && !Refuses(cards, r) ==>
              var p, x := r.payload, Step(cards, r).value;
              var cell := Cell(r.user, p.ayah.value);
              && x.out == MergeOutcome(1, 0, if cell in cards then 1 else 0) && |x.log| == x.out.conflicts
              && x.cards.Keys == cards.Keys + {cell}
              && x.cards[cell].clientUpdatedAt == p.clientUpdatedAt.value
              && x.cards[cell].repetitions == (if p.repetitions == None then 0 else p.repetitions.value)
              && forall other :: other in cards && other != cell ==> x.cards[other] == cards[other]
  {
  }

  /** The requests of the run that are refused when their turn comes. */
  ghost function Refusals(cards: Cards, rs: seq<Req>): set<nat> {
    set i: nat | i < |rs| && Run(cards, rs[..i]).Ok? && Refuses(Run(cards, rs[..i]).value.cards, rs[i])
  }

  lemma RefusalsSnoc(cards: Cards, rs: seq<Req>)
    requires rs != [] && Run(cards, rs[..|rs| - 1]).Ok?
    ensures var n := |rs| - 1;
            Refusals(cards, rs) ==
            Refusals(cards, rs[..n]) + if Refuses(Run(cards, rs[..n]).value.cards, rs[n]) then {n} else {}
  {
    var n := |rs| - 1;
    forall i: nat | i < n
      ensures i in Refusals(cards, rs) <==> i in Refusals(cards, rs[..n])
    {
      assert rs[..n][..i] == rs[..i];
    }
  }

  /** The counter `rejected` of a run counts exactly these. */
  lemma {:induction false} RejectedCounts(cards: Cards, rs: seq<Req>)
    requires Run(cards, rs).Ok?
    ensures Run(cards, rs).value.out.rejected == |Refusals(cards, rs)|
  {
    if rs == [] {
      assert Refusals(cards, rs) == {};
    } else {
      var n := |rs| - 1;
      RejectedCounts(cards, rs[..n]);
      RefusalsSnoc(cards, rs);
      StepDecides(Run(cards, rs[..n]).value.cards, rs[n]);
      assert n !in Refusals(cards, rs[..n]);
    }
  }

  /** Repetitions first, an omitted one counting as zero, and then the clock. */
  predicate AtLeast(p: Payload, reps: nat, at: Time)
    requires p.clientUpdatedAt.Some?
  {
    var mine := if p.repetitions == None then 0 else p.repetitions.value;
    mine > reps || (mine == reps && p.clientUpdatedAt.value >= at)
  }

  /** Request `j` is for the same card as `i`, and not smaller. */
  predicate Shadows(rs: seq<Req>, j: int, i: nat)
    requires i < |rs| && rs[i].payload.ayah.Some? && rs[i].payload.clientUpdatedAt.Some?
  {
    && 0 <= j < i && rs[j].user == rs[i].user && rs[j].payload.ayah == rs[i].payload.ayah
    && rs[j].payload.clientUpdatedAt.Some?
    && AtLeast(rs[j].payload, rs[i].payload.repetitions.GetOr(0), rs[i].payload.clientUpdatedAt.value)
  }

  /**
   Without running anything: a request that carries its two fields is refused
   exactly when the card stored at the start, or an earlier request for the card, is
   at least as great.  What is applied are the records of the sequence.
   */
  lemma {:induction false} RefusedIffNoRecord(cards: Cards, rs: seq<Req>, i: nat)
    requires i < |rs| && Run(cards, rs[..i]).Ok?
    requires rs[i].payload.ayah.Some? && rs[i].payload.clientUpdatedAt.Some?
    ensures var p := rs[i].payload;
            var cell := Cell(rs[i].user, p.ayah.value);
            Refuses(Run(cards, rs[..i]).value.cards, rs[i]) <==>
            || (cell in cards && !Less(KeyOf(cards[cell]), Key(p.repetitions.GetOr(0), p.clientUpdatedAt.value)))
            || exists j :: Shadows(rs, j, i)
  {
    var init, cell := rs[..i], Cell(rs[i].user, rs[i].payload.ayah.value);
    var now := Run(cards, init).value.cards;
    RunCells(cards, init);
    forall j: nat | j < i
      ensures Addressed(rs[j], cell) && !Less(PayloadKey(rs[j].payload), PayloadKey(rs[i].payload)) <==>
              Shadows(rs, j, i)
    {
    }
    if cell in now {
      StoredKeyIsGreatest(cards, init, cell);
      if r :| r in init && Addressed(r, cell) && KeyOf(now[cell]) == PayloadKey(r.payload) {
        var j :| 0 <= j < i && init[j] == r;
        assert rs[j] == r;
      }
      forall j | Shadows(rs, j, i)
        ensures !Less(KeyOf(now[cell]), PayloadKey(rs[j].payload))
      {
        assert init[j] in init && Addressed(init[j], cell);
      }
    } else {
      forall j: nat | j < i
        ensures !Addressed(rs[j], cell)
      {
        assert init[j] in init;
      }
    }
  }

  // ---------------------------------------------------------------- independence of cells

  /** A run leaves every cell outside its footprint alone. */
  lemma {:induction false} RunElsewhere(cards: Cards, rs: seq<Req>, cell: Cell)
    requires Run(cards, rs).Ok? && cell !in Footprint(rs)
    ensures Find(Run(cards, rs).value.cards, cell) == Find(cards, cell)
  {
    if rs != [] {
      var n := |rs| - 1;
      assert rs == rs[..n] + [rs[n]];
      assert rs[n] in rs;
      assert forall r :: r in rs[..n] ==> r in rs;
      RunElsewhere(cards, rs[..n], cell);
    }
  }

  /** A push for one user touches no card of another, and logs in no other's name. */
  lemma {:induction false} OthersUntouched(cards: Cards, user: UserId, rs: seq<Req>)
    requires (forall r :: r in rs ==> r.user == user) && Run(cards, rs).Ok?
    ensures forall cell: Cell :: cell.user != user ==> Find(Run(cards, rs).value.cards, cell) == Find(cards, cell)
    ensures forall e :: e in Run(cards, rs).value.log ==> e.user == user
  {
    if rs != [] {
      var n := |rs| - 1;
      assert rs[n] in rs && forall r :: r in rs[..n] ==> r in rs;
      OthersUntouched(cards, user, rs[..n]);
    }
  }

  /**
   A run depends on, and changes, only the cells of its footprint: over two
   tables that agree there it fails alike, logs alike, counts alike and leaves
   the footprint alike.
   */
  lemma {:induction false} RunFrame(c: Cards, d: Cards, rs: seq<Req>)
    requires forall cell :: cell in Footprint(rs) ==> Find(c, cell) == Find(d, cell)
    ensures Run(c, rs).Ok? <==> Run(d, rs).Ok?
    ensures Run(c, rs).Ok? ==>
              var x, y := Run(c, rs).value, Run(d, rs).value;
              && x.log == y.log && x.out == y.out
              && (forall cell :: cell in Footprint(rs) ==> Find(x.cards, cell) == Find(y.cards, cell))
  {
    if rs != [] {
      var n := |rs| - 1;
      var init, r := rs[..n], rs[n];
      FootprintSnoc(rs);
      RunFrame(c, d, init);
      if Run(c, init).Ok? {
        var x, y := Run(c, init).value, Run(d, init).value;
        forall cell | cell in Footprint(rs)
          ensures Find(x.cards, cell) == Find(y.cards, cell)
        {
          if cell !in Footprint(init) {
            RunElsewhere(c, init, cell);
            RunElsewhere(d, init, cell);
          }
        }
        StepFrame(x.cards, y.cards, r);
      }
    }
  }

  lemma StepFrame(c: Cards, d: Cards, r: Req)
    requires WellFormed(r.payload) ==> Find(c, CellOf(r)) == Find(d, CellOf(r))
    ensures Step(c, r).Ok? <==> Step(d, r).Ok?
    ensures Step(c, r).Ok? ==>
              var x, y := Step(c, r).value, Step(d, r).value;
              && x.log == y.log && x.out == y.out
              && forall cell :: Find(c, cell) == Find(d, cell) ==> Find(x.cards, cell) == Find(y.cards, cell)
  {
  }

  ghost predicate IdKnown(cards: Cards, id: CardId) {
    exists cell :: cell in cards && cards[cell].id == id
  }

  lemma StepIds(cards: Cards, r: Req)
    requires UniqueIds(cards) && !IdKnown(cards, r.freshId) && Step(cards, r).Ok?
    ensures var x := Step(cards, r).value;
            && UniqueIds(x.cards)
            && (forall cell :: cell in cards ==> cell in x.cards && x.cards[cell].id == cards[cell].id)
            && (forall cell :: cell in x.cards && cell !in cards ==> x.cards[cell].id == r.freshId)
            && (forall e :: e in x.log ==> IdKnown(cards, e.entityId))
  {
  }

  /** Ids stay unique and are old or drawn, and every conflict row names a card that is still there. */
  lemma {:induction false} RunIds(cards: Cards, rs: seq<Req>)
    requires UniqueIds(cards) && Fresh(cards, rs) && Run(cards, rs).Ok?
    ensures var x := Run(cards, rs).value;
            && UniqueIds(x.cards)
            && (forall cell :: cell in x.cards && cell !in cards ==>
                exists i :: 0 <= i < |rs| && x.cards[cell].id == rs[i].freshId)
            && (forall cell :: cell in cards ==> cell in x.cards && x.cards[cell].id == cards[cell].id)
            && (forall e :: e in x.log ==> IdKnown(x.cards, e.entityId))
  {
    if rs != [] {
      var n := |rs| - 1;
      var init, r := rs[..n], rs[n];
      RunIds(cards, init);
      var x := Run(cards, init).value;
      assert !IdKnown(x.cards, r.freshId) by {
        forall cell | cell in x.cards
          ensures x.cards[cell].id != r.freshId
        {
          if cell !in cards {
            var i :| 0 <= i < n && x.cards[cell].id == init[i].freshId;
            assert init[i] == rs[i];
          }
        }
      }
      StepIds(x.cards, r);
      var y := Run(cards, rs).value;
      forall cell | cell in y.cards && cell !in cards
        ensures exists i :: 0 <= i < |rs| && y.cards[cell].id == rs[i].freshId
      {
        if cell in x.cards {
          var i :| 0 <= i < n && x.cards[cell].id == init[i].freshId;
          assert y.cards[cell].id == rs[i].freshId;
        } else {
          assert y.cards[cell].id == rs[n].freshId;
        }
      }
      forall e | e in y.log
        ensures IdKnown(y.cards, e.entityId)
      {
        var cell :| cell in x.cards && x.cards[cell].id == e.entityId;
        assert cell in y.cards && y.cards[cell].id == e.entityId;
      }
    }
  }

  lemma {:induction false} LogForMissing(log: seq<Conflict>, id: CardId)
    requires forall e :: e in log ==> e.entityId != id
    ensures LogFor(log, id) == []
  {
    if log != [] {
      LogForMissing(log[..|log| - 1], id);
      assert log[|log| - 1] in log;
    }
  }

  lemma {:induction false} LogForConcat(a: seq<Conflict>, b: seq<Conflict>, id: CardId)
    ensures LogFor(a + b, id) == LogFor(a, id) + LogFor(b, id)
    decreases |b|
  {
    if b == [] {
      assert a + b == a;
    } else {
      assert (a + b)[..|a + b| - 1] == a + b[..|b| - 1];
      LogForConcat(a, b[..|b| - 1], id);
    }
  }

  lemma {:induction false} OnlyIsAddressed(rs: seq<Req>, cell: Cell)
    ensures forall r :: r in Only(rs, cell) <==> r in rs && Addressed(r, cell)
  {
    if rs != [] {
      OnlyIsAddressed(rs[..|rs| - 1], cell);
      assert rs == rs[..|rs| - 1] + [rs[|rs| - 1]];
    }
  }

  /** The conflict rows a run wrote for the card of a cell. */
  function LogOf(x: Ran, cell: Cell): seq<Conflict> {
    if cell in x.cards then LogFor(x.log, x.cards[cell].id) else []
  }

  /** The conflict rows one step writes are all for the card of its own cell. */
  lemma StepLog(cards: Cards, r: Req, cell: Cell)
    requires UniqueIds(cards) && Step(cards, r).Ok? && cell in cards
    ensures LogFor(Step(cards, r).value.log, cards[cell].id) ==
            if Addressed(r, cell) then Step(cards, r).value.log else []
  {
  }

  /** The run of the batch, seen at one cell, is the run of the payloads that address the cell. */
  ghost predicate Projects(cards: Cards, rs: seq<Req>, cell: Cell) {
    && Run(cards, rs).Ok?
    && Run(cards, Only(rs, cell)).Ok?
    && Find(Run(cards, rs).value.cards, cell) == Find(Run(cards, Only(rs, cell)).value.cards, cell)
    && LogOf(Run(cards, rs).value, cell) == Run(cards, Only(rs, cell)).value.log
  }

  /**
   What a batch does to one card, its conflict rows included, is what the
   payloads that address the card do on their own.
   */
  lemma {:induction false} RunProjects(cards: Cards, rs: seq<Req>, cell: Cell)
    requires UniqueIds(cards) && Fresh(cards, rs) && Run(cards, rs).Ok?
    ensures Projects(cards, rs, cell)
  {
    if rs != [] {
      var n := |rs| - 1;
      var init, r := rs[..n], rs[n];
      RunProjects(cards, init, cell);
      RunIds(cards, init);
      if Addressed(r, cell) {
        ProjectAddressed(cards, rs, cell);
      } else {
        ProjectOther(cards, rs, cell);
      }
    }
  }

  lemma ProjectOther(cards: Cards, rs: seq<Req>, cell: Cell)
    requires UniqueIds(cards) && Fresh(cards, rs) && Run(cards, rs).Ok?
    requires rs != [] && !Addressed(rs[|rs| - 1], cell) && Projects(cards, rs[..|rs| - 1], cell)
    ensures Projects(cards, rs, cell)
  {
    var init, r := rs[..|rs| - 1], rs[|rs| - 1];
    assert Only(rs, cell) == Only(init, cell);
    RunIds(cards, init);
    ThenElsewhere(Run(cards, init).value, r, cell);
  }

  /** A payload for another cell changes neither a cell's card nor its conflict rows. */
  lemma ThenElsewhere(x: Ran, r: Req, cell: Cell)
    requires UniqueIds(x.cards) && Step(x.cards, r).Ok? && !Addressed(r, cell)
    ensures var x' := Then(x, Step(x.cards, r)).value;
            Find(x'.cards, cell) == Find(x.cards, cell) && LogOf(x', cell) == LogOf(x, cell)
  {
    if cell in x.cards {
      StepLog(x.cards, r, cell);
      LogForConcat(x.log, Step(x.cards, r).value.log, x.cards[cell].id);
    }
  }

  lemma ProjectAddressed(cards: Cards, rs: seq<Req>, cell: Cell)
    requires UniqueIds(cards) && Fresh(cards, rs) && Run(cards, rs).Ok?
    requires rs != [] && Addressed(rs[|rs| - 1], cell) && Projects(cards, rs[..|rs| - 1], cell)
    ensures Projects(cards, rs, cell)
  {
    var init, r := rs[..|rs| - 1], rs[|rs| - 1];
    var x, y := Run(cards, init).value, Run(cards, Only(init, cell)).value;
    assert Only(rs, cell) == Only(init, cell) + [r];
    RunSnoc(cards, Only(init, cell), r);
    RunIds(cards, init);
    if cell !in x.cards {
      NewCardHasNoLog(cards, rs);
    }
    ThenAgree(x, y, r);
  }

  /** Two runs that agree on a cell and its conflict rows still do after one more payload for it. */
  lemma ThenAgree(x: Ran, y: Ran, r: Req)
    requires WellFormed(r.payload) && UniqueIds(x.cards) && Step(x.cards, r).Ok?
    requires Find(x.cards, CellOf(r)) == Find(y.cards, CellOf(r)) && LogOf(x, CellOf(r)) == y.log
    requires CellOf(r) !in x.cards ==> LogFor(x.log, r.freshId) == []
    ensures Step(y.cards, r).Ok?
    ensures var x', y' := Then(x, Step(x.cards, r)).value, Then(y, Step(y.cards, r)).value;
            Find(x'.cards, CellOf(r)) == Find(y'.cards, CellOf(r)) && LogOf(x', CellOf(r)) == y'.log
  {
    StepFrame(x.cards, y.cards, r);
    var s := Step(x.cards, r).value;
    if CellOf(r) in x.cards {
      StepLog(x.cards, r, CellOf(r));
      LogForConcat(x.log, s.log, x.cards[CellOf(r)].id);
    } else {
      assert x.log + s.log == x.log;
      assert y.log + s.log == y.log;
    }
  }

  /** The id drawn last names no conflict row yet. */
  lemma NewCardHasNoLog(cards: Cards, rs: seq<Req>)
    requires UniqueIds(cards) && Fresh(cards, rs) && rs != [] && Run(cards, rs[..|rs| - 1]).Ok?
    ensures LogFor(Run(cards, rs[..|rs| - 1]).value.log, rs[|rs| - 1].freshId) == []
  {
    var n := |rs| - 1;
    var x := Run(cards, rs[..n]).value;
    RunIds(cards, rs[..n]);
    forall e | e in x.log
      ensures e.entityId != rs[n].freshId
    {
      var cell :| cell in x.cards && x.cards[cell].id == e.entityId;
      if cell !in cards {
        var i :| 0 <= i < n && x.cards[cell].id == rs[..n][i].freshId;
        assert rs[..n][i] == rs[i];
      }
    }
    LogForMissing(x.log, rs[n].freshId);
  }

  /**
   Payloads for different ayahs commute: two batches with the same payloads in
   the same order for every single cell fail alike, and leave the same cards,
   revisions and per-card conflict rows.
   */
  lemma InterleavingsAgree(cards: Cards, rs: seq<Req>, ss: seq<Req>)
    requires UniqueIds(cards) && Fresh(cards, rs) && Fresh(cards, ss)
    requires forall cell :: Only(rs, cell) == Only(ss, cell)
    ensures Run(cards, rs).Ok? <==> Run(cards, ss).Ok?
    ensures Run(cards, rs).Ok? ==>
              var x, y := Run(cards, rs).value, Run(cards, ss).value;
              && x.cards == y.cards
              && forall cell :: LogOf(x, cell) == LogOf(y, cell)
  {
    if Run(cards, rs).Err? {
      FailureIsLocal(cards, rs, ss);
    }
    if Run(cards, ss).Err? {
      FailureIsLocal(cards, ss, rs);
    }
    if Run(cards, rs).Ok? {
      forall cell
        ensures Find(Run(cards, rs).value.cards, cell) == Find(Run(cards, ss).value.cards, cell)
        ensures LogOf(Run(cards, rs).value, cell) == LogOf(Run(cards, ss).value, cell)
      {
        RunProjects(cards, rs, cell);
        RunProjects(cards, ss, cell);
      }
      CardsAgree(Run(cards, rs).value.cards, Run(cards, ss).value.cards);
    }
  }

  lemma CardsAgree(c: Cards, d: Cards)
    requires forall cell :: Find(c, cell) == Find(d, cell)
    ensures c == d
  {
    assert forall cell :: cell in c ==> Find(c, cell) == Find(d, cell);
    assert forall cell :: cell in d ==> Find(c, cell) == Find(d, cell);
  }

  /** What blocks a batch blocks every batch with the same payloads, in the same order, for that cell. */
  lemma BlocksTravel(cards: Cards, rs: seq<Req>, ss: seq<Req>, i: nat)
    requires Blocks(cards, rs, i) && Only(rs, CellOf(rs[i])) == Only(ss, CellOf(rs[i]))
    ensures Run(cards, ss).Err?
  {
    var cell := CellOf(rs[i]);
    FirstOnly(rs, cell, i);
    OnlyIsAddressed(ss, cell);
    assert Only(ss, cell)[0] in Only(ss, cell);
    var j := FirstAddressed(ss, cell);
    FirstOnly(ss, cell, j);
    assert Blocks(cards, ss, j);
    FailsIff(cards, ss);
  }

  lemma FailureIsLocal(cards: Cards, rs: seq<Req>, ss: seq<Req>)
    requires Run(cards, rs).Err?
    requires forall cell :: Only(rs, cell) == Only(ss, cell)
    ensures Run(cards, ss).Err?
  {
    FailsIff(cards, rs);
    var i :| Blocks(cards, rs, i);
    BlocksTravel(cards, rs, ss, i);
  }

  lemma {:induction false} OnlyConcat(a: seq<Req>, b: seq<Req>, cell: Cell)
    ensures Only(a + b, cell) == Only(a, cell) + Only(b, cell)
    decreases |b|
  {
    if b == [] {
      assert a + b == a;
    } else {
      assert (a + b)[..|a + b| - 1] == a + b[..|b| - 1];
      OnlyConcat(a, b[..|b| - 1], cell);
    }
  }

  lemma {:induction false} OnlyOfNone(rs: seq<Req>, cell: Cell)
    requires forall j :: 0 <= j < |rs| ==> !Addressed(rs[j], cell)
    ensures Only(rs, cell) == []
  {
    if rs != [] {
      OnlyOfNone(rs[..|rs| - 1], cell);
    }
  }

  /** The first request of `rs` that addresses `cell` is the first of `Only(rs, cell)`. */
  lemma {:induction false} FirstOnly(rs: seq<Req>, cell: Cell, i: nat)
    requires i < |rs| && Addressed(rs[i], cell)
    requires forall j :: 0 <= j < i ==> !Addressed(rs[j], cell)
    ensures Only(rs, cell) != [] && Only(rs, cell)[0] == rs[i]
  {
    var n := |rs| - 1;
    if i == n {
      OnlyOfNone(rs[..n], cell);
    } else {
      FirstOnly(rs[..n], cell, i);
    }
  }

  lemma {:induction false} FirstAddressed(rs: seq<Req>, cell: Cell) returns (i: nat)
    requires exists r :: r in rs && Addressed(r, cell)
    ensures i < |rs| && Addressed(rs[i], cell)
    ensures forall j :: 0 <= j < i ==> !Addressed(rs[j], cell)
  {
    i := 0;
    while !Addressed(rs[i], cell)
      invariant i < |rs|
      invariant forall j :: 0 <= j < i ==> !Addressed(rs[j], cell)
      decreases |rs| - i
    {
      var r :| r in rs && Addressed(r, cell);
      var k :| 0 <= k < |rs| && rs[k] == r;
      i := i + 1;
    }
  }
}
