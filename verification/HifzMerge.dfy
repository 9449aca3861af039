/**
 The Hifz merge protocol as a pure fold.

 A push is a sequence of partial card payloads for one user.  Each is compared
 with the stored card of its (user, ayah) cell: a missing card is created, a
 stored card that is beaten is copied to the conflict log and overwritten field
 by field, and anything else is dropped.

 Random ids are parameters: `Req.freshId` is the id a creation would draw.
 */
module HifzMerge {
  import opened Wrappers

  type UserId = nat
  type AyahId = nat
  type CardId = nat
  type Time = int

  /** What the unique constraint on (user, ayah) makes a card's identity. */
  datatype Cell = Cell(user: UserId, ayah: AyahId)

  datatype Card = Card(
    id: CardId,
    ease: real,
    intervalDays: nat,
    repetitions: nat,
    lapses: nat,
    dueAt: Time,
    lastReviewedAt: Option<Time>,
    clientUpdatedAt: Time,
    revision: nat)

  /** A partial map from column names to values; `unknownField` says that it also has a key that is no column. */
  datatype Payload = Payload(
    ayah: Option<AyahId>,
    clientUpdatedAt: Option<Time>,
    ease: Option<real>,
    intervalDays: Option<nat>,
    repetitions: Option<nat>,
    lapses: Option<nat>,
    dueAt: Option<Time>,
    lastReviewedAt: Option<Option<Time>>,
    revision: Option<nat>,
    unknownField: bool)

  /** One payload of one push, with the id that creating its card would draw. */
  datatype Req = Req(user: UserId, payload: Payload, freshId: CardId)

  datatype Snapshot = Snapshot(
    ease: real,
    intervalDays: nat,
    repetitions: nat,
    lapses: nat,
    dueAt: Time,
    clientUpdatedAt: Time)

  datatype Conflict = Conflict(
    user: UserId,
    entityId: CardId,
    losing: Snapshot,
    winningAt: Time,
    losingAt: Time)

  datatype MergeOutcome = MergeOutcome(applied: nat, rejected: nat, conflicts: nat)

  /** Why a creation fails: a key that is no column, or no value for the one column without a default. */
  datatype MergeError = UnexpectedField | DueAtMissing

  type Cards = map<Cell, Card>

  /** The effect of a push: the new cards, the conflict rows it adds, and its counters. */
  datatype Ran = Ran(cards: Cards, log: seq<Conflict>, out: MergeOutcome)

  /** The stored tables. */
  datatype Db = Db(cards: Cards, log: seq<Conflict>)

  const NOTHING := MergeOutcome(0, 0, 0)

  function Plus(a: MergeOutcome, b: MergeOutcome): MergeOutcome {
    MergeOutcome(a.applied + b.applied, a.rejected + b.rejected, a.conflicts + b.conflicts)
  }

  function Find(cards: Cards, cell: Cell): Option<Card> {
    if cell in cards then Some(cards[cell]) else None
  }

  predicate WellFormed(p: Payload) {
    p.ayah.Some? && p.clientUpdatedAt.Some?
  }

  function CellOf(r: Req): Cell
    requires WellFormed(r.payload)
  {
    Cell(r.user, r.payload.ayah.value)
  }

  predicate Creatable(p: Payload) {
    !p.unknownField && p.dueAt.Some?
  }

  predicate IncomingWins(existing: Card, p: Payload)
    requires WellFormed(p)
  {
    var incomingReps := p.repetitions.GetOr(0);
    if incomingReps != existing.repetitions
    then incomingReps > existing.repetitions
    else p.clientUpdatedAt.value > existing.clientUpdatedAt
  }

  function SnapshotOf(c: Card): Snapshot {
    Snapshot(c.ease, c.intervalDays, c.repetitions, c.lapses, c.dueAt, c.clientUpdatedAt)
  }

  function Created(r: Req): Card
    requires WellFormed(r.payload) && Creatable(r.payload)
  {
    var p := r.payload;
    Card(r.freshId, p.ease.GetOr(2.5), p.intervalDays.GetOr(0), p.repetitions.GetOr(0), p.lapses.GetOr(0),
         p.dueAt.value, p.lastReviewedAt.GetOr(None), p.clientUpdatedAt.value, p.revision.GetOr(1))
  }

  /** Every field the payload carries replaces the stored one; then the revision goes up. */
  function Overwritten(c: Card, p: Payload): Card
    requires WellFormed(p)
  {
    Card(c.id, p.ease.GetOr(c.ease), p.intervalDays.GetOr(c.intervalDays), p.repetitions.GetOr(c.repetitions),
         p.lapses.GetOr(c.lapses), p.dueAt.GetOr(c.dueAt), p.lastReviewedAt.GetOr(c.lastReviewedAt),
         p.clientUpdatedAt.value, p.revision.GetOr(c.revision) + 1)
  }

  function ConflictFor(existing: Card, r: Req): Conflict
    requires WellFormed(r.payload)
  {
    Conflict(r.user, existing.id, SnapshotOf(existing), r.payload.clientUpdatedAt.value, existing.clientUpdatedAt)
  }

  /** One payload against the stored cards. */
  function Step(cards: Cards, r: Req): Result<Ran, MergeError> {
    if !WellFormed(r.payload) then
      Ok(Ran(cards, [], MergeOutcome(0, 1, 0)))
    else
      var cell := CellOf(r);
      if cell !in cards then
        if r.payload.unknownField then Err(UnexpectedField)
        else if r.payload.dueAt.None? then Err(DueAtMissing)
        else Ok(Ran(cards[cell := Created(r)], [], MergeOutcome(1, 0, 0)))
      else if IncomingWins(cards[cell], r.payload) then
        var after := cards[cell := Overwritten(cards[cell], r.payload)];
        Ok(Ran(after, [ConflictFor(cards[cell], r)], MergeOutcome(1, 0, 1)))
      else
        Ok(Ran(cards, [], MergeOutcome(0, 1, 0)))
  }

  /** What follows `first` when `second` was run on the cards `first` left. */
  function Then(first: Ran, second: Result<Ran, MergeError>): Result<Ran, MergeError> {
    match second
    case Ok(x) => Ok(Ran(x.cards, first.log + x.log, Plus(first.out, x.out)))
    case Err(e) => Err(e)
  }

  /** The payloads one after another; the first failure is the result. */
  function Run(cards: Cards, rs: seq<Req>): Result<Ran, MergeError> {
    if rs == [] then Ok(Ran(cards, [], NOTHING))
    else
      match Run(cards, rs[..|rs| - 1])
      case Ok(x) => Then(x, Step(x.cards, rs[|rs| - 1]))
      case Err(e) => Err(e)
  }

  /** A push against the tables: all of it, or none of it. */
  function Merge(db: Db, rs: seq<Req>): (Db, Result<MergeOutcome, MergeError>) {
    match Run(db.cards, rs)
    case Ok(x) => (Db(x.cards, db.log + x.log), Ok(x.out))
    case Err(e) => (db, Err(e))
  }

  /** The requests of one push. */
  function Batch(user: UserId, payloads: seq<Payload>, ids: seq<CardId>): seq<Req>
    requires |ids| == |payloads|
  {
    seq(|payloads|, i requires 0 <= i < |payloads| => Req(user, payloads[i], ids[i]))
  }

  // ---------------------------------------------------------------- the order

  /** Cards and payloads are ordered by progress first and clock second. */
  datatype Key = Key(reps: nat, at: Time)

  predicate Less(a: Key, b: Key) {
    a.reps < b.reps || (a.reps == b.reps && a.at < b.at)
  }

  function KeyOf(c: Card): Key {
    Key(c.repetitions, c.clientUpdatedAt)
  }

  /** An omitted `repetitions` counts as zero. */
  function PayloadKey(p: Payload): Key
    requires WellFormed(p)
  {
    Key(p.repetitions.GetOr(0), p.clientUpdatedAt.value)
  }

  predicate Addressed(r: Req, cell: Cell) {
    WellFormed(r.payload) && CellOf(r) == cell
  }

  /** The requests of `rs` that address `cell`, in order. */
  function Only(rs: seq<Req>, cell: Cell): seq<Req> {
    if rs == [] then []
    else Only(rs[..|rs| - 1], cell) + (if Addressed(rs[|rs| - 1], cell) then [rs[|rs| - 1]] else [])
  }

  function Footprint(rs: seq<Req>): set<Cell> {
    set r | r in rs && WellFormed(r.payload) :: CellOf(r)
  }

  /** The conflict rows of one card, in order. */
  function LogFor(log: seq<Conflict>, id: CardId): seq<Conflict> {
    if log == [] then []
    else LogFor(log[..|log| - 1], id) + (if log[|log| - 1].entityId == id then [log[|log| - 1]] else [])
  }

  predicate UniqueIds(cards: Cards) {
    forall c, d :: c in cards && d in cards && cards[c].id == cards[d].id ==> c == d
  }

  /** The drawn ids are new and pairwise distinct. */
  predicate Fresh(cards: Cards, rs: seq<Req>) {
    && (forall i, j :: 0 <= i < j < |rs| ==> rs[i].freshId != rs[j].freshId)
    && (forall i, c :: 0 <= i < |rs| && c in cards ==> rs[i].freshId != cards[c].id)
  }
}
