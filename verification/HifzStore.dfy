/**
 The server side of a push: tables that the merge loop updates in place, inside
 one transaction that is rolled back when a creation fails.
 */
module HifzStore {
  import opened Wrappers
  import opened HifzMerge
  import opened HifzLaws

  type DeviceId = nat

  datatype Device = Device(user: UserId, lastSyncAt: Option<Time>)

  /** The device row of this user is stamped; a row of another user, or no row, is left alone. */
  function Stamped(devices: map<DeviceId, Device>, id: DeviceId, user: UserId, now: Time): map<DeviceId, Device> {
    if id in devices && devices[id].user == user then devices[id := Device(user, Some(now))] else devices
  }

  class SyncServer {
    var cards: Cards
    var log: seq<Conflict>
    var devices: map<DeviceId, Device>

    constructor ()
      ensures cards == map[] && log == [] && devices == map[]
    {
      cards, log, devices := map[], [], map[];
    }

    /** The push merged as one transaction. */
    method MergeHifzCards(user: UserId, payloads: seq<Payload>, ids: seq<CardId>)
      returns (r: Result<MergeOutcome, MergeError>)
      requires |ids| == |payloads|
      modifies this`cards, this`log
      ensures (Db(cards, log), r) == Merge(Db(old(cards), old(log)), Batch(user, payloads, ids))
      ensures r.Ok? ==> r.value.rejected == |Refusals(old(cards), Batch(user, payloads, ids))|
    {
      ghost var rs := Batch(user, payloads, ids);
      var savedCards, savedLog := cards, log;
      var applied: nat, rejected: nat, conflicts: nat := 0, 0, 0;
      ghost var done := Ran(cards, [], NOTHING);
      assert rs[..0] == [];
      var i := 0;
      while i < |payloads|
        invariant 0 <= i <= |payloads|
        invariant Run(savedCards, rs[..i]) == Ok(done)
        invariant cards == done.cards && log == savedLog + done.log
        invariant done.out == MergeOutcome(applied, rejected, conflicts)
      {
        var one := MergeOne(user, payloads[i], ids[i]);
        NextPayload(Db(savedCards, savedLog), rs, i, done);
        if one.Err? {
          cards, log := savedCards, savedLog;
          return Err(one.error);
        }
        done := Joined(done, Step(done.cards, rs[i]).value);
        applied := applied + one.value.applied;
        rejected := rejected + one.value.rejected;
        conflicts := conflicts + one.value.conflicts;
        i := i + 1;
      }
      assert rs[..i] == rs;
      RejectedCounts(savedCards, rs);
      r := Ok(MergeOutcome(applied, rejected, conflicts));
    }

    /** One round of the loop; the outcome is what it adds to the counters. */
    method MergeOne(user: UserId, payload: Payload, freshId: CardId) returns (r: Result<MergeOutcome, MergeError>)
      modifies this`cards, this`log
      ensures match Step(old(cards), Req(user, payload, freshId))
              case Ok(x) => cards == x.cards && log == old(log) + x.log && r == Ok(x.out)
              case Err(e) => cards == old(cards) && log == old(log) && r == Err(e)
      ensures r == Ok(MergeOutcome(0, 1, 0)) <==> Refuses(old(cards), Req(user, payload, freshId))
      ensures r.Err? <==> CannotCreate(old(cards), Req(user, payload, freshId))
    {
      StepDecides(cards, Req(user, payload, freshId));
      if payload.ayah.None? || payload.clientUpdatedAt.None? {
        return Ok(MergeOutcome(0, 1, 0));
      }
      var cell := Cell(user, payload.ayah.value);
      if cell !in cards {
        if payload.unknownField || payload.dueAt.None? {
          return Err(if payload.unknownField then UnexpectedField else DueAtMissing);
        }
        var card := Card(freshId, 2.5, 0, 0, 0, payload.dueAt.value, None, payload.clientUpdatedAt.value, 1);
        card := SetFields(card, payload);
        cards := cards[cell := card];
        return Ok(MergeOutcome(1, 0, 0));
      }
      var existing := cards[cell];
      if !IncomingWins(existing, payload) {
        return Ok(MergeOutcome(0, 1, 0));
      }
      var winningAt := payload.clientUpdatedAt.value;
      log := log + [Conflict(user, existing.id, SnapshotOf(existing), winningAt, existing.clientUpdatedAt)];
      existing := SetFields(existing, payload);
      existing := existing.(revision := existing.revision + 1);
      cards := cards[cell := existing];
      return Ok(MergeOutcome(1, 0, 1));
    }

    /** The push request: the merge, then the device's sync stamp, which a failing merge never reaches. */
    method Push(user: UserId, device: DeviceId, payloads: seq<Payload>, ids: seq<CardId>, now: Time)
      returns (r: Result<MergeOutcome, MergeError>)
      requires |ids| == |payloads|
      modifies this
      ensures (Db(cards, log), r) == Merge(Db(old(cards), old(log)), Batch(user, payloads, ids))
      ensures devices == if r.Ok? then Stamped(old(devices), device, user, now) else old(devices)
      ensures devices.Keys == old(devices).Keys
      ensures forall d :: d in devices ==>
                && devices[d].user == old(devices)[d].user
                && devices[d].lastSyncAt ==
                   if r.Ok? && d == device && old(devices)[d].user == user then Some(now)
                   else old(devices)[d].lastSyncAt
    {
      r := MergeHifzCards(user, payloads, ids);
      if r.Ok? && device in devices && devices[device].user == user {
        devices := devices[device := devices[device].(lastSyncAt := Some(now))];
      }
    }
  }

  /** One assignment for each field that the payload carries. */
  method SetFields(card: Card, p: Payload) returns (c: Card)
    requires WellFormed(p)
    ensures c.(revision := c.revision + 1) == Overwritten(card, p)
  {
    c := card;
    if p.ease.Some? { c := c.(ease := p.ease.value); }
    if p.intervalDays.Some? { c := c.(intervalDays := p.intervalDays.value); }
    if p.repetitions.Some? { c := c.(repetitions := p.repetitions.value); }
    if p.lapses.Some? { c := c.(lapses := p.lapses.value); }
    if p.dueAt.Some? { c := c.(dueAt := p.dueAt.value); }
    if p.lastReviewedAt.Some? { c := c.(lastReviewedAt := p.lastReviewedAt.value); }
    if p.clientUpdatedAt.Some? { c := c.(clientUpdatedAt := p.clientUpdatedAt.value); }
    if p.revision.Some? { c := c.(revision := p.revision.value); }
  }

  function Joined(x: Ran, step: Ran): Ran {
    Ran(step.cards, x.log + step.log, Plus(x.out, step.out))
  }

  /** One more payload: its step is added, or its failure is the failure of the whole push. */
  lemma NextPayload(db: Db, rs: seq<Req>, i: nat, x: Ran)
    requires i < |rs| && Run(db.cards, rs[..i]) == Ok(x)
    ensures match Step(x.cards, rs[i])
            case Ok(step) =>
              Run(db.cards, rs[..i + 1]) == Ok(Joined(x, step))
                  && db.log + Joined(x, step).log == db.log + x.log + step.log
            case Err(e) => Merge(db, rs) == (db, Err(e))
  {
    assert rs[..i + 1] == rs[..i] + [rs[i]];
    RunSnoc(db.cards, rs[..i], rs[i]);
    assert rs == rs[..i + 1] + rs[i + 1..];
    RunConcat(db.cards, rs[..i + 1], rs[i + 1..]);
  }
}
