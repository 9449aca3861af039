/**
 The sync engine on a device: push, then pull once, store what came, and take the
 response's server time as the next cursor.

 It never asks for the rest of a cut response, and its cursor is a server clock
 while cards are stamped by the devices.  What a device holds after any number of
 rounds, with pushes of other devices in between, is told cell by cell.
 */
module HifzEngine {
  import opened Wrappers
  import opened HifzMerge
  import opened HifzLaws
  import opened HifzPull

  /** The cards on the server, the copy on the device, and the cursor it keeps. */
  datatype Sync = Sync(table: Cards, copy: Cards, cursor: Option<Time>)

  /**
   One round: what every device pushed since the last round, this one included,
   the listing that the pull is served from, and the server time of the response.
   */
  datatype Round = Round(pushed: seq<Req>, listed: seq<Row>, at: Time)

  ghost predicate Next(s: Sync, r: Round, s': Sync, user: UserId) {
    && Run(s.table, r.pushed).Ok?
    && s'.table == Run(s.table, r.pushed).value.cards
    && Listing(r.listed, Rows(s'.table, user, s.cursor))
    && s'.copy == Stored(s.copy, Elems(Respond(r.listed).page))
    && s'.cursor == Some(r.at)
  }

  /** Whatever was pushed, if it did not fail, there is a next round. */
  lemma RoundExists(s: Sync, pushed: seq<Req>, at: Time, user: UserId) returns (r: Round, s': Sync)
    requires Run(s.table, pushed).Ok?
    ensures Next(s, r, s', user) && r.pushed == pushed && r.at == at
  {
    var now := Run(s.table, pushed).value.cards;
    var l := ListingExists(Rows(now, user, s.cursor));
    r := Round(pushed, l, at);
    s' := Sync(now, Stored(s.copy, Elems(Respond(l).page)), Some(at));
  }

  /** `ss` are the states before, between and after the rounds. */
  ghost predicate Rounds(ss: seq<Sync>, rs: seq<Round>, user: UserId) {
    |ss| == |rs| + 1 && forall i :: 0 <= i < |rs| ==> Next(ss[i], rs[i], ss[i + 1], user)
  }

  /** The device holds the card of this cell as the server has it, or neither has one. */
  predicate Holds(s: Sync, cell: Cell) {
    Find(s.copy, cell) == Find(s.table, cell)
  }

  ghost predicate Delivered(r: Round, cell: Cell) {
    exists row :: row in Respond(r.listed).page && row.cell == cell
  }

  predicate Changed(s: Sync, s': Sync, cell: Cell) {
    Find(s.table, cell) != Find(s'.table, cell)
  }

  /** What the device has is the server's, or something older. */
  ghost predicate Behind(s: Sync, user: UserId) {
    forall cell :: cell in s.copy ==>
                     cell.user == user && cell in s.table && !Less(KeyOf(s.table[cell]), KeyOf(s.copy[cell]))
  }

  // ---------------------------------------------------------------- one round

  lemma StoredFind(copy: Cards, now: Cards, user: UserId, since: Option<Time>, rows: set<Row>, cell: Cell)
    requires rows <= Rows(now, user, since)
    ensures Shown(rows, cell) ==> cell.user == user && Find(Stored(copy, rows), cell) == Find(now, cell) && cell in now
    ensures !Shown(rows, cell) ==> Find(Stored(copy, rows), cell) == Find(copy, cell)
  {
  }

  lemma PageRows(s: Sync, r: Round, s': Sync, user: UserId, cell: Cell)
    requires Next(s, r, s', user)
    ensures Elems(Respond(r.listed).page) <= Rows(s'.table, user, s.cursor)
    ensures Delivered(r, cell) <==> Shown(Elems(Respond(r.listed).page), cell)
  {
  }

  /** After a round the device holds a card exactly when it was delivered, or held before and not changed. */
  lemma RoundHolds(s: Sync, r: Round, s': Sync, user: UserId, cell: Cell)
    requires Next(s, r, s', user) && Behind(s, user)
    ensures Holds(s', cell) <==> Delivered(r, cell) || (Holds(s, cell) && !Changed(s, s', cell))
  {
    PageRows(s, r, s', user, cell);
    StoredFind(s.copy, s'.table, user, s.cursor, Elems(Respond(r.listed).page), cell);
    if Changed(s, s', cell) && cell in s.copy {
      ChangedIsGreater(s.table, r.pushed, cell);
    }
    if Changed(s, s', cell) {
      RunCells(s.table, r.pushed);
    }
  }

  lemma RoundStaysBehind(s: Sync, r: Round, s': Sync, user: UserId)
    requires Next(s, r, s', user) && Behind(s, user)
    ensures Behind(s', user)
  {
    RunCells(s.table, r.pushed);
    forall cell | cell in s'.copy
      ensures cell.user == user && cell in s'.table && !Less(KeyOf(s'.table[cell]), KeyOf(s'.copy[cell]))
    {
      PageRows(s, r, s', user, cell);
      StoredFind(s.copy, s'.table, user, s.cursor, Elems(Respond(r.listed).page), cell);
      if !Delivered(r, cell) {
        assert Find(s.copy, cell) == Find(s'.copy, cell);
        StoredKeyIsGreatest(s.table, r.pushed, cell);
      }
    }
  }

  lemma {:induction false} RoundsStayBehind(ss: seq<Sync>, rs: seq<Round>, user: UserId, n: nat)
    requires Rounds(ss, rs, user) && Behind(ss[0], user) && n <= |rs|
    ensures Behind(ss[n], user)
  {
    if n > 0 {
      RoundsStayBehind(ss, rs, user, n - 1);
      RoundStaysBehind(ss[n - 1], rs[n - 1], ss[n], user);
    }
  }

  // ---------------------------------------------------------------- any number of rounds

  /** No round from `from` to `to` changes the card. */
  ghost predicate Quiet(ss: seq<Sync>, cell: Cell, from: nat, to: nat) {
    forall i :: from <= i < to < |ss| ==> !Changed(ss[i], ss[i + 1], cell)
  }

  /** Round `j` delivers the card and no later one changes it. */
  ghost predicate DeliveredLast(ss: seq<Sync>, rs: seq<Round>, cell: Cell, n: nat, j: int) {
    0 <= j < n <= |rs| && Delivered(rs[j], cell) && Quiet(ss, cell, j + 1, n)
  }

  ghost predicate DeliveredSince(ss: seq<Sync>, rs: seq<Round>, cell: Cell, n: nat) {
    exists j :: DeliveredLast(ss, rs, cell, n, j)
  }

  /**
   The device holds a card, after any number of rounds, exactly when some round
   delivered it and none changed it since, or when it held it at the start and
   none changed it at all.
   */
  lemma {:induction false} HoldsIff(ss: seq<Sync>, rs: seq<Round>, user: UserId, cell: Cell, n: nat)
    requires Rounds(ss, rs, user) && Behind(ss[0], user) && n <= |rs|
    ensures Holds(ss[n], cell) <==>
            (Holds(ss[0], cell) && Quiet(ss, cell, 0, n)) || DeliveredSince(ss, rs, cell, n)
  {
    if n > 0 {
      HoldsIff(ss, rs, user, cell, n - 1);
      RoundsStayBehind(ss, rs, user, n - 1);
      RoundHolds(ss[n - 1], rs[n - 1], ss[n], user, cell);
      LastRound(ss, rs, cell, n);
    }
  }

  lemma LastRound(ss: seq<Sync>, rs: seq<Round>, cell: Cell, n: nat)
    requires |ss| == |rs| + 1 && 0 < n <= |rs|
    ensures Quiet(ss, cell, 0, n) <==> Quiet(ss, cell, 0, n - 1) && !Changed(ss[n - 1], ss[n], cell)
    ensures DeliveredSince(ss, rs, cell, n) <==>
            Delivered(rs[n - 1], cell) || (!Changed(ss[n - 1], ss[n], cell) && DeliveredSince(ss, rs, cell, n - 1))
  {
    var m := n - 1;
    if Delivered(rs[m], cell) {
      assert DeliveredLast(ss, rs, cell, n, m);
    } else if j :| DeliveredLast(ss, rs, cell, n, j) {
      EarlierRound(ss, rs, cell, m, j);
    } else if j :| DeliveredLast(ss, rs, cell, m, j) {
      EarlierRound(ss, rs, cell, m, j);
    }
  }

  lemma EarlierRound(ss: seq<Sync>, rs: seq<Round>, cell: Cell, m: nat, j: int)
    requires |ss| == |rs| + 1 && m < |rs| && j != m
    ensures DeliveredLast(ss, rs, cell, m + 1, j) <==>
            DeliveredLast(ss, rs, cell, m, j) && !Changed(ss[m], ss[m + 1], cell)
  {
  }

  // ---------------------------------------------------------------- clocks

  /** Server clocks do not run back. */
  ghost predicate ClocksRise(ss: seq<Sync>, rs: seq<Round>) {
    && (forall i, j :: 0 <= i < j < |rs| ==> rs[i].at <= rs[j].at)
    && (ss != [] && rs != [] && ss[0].cursor.Some? ==> ss[0].cursor.value <= rs[0].at)
  }

  lemma CursorIsLast(ss: seq<Sync>, rs: seq<Round>, user: UserId, j: nat)
    requires Rounds(ss, rs, user) && 0 < j <= |rs|
    ensures ss[j].cursor == Some(rs[j - 1].at)
  {
  }

  /** A delivered card is stamped after the cursor of its round. */
  lemma DeliveredIsAfter(s: Sync, r: Round, s': Sync, user: UserId, cell: Cell)
    requires Next(s, r, s', user) && Delivered(r, cell)
    ensures cell.user == user && cell in s'.table && After(s.cursor, s'.table[cell].clientUpdatedAt)
  {
    PageRows(s, r, s', user, cell);
  }

  /** A pull of at most 500 cards delivers everything stamped after the cursor. */
  lemma SmallPullDelivers(s: Sync, r: Round, s': Sync, user: UserId, cell: Cell)
    requires Next(s, r, s', user) && |r.listed| <= PULL_LIMIT
    requires cell.user == user && cell in s'.table && After(s.cursor, s'.table[cell].clientUpdatedAt)
    ensures Delivered(r, cell)
  {
    PageIsPrefix(r.listed, Respond(r.listed));
    var row := Row(cell, s'.table[cell]);
    assert row in Rows(s'.table, user, s.cursor);
    assert row in r.listed && row.cell == cell;
  }

  lemma {:induction false} QuietFind(ss: seq<Sync>, cell: Cell, from: nat, to: nat)
    requires from <= to < |ss| && Quiet(ss, cell, from, to)
    ensures Find(ss[to].table, cell) == Find(ss[from].table, cell)
  {
    if from < to {
      QuietFind(ss, cell, from, to - 1);
      assert !Changed(ss[to - 1], ss[to], cell);
    }
  }

  /**
   What a round leaves behind its cursor is lost: a card that the device does not
   hold and that is stamped no later than the server time it keeps is not held
   after any later rounds, unless it is changed again.
   */
  lemma {:induction false} LostStaysLost(ss: seq<Sync>, rs: seq<Round>, user: UserId, cell: Cell, k: nat, n: nat)
    requires Rounds(ss, rs, user) && Behind(ss[0], user) && ClocksRise(ss, rs)
    requires 0 < k <= n <= |rs| && !Holds(ss[k], cell) && Quiet(ss, cell, k, n)
    requires cell in ss[k].table && ss[k].table[cell].clientUpdatedAt <= rs[k - 1].at
    ensures !Holds(ss[n], cell)
  {
    if k < n {
      LostStaysLost(ss, rs, user, cell, k, n - 1);
      RoundsStayBehind(ss, rs, user, n - 1);
      QuietFind(ss, cell, k, n - 1);
      CursorIsLast(ss, rs, user, n - 1);
      assert !Changed(ss[n - 1], ss[n], cell);
      NotPulled(ss[n - 1], rs[n - 1], ss[n], user, cell);
    }
  }

  /** A pull never brings a card stamped at or before its cursor. */
  lemma NotPulled(s: Sync, r: Round, s': Sync, user: UserId, cell: Cell)
    requires Next(s, r, s', user) && Behind(s, user) && !Holds(s, cell) && !Changed(s, s', cell)
    requires cell in s.table && !After(s.cursor, s.table[cell].clientUpdatedAt)
    ensures !Holds(s', cell)
  {
    RoundHolds(s, r, s', user, cell);
    if Delivered(r, cell) {
      DeliveredIsAfter(s, r, s', user, cell);
    }
  }

  /** Round `k` is the last before `n` to change the card. */
  ghost predicate LastChange(ss: seq<Sync>, cell: Cell, n: nat, k: int) {
    0 <= k < n < |ss| && Changed(ss[k], ss[k + 1], cell) && Quiet(ss, cell, k + 1, n)
  }

  /** The last change of the card is stamped after the cursor of its own round. */
  ghost predicate SeenInTime(ss: seq<Sync>, cell: Cell, n: nat) {
    forall k :: LastChange(ss, cell, n, k) ==>
                  cell in ss[k + 1].table && After(ss[k].cursor, ss[k + 1].table[cell].clientUpdatedAt)
  }

  lemma {:induction false} QuietOrChanged(ss: seq<Sync>, cell: Cell, n: nat) returns (k: int)
    requires n < |ss| && !Quiet(ss, cell, 0, n)
    ensures LastChange(ss, cell, n, k)
  {
    if Changed(ss[n - 1], ss[n], cell) {
      k := n - 1;
    } else {
      k := QuietOrChanged(ss, cell, n - 1);
    }
  }

  /** What a later cursor lets through, an earlier one does. */
  lemma CursorsRise(ss: seq<Sync>, rs: seq<Round>, user: UserId, k: nat, j: nat, at: Time)
    requires Rounds(ss, rs, user) && ClocksRise(ss, rs) && k < j <= |rs| && After(ss[j].cursor, at)
    ensures After(ss[k].cursor, at)
  {
    CursorIsLast(ss, rs, user, j);
    if k > 0 { CursorIsLast(ss, rs, user, k); }
  }

  /** A card delivered after its last change was stamped after every cursor since that change. */
  lemma DeliveredInTime(ss: seq<Sync>, rs: seq<Round>, user: UserId, cell: Cell, n: nat, k: int, j: int)
    requires Rounds(ss, rs, user) && ClocksRise(ss, rs) && n <= |rs|
    requires LastChange(ss, cell, n, k) && DeliveredLast(ss, rs, cell, n, j)
    ensures cell in ss[k + 1].table && After(ss[k].cursor, ss[k + 1].table[cell].clientUpdatedAt)
  {
    assert j >= k;
    DeliveredIsAfter(ss[j], rs[j], ss[j + 1], user, cell);
    QuietFind(ss, cell, k + 1, j + 1);
    if j > k { CursorsRise(ss, rs, user, k, j, ss[k + 1].table[cell].clientUpdatedAt); }
  }

  /**
   While no pull has more than 500 cards, a device that held a card at the start
   holds it after any number of rounds exactly when the round that last changed it
   saw it stamped after the cursor that the device sent.
   */
  lemma {:induction false} SmallPullsHoldIff(ss: seq<Sync>, rs: seq<Round>, user: UserId, cell: Cell, n: nat)
    requires Rounds(ss, rs, user) && Behind(ss[0], user) && ClocksRise(ss, rs) && n <= |rs|
    requires forall i :: 0 <= i < |rs| ==> |rs[i].listed| <= PULL_LIMIT
    requires cell.user == user && Holds(ss[0], cell)
    ensures Holds(ss[n], cell) <==> SeenInTime(ss, cell, n)
  {
    HoldsIff(ss, rs, user, cell, n);
    if Quiet(ss, cell, 0, n) {
      assert forall k :: !LastChange(ss, cell, n, k);
    } else {
      var k := QuietOrChanged(ss, cell, n);
      if j :| DeliveredLast(ss, rs, cell, n, j) {
        forall i | LastChange(ss, cell, n, i)
          ensures cell in ss[i + 1].table && After(ss[i].cursor, ss[i + 1].table[cell].clientUpdatedAt)
        {
          DeliveredInTime(ss, rs, user, cell, n, i, j);
        }
      }
      if SeenInTime(ss, cell, n) {
        SmallPullDelivers(ss[k], rs[k], ss[k + 1], user, cell);
        assert DeliveredLast(ss, rs, cell, n, k);
      }
    }
  }

  // ---------------------------------------------------------------- what goes wrong

  lemma BeyondPage(s: Sync, r: Round, s': Sync, user: UserId, m: nat)
    requires Next(s, r, s', user) && PULL_LIMIT <= m < |r.listed|
    ensures !Delivered(r, r.listed[m].cell)
    ensures r.listed[m].cell in s'.table && s'.table[r.listed[m].cell] == r.listed[m].card
  {
    PageIsPrefix(r.listed, Respond(r.listed));
    assert r.listed[m] in r.listed;
    forall row | row in Respond(r.listed).page
      ensures row.cell != r.listed[m].cell
    {
      assert row in r.listed && row != r.listed[m];
    }
  }

  /**
   The rest of a cut response is lost: what a device lacked, or what changed, and
   comes after the first 500 cards is not held after any later rounds, unless it
   is changed again.
   */
  lemma {:induction false} OverflowIsLost(ss: seq<Sync>, rs: seq<Round>, user: UserId, k: nat, m: nat, n: nat)
    requires Rounds(ss, rs, user) && Behind(ss[0], user) && ClocksRise(ss, rs)
    requires k < n <= |rs| && PULL_LIMIT <= m < |rs[k].listed| && Stamp(rs[k].listed[m]) <= rs[k].at
    requires !Holds(ss[k], rs[k].listed[m].cell) || Changed(ss[k], ss[k + 1], rs[k].listed[m].cell)
    requires Quiet(ss, rs[k].listed[m].cell, k + 1, n)
    ensures !Holds(ss[n], rs[k].listed[m].cell)
  {
    var cell := rs[k].listed[m].cell;
    RoundsStayBehind(ss, rs, user, k);
    BeyondPage(ss[k], rs[k], ss[k + 1], user, m);
    RoundHolds(ss[k], rs[k], ss[k + 1], user, cell);
    LostStaysLost(ss, rs, user, cell, k + 1, n);
  }

  /** A new device of a user with 501 cards, all differently stamped, does not get the last one. */
  lemma NewDeviceLacksOne() returns (s: Sync, r: Round, s': Sync, cell: Cell)
    ensures s.copy == map[] && s.cursor == None && |Rows(s.table, 0, None)| == 501
    ensures Next(s, r, s', 0) && forall row :: row in Rows(s.table, 0, None) ==> Stamp(row) <= r.at
    ensures cell in s'.table && !Holds(s', cell)
  {
    cell := Cell(0, 500);
    s := Sync(Crowd(501, 1), map[], None);
    r := Round([], CrowdRows(501, 1), 501);
    s' := Sync(s.table, Stored(s.copy, Elems(Respond(r.listed).page)), Some(501));
    CrowdLists(501, 1);
    ListingsAgreeOnStamps(r.listed, r.listed, Rows(s.table, 0, None));
    forall row | row in Rows(s.table, 0, None)
      ensures Stamp(row) <= r.at
    {
      assert row in r.listed;
    }
    BeyondPage(s, r, s', 0, 500);
    RoundHolds(s, r, s', 0, cell);
  }

  /**
   No clock needs to be wrong: a review made at 10 and pushed at 30 by a device
   that was offline never reaches a device that synced at 20.
   */
  lemma OfflineReviewIsLost() returns (ss: seq<Sync>, rs: seq<Round>, cell: Cell)
    ensures Rounds(ss, rs, 0) && |rs| == 2 && ClocksRise(ss, rs)
    ensures ss[0].copy == ss[0].table == map[]
    ensures cell in ss[2].table && ss[2].table[cell].clientUpdatedAt < rs[0].at < rs[1].at
    ensures !Holds(ss[2], cell)
  {
    cell := Cell(0, 0);
    var review := Req(0, Payload(Some(0), Some(10), None, None, Some(1), None, Some(90), None, None, false), 1);
    var table: Cards := map[cell := Created(review)];
    RunOne(map[], review);
    assert map[][cell := Created(review)] == table;
    var s0, s1, s2 := Sync(map[], map[], None), Sync(map[], map[], Some(20)), Sync(table, map[], Some(40));
    var r0, r1 := Round([], [], 20), Round([review], [], 40);
    ss, rs := [s0, s1, s2], [r0, r1];
    assert Rows(map[], 0, None) == {} && Rows(table, 0, Some(20)) == {};
    assert Stored(map[], {}) == map[];
    assert Elems([]) == {};
    assert Next(s0, r0, s1, 0) && Next(s1, r1, s2, 0);
  }
}
