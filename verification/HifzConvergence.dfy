/**
 Convergence of devices: when does it not matter in which order, how often, and
 in which pushes the same payloads arrive?

 A payload lays the columns it carries over those of the stored card, so partial
 payloads can leave a mixture that depends on their order.  Two payloads at a
 time decide whether any order can: see `ConvergesIff`.
 */
module HifzConvergence {
  import opened Wrappers
  import opened HifzMerge
  import opened HifzLaws
  import opened HifzHistory

  // ---------------------------------------------------------------- contents

  /** Equal up to ids and revisions. */
  ghost predicate SameContents(x: Cards, y: Cards) {
    x.Keys == y.Keys && forall cell :: cell in x ==> ContentOf(x[cell]) == ContentOf(y[cell])
  }

  function ContentKey(c: Content): Key {
    Key(c.repetitions, c.clientUpdatedAt)
  }

  /** The columns that the payload carries, over those of `c`. */
  function Lay(p: Payload, c: Content): Content
    requires WellFormed(p)
  {
    Content(p.ease.GetOr(c.ease), p.intervalDays.GetOr(c.intervalDays), p.repetitions.GetOr(c.repetitions),
            p.lapses.GetOr(c.lapses), p.dueAt.GetOr(c.dueAt), p.lastReviewedAt.GetOr(c.lastReviewedAt),
            p.clientUpdatedAt.value)
  }

  /** The column defaults of a new card; `due_at` has none, so creating needs it. */
  const BLANK := Content(2.5, 0, 0, 0, 0, None, 0)

  /** What a stored content becomes when the payload arrives. */
  function Received(p: Payload, c: Content): Content
    requires WellFormed(p)
  {
    if Less(ContentKey(c), PayloadKey(p)) then Lay(p, c) else c
  }

  /** The effect of one payload on the content of the card it addresses. */
  lemma StepContent(cards: Cards, r: Req)
    requires WellFormed(r.payload) && Step(cards, r).Ok?
    ensures CellOf(r) in Step(cards, r).value.cards
    ensures var after := ContentOf(Step(cards, r).value.cards[CellOf(r)]);
            && (CellOf(r) in cards ==> after == Received(r.payload, ContentOf(cards[CellOf(r)])))
            && (CellOf(r) !in cards ==> Creatable(r.payload) && after == Lay(r.payload, BLANK))
  {
  }

  lemma StepElsewhere(cards: Cards, r: Req, cell: Cell)
    requires Step(cards, r).Ok? && !Addressed(r, cell)
    ensures Find(Step(cards, r).value.cards, cell) == Find(cards, cell)
  {
  }

  /** If t hides what q laid on s, it hides what q lays on anything that t makes equal to s. */
  lemma LayTwice(t: Payload, q: Payload, s: Content, x: Content)
    requires WellFormed(t) && WellFormed(q)
    requires Lay(t, x) == Lay(t, s) && Lay(t, Lay(q, s)) == Lay(t, s)
    ensures Lay(t, Lay(q, x)) == Lay(t, s)
  {
  }

  // ---------------------------------------------------------------- deliveries

  ghost predicate Delivers(ss: seq<Req>, user: UserId, p: Payload) {
    exists s :: s in ss && s.user == user && s.payload == p
  }

  /** Both batches deliver the same payloads for the same users, in any order and any number of times. */
  ghost predicate SameDeliveries(rs: seq<Req>, ss: seq<Req>) {
    && (forall r :: r in rs ==> Delivers(ss, r.user, r.payload))
    && (forall s :: s in ss ==> Delivers(rs, s.user, s.payload))
  }

  /** The payload is delivered for the card of this cell. */
  ghost predicate Pushed(rs: seq<Req>, cell: Cell, p: Payload) {
    WellFormed(p) && p.ayah == Some(cell.ayah) && Delivers(rs, cell.user, p)
  }

  /** No payload for the card is greater. */
  ghost predicate Greatest(rs: seq<Req>, cell: Cell, t: Payload) {
    Pushed(rs, cell, t) && forall q :: Pushed(rs, cell, q) ==> !Less(PayloadKey(t), PayloadKey(q))
  }

  /** The contents that the card can start from: the stored one, or that of a payload that can create it. */
  ghost predicate Start(cards: Cards, rs: seq<Req>, cell: Cell, s: Content) {
    if cell in cards then s == ContentOf(cards[cell])
    else exists p :: Pushed(rs, cell, p) && Creatable(p) && s == Lay(p, BLANK)
  }

  /** A payload that arrives before a greatest one leaves no trace. */
  ghost predicate NoTrace(cards: Cards, rs: seq<Req>, cell: Cell) {
    forall s, t, q :: Start(cards, rs, cell, s) && Greatest(rs, cell, t) && Pushed(rs, cell, q) ==>
                        Received(t, Received(q, s)) == Received(t, s)
  }

  /** Every start and every greatest payload give the same content. */
  ghost predicate OneEnd(cards: Cards, rs: seq<Req>, cell: Cell) {
    forall s, s', t, t' ::
      Start(cards, rs, cell, s) && Start(cards, rs, cell, s') && Greatest(rs, cell, t) && Greatest(rs, cell, t') ==>
        Received(t, s) == Received(t', s')
  }

  /** A condition on pairs of payloads and the cards stored before. */
  ghost predicate Tidy(cards: Cards, rs: seq<Req>) {
    forall cell :: NoTrace(cards, rs, cell) && OneEnd(cards, rs, cell)
  }

  /** Column by column: the greatest payload carries what a smaller one would change. */
  lemma NoTraceColumns(s: Content, t: Payload, q: Payload)
    requires WellFormed(t) && WellFormed(q) && Less(PayloadKey(q), PayloadKey(t)) && Less(ContentKey(s), PayloadKey(q))
    ensures Received(t, Received(q, s)) == Received(t, s) <==>
            && (t.ease.Some? || q.ease.GetOr(s.ease) == s.ease)
            && (t.intervalDays.Some? || q.intervalDays.GetOr(s.intervalDays) == s.intervalDays)
            && (t.lapses.Some? || q.lapses.GetOr(s.lapses) == s.lapses)
            && (t.dueAt.Some? || q.dueAt.GetOr(s.dueAt) == s.dueAt)
            && (t.lastReviewedAt.Some? || q.lastReviewedAt.GetOr(s.lastReviewedAt) == s.lastReviewedAt)
  {
  }

  lemma SamePushed(rs: seq<Req>, ss: seq<Req>, cell: Cell, p: Payload)
    requires SameDeliveries(rs, ss)
    ensures Pushed(rs, cell, p) <==> Pushed(ss, cell, p)
  {
  }

  lemma AddressedIsPushed(rs: seq<Req>, r: Req)
    requires r in rs && WellFormed(r.payload)
    ensures Pushed(rs, CellOf(r), r.payload)
  {
  }

  /** A cell that is addressed has a greatest payload. */
  lemma {:induction false} GreatestExists(rs: seq<Req>, cell: Cell) returns (t: Payload)
    requires exists r :: r in rs && Addressed(r, cell)
    ensures Greatest(rs, cell, t)
  {
    var n := |rs| - 1;
    var init, last := rs[..n], rs[n];
    assert rs == init + [last];
    if r :| r in init && Addressed(r, cell) {
      t := GreatestExists(init, cell);
      if Addressed(last, cell) && Less(PayloadKey(t), PayloadKey(last.payload)) {
        t := last.payload;
      }
    } else {
      t := last.payload;
    }
    assert Delivers(rs, cell.user, t);
    forall q | Pushed(rs, cell, q)
      ensures !Less(PayloadKey(t), PayloadKey(q))
    {
      var r :| r in rs && r.user == cell.user && r.payload == q;
      if r in init { AddressedIsPushed(init, r); }
    }
  }

  // ---------------------------------------------------------------- tidy deliveries end in one content

  /** What every greatest payload would make of x is what it would have made of the start. */
  ghost predicate Tracks(rs: seq<Req>, cell: Cell, s: Content, x: Content) {
    && !Less(ContentKey(x), ContentKey(s))
    && forall t :: Greatest(rs, cell, t) ==> Received(t, x) == Received(t, s)
  }

  /** One more payload keeps it so. */
  lemma ReceivedTracks(cards: Cards, rs: seq<Req>, cell: Cell, s: Content, x: Content, q: Payload)
    requires NoTrace(cards, rs, cell) && Start(cards, rs, cell, s) && Pushed(rs, cell, q)
    requires Tracks(rs, cell, s, x)
    ensures Tracks(rs, cell, s, Received(q, x))
  {
    if Less(ContentKey(x), PayloadKey(q)) {
      forall t | Greatest(rs, cell, t)
        ensures Received(t, Lay(q, x)) == Received(t, s)
      {
        assert Received(t, Received(q, s)) == Received(t, s);
        if Less(PayloadKey(q), PayloadKey(t)) {
          LayTwice(t, q, s, x);
        } else {
          assert Greatest(rs, cell, q);
        }
      }
    }
  }

  /** Delivered in any order, the payloads lead from some start to a content that tracks it. */
  lemma {:induction false} RunTracks(cards: Cards, rs: seq<Req>, ss: seq<Req>, cell: Cell) returns (s: Content)
    requires NoTrace(cards, rs, cell) && forall r :: r in ss ==> Delivers(rs, r.user, r.payload)
    requires Run(cards, ss).Ok? && cell in Run(cards, ss).value.cards
    ensures Start(cards, rs, cell, s)
    ensures Tracks(rs, cell, s, ContentOf(Run(cards, ss).value.cards[cell]))
    decreases |ss|
  {
    if ss == [] {
      s := ContentOf(cards[cell]);
    } else {
      var init, r := ss[..|ss| - 1], ss[|ss| - 1];
      assert r in ss && forall q :: q in init ==> q in ss;
      var before := Run(cards, init).value.cards;
      if !Addressed(r, cell) {
        StepElsewhere(before, r, cell);
        s := RunTracks(cards, rs, init, cell);
      } else {
        StepContent(before, r);
        assert Pushed(rs, cell, r.payload);
        if cell in before {
          s := RunTracks(cards, rs, init, cell);
          ReceivedTracks(cards, rs, cell, s, ContentOf(before[cell]), r.payload);
        } else {
          StillAbsent(cards, init, cell);
          s := Lay(r.payload, BLANK);
        }
      }
    }
  }

  /** In the end the stored content is what a greatest payload makes of the start. */
  lemma {:induction false} EndsReceived(cards: Cards, rs: seq<Req>, ss: seq<Req>, cell: Cell, t: Payload)
    returns (s: Content)
    requires NoTrace(cards, rs, cell) && SameDeliveries(rs, ss) && Greatest(rs, cell, t)
    requires Run(cards, ss).Ok? && cell in Run(cards, ss).value.cards
    ensures Start(cards, rs, cell, s)
    ensures ContentOf(Run(cards, ss).value.cards[cell]) == Received(t, s)
  {
    s := RunTracks(cards, rs, ss, cell);
    SamePushed(rs, ss, cell, t);
    StoredKeyIsGreatest(cards, ss, cell);
    var r :| r in ss && r.user == cell.user && r.payload == t;
    assert Addressed(r, cell);
  }

  lemma SameFootprint(rs: seq<Req>, ss: seq<Req>)
    requires SameDeliveries(rs, ss)
    ensures Footprint(rs) == Footprint(ss)
  {
  }

  lemma {:induction false} TidyConvergesAt(cards: Cards, rs: seq<Req>, ss: seq<Req>, zs: seq<Req>, cell: Cell)
    requires NoTrace(cards, rs, cell) && OneEnd(cards, rs, cell) && SameDeliveries(rs, ss) && SameDeliveries(rs, zs)
    requires Run(cards, ss).Ok? && Run(cards, zs).Ok?
    requires cell in Run(cards, ss).value.cards && cell in Run(cards, zs).value.cards
    ensures ContentOf(Run(cards, ss).value.cards[cell]) == ContentOf(Run(cards, zs).value.cards[cell])
  {
    SameFootprint(rs, ss);
    SameFootprint(rs, zs);
    if cell in Footprint(rs) {
      var t := GreatestExists(rs, cell);
      var s := EndsReceived(cards, rs, ss, cell, t);
      var z := EndsReceived(cards, rs, zs, cell, t);
    } else {
      RunElsewhere(cards, ss, cell);
      RunElsewhere(cards, zs, cell);
    }
  }

  /** Tidy payloads, delivered in any order, with any repetition, leave the same cards up to id and revision. */
  lemma {:induction false} TidyConverges(cards: Cards, rs: seq<Req>, ss: seq<Req>)
    requires Tidy(cards, rs) && SameDeliveries(rs, ss) && Run(cards, rs).Ok? && Run(cards, ss).Ok?
    ensures SameContents(Run(cards, ss).value.cards, Run(cards, rs).value.cards)
  {
    RunCells(cards, rs);
    RunCells(cards, ss);
    SameFootprint(rs, ss);
    forall cell | cell in Run(cards, ss).value.cards
      ensures ContentOf(Run(cards, ss).value.cards[cell]) == ContentOf(Run(cards, rs).value.cards[cell])
    {
      assert SameDeliveries(rs, rs) by {
        assert forall r :: r in rs ==> Delivers(rs, r.user, r.payload);
      }
      assert NoTrace(cards, rs, cell);
      TidyConvergesAt(cards, rs, ss, rs, cell);
    }
  }

  // ---------------------------------------------------------------- only tidy deliveries do

  /** `rs` without one occurrence of `r`. */
  function Minus(rs: seq<Req>, r: Req): seq<Req>
    requires r in rs
  {
    if rs[|rs| - 1] == r then rs[..|rs| - 1] else Minus(rs[..|rs| - 1], r) + [rs[|rs| - 1]]
  }

  lemma {:induction false} MinusCounts(rs: seq<Req>, r: Req)
    requires r in rs
    ensures multiset(Minus(rs, r)) == multiset(rs) - multiset{r}
  {
    assert rs == rs[..|rs| - 1] + [rs[|rs| - 1]];
    if rs[|rs| - 1] != r {
      MinusCounts(rs[..|rs| - 1], r);
    }
  }

  lemma {:induction false} MinusElsewhere(rs: seq<Req>, r: Req, cell: Cell)
    requires r in rs && !Addressed(r, cell)
    ensures Only(Minus(rs, r), cell) == Only(rs, cell)
  {
    if rs[|rs| - 1] != r {
      MinusElsewhere(rs[..|rs| - 1], r, cell);
      assert Minus(rs, r)[..|Minus(rs, r)| - 1] == Minus(rs[..|rs| - 1], r);
    }
  }

  predicate NoRepeats(rs: seq<Req>) {
    forall i, j :: 0 <= i < j < |rs| ==> rs[i] != rs[j]
  }

  predicate AllFor(rs: seq<Req>, cell: Cell) {
    forall r :: r in rs ==> Addressed(r, cell)
  }

  /** `rs` can be rearranged to begin with any of its requests for one cell; the others keep their order. */
  lemma {:induction false} Forward(rs: seq<Req>, front: seq<Req>, cell: Cell) returns (rest: seq<Req>)
    requires NoRepeats(front) && AllFor(front, cell) && forall r :: r in front ==> r in rs
    ensures multiset(front + rest) == multiset(rs)
    ensures forall other :: other != cell ==> Only(rest, other) == Only(rs, other)
  {
    if front == [] {
      rest := rs;
      assert front + rest == rs;
    } else {
      var init, x := front[..|front| - 1], front[|front| - 1];
      assert front == init + [x];
      var most := Forward(rs, init, cell);
      StillThere(rs, init, most, x);
      rest := Minus(most, x);
      MoveOne(rs, init, most, x);
      assert x in front && Addressed(x, cell);
      forall other | other != cell
        ensures Only(rest, other) == Only(rs, other)
      {
        MinusElsewhere(most, x, other);
      }
    }
  }

  lemma StillThere(rs: seq<Req>, init: seq<Req>, most: seq<Req>, x: Req)
    requires multiset(init + most) == multiset(rs) && x in rs && x !in init
    ensures x in most
  {
    assert x in multiset(init + most);
  }

  lemma MoveOne(rs: seq<Req>, init: seq<Req>, most: seq<Req>, x: Req)
    requires multiset(init + most) == multiset(rs) && x in most
    ensures multiset(init + [x] + Minus(most, x)) == multiset(rs)
  {
    MinusCounts(most, x);
  }

  /** First occurrences only. */
  function Firsts(rs: seq<Req>): seq<Req> {
    if rs == [] then []
    else
      var init, last := Firsts(rs[..|rs| - 1]), rs[|rs| - 1];
      if last in rs[..|rs| - 1] then init else init + [last]
  }

  lemma {:induction false} FirstsFacts(rs: seq<Req>)
    ensures NoRepeats(Firsts(rs)) && forall r :: r in Firsts(rs) <==> r in rs
    ensures rs != [] ==> Firsts(rs) != [] && Firsts(rs)[0] == rs[0]
  {
    if rs != [] {
      assert rs == rs[..|rs| - 1] + [rs[|rs| - 1]];
      FirstsFacts(rs[..|rs| - 1]);
    }
  }

  /** A content after the payloads of `rs` arrived one by one. */
  function Through(c: Content, rs: seq<Req>): Content
    requires forall r :: r in rs ==> WellFormed(r.payload)
  {
    if rs == [] then c else Received(rs[|rs| - 1].payload, Through(c, rs[..|rs| - 1]))
  }

  lemma {:induction false} ThroughKey(c: Content, rs: seq<Req>, r: Req)
    requires (forall q :: q in rs ==> WellFormed(q.payload)) && r in rs
    ensures !Less(ContentKey(Through(c, rs)), PayloadKey(r.payload))
  {
    var init := rs[..|rs| - 1];
    assert rs == init + [rs[|rs| - 1]];
    if r in init {
      ThroughKey(c, init, r);
    }
  }

  /** A repeated payload does nothing. */
  lemma {:induction false} ThroughFirsts(c: Content, rs: seq<Req>)
    requires forall r :: r in rs ==> WellFormed(r.payload)
    ensures forall r :: r in Firsts(rs) ==> WellFormed(r.payload)
    ensures Through(c, Firsts(rs)) == Through(c, rs)
  {
    FirstsFacts(rs);
    if rs != [] {
      var init, last := rs[..|rs| - 1], rs[|rs| - 1];
      ThroughFirsts(c, init);
      if last in init {
        ThroughKey(c, init, last);
      } else {
        assert Firsts(rs)[..|Firsts(rs)| - 1] == Firsts(init);
      }
    }
  }

  /** Payloads for one cell, starting from s: what it holds, or what the first of them creates. */
  predicate StartsAt(cards: Cards, rs: seq<Req>, cell: Cell, s: Content) {
    && AllFor(rs, cell)
    && if cell in cards then s == ContentOf(cards[cell])
       else rs != [] && Addressed(rs[0], cell) && Creatable(rs[0].payload) && s == Lay(rs[0].payload, BLANK)
  }

  lemma {:induction false} RunThrough(cards: Cards, rs: seq<Req>, cell: Cell, s: Content)
    requires StartsAt(cards, rs, cell, s)
    ensures Run(cards, rs).Ok? && cell in Run(cards, rs).value.cards
    ensures ContentOf(Run(cards, rs).value.cards[cell]) == Through(s, rs)
  {
    if rs != [] {
      var init, last := rs[..|rs| - 1], rs[|rs| - 1];
      assert last in rs && forall r :: r in init ==> r in rs;
      if cell in cards || init != [] {
        RunThrough(cards, init, cell, s);
        StepContent(Run(cards, init).value.cards, last);
      } else {
        StepContent(cards, last);
        assert Through(s, init) == s;
      }
    }
  }

  /** Payloads that are not greater leave the card. */
  lemma {:induction false} Unbeaten(cards: Cards, rs: seq<Req>, cell: Cell)
    requires Run(cards, rs).Ok? && cell in cards
    requires forall r :: r in rs && Addressed(r, cell) ==> !Less(KeyOf(cards[cell]), PayloadKey(r.payload))
    ensures Find(Run(cards, rs).value.cards, cell) == Some(cards[cell])
  {
    if rs != [] {
      var init, last := rs[..|rs| - 1], rs[|rs| - 1];
      assert rs == init + [last];
      Unbeaten(cards, init, cell);
      if Addressed(last, cell) { WinsIffLess(cards[cell], last.payload); }
    }
  }

  /** Bringing payloads of one cell to the front makes no push fail, if the first of them can create the card. */
  lemma FrontSucceeds(cards: Cards, rs: seq<Req>, front: seq<Req>, rest: seq<Req>, cell: Cell, s: Content)
    requires Run(cards, rs).Ok? && front != [] && StartsAt(cards, front, cell, s)
    requires forall other :: other != cell ==> Only(rest, other) == Only(rs, other)
    ensures Run(cards, front + rest).Ok?
  {
    FailsIff(cards, front + rest);
    forall i
      ensures !Blocks(cards, front + rest, i)
    {
      if Blocks(cards, front + rest, i) {
        if CellOf((front + rest)[i]) == cell {
          FrontOpens(cards, front, rest, cell, i);
        } else {
          OtherBlocks(cards, rs, front, rest, cell, i);
        }
      }
    }
  }

  lemma FrontOpens(cards: Cards, front: seq<Req>, rest: seq<Req>, cell: Cell, i: int)
    requires front != [] && AllFor(front, cell) && Blocks(cards, front + rest, i) && CellOf((front + rest)[i]) == cell
    ensures cell !in cards && !Creatable(front[0].payload)
  {
    assert (front + rest)[0] == front[0] && front[0] in front;
  }

  lemma OtherBlocks(cards: Cards, rs: seq<Req>, front: seq<Req>, rest: seq<Req>, cell: Cell, i: int)
    requires AllFor(front, cell) && Blocks(cards, front + rest, i) && CellOf((front + rest)[i]) != cell
    requires Only(rest, CellOf((front + rest)[i])) == Only(rs, CellOf((front + rest)[i]))
    ensures Run(cards, rs).Err?
  {
    var other := CellOf((front + rest)[i]);
    OnlyConcat(front, rest, other);
    forall j | 0 <= j < |front|
      ensures !Addressed(front[j], other)
    {
      assert front[j] in front;
    }
    OnlyOfNone(front, other);
    assert [] + Only(rest, other) == Only(rest, other);
    BlocksTravel(cards, front + rest, rs, i);
  }

  /** Every combination that the condition speaks of is the outcome of some order. */
  lemma {:induction false} Reach(cards: Cards, rs: seq<Req>, cell: Cell, s: Content, q: Payload, t: Payload)
    returns (ss: seq<Req>)
    requires Run(cards, rs).Ok? && Start(cards, rs, cell, s) && Pushed(rs, cell, q) && Greatest(rs, cell, t)
    ensures multiset(ss) == multiset(rs) && Run(cards, ss).Ok? && cell in Run(cards, ss).value.cards
    ensures ContentOf(Run(cards, ss).value.cards[cell]) == Received(t, Received(q, s))
  {
    var rq :| rq in rs && rq.user == cell.user && rq.payload == q;
    var rt :| rt in rs && rt.user == cell.user && rt.payload == t;
    var front := FrontFor(cards, rs, cell, s, rq, rt);
    var once := Firsts(front);
    FirstsFacts(front);
    ThroughFirsts(s, front);
    var rest := Forward(rs, once, cell);
    ss := once + rest;
    RunThrough(cards, once, cell, s);
    FrontSucceeds(cards, rs, once, rest, cell, s);
    RunConcat(cards, once, rest);
    StaysReached(cards, rs, once, rest, cell, t);
  }

  lemma ThroughTwo(c: Content, rs: seq<Req>, a: Req, b: Req)
    requires (forall r :: r in rs ==> WellFormed(r.payload)) && WellFormed(a.payload) && WellFormed(b.payload)
    ensures Through(c, rs + [a, b]) == Received(b.payload, Received(a.payload, Through(c, rs)))
  {
    assert (rs + [a, b])[..|rs| + 1] == rs + [a] && (rs + [a])[..|rs|] == rs;
  }

  /** A front that leads from s through q to t. */
  lemma FrontFor(cards: Cards, rs: seq<Req>, cell: Cell, s: Content, rq: Req, rt: Req) returns (front: seq<Req>)
    requires Start(cards, rs, cell, s) && rq in rs && rt in rs && Addressed(rq, cell) && Addressed(rt, cell)
    ensures front != [] && StartsAt(cards, front, cell, s) && forall r :: r in front ==> r in rs
    ensures Through(s, front) == Received(rt.payload, Received(rq.payload, s))
  {
    if cell in cards {
      front := [rq, rt];
      ThroughTwo(s, [], rq, rt);
      assert [] + [rq, rt] == front;
    } else {
      var p :| Pushed(rs, cell, p) && Creatable(p) && s == Lay(p, BLANK);
      var rc :| rc in rs && rc.user == cell.user && rc.payload == p;
      front := [rc, rq, rt];
      ThroughTwo(s, [rc], rq, rt);
      assert [rc] + [rq, rt] == front;
      assert Through(s, [rc]) == Received(p, Through(s, []));
    }
  }

  /** Behind a greatest payload nothing changes the card any more. */
  lemma StaysReached(cards: Cards, rs: seq<Req>, front: seq<Req>, rest: seq<Req>, cell: Cell, t: Payload)
    requires Greatest(rs, cell, t) && multiset(front + rest) == multiset(rs)
    requires Run(cards, front).Ok? && cell in Run(cards, front).value.cards
    requires !Less(KeyOf(Run(cards, front).value.cards[cell]), PayloadKey(t))
    requires Run(Run(cards, front).value.cards, rest).Ok?
    ensures var now := Run(cards, front).value.cards;
            Find(Run(now, rest).value.cards, cell) == Some(now[cell])
  {
    var now := Run(cards, front).value.cards;
    forall r | r in rest && Addressed(r, cell)
      ensures !Less(KeyOf(now[cell]), PayloadKey(r.payload))
    {
      assert r in multiset(front + rest);
      AddressedIsPushed(rs, r);
    }
    Unbeaten(now, rest, cell);
  }

  // ---------------------------------------------------------------- when orders fail

  lemma ReorderDelivers(rs: seq<Req>, ss: seq<Req>)
    requires multiset(ss) == multiset(rs)
    ensures SameDeliveries(rs, ss)
  {
    assert forall r :: r in rs ==> r in multiset(ss);
    assert forall s :: s in ss ==> s in multiset(rs);
  }

  /** A card that payloads are for does not exist, and none of them can create it. */
  ghost predicate Stuck(cards: Cards, rs: seq<Req>) {
    exists r :: r in rs && WellFormed(r.payload) && CellOf(r) !in cards && NoneCreates(rs, CellOf(r))
  }

  ghost predicate NoneCreates(rs: seq<Req>, cell: Cell) {
    forall p :: Pushed(rs, cell, p) ==> !Creatable(p)
  }

  /** The payloads that can, or cannot, create a card. */
  function Creating(rs: seq<Req>, can: bool): seq<Req> {
    if rs == [] then []
    else
      var init, last := Creating(rs[..|rs| - 1], can), rs[|rs| - 1];
      if Creatable(last.payload) == can then init + [last] else init
  }

  lemma {:induction false} CreatingFacts(rs: seq<Req>, can: bool)
    ensures forall r :: r in Creating(rs, can) <==> r in rs && Creatable(r.payload) == can
  {
    if rs != [] {
      assert rs == rs[..|rs| - 1] + [rs[|rs| - 1]];
      CreatingFacts(rs[..|rs| - 1], can);
    }
  }

  lemma {:induction false} CreatingCounts(rs: seq<Req>)
    ensures multiset(Creating(rs, true) + Creating(rs, false)) == multiset(rs)
  {
    if rs != [] {
      assert rs == rs[..|rs| - 1] + [rs[|rs| - 1]];
      CreatingCounts(rs[..|rs| - 1]);
    }
  }

  /** The order that begins with the payloads that can create succeeds, unless the payloads are stuck. */
  lemma {:induction false} UnstuckSucceeds(cards: Cards, rs: seq<Req>) returns (ss: seq<Req>)
    requires !Stuck(cards, rs)
    ensures multiset(ss) == multiset(rs) && Run(cards, ss).Ok?
  {
    var good := Creating(rs, true);
    ss := good + Creating(rs, false);
    CreatingCounts(rs);
    FailsIff(cards, ss);
    forall i
      ensures !Blocks(cards, ss, i)
    {
      if Blocks(cards, ss, i) {
        CreatingFacts(rs, true);
        CreatingFacts(rs, false);
        CreatedBefore(cards, rs, ss, good, i);
      }
    }
  }

  lemma CreatedBefore(cards: Cards, rs: seq<Req>, ss: seq<Req>, good: seq<Req>, i: int)
    requires !Stuck(cards, rs) && 0 <= i < |ss| && ss[i] in rs && !Creatable(ss[i].payload)
    requires good <= ss && forall r :: r in good <==> r in rs && Creatable(r.payload)
    ensures !Blocks(cards, ss, i)
  {
  }

  lemma StuckFails(cards: Cards, rs: seq<Req>, ss: seq<Req>)
    requires Stuck(cards, rs) && SameDeliveries(rs, ss)
    ensures Run(cards, ss).Err?
  {
    var r :| r in rs && WellFormed(r.payload) && CellOf(r) !in cards && NoneCreates(rs, CellOf(r));
    var s :| s in ss && s.user == r.user && s.payload == r.payload;
    assert Addressed(s, CellOf(r));
    var i := FirstAddressed(ss, CellOf(r));
    AddressedIsPushed(ss, ss[i]);
    SamePushed(rs, ss, CellOf(r), ss[i].payload);
    assert Blocks(cards, ss, i);
    FailsIff(cards, ss);
  }

  /** Some order succeeds, and some with repetitions, exactly when the payloads are not stuck. */
  lemma {:induction false} SomeOrderSucceedsIff(cards: Cards, rs: seq<Req>)
    ensures (exists ss :: multiset(ss) == multiset(rs) && Run(cards, ss).Ok?) <==> !Stuck(cards, rs)
    ensures (exists ss :: SameDeliveries(rs, ss) && Run(cards, ss).Ok?) <==> !Stuck(cards, rs)
  {
    if Stuck(cards, rs) {
      forall ss | SameDeliveries(rs, ss)
        ensures Run(cards, ss).Err?
      {
        StuckFails(cards, rs, ss);
      }
      forall ss | multiset(ss) == multiset(rs)
        ensures Run(cards, ss).Err?
      {
        ReorderDelivers(rs, ss);
      }
    } else {
      var ss := UnstuckSucceeds(cards, rs);
      ReorderDelivers(rs, ss);
    }
  }

  /** Every payload for a cell without a card could create it. */
  predicate AllCreatable(cards: Cards, rs: seq<Req>) {
    forall r :: r in rs && WellFormed(r.payload) && CellOf(r) !in cards ==> Creatable(r.payload)
  }

  lemma CreatableNeverFails(cards: Cards, rs: seq<Req>, ss: seq<Req>)
    requires AllCreatable(cards, rs) && SameDeliveries(rs, ss)
    ensures Run(cards, ss).Ok?
  {
    FailsIff(cards, ss);
    forall i
      ensures !Blocks(cards, ss, i)
    {
      if 0 <= i < |ss| && WellFormed(ss[i].payload) {
        var r :| r in rs && r.user == ss[i].user && r.payload == ss[i].payload;
        assert CellOf(r) == CellOf(ss[i]);
      }
    }
  }

  /** A payload that cannot create its card fails the order that begins with it. */
  lemma FrontFails(cards: Cards, rs: seq<Req>) returns (ss: seq<Req>)
    requires !AllCreatable(cards, rs)
    ensures multiset(ss) == multiset(rs) && Run(cards, ss).Err?
  {
    var r :| r in rs && WellFormed(r.payload) && CellOf(r) !in cards && !Creatable(r.payload);
    ss := [r] + Minus(rs, r);
    MinusCounts(rs, r);
    assert Blocks(cards, ss, 0);
    FailsIff(cards, ss);
  }

  /**
   No order fails, and no order with repetitions, exactly when every payload for a
   cell without a card can create one.
   */
  lemma {:induction false} NoOrderFailsIff(cards: Cards, rs: seq<Req>)
    ensures (forall ss :: multiset(ss) == multiset(rs) ==> Run(cards, ss).Ok?) <==> AllCreatable(cards, rs)
    ensures (forall ss :: SameDeliveries(rs, ss) ==> Run(cards, ss).Ok?) <==> AllCreatable(cards, rs)
  {
    if AllCreatable(cards, rs) {
      forall ss | SameDeliveries(rs, ss)
        ensures Run(cards, ss).Ok?
      {
        CreatableNeverFails(cards, rs, ss);
      }
      forall ss | multiset(ss) == multiset(rs)
        ensures Run(cards, ss).Ok?
      {
        ReorderDelivers(rs, ss);
      }
    } else {
      var ss := FrontFails(cards, rs);
      ReorderDelivers(rs, ss);
    }
  }

  // ---------------------------------------------------------------- the exact condition

  /** Every order that does not fail leaves the same contents. */
  ghost predicate AnyOrderAgrees(cards: Cards, rs: seq<Req>)
    requires Run(cards, rs).Ok?
  {
    forall ss :: multiset(ss) == multiset(rs) && Run(cards, ss).Ok? ==>
                   SameContents(Run(cards, ss).value.cards, Run(cards, rs).value.cards)
  }

  lemma OrdersForceTidy(cards: Cards, rs: seq<Req>)
    requires Run(cards, rs).Ok? && AnyOrderAgrees(cards, rs)
    ensures Tidy(cards, rs)
  {
    forall cell
      ensures NoTrace(cards, rs, cell) && OneEnd(cards, rs, cell)
    {
      forall s, t, q | Start(cards, rs, cell, s) && Greatest(rs, cell, t) && Pushed(rs, cell, q)
        ensures Received(t, Received(q, s)) == Received(t, s)
      {
        var ss := Reach(cards, rs, cell, s, q, t);
        var zs := Reach(cards, rs, cell, s, t, t);
      }
      forall s, s', t, t' |
        && Start(cards, rs, cell, s) && Start(cards, rs, cell, s')
        && Greatest(rs, cell, t) && Greatest(rs, cell, t')
        ensures Received(t, s) == Received(t', s')
      {
        var ss := Reach(cards, rs, cell, s, t, t);
        var zs := Reach(cards, rs, cell, s', t', t');
      }
    }
  }

  lemma {:induction false} AgreeIffTidy(cards: Cards, rs: seq<Req>)
    requires Run(cards, rs).Ok?
    ensures AnyOrderAgrees(cards, rs) <==> Tidy(cards, rs)
  {
    if Tidy(cards, rs) {
      forall ss | multiset(ss) == multiset(rs) && Run(cards, ss).Ok?
        ensures SameContents(Run(cards, ss).value.cards, Run(cards, rs).value.cards)
      {
        ReorderDelivers(rs, ss);
        TidyConverges(cards, rs, ss);
      }
    }
    if AnyOrderAgrees(cards, rs) {
      OrdersForceTidy(cards, rs);
    }
  }

  /** Any two orders that succeed leave the same contents. */
  ghost predicate OrdersAgree(cards: Cards, rs: seq<Req>) {
    forall ss, zs ::
      multiset(ss) == multiset(rs) && multiset(zs) == multiset(rs) && Run(cards, ss).Ok? && Run(cards, zs).Ok? ==>
        SameContents(Run(cards, ss).value.cards, Run(cards, zs).value.cards)
  }

  /** Any two deliveries that succeed do, with any repetitions. */
  ghost predicate DeliveriesAgree(cards: Cards, rs: seq<Req>) {
    forall ss, zs ::
      SameDeliveries(rs, ss) && SameDeliveries(rs, zs) && Run(cards, ss).Ok? && Run(cards, zs).Ok? ==>
        SameContents(Run(cards, ss).value.cards, Run(cards, zs).value.cards)
  }

  /** The condition speaks of what is delivered, not of its order. */
  lemma TidyTravels(cards: Cards, rs: seq<Req>, ss: seq<Req>)
    requires SameDeliveries(rs, ss) && Tidy(cards, rs)
    ensures Tidy(cards, ss)
  {
    forall cell
      ensures NoTrace(cards, ss, cell) && OneEnd(cards, ss, cell)
    {
      forall p
        ensures Pushed(rs, cell, p) <==> Pushed(ss, cell, p)
      {
        SamePushed(rs, ss, cell, p);
      }
      assert NoTrace(cards, rs, cell) && OneEnd(cards, rs, cell);
      assert forall s :: Start(cards, ss, cell, s) ==> Start(cards, rs, cell, s);
      assert forall t :: Greatest(ss, cell, t) ==> Greatest(rs, cell, t);
    }
  }

  lemma DeliveriesCompose(rs: seq<Req>, ss: seq<Req>, zs: seq<Req>)
    requires SameDeliveries(rs, ss) && SameDeliveries(rs, zs)
    ensures SameDeliveries(ss, zs) && SameDeliveries(ss, rs)
  {
  }

  lemma AgreeingOrdersAreTidy(cards: Cards, rs: seq<Req>)
    requires OrdersAgree(cards, rs) && !Stuck(cards, rs)
    ensures Tidy(cards, rs)
  {
    var ss := UnstuckSucceeds(cards, rs);
    assert AnyOrderAgrees(cards, ss);
    AgreeIffTidy(cards, ss);
    ReorderDelivers(ss, rs);
    TidyTravels(cards, ss, rs);
  }

  lemma TidyDeliveriesAgree(cards: Cards, rs: seq<Req>)
    requires Stuck(cards, rs) || Tidy(cards, rs)
    ensures DeliveriesAgree(cards, rs)
  {
    forall ss, zs | SameDeliveries(rs, ss) && SameDeliveries(rs, zs) && Run(cards, ss).Ok? && Run(cards, zs).Ok?
      ensures SameContents(Run(cards, ss).value.cards, Run(cards, zs).value.cards)
    {
      if Stuck(cards, rs) {
        StuckFails(cards, rs, ss);
      } else {
        DeliveriesCompose(rs, ss, zs);
        TidyTravels(cards, rs, ss);
        TidyConverges(cards, ss, zs);
      }
    }
  }

  /**
   Convergence, exactly: all orders of the payloads that succeed leave the same
   cards, up to id and revision, if and only if the payloads are tidy or none of
   their orders succeeds; and then so do all deliveries with repetitions.
   */
  lemma {:induction false} ConvergesIff(cards: Cards, rs: seq<Req>)
    ensures OrdersAgree(cards, rs) <==> Stuck(cards, rs) || Tidy(cards, rs)
    ensures DeliveriesAgree(cards, rs) <==> Stuck(cards, rs) || Tidy(cards, rs)
  {
    if DeliveriesAgree(cards, rs) {
      forall ss, zs |
        multiset(ss) == multiset(rs) && multiset(zs) == multiset(rs) && Run(cards, ss).Ok? && Run(cards, zs).Ok?
        ensures SameContents(Run(cards, ss).value.cards, Run(cards, zs).value.cards)
      {
        ReorderDelivers(rs, ss);
        ReorderDelivers(rs, zs);
      }
    }
    if OrdersAgree(cards, rs) && !Stuck(cards, rs) {
      AgreeingOrdersAreTidy(cards, rs);
    }
    if Stuck(cards, rs) || Tidy(cards, rs) {
      TidyDeliveriesAgree(cards, rs);
    }
  }

  // ---------------------------------------------------------------- covered and full payloads

  /** Each column that q carries, t carries. */
  predicate Covers(t: Payload, q: Payload) {
    && (q.ease.Some? ==> t.ease.Some?) && (q.intervalDays.Some? ==> t.intervalDays.Some?)
    && (q.lapses.Some? ==> t.lapses.Some?) && (q.dueAt.Some? ==> t.dueAt.Some?)
    && (q.lastReviewedAt.Some? ==> t.lastReviewedAt.Some?)
  }

  /** A greatest payload carries every column that any payload for its card carries. */
  ghost predicate Covered(rs: seq<Req>) {
    forall cell, t, q :: Greatest(rs, cell, t) && Pushed(rs, cell, q) ==> Covers(t, q)
  }

  /** Greatest payloads of one card say the same. */
  ghost predicate TiesAgree(rs: seq<Req>) {
    forall cell, t, t' :: Greatest(rs, cell, t) && Greatest(rs, cell, t') ==> Lay(t, BLANK) == Lay(t', BLANK)
  }

  lemma CoveredNoTrace(t: Payload, q: Payload, s: Content)
    requires WellFormed(t) && WellFormed(q) && Covers(t, q) && !Less(PayloadKey(t), PayloadKey(q))
    requires !Less(PayloadKey(q), PayloadKey(t)) ==> Covers(q, t) && Lay(q, BLANK) == Lay(t, BLANK)
    ensures Received(t, Received(q, s)) == Received(t, s)
  {
  }

  lemma CoveredAt(cards: Cards, rs: seq<Req>, cell: Cell)
    requires Covered(rs) && TiesAgree(rs)
    ensures NoTrace(cards, rs, cell)
  {
    forall s, t, q | Start(cards, rs, cell, s) && Greatest(rs, cell, t) && Pushed(rs, cell, q)
      ensures Received(t, Received(q, s)) == Received(t, s)
    {
      if !Less(PayloadKey(q), PayloadKey(t)) { assert Greatest(rs, cell, q); }
      CoveredNoTrace(t, q, s);
    }
  }

  lemma CoveredEnd(cards: Cards, rs: seq<Req>, cell: Cell, s: Content, t: Payload)
    requires Covered(rs) && TiesAgree(rs) && cell !in cards && Start(cards, rs, cell, s) && Greatest(rs, cell, t)
    ensures Received(t, s) == Lay(t, BLANK)
  {
  }

  lemma TiesSame(rs: seq<Req>, cell: Cell, s: Content, t: Payload, t': Payload)
    requires Covered(rs) && TiesAgree(rs) && Greatest(rs, cell, t) && Greatest(rs, cell, t')
    ensures Received(t, s) == Received(t', s)
  {
  }

  /** Devices that send the same columns each time are tidy, whichever columns these are. */
  lemma {:induction false} CoveredIsTidy(cards: Cards, rs: seq<Req>)
    requires Covered(rs) && TiesAgree(rs)
    ensures Tidy(cards, rs)
  {
    forall cell
      ensures NoTrace(cards, rs, cell) && OneEnd(cards, rs, cell)
    {
      CoveredAt(cards, rs, cell);
      forall s, s', t, t' |
        && Start(cards, rs, cell, s) && Start(cards, rs, cell, s')
        && Greatest(rs, cell, t) && Greatest(rs, cell, t')
        ensures Received(t, s) == Received(t', s')
      {
        if cell in cards {
          TiesSame(rs, cell, s, t, t');
        } else {
          CoveredEnd(cards, rs, cell, s, t);
          CoveredEnd(cards, rs, cell, s', t');
        }
      }
    }
  }

  /** The payload carries every column a device sees. */
  predicate Full(p: Payload) {
    && WellFormed(p) && p.ease.Some? && p.intervalDays.Some? && p.repetitions.Some? && p.lapses.Some?
    && p.dueAt.Some? && p.lastReviewedAt.Some? && !p.unknownField
  }

  /** Each payload is malformed, and so ignored, or full. */
  predicate FullOrMalformed(rs: seq<Req>) {
    forall r :: r in rs ==> WellFormed(r.payload) ==> Full(r.payload)
  }

  lemma PushedIsFull(rs: seq<Req>, cell: Cell, p: Payload)
    requires FullOrMalformed(rs) && Pushed(rs, cell, p)
    ensures Full(p)
  {
  }

  /**
   Full payloads that tie only when equal never fail and leave the same cards, up
   to id and revision, in any order and with any repetition.
   */
  lemma {:induction false} Converges(cards: Cards, rs: seq<Req>, ss: seq<Req>)
    requires FullOrMalformed(rs) && TiesAgree(rs) && SameDeliveries(rs, ss)
    ensures Run(cards, rs).Ok? && Run(cards, ss).Ok?
    ensures SameContents(Run(cards, ss).value.cards, Run(cards, rs).value.cards)
  {
    forall cell, t, q | Greatest(rs, cell, t) && Pushed(rs, cell, q)
      ensures Covers(t, q)
    {
      PushedIsFull(rs, cell, t);
    }
    CoveredIsTidy(cards, rs);
    ReorderDelivers(rs, rs);
    CreatableNeverFails(cards, rs, rs);
    CreatableNeverFails(cards, rs, ss);
    TidyConverges(cards, rs, ss);
  }

  /** The contents that compete for a cell. */
  ghost predicate Candidate(cards: Cards, rs: seq<Req>, cell: Cell, c: Content) {
    || (cell in cards && c == ContentOf(cards[cell]))
    || exists p :: Pushed(rs, cell, p) && c == Lay(p, BLANK)
  }

  lemma MoreCandidates(cards: Cards, init: seq<Req>, r: Req, cell: Cell, c: Content)
    requires Candidate(cards, init, cell, c)
    ensures Candidate(cards, init + [r], cell, c)
  {
  }

  lemma ReceivedIsCandidate(cards: Cards, rs: seq<Req>, cell: Cell, c: Content, p: Payload)
    requires FullOrMalformed(rs) && Candidate(cards, rs, cell, c) && Pushed(rs, cell, p)
    ensures Candidate(cards, rs, cell, Received(p, c))
  {
  }

  /** With full payloads the stored content is the initial one or a payload's, never a mixture. */
  lemma {:induction false} StoredIsCandidate(cards: Cards, rs: seq<Req>, cell: Cell)
    requires FullOrMalformed(rs) && Run(cards, rs).Ok? && cell in Run(cards, rs).value.cards
    ensures Candidate(cards, rs, cell, ContentOf(Run(cards, rs).value.cards[cell]))
  {
    if rs != [] {
      var init, r := rs[..|rs| - 1], rs[|rs| - 1];
      assert rs == init + [r] && r in rs;
      var before := Run(cards, init).value.cards;
      if cell in before {
        StoredIsCandidate(cards, init, cell);
        MoreCandidates(cards, init, r, cell, ContentOf(before[cell]));
      }
      if Addressed(r, cell) {
        AddressedIsPushed(rs, r);
        StepContent(before, r);
        if cell in before {
          ReceivedIsCandidate(cards, rs, cell, ContentOf(before[cell]), r.payload);
        }
      } else {
        StepElsewhere(before, r, cell);
      }
    }
  }

  /** And no competing content is greater. */
  lemma {:induction false} StoredIsGreatest(cards: Cards, rs: seq<Req>, cell: Cell, c: Content)
    requires FullOrMalformed(rs) && Run(cards, rs).Ok? && Candidate(cards, rs, cell, c)
    ensures cell in Run(cards, rs).value.cards
    ensures !Less(ContentKey(ContentOf(Run(cards, rs).value.cards[cell])), ContentKey(c))
  {
    RunCells(cards, rs);
    assert cell in cards || cell in Footprint(rs);
    StoredKeyIsGreatest(cards, rs, cell);
  }

  /**
   A payload that leaves out what an earlier one changed keeps a mixture: two
   partial payloads end differently in the two orders.
   */
  lemma PartialPayloadsDiverge()
    ensures exists cards: Cards, a: Req, b: Req, cell: Cell ::
              && Run(cards, [a, b]).Ok? && Run(cards, [b, a]).Ok?
              && cell in Run(cards, [a, b]).value.cards && cell in Run(cards, [b, a]).value.cards
              && ContentOf(Run(cards, [a, b]).value.cards[cell]) != ContentOf(Run(cards, [b, a]).value.cards[cell])
  {
    var cell := Cell(0, 0);
    var cards: Cards := map[cell := Card(0, 2.5, 0, 0, 0, 0, None, 0, 1)];
    var a := Req(0, Payload(Some(0), Some(1), None, None, None, Some(7), None, None, None, false), 1);
    var b := Req(0, Payload(Some(0), Some(2), None, None, None, None, None, None, None, false), 2);
    RunTwo(cards, a, b);
    RunTwo(cards, b, a);
    assert Run(cards, [a, b]).value.cards[cell].lapses == 7;
    assert Run(cards, [b, a]).value.cards[cell].lapses == 0;
  }

  lemma RunTwo(cards: Cards, a: Req, b: Req)
    requires Step(cards, a).Ok? && Step(Step(cards, a).value.cards, b).Ok?
    ensures Run(cards, [a, b]).Ok?
    ensures Run(cards, [a, b]).value.cards == Step(Step(cards, a).value.cards, b).value.cards
  {
    RunSnoc(cards, [], a);
    RunSnoc(cards, [a], b);
    assert [] + [a] == [a] && [a] + [b] == [a, b];
  }

  // ---------------------------------------------------------------- pushes

  /** Pushes one after another; one that fails changes nothing. */
  function MergeAll(db: Db, batches: seq<seq<Req>>): Db {
    if batches == [] then db
    else Merge(MergeAll(db, batches[..|batches| - 1]), batches[|batches| - 1]).0
  }

  function Flat(batches: seq<seq<Req>>): seq<Req> {
    if batches == [] then [] else Flat(batches[..|batches| - 1]) + batches[|batches| - 1]
  }

  /** The pushes that succeed when they are made one after another. */
  function Kept(db: Db, batches: seq<seq<Req>>): seq<seq<Req>> {
    if batches == [] then []
    else
      var init, last := batches[..|batches| - 1], batches[|batches| - 1];
      if Merge(MergeAll(db, init), last).1.Ok? then Kept(db, init) + [last] else Kept(db, init)
  }

  /** Pushes are one push of the payloads of those that succeed. */
  lemma {:induction false} FailedPushesLeaveNothing(db: Db, batches: seq<seq<Req>>)
    ensures Run(db.cards, Flat(Kept(db, batches))).Ok?
    ensures MergeAll(db, batches) == Merge(db, Flat(Kept(db, batches))).0
  {
    if batches == [] {
      assert db.log + [] == db.log;
    } else {
      var init, last := batches[..|batches| - 1], batches[|batches| - 1];
      FailedPushesLeaveNothing(db, init);
      if Merge(MergeAll(db, init), last).1.Ok? {
        assert Flat(Kept(db, batches)) == Flat(Kept(db, init)) + last;
        MergeConcat(db, Flat(Kept(db, init)), last);
      }
    }
  }

  lemma KeptSplit(db: Db, batches: seq<seq<Req>>)
    requires batches != []
    ensures var init, last := batches[..|batches| - 1], batches[|batches| - 1];
            Kept(db, batches) == batches <==> Kept(db, init) == init && Merge(MergeAll(db, init), last).1.Ok?
  {
    var init, last := batches[..|batches| - 1], batches[|batches| - 1];
    assert batches == init + [last];
    KeptIsNoLonger(db, init);
    if Kept(db, init) + [last] == batches {
      assert (Kept(db, init) + [last])[..|init|] == Kept(db, init);
    }
  }

  lemma JoinedOkIff(cards: Cards, a: seq<Req>, b: seq<Req>)
    ensures Run(cards, a + b).Ok? <==> Run(cards, a).Ok? && Run(Run(cards, a).value.cards, b).Ok?
  {
    RunConcat(cards, a, b);
  }

  /** All pushes succeed exactly when the whole stream would. */
  lemma {:induction false} AllKeptIff(db: Db, batches: seq<seq<Req>>)
    ensures Run(db.cards, Flat(batches)).Ok? <==> Kept(db, batches) == batches
  {
    if batches != [] {
      var init, last := batches[..|batches| - 1], batches[|batches| - 1];
      AllKeptIff(db, init);
      JoinedOkIff(db.cards, Flat(init), last);
      FailedPushesLeaveNothing(db, init);
      KeptSplit(db, batches);
    }
  }

  lemma {:induction false} KeptIsNoLonger(db: Db, batches: seq<seq<Req>>)
    ensures |Kept(db, batches)| <= |batches|
  {
    if batches != [] {
      KeptIsNoLonger(db, batches[..|batches| - 1]);
    }
  }

  /** A batch leaves both tables as they were exactly when each of its payloads is old news. */
  lemma UnchangedIff(db: Db, rs: seq<Req>)
    requires Run(db.cards, rs).Ok?
    ensures Merge(db, rs).0 == db <==> forall r :: r in rs ==> OldNews(db.cards, r)
  {
    var x := Run(db.cards, rs).value;
    InertIff(db.cards, rs);
    if Merge(db, rs).0 == db {
      assert |db.log + x.log| == |db.log|;
      Accounting(db.cards, rs);
      NothingAppliedNothingChanged(db.cards, rs);
    }
    assert db.log + [] == db.log;
  }

  /**
   Cutting a stream of payloads into pushes gives the same tables as pushing it
   whole exactly when the whole stream does not fail, or when the pushes that
   succeed change nothing.
   */
  lemma {:induction false} RegroupingIsInvisibleIff(db: Db, batches: seq<seq<Req>>)
    ensures MergeAll(db, batches) == Merge(db, Flat(batches)).0 <==>
            || Run(db.cards, Flat(batches)).Ok?
            || forall r :: r in Flat(Kept(db, batches)) ==> OldNews(db.cards, r)
  {
    FailedPushesLeaveNothing(db, batches);
    AllKeptIff(db, batches);
    UnchangedIff(db, Flat(Kept(db, batches)));
  }

  lemma OnePush(db: Db, rs: seq<Req>)
    requires Run(db.cards, rs).Ok?
    ensures Kept(db, [rs]) == [rs] && Flat([rs]) == rs && MergeAll(db, [rs]) == Merge(db, rs).0
  {
  }

  /** Every way to push the same payloads ends in the same contents; pushes that fail do not count. */
  ghost predicate AnyPushesAgree(db: Db, pushes: seq<seq<Req>>) {
    forall others :: SameDeliveries(Flat(Kept(db, pushes)), Flat(Kept(db, others))) ==>
                       SameContents(MergeAll(db, others).cards, MergeAll(db, pushes).cards)
  }

  /**
   Convergence over pushes, exactly: whatever the order, the repetitions and the
   cuts into pushes, the same payloads end in the same cards if and only if those
   of the pushes that succeed are tidy.
   */
  lemma {:induction false} PushesConvergeIff(db: Db, pushes: seq<seq<Req>>)
    ensures AnyPushesAgree(db, pushes) <==> Tidy(db.cards, Flat(Kept(db, pushes)))
  {
    var rs := Flat(Kept(db, pushes));
    FailedPushesLeaveNothing(db, pushes);
    if Tidy(db.cards, rs) {
      forall others | SameDeliveries(rs, Flat(Kept(db, others)))
        ensures SameContents(MergeAll(db, others).cards, MergeAll(db, pushes).cards)
      {
        FailedPushesLeaveNothing(db, others);
        TidyConverges(db.cards, rs, Flat(Kept(db, others)));
      }
    }
    if AnyPushesAgree(db, pushes) {
      forall ss | multiset(ss) == multiset(rs) && Run(db.cards, ss).Ok?
        ensures SameContents(Run(db.cards, ss).value.cards, Run(db.cards, rs).value.cards)
      {
        ReorderDelivers(rs, ss);
        OnePush(db, ss);
        assert SameContents(MergeAll(db, [ss]).cards, MergeAll(db, pushes).cards);
      }
      OrdersForceTidy(db.cards, rs);
    }
  }
}
