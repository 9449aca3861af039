/**
 Pulling cards back in pages behind a `since` cursor.

 A response lists the user's cards stamped after the cursor, oldest first, cut
 at 500, and says whether the cut left any out.  The table gives no order to
 cards with equal timestamps: any listing sorted by timestamp may be served, and
 a different one each time.
 */
module HifzPull {
  import opened Wrappers
  import opened HifzMerge
  import opened HifzLaws

  const PULL_LIMIT := 500

  datatype Row = Row(cell: Cell, card: Card)

  datatype Response = Response(page: seq<Row>, hasMore: bool)

  function Stamp(r: Row): Time {
    r.card.clientUpdatedAt
  }

  predicate After(since: Option<Time>, at: Time) {
    since.Some? ==> at > since.value
  }

  /** The user's cards that the cursor lets through. */
  ghost function Rows(cards: Cards, user: UserId, since: Option<Time>): set<Row> {
    set c | c in cards && c.user == user && After(since, cards[c].clientUpdatedAt) :: Row(c, cards[c])
  }

  ghost predicate Sorted(l: seq<Row>) {
    forall i, j :: 0 <= i < j < |l| ==> Stamp(l[i]) <= Stamp(l[j])
  }

  ghost predicate Distinct(l: seq<Row>) {
    forall i, j :: 0 <= i < j < |l| ==> l[i] != l[j]
  }

  /** `l` lists the rows of `s` once each, oldest first. */
  ghost predicate Listing(l: seq<Row>, s: set<Row>) {
    Sorted(l) && Distinct(l) && (forall r :: r in l <==> r in s)
  }

  /** One row more than the limit is fetched, to see whether there are more; the page leaves it out. */
  function Respond(l: seq<Row>): Response {
    var fetched := if |l| <= PULL_LIMIT + 1 then l else l[..PULL_LIMIT + 1];
    var page := if |fetched| <= PULL_LIMIT then fetched else fetched[..PULL_LIMIT];
    Response(page, |fetched| > PULL_LIMIT)
  }

  ghost predicate Serves(cards: Cards, user: UserId, since: Option<Time>, r: Response) {
    exists l :: Listing(l, Rows(cards, user, since)) && r == Respond(l)
  }

  /** A device's requests: each continues from the last card it was given, until there are no more. */
  ghost predicate Session(cards: Cards, user: UserId, since: Option<Time>, rs: seq<Response>)
    decreases rs
  {
    && rs != []
    && Serves(cards, user, since, rs[0])
    && if rs[0].hasMore
       then rs[0].page != [] && Session(cards, user, Some(Stamp(rs[0].page[|rs[0].page| - 1])), rs[1..])
       else |rs| == 1
  }

  /** Everything a session delivered, in order. */
  function Collected(rs: seq<Response>): seq<Row> {
    if rs == [] then [] else rs[0].page + Collected(rs[1..])
  }

  // ---------------------------------------------------------------- listings

  function Elems(l: seq<Row>): set<Row> {
    set r | r in l
  }

  lemma {:induction false} DistinctCount(l: seq<Row>)
    requires Distinct(l)
    ensures |Elems(l)| == |l|
  {
    if l != [] {
      var init, last := l[..|l| - 1], l[|l| - 1];
      DistinctCount(init);
      assert last !in init;
      assert Elems(l) == Elems(init) + {last};
    }
  }

  lemma SubsetCount(a: set<Row>, b: set<Row>)
    requires a <= b
    ensures |a| <= |b|
  {
    assert b == a + (b - a);
  }

  lemma StampNotBelow(a: seq<Row>, b: seq<Row>, s: set<Row>, i: nat)
    requires Listing(a, s) && Listing(b, s) && i < |a| && i < |b|
    ensures Stamp(b[i]) <= Stamp(a[i])
  {
    if Stamp(a[i]) < Stamp(b[i]) {
      var x, y := Elems(a[..i + 1]), Elems(b[..i]);
      DistinctCount(a[..i + 1]);
      DistinctCount(b[..i]);
      forall r | r in x
        ensures r in y
      {
        assert r in a;
        var j :| 0 <= j < |b| && b[j] == r;
        assert j < i;
      }
      SubsetCount(x, y);
    }
  }

  /** However ties are broken, every listing of the same rows shows the same timestamps. */
  lemma ListingsAgreeOnStamps(a: seq<Row>, b: seq<Row>, s: set<Row>)
    requires Listing(a, s) && Listing(b, s)
    ensures |a| == |b| == |s|
    ensures forall i :: 0 <= i < |a| ==> Stamp(a[i]) == Stamp(b[i])
  {
    DistinctCount(a);
    DistinctCount(b);
    assert Elems(a) == s == Elems(b);
    forall i | 0 <= i < |a|
      ensures Stamp(a[i]) == Stamp(b[i])
    {
      StampNotBelow(a, b, s, i);
      StampNotBelow(b, a, s, i);
    }
  }

  /** With pairwise different timestamps there is only one listing. */
  lemma ListingIsUnique(a: seq<Row>, b: seq<Row>, s: set<Row>)
    requires Listing(a, s) && Listing(b, s)
    requires forall q, r :: q in s && r in s && Stamp(q) == Stamp(r) ==> q == r
    ensures a == b
  {
    ListingsAgreeOnStamps(a, b, s);
    forall i | 0 <= i < |a|
      ensures a[i] == b[i]
    {
      assert a[i] in a && b[i] in b;
    }
  }

  function Insert(l: seq<Row>, r: Row): seq<Row> {
    if l == [] || Stamp(r) <= Stamp(l[0]) then [r] + l else [l[0]] + Insert(l[1..], r)
  }

  lemma {:induction false} InsertAdds(l: seq<Row>, r: Row)
    ensures forall q :: q in Insert(l, r) <==> q == r || q in l
  {
    if l != [] && Stamp(r) > Stamp(l[0]) {
      InsertAdds(l[1..], r);
      assert forall q :: q in l <==> q == l[0] || q in l[1..];
    }
  }

  lemma {:induction false} InsertSorts(l: seq<Row>, r: Row)
    requires Sorted(l)
    ensures Sorted(Insert(l, r))
  {
    if l != [] && Stamp(r) > Stamp(l[0]) {
      var rest := Insert(l[1..], r);
      InsertSorts(l[1..], r);
      InsertAdds(l[1..], r);
      forall i | 0 <= i < |rest|
        ensures Stamp(l[0]) <= Stamp(rest[i])
      {
        assert rest[i] in rest;
      }
    }
  }

  lemma {:induction false} InsertDistinct(l: seq<Row>, r: Row)
    requires Distinct(l) && r !in l
    ensures Distinct(Insert(l, r))
  {
    if l != [] && Stamp(r) > Stamp(l[0]) {
      var rest := Insert(l[1..], r);
      InsertDistinct(l[1..], r);
      InsertAdds(l[1..], r);
      assert l[0] in l && l[0] !in rest;
    }
  }

  lemma {:induction false} ListingExists(s: set<Row>) returns (l: seq<Row>)
    ensures Listing(l, s)
  {
    if s == {} {
      l := [];
    } else {
      var r :| r in s;
      var rest := ListingExists(s - {r});
      InsertAdds(rest, r);
      InsertSorts(rest, r);
      InsertDistinct(rest, r);
      l := Insert(rest, r);
    }
  }

  // ---------------------------------------------------------------- sessions

  /** A full page is followed by exactly the rows stamped after its last one. */
  lemma Remainder(cards: Cards, user: UserId, since: Option<Time>, l: seq<Row>)
    requires Listing(l, Rows(cards, user, since)) && |l| > PULL_LIMIT
    ensures var t := Stamp(l[PULL_LIMIT - 1]);
            && Rows(cards, user, Some(t)) == (set r | r in l[PULL_LIMIT..] && Stamp(r) > t)
            && (t < Stamp(l[PULL_LIMIT]) ==> Listing(l[PULL_LIMIT..], Rows(cards, user, Some(t))))
  {
    var t := Stamp(l[PULL_LIMIT - 1]);
    var tail := l[PULL_LIMIT..];
    assert l[PULL_LIMIT - 1] in l;
    forall r
      ensures r in Rows(cards, user, Some(t)) <==> r in tail && Stamp(r) > t
    {
      LaterInTail(cards, user, since, l, r);
    }
    if t < Stamp(l[PULL_LIMIT]) {
      assert forall r :: r in tail ==> Stamp(r) > t;
    }
  }

  lemma LaterInTail(cards: Cards, user: UserId, since: Option<Time>, l: seq<Row>, r: Row)
    requires Listing(l, Rows(cards, user, since)) && |l| > PULL_LIMIT && l[PULL_LIMIT - 1] in l
    ensures var t := Stamp(l[PULL_LIMIT - 1]);
            r in Rows(cards, user, Some(t)) <==> r in l[PULL_LIMIT..] && Stamp(r) > t
  {
    var tail := l[PULL_LIMIT..];
    if r in Rows(cards, user, Some(Stamp(l[PULL_LIMIT - 1]))) {
      assert r in l;
      var i :| 0 <= i < |l| && l[i] == r;
      assert i >= PULL_LIMIT && tail[i - PULL_LIMIT] == r;
    }
    if r in tail {
      assert r in l;
    }
  }

  /** A device's requests come to an end: whatever the table, there is a session. */
  lemma {:induction false} SessionExists(cards: Cards, user: UserId, since: Option<Time>) returns (rs: seq<Response>)
    ensures Session(cards, user, since, rs)
    decreases |Rows(cards, user, since)|
  {
    var l := ListingExists(Rows(cards, user, since));
    var first := Respond(l);
    assert Serves(cards, user, since, first);
    if |l| <= PULL_LIMIT {
      rs := [first];
    } else {
      Remainder(cards, user, since, l);
      ListingsAgreeOnStamps(l, l, Rows(cards, user, since));
      TailCount(l[PULL_LIMIT..], Rows(cards, user, Some(Stamp(l[PULL_LIMIT - 1]))));
      var rest := SessionExists(cards, user, Some(Stamp(l[PULL_LIMIT - 1])));
      rs := [first] + rest;
      assert rs[1..] == rest;
    }
  }

  lemma TailCount(l: seq<Row>, s: set<Row>)
    requires Distinct(l) && forall r :: r in s ==> r in l
    ensures |s| <= |l|
  {
    DistinctCount(l);
    SubsetCount(s, Elems(l));
  }

  /** Rows up to a time followed by rows after it. */
  ghost predicate Parted(a: seq<Row>, b: seq<Row>, t: Time) {
    && (forall i :: 0 <= i < |a| ==> Stamp(a[i]) <= t)
    && (forall i :: 0 <= i < |b| ==> Stamp(b[i]) > t)
  }

  lemma JoinedOrdered(a: seq<Row>, b: seq<Row>, t: Time)
    requires (forall r :: r in a ==> Stamp(r) <= t) && (forall r :: r in b ==> Stamp(r) > t)
    requires Sorted(a) && Distinct(a) && Sorted(b) && Distinct(b)
    ensures Sorted(a + b) && Distinct(a + b)
  {
  }

  /** A page with more to come is the first 500 rows of a listing. */
  lemma PageIsPrefix(l: seq<Row>, r: Response)
    requires r == Respond(l)
    ensures r.hasMore <==> |l| > PULL_LIMIT
    ensures r.page == if |l| > PULL_LIMIT then l[..PULL_LIMIT] else l
  {
  }

  lemma FirstPage(cards: Cards, user: UserId, since: Option<Time>, l: seq<Row>)
    requires Listing(l, Rows(cards, user, since)) && |l| > PULL_LIMIT
    ensures var page := l[..PULL_LIMIT];
            && Sorted(page) && Distinct(page)
            && forall r :: r in page ==> r in Rows(cards, user, since) && Stamp(r) <= Stamp(page[PULL_LIMIT - 1])
  {
  }

  /** No session repeats a card, goes back in time, or delivers what the cursor excludes. */
  lemma {:induction false} SessionIsOrdered(cards: Cards, user: UserId, since: Option<Time>, rs: seq<Response>)
    requires Session(cards, user, since, rs)
    ensures Sorted(Collected(rs)) && Distinct(Collected(rs))
    ensures forall r :: r in Collected(rs) ==> r in Rows(cards, user, since)
    decreases |rs|
  {
    var l :| Listing(l, Rows(cards, user, since)) && rs[0] == Respond(l);
    var page := rs[0].page;
    PageIsPrefix(l, rs[0]);
    if rs[0].hasMore {
      var t := Stamp(page[|page| - 1]);
      SessionIsOrdered(cards, user, Some(t), rs[1..]);
      FirstPage(cards, user, since, l);
      LaterRows(cards, user, since, l[PULL_LIMIT - 1]);
      JoinedOrdered(page, Collected(rs[1..]), t);
    } else {
      assert Collected(rs[1..]) == [];
      assert page + [] == page;
    }
  }

  /** Rows past a row that the cursor lets through are let through too. */
  lemma LaterRows(cards: Cards, user: UserId, since: Option<Time>, r: Row)
    requires After(since, Stamp(r))
    ensures forall q :: q in Rows(cards, user, Some(Stamp(r))) ==> q in Rows(cards, user, since) && Stamp(q) > Stamp(r)
  {
  }

  /** No cut of the listing into pages of 500 falls between two equal timestamps. */
  ghost predicate CleanCuts(l: seq<Row>) {
    forall m: nat :: m >= 1 && PULL_LIMIT * m < |l| ==> CutIsClean(l, m)
  }

  ghost predicate CutIsClean(l: seq<Row>, m: nat) {
    m >= 1 && PULL_LIMIT * m < |l| && Stamp(l[PULL_LIMIT * m - 1]) < Stamp(l[PULL_LIMIT * m])
  }

  lemma CleanCutsSplit(l: seq<Row>)
    requires |l| > PULL_LIMIT
    ensures CleanCuts(l) <==> CutIsClean(l, 1) && CleanCuts(l[PULL_LIMIT..])
  {
    var tail := l[PULL_LIMIT..];
    if CleanCuts(l) {
      forall m: nat | m >= 1 && PULL_LIMIT * m < |tail|
        ensures CutIsClean(tail, m)
      {
        assert CutIsClean(l, m + 1);
      }
    }
    if CutIsClean(l, 1) && CleanCuts(tail) {
      forall m: nat | m >= 1 && PULL_LIMIT * m < |l|
        ensures CutIsClean(l, m)
      {
        if m > 1 {
          assert CutIsClean(tail, m - 1);
        }
      }
    }
  }

  lemma CleanCutsTransfer(a: seq<Row>, b: seq<Row>, s: set<Row>)
    requires Listing(a, s) && Listing(b, s) && CleanCuts(a)
    ensures CleanCuts(b)
  {
    ListingsAgreeOnStamps(a, b, s);
    forall m: nat | m >= 1 && PULL_LIMIT * m < |b|
      ensures CutIsClean(b, m)
    {
      assert CutIsClean(a, m);
    }
  }

  function PageCount(n: nat): nat {
    if n <= PULL_LIMIT then 1 else (n + PULL_LIMIT - 1) / PULL_LIMIT
  }

  /** Behind the same page, the rest lists all of the tail exactly when the whole lists all of the whole. */
  lemma SplitListing(page: seq<Row>, tail: seq<Row>, rest: seq<Row>, t: Time, whole: set<Row>, later: set<Row>)
    requires Parted(page, tail, t) && Parted(page, rest, t)
    requires Sorted(rest) && Distinct(rest) && Sorted(page + rest) && Distinct(page + rest)
    requires Listing(page + tail, whole) && Listing(tail, later)
    ensures Listing(page + rest, whole) <==> Listing(rest, later)
  {
    assert forall r :: r in whole <==> r in page || r in later by {
      assert forall r :: r in whole <==> r in page + tail;
    }
    assert forall r :: r in page + rest <==> r in page || r in rest;
    assert forall r :: r in later ==> r !in page;
    assert forall r :: r in rest ==> r !in page;
  }

  /** A full page cut where no tie is split, and what the rest of the session adds to it. */
  lemma RestIsParted(cards: Cards, user: UserId, since: Option<Time>, l: seq<Row>, rs: seq<Response>)
    requires Listing(l, Rows(cards, user, since)) && |l| > PULL_LIMIT && CutIsClean(l, 1)
    requires Session(cards, user, since, rs) && rs[0] == Respond(l)
    ensures var t, page, rest := Stamp(l[PULL_LIMIT - 1]), l[..PULL_LIMIT], Collected(rs[1..]);
            && Session(cards, user, Some(t), rs[1..])
            && Collected(rs) == page + rest && Sorted(rest) && Distinct(rest)
            && Parted(page, l[PULL_LIMIT..], t) && Parted(page, rest, t)
  {
    var t := Stamp(l[PULL_LIMIT - 1]);
    PageIsPrefix(l, rs[0]);
    SessionIsOrdered(cards, user, Some(t), rs[1..]);
    var rest := Collected(rs[1..]);
    assert forall i :: 0 <= i < |rest| ==> rest[i] in rest;
  }

  lemma {:induction false} PageThenRest(cards: Cards, user: UserId, since: Option<Time>, l: seq<Row>, rs: seq<Response>)
    requires Listing(l, Rows(cards, user, since)) && |l| > PULL_LIMIT && CutIsClean(l, 1)
    requires Session(cards, user, since, rs) && rs[0] == Respond(l)
    ensures var t := Stamp(l[PULL_LIMIT - 1]);
            Listing(Collected(rs), Rows(cards, user, since)) <==>
                Listing(Collected(rs[1..]), Rows(cards, user, Some(t)))
  {
    var t := Stamp(l[PULL_LIMIT - 1]);
    var page, tail := l[..PULL_LIMIT], l[PULL_LIMIT..];
    RestIsParted(cards, user, since, l, rs);
    SessionIsOrdered(cards, user, since, rs);
    Remainder(cards, user, since, l);
    assert l == page + tail;
    SplitListing(page, tail, Collected(rs[1..]), t, Rows(cards, user, since), Rows(cards, user, Some(t)));
  }

  lemma PageCountNext(n: nat)
    requires n > PULL_LIMIT
    ensures PageCount(n) == 1 + PageCount(n - PULL_LIMIT)
  {
  }

  /** What holds of the rest of a session behind a clean cut holds of the session. */
  lemma PagingStep(cards: Cards, user: UserId, since: Option<Time>, l: seq<Row>, rs: seq<Response>)
    requires Listing(l, Rows(cards, user, since)) && |l| > PULL_LIMIT && CutIsClean(l, 1)
    requires Session(cards, user, since, rs) && rs[0] == Respond(l)
    requires Listing(Collected(rs[1..]), Rows(cards, user, Some(Stamp(l[PULL_LIMIT - 1])))) <==>
             CleanCuts(l[PULL_LIMIT..])
    requires CleanCuts(l[PULL_LIMIT..]) ==> |rs[1..]| == PageCount(|l| - PULL_LIMIT)
    ensures Listing(Collected(rs), Rows(cards, user, since)) <==> CleanCuts(l)
    ensures CleanCuts(l) ==> |rs| == PageCount(|l|)
  {
    PageThenRest(cards, user, since, l, rs);
    CleanCutsSplit(l);
    PageCountNext(|l|);
  }

  lemma CleanCutsAgree(a: seq<Row>, b: seq<Row>, s: set<Row>)
    requires Listing(a, s) && Listing(b, s)
    ensures CleanCuts(a) <==> CleanCuts(b)
  {
    if CleanCuts(a) { CleanCutsTransfer(a, b, s); }
    if CleanCuts(b) { CleanCutsTransfer(b, a, s); }
  }

  /**
   Paging is complete exactly when no page boundary splits a run of equal
   timestamps.  Then the session is the sorted list of all cards after the
   cursor, each once, in as many requests as pages of 500; otherwise it misses a
   card, however ties are broken and however often.
   */
  lemma {:induction false} PagingCompleteIff(cards: Cards, user: UserId, since: Option<Time>, l: seq<Row>,
                                             rs: seq<Response>)
    requires Listing(l, Rows(cards, user, since)) && Session(cards, user, since, rs)
    ensures Listing(Collected(rs), Rows(cards, user, since)) <==> CleanCuts(l)
    ensures CleanCuts(l) ==> |rs| == PageCount(|l|)
    decreases |rs|, 1
  {
    var served :| Listing(served, Rows(cards, user, since)) && rs[0] == Respond(served);
    ListingsAgreeOnStamps(l, served, Rows(cards, user, since));
    CleanCutsAgree(l, served, Rows(cards, user, since));
    ServedCompleteIff(cards, user, since, served, rs);
  }

  /** The same for the listing that the first response was served from. */
  lemma {:induction false} ServedCompleteIff(cards: Cards, user: UserId, since: Option<Time>, l: seq<Row>,
                                             rs: seq<Response>)
    requires Listing(l, Rows(cards, user, since)) && Session(cards, user, since, rs) && rs[0] == Respond(l)
    ensures Listing(Collected(rs), Rows(cards, user, since)) <==> CleanCuts(l)
    ensures CleanCuts(l) ==> |rs| == PageCount(|l|)
    decreases |rs|, 0
  {
    PageIsPrefix(l, rs[0]);
    if |l| <= PULL_LIMIT {
      assert Collected(rs[1..]) == [] && Collected(rs) == l;
    } else if CutIsClean(l, 1) {
      var t := Stamp(l[PULL_LIMIT - 1]);
      Remainder(cards, user, since, l);
      RestIsParted(cards, user, since, l, rs);
      PagingCompleteIff(cards, user, Some(t), l[PULL_LIMIT..], rs[1..]);
      PagingStep(cards, user, since, l, rs);
    } else {
      SplitTieIsLost(cards, user, since, l, rs);
      assert !CleanCuts(l);
    }
  }

  lemma SplitTieIsLost(cards: Cards, user: UserId, since: Option<Time>, l: seq<Row>, rs: seq<Response>)
    requires Listing(l, Rows(cards, user, since)) && |l| > PULL_LIMIT && !CutIsClean(l, 1)
    requires Session(cards, user, since, rs) && rs[0] == Respond(l)
    ensures l[PULL_LIMIT] in Rows(cards, user, since) && l[PULL_LIMIT] !in Collected(rs)
  {
    var t := Stamp(l[PULL_LIMIT - 1]);
    assert l[PULL_LIMIT] in l && Stamp(l[PULL_LIMIT]) == t;
    SessionIsOrdered(cards, user, Some(t), rs[1..]);
    assert l[PULL_LIMIT] !in l[..PULL_LIMIT];
  }

  /** With pairwise different timestamps every session delivers the sorted list of all cards, each once. */
  lemma {:induction false} PagingComplete(cards: Cards, user: UserId, since: Option<Time>, l: seq<Row>,
                                          rs: seq<Response>)
    requires Listing(l, Rows(cards, user, since)) && Session(cards, user, since, rs)
    requires forall q, r ::
               q in Rows(cards, user, since) && r in Rows(cards, user, since) && Stamp(q) == Stamp(r) ==> q == r
    ensures Collected(rs) == l && |rs| == PageCount(|l|)
  {
    forall m: nat | m >= 1 && PULL_LIMIT * m < |l|
      ensures CutIsClean(l, m)
    {
      var i := PULL_LIMIT * m;
      assert l[i - 1] in l && l[i] in l && l[i - 1] != l[i];
    }
    PagingCompleteIff(cards, user, since, l, rs);
    ListingIsUnique(Collected(rs), l, Rows(cards, user, since));
  }

  /**
   A response carries at most 500 cards.  Up to 500 come all at once, and the response
   says that there are no more; of more than 500 come exactly 500, and it says so.
   */
  lemma {:induction false} ResponseSize(cards: Cards, user: UserId, since: Option<Time>, r: Response)
    requires Serves(cards, user, since, r)
    ensures r.hasMore <==> |Rows(cards, user, since)| > 500
    ensures |r.page| == if |Rows(cards, user, since)| > 500 then 500 else |Rows(cards, user, since)|
    ensures !r.hasMore ==> Listing(r.page, Rows(cards, user, since))
  {
    var l :| Listing(l, Rows(cards, user, since)) && r == Respond(l);
    ListingsAgreeOnStamps(l, l, Rows(cards, user, since));
    PageIsPrefix(l, r);
  }

  /** So a user with at most 500 cards gets all of them in one request. */
  lemma {:induction false} SmallTableInOne(cards: Cards, user: UserId, since: Option<Time>, rs: seq<Response>)
    requires Session(cards, user, since, rs) && |Rows(cards, user, since)| <= 500
    ensures |rs| == 1 && !rs[0].hasMore && Listing(Collected(rs), Rows(cards, user, since))
  {
    ResponseSize(cards, user, since, rs[0]);
    assert Collected(rs[1..]) == [] && rs[0].page + [] == rs[0].page;
  }

  /** A user's n cards, each stamped `apart` later than the one before. */
  function Crowd(n: nat, apart: nat): Cards {
    if n == 0 then map[] else Crowd(n - 1, apart)[Cell(0, n - 1) := CrowdCard(n - 1, apart)]
  }

  function CrowdCard(i: nat, apart: nat): Card {
    Card(i, 2.5, 0, 0, 0, 0, None, apart * i, 1)
  }

  function CrowdRows(n: nat, apart: nat): seq<Row> {
    seq(n, i requires 0 <= i < n => Row(Cell(0, i), CrowdCard(i, apart)))
  }

  lemma {:induction false} CrowdFind(n: nat, apart: nat, cell: Cell)
    ensures Find(Crowd(n, apart), cell) ==
            if cell.user == 0 && cell.ayah < n then Some(CrowdCard(cell.ayah, apart)) else None
  {
    if n != 0 { CrowdFind(n - 1, apart, cell); }
  }

  lemma {:induction false} CrowdLists(n: nat, apart: nat)
    ensures Listing(CrowdRows(n, apart), Rows(Crowd(n, apart), 0, None))
  {
    var l, s := CrowdRows(n, apart), Rows(Crowd(n, apart), 0, None);
    forall i, j | 0 <= i < j < n
      ensures Stamp(l[i]) <= Stamp(l[j])
    {
      assert apart * j == apart * i + apart * (j - i);
    }
    forall r
      ensures r in l <==> r in s
    {
      CrowdFind(n, apart, r.cell);
      if r in s { assert l[r.cell.ayah] == r; }
    }
  }

  /** More than 500 cards with one timestamp: every session loses one of them. */
  lemma {:induction false} CrowdIsLost(n: nat, rs: seq<Response>) returns (lost: Row)
    requires n > PULL_LIMIT && Session(Crowd(n, 0), 0, None, rs)
    ensures lost in Rows(Crowd(n, 0), 0, None) && lost !in Collected(rs)
  {
    var l := CrowdRows(n, 0);
    CrowdLists(n, 0);
    assert !CutIsClean(l, 1);
    PagingCompleteIff(Crowd(n, 0), 0, None, l, rs);
    SessionIsOrdered(Crowd(n, 0), 0, None, rs);
    lost :| lost in Rows(Crowd(n, 0), 0, None) && lost !in Collected(rs);
  }

  // ---------------------------------------------------------------- pulling what changed

  /** A device's copy of the user's cards after it stored the delivered rows. */
  ghost function Stored(copy: Cards, rows: set<Row>): Cards {
    map c | c in copy.Keys + (set r | r in rows :: r.cell) ::
      if Shown(rows, c) then RowFor(rows, c).card else copy[c]
  }

  ghost predicate Shown(rows: set<Row>, c: Cell) {
    exists r :: r in rows && r.cell == c
  }

  ghost function RowFor(rows: set<Row>, c: Cell): (r: Row)
    requires Shown(rows, c)
    ensures r in rows && r.cell == c
  {
    var r :| r in rows && r.cell == c;
    r
  }

  ghost function CardsOf(cards: Cards, user: UserId): Cards {
    map c | c in cards && c.user == user :: cards[c]
  }

  lemma StoredAt(copy: Cards, now: Cards, user: UserId, c: Time)
    ensures var s := Stored(copy, Rows(now, user, Some(c)));
            forall cell :: Find(s, cell) ==
              if cell.user == user && cell in now
                  && now[cell].clientUpdatedAt > c then Some(now[cell]) else Find(copy, cell)
  {
    var rows := Rows(now, user, Some(c));
    forall cell
      ensures Find(Stored(copy, rows), cell) ==
              if cell.user == user && cell in now
                  && now[cell].clientUpdatedAt > c then Some(now[cell]) else Find(copy, cell)
    {
      if cell.user == user && cell in now && now[cell].clientUpdatedAt > c {
        assert Row(cell, now[cell]) in rows && Row(cell, now[cell]).cell == cell;
        assert Shown(rows, cell) && RowFor(rows, cell).card == now[cell];
      } else {
        assert !Shown(rows, cell);
      }
    }
  }

  /** A change that a pull from cursor `c` does not show. */
  ghost predicate Missed(before: Cards, now: Cards, user: UserId, c: Time, cell: Cell) {
    cell.user == user && cell in now && Find(before, cell) != Find(now, cell) && now[cell].clientUpdatedAt <= c
  }

  lemma {:induction false} CompleteIffNoneMissed(before: Cards, rs: seq<Req>, user: UserId, c: Time)
    requires Run(before, rs).Ok?
    ensures var now := Run(before, rs).value.cards;
            Stored(CardsOf(before, user), Rows(now, user, Some(c))) == CardsOf(now, user) <==>
            forall cell :: !Missed(before, now, user, c, cell)
  {
    var now := Run(before, rs).value.cards;
    var got := Stored(CardsOf(before, user), Rows(now, user, Some(c)));
    StoredAt(CardsOf(before, user), now, user, c);
    RunCells(before, rs);
    forall cell
      ensures Find(got, cell) == Find(CardsOf(now, user), cell) <==> !Missed(before, now, user, c, cell)
    {
    }
    if forall cell :: !Missed(before, now, user, c, cell) {
      CardsAgree(got, CardsOf(now, user));
    }
  }

  /** A card that a run changed has a greater key than before. */
  lemma {:induction false} ChangedIsGreater(before: Cards, rs: seq<Req>, cell: Cell)
    requires Run(before, rs).Ok? && cell in before && Find(Run(before, rs).value.cards, cell) != Find(before, cell)
    ensures cell in Run(before, rs).value.cards
    ensures Less(KeyOf(before[cell]), KeyOf(Run(before, rs).value.cards[cell]))
  {
    var init, r := rs[..|rs| - 1], rs[|rs| - 1];
    var mid := Run(before, init).value.cards;
    if Find(mid, cell) != Find(before, cell) {
      ChangedIsGreater(before, init, cell);
    }
    if Find(Run(before, rs).value.cards, cell) != Find(mid, cell) {
      WinsIffLess(mid[cell], r.payload);
    }
  }

  /** A changed card has the key of a payload that beats the cards before. */
  lemma {:induction false} ChangedIsBeaten(before: Cards, rs: seq<Req>, cell: Cell) returns (r: Req)
    requires Run(before, rs).Ok? && Find(Run(before, rs).value.cards, cell) != Find(before, cell)
    ensures cell in Run(before, rs).value.cards
    ensures r in rs && Addressed(r, cell) && Beats(before, r)
    ensures PayloadKey(r.payload) == KeyOf(Run(before, rs).value.cards[cell])
  {
    RunCells(before, rs);
    if cell in before { ChangedIsGreater(before, rs, cell); }
    StoredKeyIsGreatest(before, rs, cell);
    r :| r in rs && Addressed(r, cell) && PayloadKey(r.payload) == KeyOf(Run(before, rs).value.cards[cell]);
  }

  /** A payload that beats the cards before changes its card, which ends no smaller. */
  lemma BeatenIsChanged(before: Cards, rs: seq<Req>, r: Req)
    requires Run(before, rs).Ok? && r in rs && Beats(before, r)
    ensures CellOf(r) in Run(before, rs).value.cards
    ensures Find(Run(before, rs).value.cards, CellOf(r)) != Find(before, CellOf(r))
    ensures forall q :: q in rs && Addressed(q, CellOf(r)) ==>
                          !Less(KeyOf(Run(before, rs).value.cards[CellOf(r)]), PayloadKey(q.payload))
  {
    RunCells(before, rs);
    assert CellOf(r) in Footprint(rs) && Addressed(r, CellOf(r));
    StoredKeyIsGreatest(before, rs, CellOf(r));
  }

  /** A payload for the same card that is no smaller is stamped after `c`. */
  ghost predicate Caught(rs: seq<Req>, r: Req, c: Time)
    requires WellFormed(r.payload)
  {
    exists q :: q in rs && Addressed(q, CellOf(r)) && !Less(PayloadKey(q.payload), PayloadKey(r.payload))
                && q.payload.clientUpdatedAt.value > c
  }

  /** Of the user's payloads, each that beats the cards before is caught. */
  ghost predicate AllCaught(before: Cards, rs: seq<Req>, user: UserId, c: Time) {
    forall r :: r in rs && r.user == user && Beats(before, r) ==> Caught(rs, r, c)
  }

  lemma MissedIsNotCaught(before: Cards, rs: seq<Req>, user: UserId, c: Time, cell: Cell)
    requires Run(before, rs).Ok? && Missed(before, Run(before, rs).value.cards, user, c, cell)
    ensures !AllCaught(before, rs, user, c)
  {
    var r := ChangedIsBeaten(before, rs, cell);
    BeatenIsChanged(before, rs, r);
    forall q | q in rs && Addressed(q, cell) && !Less(PayloadKey(q.payload), PayloadKey(r.payload))
      ensures q.payload.clientUpdatedAt.value <= c
    {
      assert !Less(PayloadKey(r.payload), PayloadKey(q.payload));
    }
    assert !Caught(rs, r, c);
  }

  lemma UncaughtIsMissed(before: Cards, rs: seq<Req>, user: UserId, c: Time, r: Req)
    requires Run(before, rs).Ok? && r in rs && r.user == user && Beats(before, r) && !Caught(rs, r, c)
    ensures Missed(before, Run(before, rs).value.cards, user, c, CellOf(r))
  {
    BeatenIsChanged(before, rs, r);
    var q := ChangedIsBeaten(before, rs, CellOf(r));
    assert !Less(PayloadKey(q.payload), PayloadKey(r.payload));
  }

  /**
   A device that held everything, and then pulls from cursor `c` after any pushes,
   holds everything again exactly when, of the user's payloads, each that beats
   the cards before has one for the same card that is no smaller and stamped
   after `c`.
   */
  lemma {:induction false} DeltaPullCompleteIff(before: Cards, rs: seq<Req>, user: UserId, c: Time)
    requires Run(before, rs).Ok?
    ensures var now := Run(before, rs).value.cards;
            Stored(CardsOf(before, user), Rows(now, user, Some(c))) == CardsOf(now, user) <==>
            AllCaught(before, rs, user, c)
  {
    var now := Run(before, rs).value.cards;
    CompleteIffNoneMissed(before, rs, user, c);
    forall cell | Missed(before, now, user, c, cell)
      ensures !AllCaught(before, rs, user, c)
    {
      MissedIsNotCaught(before, rs, user, c, cell);
    }
    if !AllCaught(before, rs, user, c) {
      var r :| r in rs && r.user == user && Beats(before, r) && !Caught(rs, r, c);
      UncaughtIsMissed(before, rs, user, c, r);
    }
  }

  /** The same, page by page: when no page boundary splits a tie, a session needs the same condition. */
  lemma {:induction false} PagedDeltaPullCompleteIff(before: Cards, rs: seq<Req>, user: UserId, c: Time,
                                                     l: seq<Row>, session: seq<Response>)
    requires Run(before, rs).Ok?
    requires Listing(l, Rows(Run(before, rs).value.cards, user, Some(c))) && CleanCuts(l)
    requires Session(Run(before, rs).value.cards, user, Some(c), session)
    ensures var now := Run(before, rs).value.cards;
            Stored(CardsOf(before, user), Elems(Collected(session))) == CardsOf(now, user) <==>
            AllCaught(before, rs, user, c)
  {
    var now := Run(before, rs).value.cards;
    PagingCompleteIff(now, user, Some(c), l, session);
    assert Elems(Collected(session)) == Rows(now, user, Some(c));
    DeltaPullCompleteIff(before, rs, user, c);
  }

  /** A changed card carries the stamp of one of the payloads pushed for it. */
  lemma {:induction false} ChangeIsStamped(before: Cards, rs: seq<Req>, cell: Cell)
    requires Run(before, rs).Ok? && Find(before, cell) != Find(Run(before, rs).value.cards, cell)
    ensures cell in Run(before, rs).value.cards
    ensures exists r :: r in rs && Addressed(r, cell) && Beats(before, r)
                        && r.payload.clientUpdatedAt.value == Run(before, rs).value.cards[cell].clientUpdatedAt
  {
    var r := ChangedIsBeaten(before, rs, cell);
  }

  /**
   So a device misses nothing when every payload of the user that beats the cards
   before is stamped after its cursor.
   */
  lemma {:induction false} LaterStampsAreSeen(before: Cards, rs: seq<Req>, user: UserId, c: Time)
    requires Run(before, rs).Ok?
    requires forall r :: r in rs && r.user == user && Beats(before, r) ==> r.payload.clientUpdatedAt.value > c
    ensures Stored(CardsOf(before, user), Rows(Run(before, rs).value.cards, user, Some(c)))
            == CardsOf(Run(before, rs).value.cards, user)
  {
    forall r | r in rs && r.user == user && Beats(before, r)
      ensures Caught(rs, r, c)
    {
      assert Addressed(r, CellOf(r));
    }
    DeltaPullCompleteIff(before, rs, user, c);
  }

  /** More progress on a slower clock wins the merge, and a device that is up to date never pulls it. */
  lemma {:induction false} SlowClockWinIsMissed() returns (before: Cards, r: Req, cell: Cell, c: Time)
    ensures forall d :: d in before ==> before[d].clientUpdatedAt <= c
    ensures Run(before, [r]).Ok? && Run(before, [r]).value.out.applied == 1
    ensures Missed(before, Run(before, [r]).value.cards, cell.user, c, cell)
  {
    cell, c := Cell(0, 0), 100;
    before := map[cell := Card(0, 2.5, 1, 3, 0, 9, None, 100, 1)];
    r := Req(0, Payload(Some(0), Some(40), None, None, Some(4), None, None, None, None, false), 1);
    var after := before[cell := Overwritten(before[cell], r.payload)];
    assert Step(before, r) == Ok(Ran(after, [ConflictFor(before[cell], r)], MergeOutcome(1, 0, 1)));
    RunOne(before, r);
    assert after[cell].clientUpdatedAt == 40;
  }
}
