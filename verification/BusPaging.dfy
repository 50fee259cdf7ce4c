/** What a consumer that polls in pages receives of a ledger whose event ids may repeat or be missing. */
module BusPaging {
  import opened Wrappers
  import opened BusReader

  /** How many matching rows lie before the place where a reader with this cursor resumes. */
  function Position(rows: seq<Row>, f: Filter, cursor: Option<string>): nat {
    |Matching(f, rows[..Resume(rows, cursor)])|
  }

  /** Where a page of at most `limit` of n matching rows ends when it starts at pos. */
  function EndOf(n: nat, pos: nat, limit: nat): nat { if pos + limit <= n then pos + limit else n }

  /** Where the reader resumes after a page whose last row is the q-th matching one. */
  function NextPos(rows: seq<Row>, f: Filter, q: nat): nat
    requires q < |Matching(f, rows)|
  {
    Position(rows, f, Matching(f, rows)[q].eventId)
  }

  /** Where the next page starts after a page that starts at pos. */
  function NextPage(rows: seq<Row>, f: Filter, limit: nat, pos: nat): nat
    requires limit > 0
  {
    var n := |Matching(f, rows)|;
    if pos >= n then pos else NextPos(rows, f, EndOf(n, pos, limit) - 1)
  }

  /** The t-th place reached from the start. */
  function Orbit(next: nat -> nat, t: nat): nat { if t == 0 then 0 else next(Orbit(next, t - 1)) }

  /** Where the page of poll t starts. */
  function PosAfter(rows: seq<Row>, f: Filter, limit: nat, t: nat): nat
    requires limit > 0
  {
    Orbit(PageStep(rows, f, limit), t)
  }

  function PageStep(rows: seq<Row>, f: Filter, limit: nat): nat -> nat
    requires limit > 0
  {
    (pos: nat) => NextPage(rows, f, limit, pos)
  }

  lemma ResumesAtPosition(rows: seq<Row>, f: Filter, cursor: Option<string>)
    ensures Position(rows, f, cursor) <= |Matching(f, rows)|
    ensures Matching(f, rows[Resume(rows, cursor)..]) == Matching(f, rows)[Position(rows, f, cursor)..]
  {
    MatchingSplit(f, rows, Resume(rows, cursor));
  }

  lemma {:induction false} PosInRange(rows: seq<Row>, f: Filter, limit: nat, t: nat)
    requires limit > 0
    ensures PosAfter(rows, f, limit, t) <= |Matching(f, rows)|
  {
    if t > 0 {
      PosInRange(rows, f, limit, t - 1);
      var n, pos := |Matching(f, rows)|, PosAfter(rows, f, limit, t - 1);
      if pos < n { ResumesAtPosition(rows, f, Matching(f, rows)[EndOf(n, pos, limit) - 1].eventId); }
    }
  }

  function PageAt(m: seq<Row>, pos: nat, limit: nat): seq<Row>
    requires pos <= |m|
  {
    m[pos..EndOf(|m|, pos, limit)]
  }

  function Polls(rows: seq<Row>, t: nat): (r: seq<seq<Row>>)
    ensures |r| == t
  {
    seq(t, i => rows)
  }

  lemma PollsNext(rows: seq<Row>, f: Filter, limit: nat, t: nat)
    ensures PollAll(Polls(rows, t + 1), f, Some(limit)) ==
            Poll(PollAll(Polls(rows, t), f, Some(limit)), rows, f, Some(limit))
  {
    assert Polls(rows, t + 1)[..t] == Polls(rows, t);
  }

  /** One poll from a known position takes that page and resumes after its last row. */
  lemma PagePolled(c: Consumer, rows: seq<Row>, f: Filter, limit: nat, m: seq<Row>, pos: nat)
    requires limit > 0 && m == Matching(f, rows) && pos == Position(rows, f, c.cursor)
    ensures pos <= |m|
    ensures var c' := Poll(c, rows, f, Some(limit));
            && c'.received == c.received + PageAt(m, pos, limit)
            && c'.cursor == if pos == |m| then c.cursor else m[EndOf(|m|, pos, limit) - 1].eventId
  {
    ResumesAtPosition(rows, f, c.cursor);
    PageIsSlice(m, pos, limit);
    assert Read(rows, f, c.cursor, Some(limit)) == PageAt(m, pos, limit);
    assert m[pos..pos] == [] && c.received + [] == c.received;
  }

  lemma PageIsSlice(m: seq<Row>, pos: nat, limit: nat)
    requires pos <= |m|
    ensures Limited(Some(limit), m[pos..]) == m[pos..EndOf(|m|, pos, limit)]
  {
    assert limit < |m| - pos ==> m[pos..][..limit] == m[pos..pos + limit];
  }

  /** The consumer's polls of a fixed ledger start their pages there. */
  lemma {:induction false} PollsStart(rows: seq<Row>, f: Filter, limit: nat, t: nat)
    requires limit > 0
    ensures Position(rows, f, PollAll(Polls(rows, t), f, Some(limit)).cursor) == PosAfter(rows, f, limit, t)
  {
    if t == 0 {
      assert rows[..0] == [];
    } else {
      PollsStart(rows, f, limit, t - 1);
      PollsNext(rows, f, limit, t - 1);
      PagePolled(PollAll(Polls(rows, t - 1), f, Some(limit)), rows, f, limit, Matching(f, rows),
                 PosAfter(rows, f, limit, t - 1));
    }
  }

  /** And each takes exactly its page. */
  lemma PollsTakePages(rows: seq<Row>, f: Filter, limit: nat, t: nat)
    requires limit > 0
    ensures PosAfter(rows, f, limit, t) <= |Matching(f, rows)|
    ensures PollAll(Polls(rows, t + 1), f, Some(limit)).received ==
            PollAll(Polls(rows, t), f, Some(limit)).received
            + PageAt(Matching(f, rows), PosAfter(rows, f, limit, t), limit)
  {
    PollsStart(rows, f, limit, t);
    PollsNext(rows, f, limit, t);
    PagePolled(PollAll(Polls(rows, t), f, Some(limit)), rows, f, limit, Matching(f, rows), PosAfter(rows, f, limit, t));
  }

  // ------------------------------------------------------------- what is served

  /** Some poll's page holds the q-th matching row. */
  ghost predicate Served(rows: seq<Row>, f: Filter, limit: nat, q: nat)
    requires limit > 0
  {
    exists t: nat :: ServedAt(rows, f, limit, q, t)
  }

  predicate ServedAt(rows: seq<Row>, f: Filter, limit: nat, q: nat, t: nat)
    requires limit > 0
  {
    PosAfter(rows, f, limit, t) <= q < EndOf(|Matching(f, rows)|, PosAfter(rows, f, limit, t), limit)
  }

  ghost predicate AllServed(rows: seq<Row>, f: Filter, limit: nat)
    requires limit > 0
  {
    forall q: nat :: q < |Matching(f, rows)| ==> Served(rows, f, limit, q)
  }

  /** The row carries an id, and no earlier row of the ledger carries the same. */
  predicate Fresh(rows: seq<Row>, j: nat)
    requires j < |rows|
  {
    rows[j].eventId.Some? && forall i :: 0 <= i < j ==> rows[i].eventId != rows[j].eventId
  }

  /** Every matching row other than the last one can serve as a cursor. */
  ghost predicate FreshUntilLast(rows: seq<Row>, f: Filter) {
    forall j: nat, k: nat :: j < k < |rows| && Matches(f, rows[j]) && Matches(f, rows[k]) ==> Fresh(rows, j)
  }

  lemma CountGrows(rows: seq<Row>, f: Filter, i: nat, j: nat)
    requires i <= j <= |rows|
    ensures |Matching(f, rows[..i])| <= |Matching(f, rows[..j])|
  {
    assert rows[..j] == rows[..i] + rows[i..j];
    MatchingAppend(f, rows[..i], rows[i..j]);
  }

  lemma CountNext(rows: seq<Row>, f: Filter, j: nat)
    requires j < |rows|
    ensures Matching(f, rows[..j + 1]) == Matching(f, rows[..j]) + if Matches(f, rows[j]) then [rows[j]] else []
  {
    assert rows[..j + 1][..j] == rows[..j];
  }

  /** A matching row is the matching row whose number is how many match before it. */
  lemma MatchNumber(rows: seq<Row>, f: Filter, j: nat)
    requires j < |rows| && Matches(f, rows[j])
    ensures |Matching(f, rows[..j])| < |Matching(f, rows)|
    ensures Matching(f, rows)[|Matching(f, rows[..j])|] == rows[j]
  {
    CountNext(rows, f, j);
    MatchingSplit(f, rows, j + 1);
  }

  lemma MatchIndex(rows: seq<Row>, f: Filter, q: nat) returns (j: nat)
    requires q < |Matching(f, rows)|
    ensures j < |rows| && Matches(f, rows[j]) && |Matching(f, rows[..j])| == q && Matching(f, rows)[q] == rows[j]
  {
    j := KthMatch(f, rows, q + 1);
    assert Matching(f, rows)[q] in Matching(f, rows);
    MatchingMembers(f, rows, rows[j]);
    CountNext(rows, f, j);
  }

  /** A reader never resumes beyond the row it saw last, and right after it exactly when that row is fresh. */
  lemma NextPosExactly(rows: seq<Row>, f: Filter, j: nat)
    requires j < |rows| && Matches(f, rows[j]) && |Matching(f, rows[..j])| < |Matching(f, rows)|
    requires Matching(f, rows)[|Matching(f, rows[..j])|] == rows[j]
    ensures NextPos(rows, f, |Matching(f, rows[..j])|) <= |Matching(f, rows[..j])| + 1
    ensures NextPos(rows, f, |Matching(f, rows[..j])|) == |Matching(f, rows[..j])| + 1 <==> Fresh(rows, j)
  {
    CountNext(rows, f, j);
    ResumeBehind(rows, j);
    var i := Resume(rows, rows[j].eventId);
    if i <= j { CountGrows(rows, f, i, j); }
  }

  lemma ResumeBehind(rows: seq<Row>, j: nat)
    requires j < |rows|
    ensures Resume(rows, rows[j].eventId) <= j + 1
    ensures Resume(rows, rows[j].eventId) == j + 1 <==> Fresh(rows, j)
  {
    FirstAfterIsFirst(rows, rows[j].eventId);
  }

  lemma NextPosAtMost(rows: seq<Row>, f: Filter, q: nat)
    requires q < |Matching(f, rows)|
    ensures NextPos(rows, f, q) <= q + 1
  {
    var j := MatchIndex(rows, f, q);
    NextPosExactly(rows, f, j);
  }

  /** Freshness of rows, by the numbers of the matching ones. */
  lemma FreshMeansNext(rows: seq<Row>, f: Filter)
    ensures FreshUntilLast(rows, f) <==>
            forall q: nat :: q + 1 < |Matching(f, rows)| ==> NextPos(rows, f, q) == q + 1
  {
    if FreshUntilLast(rows, f) {
      forall q: nat | q + 1 < |Matching(f, rows)| ensures NextPos(rows, f, q) == q + 1 {
        var j := MatchIndex(rows, f, q);
        var k := MatchIndex(rows, f, q + 1);
        if k <= j { CountGrows(rows, f, k, j); }
        NextPosExactly(rows, f, j);
      }
    }
    if forall q: nat :: q + 1 < |Matching(f, rows)| ==> NextPos(rows, f, q) == q + 1 {
      forall j: nat, k: nat | j < k < |rows| && Matches(f, rows[j]) && Matches(f, rows[k]) ensures Fresh(rows, j) {
        MatchNumber(rows, f, j);
        MatchNumber(rows, f, k);
        CountNext(rows, f, j);
        CountGrows(rows, f, j + 1, k);
        NextPosExactly(rows, f, j);
      }
    }
  }

  // ------------------------------------------------------------------ limit one

  lemma {:induction false} FreshPagesAdvance(rows: seq<Row>, f: Filter, t: nat)
    requires forall q: nat :: q + 1 < |Matching(f, rows)| ==> NextPos(rows, f, q) == q + 1
    requires t < |Matching(f, rows)|
    ensures PosAfter(rows, f, 1, t) == t
  {
    if t > 0 { FreshPagesAdvance(rows, f, t - 1); }
  }

  /** A row that sends the reader back is never passed. */
  lemma {:induction false} StaleRowStops(rows: seq<Row>, f: Filter, q: nat, t: nat)
    requires q + 1 < |Matching(f, rows)| && NextPos(rows, f, q) != q + 1
    ensures PosAfter(rows, f, 1, t) <= q
  {
    if t > 0 {
      StaleRowStops(rows, f, q, t - 1);
      NextPosAtMost(rows, f, PosAfter(rows, f, 1, t - 1));
    }
  }

  lemma NeverServed(rows: seq<Row>, f: Filter, q: nat, next: nat)
    requires next == q + 1 < |Matching(f, rows)| && NextPos(rows, f, q) != q + 1
    ensures !Served(rows, f, 1, next)
  {
    forall t: nat ensures !ServedAt(rows, f, 1, next, t) { StaleRowStops(rows, f, q, t); }
  }

  /**
   One row at a time, everything that matches arrives exactly when each matching row
   other than the last carries an id that no earlier row of the ledger carries.
   */
  lemma LimitOneExactly(rows: seq<Row>, f: Filter)
    ensures AllServed(rows, f, 1) <==> FreshUntilLast(rows, f)
  {
    FreshMeansNext(rows, f);
    if FreshUntilLast(rows, f) {
      forall q: nat | q < |Matching(f, rows)| ensures Served(rows, f, 1, q) {
        FreshPagesAdvance(rows, f, q);
        assert ServedAt(rows, f, 1, q, q);
      }
    } else {
      var q: nat :| q + 1 < |Matching(f, rows)| && NextPos(rows, f, q) != q + 1;
      NeverServed(rows, f, q, q + 1);
    }
  }

  // ------------------------------------------------------------------ any limit

  /** Pages leave no gap: a poll whose page ends beyond a row means that some page holds it. */
  lemma {:induction false} NoGaps(rows: seq<Row>, f: Filter, limit: nat, q: nat, t: nat)
    requires limit > 0 && q < EndOf(|Matching(f, rows)|, PosAfter(rows, f, limit, t), limit)
    ensures Served(rows, f, limit, q)
  {
    var n := |Matching(f, rows)|;
    if PosAfter(rows, f, limit, t) <= q {
      assert ServedAt(rows, f, limit, q, t);
    } else {
      var pos := PosAfter(rows, f, limit, t - 1);
      if pos < n { NextPosAtMost(rows, f, EndOf(n, pos, limit) - 1); }
      NoGaps(rows, f, limit, q, t - 1);
    }
  }

  /** Poll t reaches the last matching row. */
  predicate ReachesEnd(rows: seq<Row>, f: Filter, limit: nat, t: nat)
    requires limit > 0
  {
    PosAfter(rows, f, limit, t) < |Matching(f, rows)| <= PosAfter(rows, f, limit, t) + limit
  }

  lemma AllServedMeansEnd(rows: seq<Row>, f: Filter, limit: nat)
    requires limit > 0
    ensures AllServed(rows, f, limit) <==> Matching(f, rows) == [] || exists t: nat :: ReachesEnd(rows, f, limit, t)
  {
    if AllServed(rows, f, limit) && Matching(f, rows) != [] {
      assert Served(rows, f, limit, |Matching(f, rows)| - 1);
      var t: nat :| ServedAt(rows, f, limit, |Matching(f, rows)| - 1, t);
      assert ReachesEnd(rows, f, limit, t);
    }
    forall t: nat | ReachesEnd(rows, f, limit, t) ensures AllServed(rows, f, limit) { EndServesAll(rows, f, limit, t); }
  }

  lemma EndServesAll(rows: seq<Row>, f: Filter, limit: nat, t: nat)
    requires limit > 0 && ReachesEnd(rows, f, limit, t)
    ensures AllServed(rows, f, limit)
  {
    forall q: nat | q < |Matching(f, rows)| ensures Served(rows, f, limit, q) { NoGaps(rows, f, limit, q, t); }
  }

  /** After the q-th matching row the reader resumes less than a page of matching rows behind it. */
  predicate NearlyFresh(rows: seq<Row>, f: Filter, limit: nat, q: nat) {
    q + 1 < |Matching(f, rows)| ==> NextPos(rows, f, q) + limit > q + 1
  }

  /** No row that ends a page, unless it is the last, has an id first seen a page or more of matching rows before it. */
  ghost predicate FreshPageEnds(rows: seq<Row>, f: Filter, limit: nat)
    requires limit > 0
  {
    forall t: nat :: NearlyFresh(rows, f, limit, PosAfter(rows, f, limit, t) + limit - 1)
  }

  lemma {:induction false} PagesAdvance(rows: seq<Row>, f: Filter, limit: nat, t: nat) returns (u: nat)
    requires limit > 0 && FreshPageEnds(rows, f, limit) && PosAfter(rows, f, limit, t) < |Matching(f, rows)|
    ensures ReachesEnd(rows, f, limit, u)
    decreases |Matching(f, rows)| - PosAfter(rows, f, limit, t)
  {
    var n, pos := |Matching(f, rows)|, PosAfter(rows, f, limit, t);
    if pos + limit >= n {
      u := t;
    } else {
      NextPosAtMost(rows, f, pos + limit - 1);
      assert NearlyFresh(rows, f, limit, PosAfter(rows, f, limit, t) + limit - 1);
      assert PosAfter(rows, f, limit, t + 1) == NextPos(rows, f, pos + limit - 1);
      u := PagesAdvance(rows, f, limit, t + 1);
    }
  }

  /** Any page size: when each page's last row is that fresh, polling always advances and everything arrives. */
  lemma FreshPagesServeAll(rows: seq<Row>, f: Filter, limit: nat)
    requires limit > 0 && FreshPageEnds(rows, f, limit)
    ensures AllServed(rows, f, limit)
  {
    AllServedMeansEnd(rows, f, limit);
    if Matching(f, rows) != [] {
      var t := PagesAdvance(rows, f, limit, 0);
    }
  }

  /** In particular when this holds of all rows, wherever the pages may end. */
  lemma FreshRowsServeAll(rows: seq<Row>, f: Filter, limit: nat)
    requires limit > 0 && forall q: nat :: NearlyFresh(rows, f, limit, q)
    ensures AllServed(rows, f, limit)
  {
    FreshPagesServeAll(rows, f, limit);
  }

  // ---------------------------------------------------- any limit, exactly

  lemma {:induction false} OrbitRepeats(next: nat -> nat, s: nat, t: nat, s': nat, t': nat)
    requires Orbit(next, s) == Orbit(next, t) && s' - s == t' - t >= 0
    ensures Orbit(next, s') == Orbit(next, t')
    decreases s'
  {
    if s' > s { OrbitRepeats(next, s, t, s' - 1, t' - 1); }
  }

  /** Two of more than n numbers below n are equal. */
  lemma {:induction false} Pigeonhole(xs: seq<nat>, n: nat) returns (i: nat, j: nat)
    requires |xs| > n && forall k :: 0 <= k < |xs| ==> xs[k] < n
    ensures i < j < |xs| && xs[i] == xs[j]
    decreases n
  {
    var last := |xs| - 1;
    if k :| 0 <= k < last && xs[k] == xs[last] {
      return k, last;
    }
    var rest := seq(last, k requires 0 <= k < last => if xs[k] == n - 1 then xs[last] else xs[k]);
    if xs[last] == n - 1 {
      i, j := Pigeonhole(xs[..last], n - 1);
    } else {
      i, j := Pigeonhole(rest, n - 1);
    }
  }

  function Places(rows: seq<Row>, f: Filter, limit: nat, t: nat): (r: seq<nat>)
    requires limit > 0
    ensures |r| == t && forall k :: 0 <= k < t ==> r[k] == PosAfter(rows, f, limit, k)
  {
    seq(t, k requires 0 <= k < t => PosAfter(rows, f, limit, k))
  }

  /** If some poll reaches the end, an early one does. */
  lemma {:induction false} EarlierReach(rows: seq<Row>, f: Filter, limit: nat, t: nat) returns (u: nat)
    requires limit > 0 && ReachesEnd(rows, f, limit, t)
    ensures u < |Matching(f, rows)| && ReachesEnd(rows, f, limit, u)
    decreases t
  {
    if t < |Matching(f, rows)| {
      u := t;
    } else {
      var s := ShorterReach(rows, f, limit, t);
      u := EarlierReach(rows, f, limit, s);
    }
  }

  /** More polls than matching rows start two pages at one place, and what lies between them can be left out. */
  lemma ShorterReach(rows: seq<Row>, f: Filter, limit: nat, t: nat) returns (s: nat)
    requires limit > 0 && ReachesEnd(rows, f, limit, t) && t >= |Matching(f, rows)|
    ensures s < t && ReachesEnd(rows, f, limit, s)
  {
    var places := Places(rows, f, limit, t + 1);
    forall k: nat | k <= t ensures places[k] < |Matching(f, rows)| { BeforeTheEnd(rows, f, limit, k, t); }
    var i, j := Pigeonhole(places, |Matching(f, rows)|);
    s := i + (t - j);
    OrbitRepeats(PageStep(rows, f, limit), i, j, s, t);
  }

  /** A reader that has run off the matching rows stays there. */
  lemma {:induction false} BeforeTheEnd(rows: seq<Row>, f: Filter, limit: nat, k: nat, t: nat)
    requires limit > 0 && k <= t && PosAfter(rows, f, limit, t) < |Matching(f, rows)|
    ensures PosAfter(rows, f, limit, k) < |Matching(f, rows)|
    decreases t
  {
    if k < t { BeforeTheEnd(rows, f, limit, k, t - 1); }
  }

  /**
   For every page size: everything arrives exactly when the last matching row has
   arrived after as many polls as there are matching rows; what has not come by then
   never comes.
   */
  lemma InTimeOrNever(rows: seq<Row>, f: Filter, limit: nat)
    requires limit > 0
    ensures AllServed(rows, f, limit) <==>
            Matching(f, rows) == [] || exists t: nat :: t < |Matching(f, rows)| && ReachesEnd(rows, f, limit, t)
  {
    AllServedMeansEnd(rows, f, limit);
    if Matching(f, rows) != [] && exists t: nat :: ReachesEnd(rows, f, limit, t) {
      var t: nat :| ReachesEnd(rows, f, limit, t);
      var u := EarlierReach(rows, f, limit, t);
    }
  }
}
