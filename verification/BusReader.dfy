/** Reading the append-only falsifier ledger with filters and a cursor. */
module BusReader {
  import opened Wrappers

  /** A Python float. */
  datatype Number = Finite(value: real) | NaN | PlusInfinity | MinusInfinity

  /** Python's x <= y: whatever is compared with a NaN, it is false. */
  predicate AtMost(x: Number, y: Number) {
    match (x, y)
    case (Finite(a), Finite(b)) => a <= b
    case (NaN, _) => false
    case (_, NaN) => false
    case (MinusInfinity, _) => true
    case (_, PlusInfinity) => true
    case _ => false
  }

  datatype Stamp = NoStamp | At(t: Number) | Unreadable

  datatype Row = Row(eventId: Option<string>, source: string, producer: string, isWrong: bool, ts: Stamp, body: string)

  /** None means that the filter is not applied. */
  datatype Filter = Filter(source: Option<string>, producer: Option<string>,
                           isWrong: Option<bool>, sinceTs: Option<Number>)

  predicate Matches(f: Filter, r: Row) {
    && (f.source.Some? ==> r.source == f.source.value)
    && (f.producer.Some? ==> r.producer == f.producer.value)
    && (f.isWrong.Some? ==> r.isWrong == f.isWrong.value)
    && (f.sinceTs.Some? ==> Later(r.ts, f.sinceTs.value))
  }

  /** A missing stamp counts as 0; an unreadable one is never later. */
  predicate Later(ts: Stamp, since: Number) {
    match ts
    case NoStamp => !AtMost(Finite(0.0), since)
    case At(t) => !AtMost(t, since)
    case Unreadable => false
  }

  function Matching(f: Filter, rows: seq<Row>): seq<Row> {
    if rows == [] then []
    else Matching(f, rows[..|rows| - 1]) + (if Matches(f, rows[|rows| - 1]) then [rows[|rows| - 1]] else [])
  }

  /** The place after the first row that carries the cursor; 0 when there is none. */
  function Resume(rows: seq<Row>, after: Option<string>): (i: nat)
    ensures i <= |rows|
  {
    if after.None? then 0 else FirstAfter(rows, after)
  }

  function FirstAfter(rows: seq<Row>, after: Option<string>): (i: nat)
    ensures i <= |rows|
  {
    if rows == [] then 0
    else
      var i := FirstAfter(rows[..|rows| - 1], after);
      if i > 0 then i else if rows[|rows| - 1].eventId == after then |rows| else 0
  }

  lemma {:induction false} FirstAfterIsFirst(rows: seq<Row>, after: Option<string>)
    ensures var i := FirstAfter(rows, after);
            && (i == 0 <==> forall j :: 0 <= j < |rows| ==> rows[j].eventId != after)
            && (i > 0 ==> rows[i - 1].eventId == after && forall j :: 0 <= j < i - 1 ==> rows[j].eventId != after)
  {
    if rows != [] {
      var init := rows[..|rows| - 1];
      FirstAfterIsFirst(init, after);
      assert forall j :: 0 <= j < |init| ==> init[j] == rows[j];
    }
  }

  function Limited(limit: Option<int>, rows: seq<Row>): seq<Row> {
    if limit.Some? && 0 <= limit.value < |rows| then rows[..limit.value] else rows
  }

  function Read(rows: seq<Row>, f: Filter, after: Option<string>, limit: Option<int>): seq<Row> {
    Limited(limit, Matching(f, rows[Resume(rows, after)..]))
  }

  /** x > y, or one of them is not a number. */
  predicate AboveOrNaN(x: Number, y: Number) {
    || x.NaN? || y.NaN?
    || (x.Finite? && y.Finite? && x.value > y.value)
    || (x.PlusInfinity? && !y.PlusInfinity?) || (y.MinusInfinity? && !x.MinusInfinity?)
  }

  /** The row has what each filter that is applied asks for. */
  predicate Passes(f: Filter, r: Row) {
    && (f.source == None || f.source == Some(r.source)) && (f.producer == None || f.producer == Some(r.producer))
    && (f.isWrong == None || f.isWrong == Some(r.isWrong))
    && (f.sinceTs.Some? && r.ts.At? ==> AboveOrNaN(r.ts.t, f.sinceTs.value))
    && (f.sinceTs.Some? && r.ts.NoStamp? ==> AboveOrNaN(Finite(0.0), f.sinceTs.value))
    && (f.sinceTs.Some? ==> !r.ts.Unreadable?)
  }

  lemma {:induction false} MatchingPasses(f: Filter, rows: seq<Row>)
    ensures forall r :: r in Matching(f, rows) <==> r in rows && Passes(f, r)
  {
    if rows != [] {
      var init, last := rows[..|rows| - 1], rows[|rows| - 1];
      MatchingPasses(f, init);
      assert rows == init + [last];
      assert Matches(f, last) <==> Passes(f, last);
    }
  }

  /** The rows after the first one with the cursor's id; all rows without a cursor, or when no row has it. */
  ghost predicate RowsAfter(ledger: seq<Row>, after: Option<string>, rest: seq<Row>) {
    exists k :: && 0 <= k <= |ledger| && rest == ledger[k..]
                && (k == 0 ==> after == None || forall j :: 0 <= j < |ledger| ==> ledger[j].eventId != after)
                && (k > 0 ==> && after != None && ledger[k - 1].eventId == after
                              && forall j :: 0 <= j < k - 1 ==> ledger[j].eventId != after)
  }

  lemma ResumeIsAfter(ledger: seq<Row>, after: Option<string>)
    ensures RowsAfter(ledger, after, ledger[Resume(ledger, after)..])
  {
    FirstAfterIsFirst(ledger, after);
  }

  /** Exactly the rows of rest that pass, when no limit cuts them, and a limit cuts only the end. */
  ghost predicate Selected(rest: seq<Row>, f: Filter, limit: Option<int>, out: seq<Row>) {
    && (forall r :: r in out ==> r in rest && Passes(f, r))
    && (limit.None? || limit.value < 0 || |out| < limit.value ==> forall r :: r in rest && Passes(f, r) ==> r in out)
    && (limit.Some? && limit.value >= 0 ==> |out| <= limit.value)
  }

  ghost predicate Answers(ledger: seq<Row>, f: Filter, after: Option<string>, limit: Option<int>, out: seq<Row>) {
    exists rest :: RowsAfter(ledger, after, rest) && Selected(rest, f, limit, out)
  }

  lemma {:induction false} ReadAnswers(ledger: seq<Row>, f: Filter, after: Option<string>, limit: Option<int>)
    ensures Answers(ledger, f, after, limit, Read(ledger, f, after, limit))
  {
    ResumeIsAfter(ledger, after);
    MatchingPasses(f, ledger[Resume(ledger, after)..]);
    assert Selected(ledger[Resume(ledger, after)..], f, limit, Read(ledger, f, after, limit));
  }

  /** The rows behind the first one with the cursor's id; all rows when there is none. */
  method AfterCursor(ledger: seq<Row>, after: Option<string>) returns (rows: seq<Row>)
    ensures rows == ledger[Resume(ledger, after)..]
  {
    rows := ledger;
    if after.Some? {
      var idx := 0;
      while idx < |rows| && rows[idx].eventId != after
        invariant idx <= |rows| && forall j :: 0 <= j < idx ==> rows[j].eventId != after
      {
        idx := idx + 1;
      }
      if idx < |rows| {
        rows := rows[idx + 1..];
      }
    }
    FirstAfterIsFirst(ledger, after);
    assert rows == ledger[Resume(ledger, after)..];
  }

  method ReadEvents(ledger: seq<Row>, f: Filter, after: Option<string>, limit: Option<int>) returns (out: seq<Row>)
    ensures out == Read(ledger, f, after, limit)
    ensures Answers(ledger, f, after, limit, out)
  {
    ReadAnswers(ledger, f, after, limit);
    var rows := AfterCursor(ledger, after);
    out := [];
    for i := 0 to |rows|
      invariant out == Matching(f, rows[..i])
    {
      var r := rows[i];
      assert rows[..i + 1][..i] == rows[..i];
      if f.source.Some? && r.source != f.source.value { continue; }
      if f.producer.Some? && r.producer != f.producer.value { continue; }
      if f.isWrong.Some? && r.isWrong != f.isWrong.value { continue; }
      if f.sinceTs.Some? {
        var ts := match r.ts case NoStamp => Some(Finite(0.0)) case At(t) => Some(t) case Unreadable => None;
        if ts.None? || AtMost(ts.value, f.sinceTs.value) { continue; }
      }
      out := out + [r];
    }
    assert rows[..|rows|] == rows;
    if limit.Some? && limit.value >= 0 {
      out := if limit.value < |out| then out[..limit.value] else out;
    }
  }

  // ------------------------------------------------------------------ facts

  lemma {:induction false} MatchingAppend(f: Filter, a: seq<Row>, b: seq<Row>)
    ensures Matching(f, a + b) == Matching(f, a) + Matching(f, b)
  {
    if b == [] {
      assert a + b == a;
    } else {
      var b' := b[..|b| - 1];
      assert (a + b)[..|a + b| - 1] == a + b';
      MatchingAppend(f, a, b');
    }
  }

  lemma {:induction false} MatchingMembers(f: Filter, rows: seq<Row>, r: Row)
    ensures r in Matching(f, rows) <==> r in rows && Matches(f, r)
  {
    if rows != [] {
      MatchingMembers(f, rows[..|rows| - 1], r);
      assert rows == rows[..|rows| - 1] + [rows[|rows| - 1]];
    }
  }

  /** The last matching row of a ledger, and the part of the ledger after it, which matches nothing. */
  lemma {:induction false} LastMatch(f: Filter, rows: seq<Row>) returns (p: nat)
    requires Matching(f, rows) != []
    ensures p < |rows| && Matches(f, rows[p])
    ensures rows[p] == Matching(f, rows)[|Matching(f, rows)| - 1]
    ensures Matching(f, rows[p + 1..]) == []
  {
    var n := |rows| - 1;
    if Matches(f, rows[n]) {
      p := n;
    } else {
      p := LastMatch(f, rows[..n]);
      assert rows[p + 1..][..n - p - 1] == rows[..n][p + 1..];
      assert rows[p + 1..][n - p - 1] == rows[n];
    }
  }

  // ----------------------------------------------------- polling consumers

  /** A consumer: what it has received, and the id it passes back as cursor. */
  datatype Consumer = Consumer(received: seq<Row>, cursor: Option<string>)

  function Poll(c: Consumer, rows: seq<Row>, f: Filter, limit: Option<int>): Consumer {
    Take(c, Read(rows, f, c.cursor, limit))
  }

  function Take(c: Consumer, got: seq<Row>): Consumer {
    if got == [] then c
    else Consumer(c.received + got, got[|got| - 1].eventId)
  }

  /** A ledger only ever grows at its end. */
  ghost predicate Growing(snapshots: seq<seq<Row>>) {
    forall k: nat :: k + 1 < |snapshots| ==> GrowsAt(snapshots, k)
  }

  ghost predicate GrowsAt(snapshots: seq<seq<Row>>, k: nat)
    requires k + 1 < |snapshots|
  {
    snapshots[k] <= snapshots[k + 1]
  }

  lemma GrowingPrefix(snapshots: seq<seq<Row>>)
    requires Growing(snapshots) && |snapshots| > 1
    ensures Growing(snapshots[..|snapshots| - 1])
    ensures snapshots[|snapshots| - 2] <= snapshots[|snapshots| - 1]
  {
    assert GrowsAt(snapshots, |snapshots| - 2);
    var before := snapshots[..|snapshots| - 1];
    forall k: nat | k + 1 < |before| ensures GrowsAt(before, k) {
      assert GrowsAt(snapshots, k);
    }
  }

  function PollAll(snapshots: seq<seq<Row>>, f: Filter, limit: Option<int>): Consumer {
    if snapshots == [] then Consumer([], None)
    else Poll(PollAll(snapshots[..|snapshots| - 1], f, limit), snapshots[|snapshots| - 1], f, limit)
  }

  ghost predicate UniqueIds(rows: seq<Row>) {
    && (forall i :: 0 <= i < |rows| ==> HasId(rows[i]))
    && (forall i, j :: 0 <= i < j < |rows| ==> Distinct(rows, i, j))
  }

  predicate HasId(r: Row) { r.eventId.Some? }

  predicate Distinct(rows: seq<Row>, i: nat, j: nat)
    requires i < |rows| && j < |rows|
  {
    rows[i].eventId != rows[j].eventId
  }

  /** What polling keeps true: everything that matched at the last poll has been received. */
  ghost predicate UpToDate(c: Consumer, rows: seq<Row>, f: Filter) {
    && (forall r :: r in Matching(f, rows) ==> r in c.received)
    && (Matching(f, rows) == [] ==> c.cursor.None?)
    && (Matching(f, rows) != [] ==> c.cursor == Matching(f, rows)[|Matching(f, rows)| - 1].eventId)
  }

  lemma PollKeepsUpToDate(c: Consumer, prev: seq<Row>, rows: seq<Row>, f: Filter)
    requires UpToDate(c, prev, f) && prev <= rows
    ensures UpToDate(Poll(c, rows, f, None), rows, f)
  {
    ResumesEarlyEnough(c, prev, rows, f);
    PollFrom(c, prev, rows, f, Resume(rows, c.cursor));
  }

  lemma PollFrom(c: Consumer, prev: seq<Row>, rows: seq<Row>, f: Filter, i: nat)
    requires UpToDate(c, prev, f) && prev <= rows && i <= |prev|
    ensures UpToDate(Take(c, Matching(f, rows[i..])), rows, f)
  {
    EarlierMatches(f, prev, rows, i);
    if Matching(f, rows[i..]) == [] {
      NothingNew(f, prev, rows, i);
    } else {
      MatchingSplit(f, rows, i);
      TakeKeepsUpToDate(c, Matching(f, prev), Matching(f, rows[..i]), Matching(f, rows[i..]));
    }
  }

  lemma MatchingSplit(f: Filter, rows: seq<Row>, i: nat)
    requires i <= |rows|
    ensures Matching(f, rows) == Matching(f, rows[..i]) + Matching(f, rows[i..])
  {
    assert rows == rows[..i] + rows[i..];
    MatchingAppend(f, rows[..i], rows[i..]);
  }

  lemma TakeKeepsUpToDate(c: Consumer, seen: seq<Row>, early: seq<Row>, got: seq<Row>)
    requires got != [] && (forall r :: r in seen ==> r in c.received) && (forall r :: r in early ==> r in seen)
    ensures forall r :: r in early + got ==> r in Take(c, got).received
    ensures Take(c, got).cursor == (early + got)[|early + got| - 1].eventId
  {
  }

  /** The cursor never points past the last row that the consumer was given. */
  lemma ResumesEarlyEnough(c: Consumer, prev: seq<Row>, rows: seq<Row>, f: Filter)
    requires UpToDate(c, prev, f) && prev <= rows
    ensures Resume(rows, c.cursor) <= |prev|
  {
    if c.cursor.Some? {
      var p := LastMatch(f, prev);
      FirstAfterIsFirst(rows, c.cursor);
      assert rows[p].eventId == c.cursor;
    }
  }

  lemma EarlierMatches(f: Filter, prev: seq<Row>, rows: seq<Row>, i: nat)
    requires prev <= rows && i <= |prev|
    ensures forall r :: r in Matching(f, rows[..i]) ==> r in Matching(f, prev)
  {
    assert prev == rows[..i] + prev[i..];
    MatchingAppend(f, rows[..i], prev[i..]);
  }

  lemma NothingNew(f: Filter, prev: seq<Row>, rows: seq<Row>, i: nat)
    requires prev <= rows && i <= |prev| && Matching(f, rows[i..]) == []
    ensures Matching(f, rows) == Matching(f, prev)
  {
    assert rows[i..] == prev[i..] + rows[|prev|..];
    MatchingAppend(f, prev[i..], rows[|prev|..]);
    assert rows == prev + rows[|prev|..];
    MatchingAppend(f, prev, rows[|prev|..]);
  }

  /**
   Polling without a limit loses nothing: after every poll the consumer has every
   row that matches so far, even when event ids repeat or are missing.
   */
  lemma {:induction false} PollingLosesNothing(snapshots: seq<seq<Row>>, f: Filter)
    requires Growing(snapshots) && snapshots != []
    ensures UpToDate(PollAll(snapshots, f, None), snapshots[|snapshots| - 1], f)
    ensures forall r :: r in snapshots[|snapshots| - 1] && Matches(f, r) ==> r in PollAll(snapshots, f, None).received
  {
    var n := |snapshots| - 1;
    var before := snapshots[..n];
    if n == 0 {
      assert PollAll(before, f, None) == Consumer([], None);
      PollKeepsUpToDate(Consumer([], None), [], snapshots[0], f);
    } else {
      GrowingPrefix(snapshots);
      PollingLosesNothing(before, f);
      PollKeepsUpToDate(PollAll(before, f, None), snapshots[n - 1], snapshots[n], f);
    }
    forall r | r in snapshots[n] && Matches(f, r) ensures r in Matching(f, snapshots[n]) {
      MatchingMembers(f, snapshots[n], r);
    }
  }

  // ------------------------------------------- limited polling, unique ids

  /** The consumer has received exactly the first k matching rows, and its cursor is the last of them. */
  ghost predicate AtRow(c: Consumer, rows: seq<Row>, f: Filter, k: nat) {
    Has(c, Matching(f, rows), k)
  }

  predicate Has(c: Consumer, m: seq<Row>, k: nat) {
    k <= |m| && c.received == m[..k] && c.cursor == if k == 0 then None else m[k - 1].eventId
  }

  /** The k-th matching row, and the rows up to it, which hold the first k matches. */
  lemma {:induction false} KthMatch(f: Filter, rows: seq<Row>, k: nat) returns (p: nat)
    requires 0 < k <= |Matching(f, rows)|
    ensures p < |rows| && rows[p] == Matching(f, rows)[k - 1]
    ensures Matching(f, rows[..p + 1]) == Matching(f, rows)[..k]
  {
    var n := |rows| - 1;
    if |Matching(f, rows)| == k && Matches(f, rows[n]) {
      p := n;
      assert rows[..n + 1] == rows;
    } else {
      p := KthMatch(f, rows[..n], k);
      assert rows[..n][..p + 1] == rows[..p + 1];
    }
  }

  /** How many rows a page of at most `limit` takes when `left` are left. */
  function PageSize(limit: Option<int>, left: nat): (n: nat)
    ensures n <= left
  {
    if limit.Some? && 0 <= limit.value < left then limit.value else left
  }

  lemma ResumeAtRow(c: Consumer, rows: seq<Row>, f: Filter, k: nat)
    requires UniqueIds(rows) && AtRow(c, rows, f, k)
    ensures Matching(f, rows[Resume(rows, c.cursor)..]) == Matching(f, rows)[k..]
  {
    var i := Resume(rows, c.cursor);
    MatchingSplit(f, rows, i);
    if k > 0 {
      var p := KthMatch(f, rows, k);
      assert HasId(rows[p]);
      CursorFound(rows, p, c.cursor);
    } else {
      assert rows[..i] == [];
    }
  }

  lemma CursorFound(rows: seq<Row>, p: nat, after: Option<string>)
    requires UniqueIds(rows) && p < |rows| && rows[p].eventId == after && after.Some?
    ensures Resume(rows, after) == p + 1
  {
    FirstAfterIsFirst(rows, after);
    var i := Resume(rows, after);
    assert i - 1 < p ==> Distinct(rows, i - 1, p);
  }

  lemma {:induction false} PollAdvances(c: Consumer, rows: seq<Row>, f: Filter, k: nat, limit: Option<int>)
    requires UniqueIds(rows) && AtRow(c, rows, f, k)
    ensures AtRow(Poll(c, rows, f, limit), rows, f, k + PageSize(limit, |Matching(f, rows)| - k))
  {
    ResumeAtRow(c, rows, f, k);
    PollFromRow(c, rows, f, k, limit, Matching(f, rows));
  }

  lemma {:induction false} PollFromRow(c: Consumer, rows: seq<Row>, f: Filter, k: nat, limit: Option<int>, m: seq<Row>)
    requires Has(c, m, k) && Matching(f, rows[Resume(rows, c.cursor)..]) == m[k..]
    ensures Has(Poll(c, rows, f, limit), m, k + PageSize(limit, |m| - k))
  {
    PageAdvances(c, m, k, m[k..], limit);
  }

  lemma PageAdvances(c: Consumer, m: seq<Row>, k: nat, rest: seq<Row>, limit: Option<int>)
    requires Has(c, m, k) && rest == m[k..]
    ensures Has(Take(c, Limited(limit, rest)), m, k + PageSize(limit, |m| - k))
  {
    PageTakes(m, k, limit);
    TakeAdvances(c, m, k, PageSize(limit, |m| - k));
  }

  lemma PageTakes(m: seq<Row>, k: nat, limit: Option<int>)
    requires k <= |m|
    ensures Limited(limit, m[k..]) == m[k..k + PageSize(limit, |m| - k)]
  {
    var n := PageSize(limit, |m| - k);
    assert m[k..][..n] == m[k..k + n];
    assert n == |m| - k ==> m[k..] == m[k..k + n];
  }

  lemma TakeAdvances(c: Consumer, m: seq<Row>, k: nat, n: nat)
    requires Has(c, m, k) && k + n <= |m|
    ensures Has(Take(c, m[k..k + n]), m, k + n)
  {
    assert m[..k] + m[k..k + n] == m[..k + n];
  }

  lemma AtRowGrows(c: Consumer, prev: seq<Row>, rows: seq<Row>, f: Filter, k: nat)
    requires AtRow(c, prev, f, k) && prev <= rows
    ensures AtRow(c, rows, f, k)
  {
    assert rows == prev + rows[|prev|..];
    MatchingAppend(f, prev, rows[|prev|..]);
    assert Matching(f, rows)[..k] == Matching(f, prev)[..k];
  }

  /** How many rows polls of these ledger lengths deliver in all. */
  function Delivered(counts: seq<nat>, limit: Option<int>): nat {
    if counts == [] then 0
    else
      var d := Delivered(counts[..|counts| - 1], limit);
      var now := counts[|counts| - 1];
      if d <= now then d + PageSize(limit, now - d) else d
  }

  function MatchCounts(snapshots: seq<seq<Row>>, f: Filter): (r: seq<nat>)
    ensures |r| == |snapshots| && forall i :: 0 <= i < |r| ==> r[i] == |Matching(f, snapshots[i])|
  {
    seq(|snapshots|, i requires 0 <= i < |snapshots| => |Matching(f, snapshots[i])|)
  }

  /**
   With unique ids every matching row arrives exactly once and in order, with or
   without a page limit: what was received is a prefix of the matching rows.
   */
  lemma {:induction false} UniqueIdsArriveOnce(snapshots: seq<seq<Row>>, f: Filter, limit: Option<int>)
    requires Growing(snapshots) && snapshots != []
    requires UniqueIds(snapshots[|snapshots| - 1])
    ensures AtRow(PollAll(snapshots, f, limit), snapshots[|snapshots| - 1], f,
                  Delivered(MatchCounts(snapshots, f), limit))
  {
    var n := |snapshots| - 1;
    var before, rows := snapshots[..n], snapshots[n];
    var k := Delivered(MatchCounts(before, f), limit);
    assert AtRow(PollAll(before, f, limit), rows, f, k) by {
      if n > 0 {
        GrowingPrefix(snapshots);
        UniquePrefix(snapshots[n - 1], rows);
        UniqueIdsArriveOnce(before, f, limit);
        AtRowGrows(PollAll(before, f, limit), snapshots[n - 1], rows, f, k);
      }
    }
    OnePollMore(snapshots, f, limit, k);
  }

  lemma {:induction false} OnePollMore(snapshots: seq<seq<Row>>, f: Filter, limit: Option<int>, k: nat)
    requires snapshots != [] && UniqueIds(snapshots[|snapshots| - 1])
    requires k == Delivered(MatchCounts(snapshots[..|snapshots| - 1], f), limit)
    requires AtRow(PollAll(snapshots[..|snapshots| - 1], f, limit), snapshots[|snapshots| - 1], f, k)
    ensures AtRow(PollAll(snapshots, f, limit), snapshots[|snapshots| - 1], f,
                  Delivered(MatchCounts(snapshots, f), limit))
  {
    var c, rows := PollAll(snapshots[..|snapshots| - 1], f, limit), snapshots[|snapshots| - 1];
    assert PollAll(snapshots, f, limit) == Poll(c, rows, f, limit);
    DeliveredNext(snapshots, f, limit);
    OnePoll(c, rows, f, limit, k, Delivered(MatchCounts(snapshots, f), limit));
  }

  lemma OnePoll(c: Consumer, rows: seq<Row>, f: Filter, limit: Option<int>, k: nat, k': nat)
    requires UniqueIds(rows) && AtRow(c, rows, f, k)
    requires k' == k + PageSize(limit, |Matching(f, rows)| - k)
    ensures AtRow(Poll(c, rows, f, limit), rows, f, k')
  {
    PollAdvances(c, rows, f, k, limit);
  }

  lemma UniqueIdsArriveWhole(snapshots: seq<seq<Row>>, f: Filter)
    requires Growing(snapshots) && snapshots != []
    requires UniqueIds(snapshots[|snapshots| - 1])
    ensures PollAll(snapshots, f, None).received == Matching(f, snapshots[|snapshots| - 1])
  {
    var before := snapshots[..|snapshots| - 1];
    UniqueIdsArriveOnce(snapshots, f, None);
    AllDelivered(MatchCounts(snapshots, f));
    var m := Matching(f, snapshots[|snapshots| - 1]);
    assert m[..|m|] == m;
  }

  lemma AllDelivered(counts: seq<nat>)
    requires counts != []
    ensures Delivered(counts, None) >= counts[|counts| - 1]
  {
  }

  lemma DeliveredNext(snapshots: seq<seq<Row>>, f: Filter, limit: Option<int>)
    requires snapshots != []
    ensures var d := Delivered(MatchCounts(snapshots[..|snapshots| - 1], f), limit);
            var now := |Matching(f, snapshots[|snapshots| - 1])|;
            Delivered(MatchCounts(snapshots, f), limit) == if d <= now then d + PageSize(limit, now - d) else d
  {
    var n := |snapshots| - 1;
    assert MatchCounts(snapshots, f)[..n] == MatchCounts(snapshots[..n], f);
  }

  lemma UniquePrefix(prev: seq<Row>, rows: seq<Row>)
    requires prev <= rows && UniqueIds(rows)
    ensures UniqueIds(prev)
  {
    assert forall i :: 0 <= i < |prev| ==> prev[i] == rows[i];
    forall i, j | 0 <= i < j < |prev| ensures Distinct(prev, i, j) {
      assert Distinct(rows, i, j);
    }
  }

  /**
   A page limit together with repeated ids does lose rows: the cursor falls back
   to the first row with its id, and the third row is never reached.
   */
  lemma {:induction false} RepeatedIdsStarveLimitedPolls(k: nat)
    ensures var a := Row(Some("a"), "s", "p", true, NoStamp, "");
            var b := Row(Some("b"), "s", "p", true, NoStamp, "");
            var c := Row(Some("c"), "s", "p", true, NoStamp, "");
            var everything := Filter(None, None, None, None);
            var polls := seq(k, i => [a, b, a, c]);
            Growing(polls) && c !in PollAll(polls, everything, Some(1)).received
  {
    var a := Row(Some("a"), "s", "p", true, NoStamp, "");
    var b := Row(Some("b"), "s", "p", true, NoStamp, "");
    var c := Row(Some("c"), "s", "p", true, NoStamp, "");
    assert "a"[0] != "b"[0] && "a"[0] != "c"[0] && "b"[0] != "c"[0];
    StarvedState(k, a, b, c);
  }

  ghost predicate Apart(a: Row, b: Row, c: Row) {
    && a.eventId.Some? && b.eventId.Some? && c.eventId.Some?
    && a.eventId != b.eventId && a.eventId != c.eventId && b.eventId != c.eventId
  }

  ghost predicate Starved(s: Consumer, a: Row, b: Row, c: Row) {
    c !in s.received && (s.cursor == None || s.cursor == a.eventId || s.cursor == b.eventId)
  }

  lemma {:induction false} StarvedState(k: nat, a: Row, b: Row, c: Row)
    requires Apart(a, b, c)
    ensures Starved(PollAll(seq(k, i => [a, b, a, c]), Filter(None, None, None, None), Some(1)), a, b, c)
  {
    var polls := seq(k, i => [a, b, a, c]);
    if k > 0 {
      StarvedState(k - 1, a, b, c);
      assert polls[..k - 1] == seq(k - 1, i => [a, b, a, c]);
      StarvedPoll(PollAll(polls[..k - 1], Filter(None, None, None, None), Some(1)), a, b, c);
    }
  }

  lemma StarvedPoll(s: Consumer, a: Row, b: Row, c: Row)
    requires Apart(a, b, c) && Starved(s, a, b, c)
    ensures Starved(Poll(s, [a, b, a, c], Filter(None, None, None, None), Some(1)), a, b, c)
  {
    var rows, i := [a, b, a, c], Resume([a, b, a, c], s.cursor);
    FirstAfterIsFirst(rows, s.cursor);
    assert rows[0] == a && rows[1] == b;
    assert i == 0 || i == 1 || i == 2;
    NextMatch(Filter(None, None, None, None), rows, i);
    assert rows[i] == a || rows[i] == b;
  }

  lemma NextMatch(f: Filter, rows: seq<Row>, i: nat)
    requires i < |rows| && f == Filter(None, None, None, None)
    ensures Limited(Some(1), Matching(f, rows[i..])) == [rows[i]]
  {
    assert rows[i..] == [rows[i]] + rows[i + 1..];
    MatchingAppend(f, [rows[i]], rows[i + 1..]);
    assert Matching(f, [rows[i]]) == [rows[i]];
  }
}
