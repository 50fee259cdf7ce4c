/**
 One reviewer's call as the program runs it, over a ledger that other reviewers
 change between its steps, proved to take only steps of the spend protocol.
 */
module SpendReview {
  import opened Wrappers
  import opened SpendLedger
  import opened SpendProtocol
  import SpendCap

  /** An append is durable and acknowledged, lost, or durable without its acknowledgement. */
  datatype Fate = Lands | Lost | Unacknowledged

  /** What the outside world does to one call. */
  datatype World = World(
    envelopeDrift: bool,       // the provider's limits are not those that were priced
    reserve: Fate,             // what becomes of the reserve append
    idValid: bool,             // the receipt carries a valid transaction id
    answer: Option<string>,    // None: the provider raised
    usage: Usage,              // what it published afterwards
    book: Fate,                // what becomes of the first reconcile append
    doubt: Fate)               // what becomes of the uncertainty marker

  class Ledger {
    var rows: seq<Row>
    const cap: nat

    constructor (cap: nat)
      ensures rows == [] && this.cap == cap && Accounted(rows)
    {
      this.cap := cap;
      rows := [];
    }

    /** Any number of steps by other reviewers: they only append, and keep the ledger accounted. */
    method Others()
      requires Accounted(rows)
      modifies this
      ensures old(rows) <= rows && Accounted(rows)
    {
    }

    method FreshId() returns (tx: nat)
      ensures forall r :: r in rows ==> r.tx < tx
    {
      tx := 0;
      for i := 0 to |rows|
        invariant forall k :: 0 <= k < i ==> rows[k].tx < tx
      {
        if rows[i].tx >= tx { tx := rows[i].tx + 1; }
      }
    }

    method Spent() returns (usd: int)
      ensures usd == Total(rows)
    {
      usd := 0;
      for i := 0 to |rows|
        invariant usd == Total(rows[..i])
      {
        usd := usd + Amount(rows[i]);
        assert rows[..i + 1][..i] == rows[..i];
      }
      assert rows[..|rows|] == rows;
    }

    method Blocker() returns (blocked: bool)
      ensures blocked == Blocked(rows)
    {
      blocked := false;
      for i := 0 to |rows|
        invariant blocked == Blocked(rows[..i])
      {
        assert rows[..i + 1][..i] == rows[..i];
        if Poisons(rows[i]) { blocked := true; }
      }
      assert rows[..|rows|] == rows;
    }

    /** One lock spans the sum, the checks of blockers, headroom and capacity, and the append. */
    method ReserveIfCapacity(amount: nat, fate: Fate) returns (tx: Option<nat>, ghost id: nat)
      requires Accounted(rows)
      modifies this
      ensures tx.Some? <==> fate.Lands? && Admits(old(rows), amount, cap)
      ensures tx.Some? <==> fate == Lands && !Blocked(old(rows)) && Total(old(rows)) <= cap - 5000000
                            && Total(old(rows)) <= cap - amount
      ensures tx.Some? ==> tx.value == id
      ensures rows != old(rows) <==> !fate.Lost? && Admits(old(rows), amount, cap)
      ensures rows != old(rows) ==>
                Fits(old(rows), Reserve(id, amount)) && rows == old(rows) + [Reserve(id, amount)]
      ensures Accounted(rows)
    {
      id := 0;
      var spent := Spent();
      var blocked := Blocker();
      if blocked { return None, id; }
      if cap - spent < MIN_HEADROOM || amount > cap - spent { return None, id; }
      if fate.Lost? { return None, id; }
      var unused := FreshId();
      id := unused;
      UnusedIdFits(rows, unused, amount);
      AppendFacts(rows, Reserve(unused, amount));
      rows := rows + [Reserve(unused, amount)];
      tx := if fate.Lands? then Some(unused) else None;
    }

    /** The whole ledger is validated with the new row under the same lock: a second reconcile is refused. */
    method RecordSpend(r: Row, fate: Fate) returns (recorded: bool)
      requires Accounted(rows)
      modifies this
      ensures recorded <==> fate.Lands? && Fits(old(rows), r)
      ensures rows == if !fate.Lost? && Fits(old(rows), r) then old(rows) + [r] else old(rows)
      ensures Accounted(rows)
    {
      if fate.Lost? || !Fits(rows, r) { return false; }
      AppendFacts(rows, r);
      rows := rows + [r];
      recorded := fate.Lands?;
    }
  }

  lemma {:induction false} UnusedIdFits(rows: seq<Row>, tx: nat, amount: nat)
    requires forall r :: r in rows ==> r.tx < tx
    ensures Fits(rows, Reserve(tx, amount))
  {
    if rows != [] {
      assert rows[|rows| - 1] in rows;
      UnusedIdFits(rows[..|rows| - 1], tx, amount);
    }
  }

  /** One atomic step: the ledger and the reviewer's phase before and after it. */
  datatype Move = Move(rows: seq<Row>, ph: Phase, rows': seq<Row>, ph': Phase)

  /** The moves are steps of the protocol, each taken from the phase the previous one reached. */
  ghost predicate Follows(j: Job, cap: nat, trace: seq<Move>) {
    && (forall k :: 0 <= k < |trace| ==> Step(j, cap, trace[k].rows, trace[k].rows', trace[k].ph, trace[k].ph'))
    && (forall k :: 0 <= k < |trace| - 1 ==> trace[k].ph' == trace[k + 1].ph && trace[k].rows' <= trace[k + 1].rows)
    && (trace != [] ==> trace[0].ph == Start)
  }

  predicate Finished(ph: Phase) { ph.Refused? || ph.Rejected? || ph.Accepted? }

  /** The review result, None for a raised refusal, and the steps taken to reach it. */
  method Review(ledger: Ledger, j: Job, w: World) returns (out: Option<string>, ghost trace: seq<Move>)
    requires Accounted(ledger.rows)
    modifies ledger
    ensures Accounted(ledger.rows)
    ensures Follows(j, ledger.cap, trace) && trace != []
    ensures old(ledger.rows) <= trace[0].rows && Last(trace).rows' == ledger.rows
    ensures Finished(Last(trace).ph')
    ensures out.Some? <==> Last(trace).ph'.Accepted?
    ensures out.Some? ==> out == w.answer && Last(trace).ph'.usage == w.usage
    ensures out.Some? <==> GoesThrough(ledger.cap, j, w, trace)
  {
    out := None;
    var tx: Option<nat>;
    tx, trace := Acquire(ledger, j, w);
    if tx.None? {
      ShortOrRefused(ledger.cap, j, w, trace);
      return;
    }
    var reserve := ReserveAmount(j).value;
    ledger.Others();
    ghost var rows := ledger.rows;
    ghost var held := Reserved(tx.value, reserve);
    if w.answer.None? {
      trace := Extend(j, ledger.cap, trace, Move(rows, held, rows, ProviderFailed(tx.value, reserve)));
      trace := MarkUncertain(ledger, j, w, tx.value, reserve, trace);
      return;
    }
    trace := Extend(j, ledger.cap, trace, Move(rows, held, rows, Returned(tx.value, reserve, w.usage)));
    var reconciled, actual;
    reconciled, actual, trace := Reconcile(ledger, j, w, tx.value, reserve, trace);
    ghost var settled := trace;
    if !reconciled {
      trace := MarkUncertain(ledger, j, w, tx.value, reserve, trace);
    } else if actual.Some? {
      var within;
      within, trace := CheckBreaches(ledger, j, w, tx.value, reserve, actual.value, trace);
      if within { out := w.answer; }
    }
    if |trace| == 4 {
      assert trace[2] == trace[..3][2] == settled[2];
      GoesThroughMeans(ledger.cap, j, w, trace, tx.value, reserve);
    }
  }

  lemma ShortOrRefused(cap: nat, j: Job, w: World, trace: seq<Move>)
    requires |trace| < 4
    ensures !GoesThrough(cap, j, w, trace)
  {
  }

  lemma GoesThroughMeans(cap: nat, j: Job, w: World, trace: seq<Move>, tx: nat, reserve: nat)
    requires |trace| == 4 && ReserveAmount(j) == Some(reserve) && trace[2].ph == Returned(tx, reserve, w.usage)
    requires !w.envelopeDrift && w.reserve == Lands && w.idValid && Admits(trace[0].rows, reserve, cap)
    ensures GoesThrough(cap, j, w, trace) <==>
            && w.answer.Some? && Classify(j, w.usage).Measured? && Classify(j, w.usage).actual <= reserve
            && w.book == Lands && Fits(trace[2].rows, Netted(tx, reserve, Classify(j, w.usage).actual))
            && Total(trace[3].rows) <= cap
  {
    MeasuredExactly(j, w.usage);
  }

  /** The usage behind an answer: the requested model, one attempt, within the envelope, priced, within the reserve. */
  ghost predicate AnsweredWithinContract(j: Job, u: Usage) {
    && u.Usage? && u.requested == Some(j.model) && u.resolved == Some(j.model)
    && (u.billed == NotReported || u.billed == Attempts(1))
    && u.tokens.Some? && u.tokens.value.0 <= j.maxIn && u.tokens.value.1 <= j.maxOut
    && j.price(j.maxIn, j.maxOut).Some? && j.price(u.tokens.value.0, u.tokens.value.1).Some?
    && QuantizeCeiling(j.price(u.tokens.value.0, u.tokens.value.1).value)
       <= QuantizeCeiling(j.price(j.maxIn, j.maxOut).value)
  }

  /**
   When a call gives an answer, told from what the world did to it and from the ledger as
   it found it: at its reservation, at its booking and at its last check.
   */
  ghost predicate GoesThrough(cap: nat, j: Job, w: World, trace: seq<Move>) {
    && !w.envelopeDrift && j.price(j.maxIn, j.maxOut).Some? && w.reserve == Lands && w.idValid
    && w.answer.Some? && AnsweredWithinContract(j, w.usage) && w.book == Lands
    && |trace| == 4
    && !Blocked(trace[0].rows) && Total(trace[0].rows) <= cap - 5000000
    && Total(trace[0].rows) <= cap - QuantizeCeiling(j.price(j.maxIn, j.maxOut).value)
    && TxOf(trace[2].ph).Some? && ReserveOf(trace[2].rows, TxOf(trace[2].ph).value).Some?
    && ReserveOf(trace[2].rows, TxOf(trace[2].ph).value).value == QuantizeCeiling(j.price(j.maxIn, j.maxOut).value)
    && ReconcileOf(trace[2].rows, TxOf(trace[2].ph).value).None?
    && Total(trace[3].rows) <= cap
  }

  ghost function Last(trace: seq<Move>): Move
    requires trace != []
  {
    trace[|trace| - 1]
  }

  ghost function Extend(j: Job, cap: nat, trace: seq<Move>, m: Move): (r: seq<Move>)
    requires Follows(j, cap, trace) && trace != []
    requires Step(j, cap, m.rows, m.rows', m.ph, m.ph')
    requires Last(trace).ph' == m.ph && Last(trace).rows' <= m.rows
    ensures r != [] && Follows(j, cap, r) && Last(r) == m && r[0] == trace[0]
    ensures |r| == |trace| + 1 && r[..|trace|] == trace
  {
    trace + [m]
  }

  /** Price the envelope and reserve it; None when the call must not be dispatched. */
  method Acquire(ledger: Ledger, j: Job, w: World) returns (tx: Option<nat>, ghost trace: seq<Move>)
    requires Accounted(ledger.rows)
    modifies ledger
    ensures Accounted(ledger.rows)
    ensures Follows(j, ledger.cap, trace) && |trace| == 1
    ensures old(ledger.rows) <= trace[0].rows && trace[0].rows' == ledger.rows
    ensures tx.Some? ==> ReserveAmount(j).Some? && trace[0].ph' == Reserved(tx.value, ReserveAmount(j).value)
    ensures tx.None? ==> trace[0].ph'.Refused? || trace[0].ph'.Rejected?
    ensures tx.Some? <==>
            && !w.envelopeDrift && ReserveAmount(j).Some? && w.reserve == Lands && w.idValid
            && Admits(trace[0].rows, ReserveAmount(j).value, ledger.cap)
  {
    ledger.Others();
    ghost var rows := ledger.rows;
    tx := None;
    var priced := ReserveAmount(j);
    if w.envelopeDrift || priced.None? {
      trace := [Move(rows, Start, rows, Refused)];
      return;
    }
    var receipt;
    ghost var id;
    receipt, id := ledger.ReserveIfCapacity(priced.value, w.reserve);
    ReserveTaken(j, ledger.cap, rows, ledger.rows, id, priced.value);
    if receipt.None? {
      trace := [Move(rows, Start, ledger.rows, if ledger.rows == rows then Refused else Rejected(id))];
      return;
    }
    if !w.idValid {
      trace := [Move(rows, Start, ledger.rows, Rejected(receipt.value))];
      return;
    }
    tx := receipt;
    trace := [Move(rows, Start, ledger.rows, Reserved(receipt.value, priced.value))];
  }

  /** The first step: nothing happened, or the reserve is durable, acknowledged or not. */
  lemma ReserveTaken(j: Job, cap: nat, rows: seq<Row>, rows': seq<Row>, tx: nat, amount: nat)
    requires ReserveAmount(j) == Some(amount)
    requires rows' != rows ==>
               Admits(rows, amount, cap) && Fits(rows, Reserve(tx, amount)) && rows' == rows + [Reserve(tx, amount)]
    ensures rows' == rows ==> Step(j, cap, rows, rows', Start, Refused)
    ensures rows' != rows ==> Step(j, cap, rows, rows', Start, Rejected(tx))
    ensures rows' != rows ==> Step(j, cap, rows, rows', Start, Reserved(tx, amount))
  {
  }

  /** Close the transaction with a zero-delta unmeasured row; the reserve stays charged either way. */
  method MarkUncertain(ledger: Ledger, j: Job, w: World, tx: nat, reserve: nat, ghost sofar: seq<Move>)
    returns (ghost trace: seq<Move>)
    requires Accounted(ledger.rows) && Follows(j, ledger.cap, sofar) && sofar != [] && Last(sofar).rows' <= ledger.rows
    requires Last(sofar).ph' == ProviderFailed(tx, reserve) || Last(sofar).ph' == Doubtful(tx, reserve)
    modifies ledger
    ensures Accounted(ledger.rows)
    ensures Follows(j, ledger.cap, trace) && trace != [] && trace[0] == sofar[0]
    ensures Last(trace).rows' == ledger.rows && Last(trace).ph' == Rejected(tx)
    ensures |trace| == |sofar| + 1 && trace[..|sofar|] == sofar
    ensures var marker := SpendLedger.Reconcile(tx, 0, false, 0, true);
            ledger.rows == Last(trace).rows
                           + if w.doubt != Lost && Fits(Last(trace).rows, marker) then [marker] else []
  {
    ledger.Others();
    ghost var rows := ledger.rows;
    var recorded := ledger.RecordSpend(Uncertain(tx), w.doubt);
    assert Appended(rows, ledger.rows, Uncertain(tx), recorded);
    trace := Extend(j, ledger.cap, sofar, Move(rows, Last(sofar).ph', ledger.rows, Rejected(tx)));
  }

  /** The two checks made after a measured cost is on the ledger. */
  method CheckBreaches(ledger: Ledger, j: Job, w: World, tx: nat, reserve: nat, actual: nat, ghost sofar: seq<Move>)
    returns (within: bool, ghost trace: seq<Move>)
    requires Accounted(ledger.rows) && Follows(j, ledger.cap, sofar) && sofar != [] && Last(sofar).rows' == ledger.rows
    requires Last(sofar).ph' == Booked(tx, reserve, actual, w.usage)
    modifies ledger
    ensures Accounted(ledger.rows)
    ensures Follows(j, ledger.cap, trace) && trace != [] && trace[0] == sofar[0]
    ensures Last(trace).rows' == ledger.rows
    ensures Last(trace).ph' == if within then Accepted(tx, actual, w.usage) else Rejected(tx)
    ensures |trace| == |sofar| + 1 && trace[..|sofar|] == sofar
    ensures within <==> actual <= reserve && Total(Last(trace).rows) <= ledger.cap
  {
    ledger.Others();
    var spent := ledger.Spent();
    within := !(actual > reserve) && !(spent > ledger.cap);
    ghost var booked := Last(sofar).ph';
    trace := Extend(j, ledger.cap, sofar,
                    Move(ledger.rows, booked, ledger.rows,
                         if within then Accepted(tx, actual, w.usage) else Rejected(tx)));
  }

  /** Certify the usage, price it, and append the one reconcile row that it earns. */
  method Reconcile(ledger: Ledger, j: Job, w: World, tx: nat, reserve: nat, ghost sofar: seq<Move>)
    returns (reconciled: bool, actual: Option<nat>, ghost trace: seq<Move>)
    requires Accounted(ledger.rows) && Follows(j, ledger.cap, sofar) && sofar != []
    requires Last(sofar).ph' == Returned(tx, reserve, w.usage) && Last(sofar).rows' == ledger.rows
    modifies ledger
    ensures Accounted(ledger.rows)
    ensures Follows(j, ledger.cap, trace) && trace != [] && trace[0] == sofar[0]
    ensures Last(trace).rows' == ledger.rows
    ensures Last(trace).ph' == if !reconciled then Doubtful(tx, reserve)
                               else if actual.None? then Rejected(tx)
                               else Booked(tx, reserve, actual.value, w.usage)
    ensures |trace| == |sofar| + 1 && trace[..|sofar|] == sofar && Last(trace).ph == Last(sofar).ph'
    ensures actual.Some? <==> Classify(j, w.usage).Measured? && w.book == Lands
                              && Fits(Last(trace).rows, Netted(tx, reserve, Classify(j, w.usage).actual))
    ensures actual.Some? ==> reconciled && actual.value == Classify(j, w.usage).actual
    ensures Classify(j, w.usage).Measured? && w.book != Lost ==>
              var cost := Classify(j, w.usage).actual;
              var netted := SpendLedger.Reconcile(tx, cost - reserve, true, cost, false);
              Fits(Last(trace).rows, netted) ==> ledger.rows == Last(trace).rows + [netted]
    ensures Classify(j, w.usage).Unmeasured? && w.book != Lost ==>
              var unverified := !(w.usage.Usage? && w.usage.requested == w.usage.resolved == Some(j.model));
              var kept := SpendLedger.Reconcile(tx, 0, false, 0, unverified);
              Fits(Last(trace).rows, kept) ==> ledger.rows == Last(trace).rows + [kept]
  {
    reconciled, actual := false, None;
    ledger.Others();
    ghost var rows := ledger.rows;
    ghost var here := Returned(tx, reserve, w.usage);
    var verdict := Certify(j, w.usage);
    if verdict.Unusable? {
      trace := Extend(j, ledger.cap, sofar, Move(rows, here, rows, Doubtful(tx, reserve)));
      return;
    }
    var row := if verdict.Measured? then Netted(tx, reserve, verdict.actual) else Kept(j, tx, w.usage);
    reconciled := ledger.RecordSpend(row, w.book);
    if reconciled && verdict.Measured? { actual := Some(verdict.actual); }
    ghost var there := if !reconciled then Doubtful(tx, reserve)
                       else if verdict.Measured? then Booked(tx, reserve, verdict.actual, w.usage) else Rejected(tx);
    ReconcileTaken(j, ledger.cap, rows, ledger.rows, here, there, row, reconciled);
    trace := Extend(j, ledger.cap, sofar, Move(rows, here, ledger.rows, there));
  }

  /** The checks on the published usage, in the order in which they are made. */
  method Certify(j: Job, u: Usage) returns (v: Verdict)
    ensures v == Classify(j, u)
    ensures v.Measured? <==>
            && u.Usage? && u.requested == Some(j.model) && u.resolved == Some(j.model)
            && u.tokens.Some? && u.tokens.value.0 <= j.maxIn && u.tokens.value.1 <= j.maxOut
            && (u.billed == NotReported || u.billed == Attempts(1))
            && j.price(u.tokens.value.0, u.tokens.value.1).Some?
    ensures v.Unusable? <==>
            u.Usage? && (|| (u.billed != NotReported && u.billed != Attempts(1))
                         || (&& u.requested == Some(j.model) && u.resolved == Some(j.model) && u.tokens.Some?
                             && (|| u.tokens.value.0 > j.maxIn || u.tokens.value.1 > j.maxOut
                                 || j.price(u.tokens.value.0, u.tokens.value.1).None?)))
  {
    MeasuredExactly(j, u);
    UnusableExactly(j, u);
    var identity := u.Usage? && u.requested == Some(j.model) && u.resolved == Some(j.model);
    var measured := identity && u.tokens.Some?;
    if measured && (u.tokens.value.0 > j.maxIn || u.tokens.value.1 > j.maxOut) { return Unusable; }
    if u.Usage? && u.billed != NotReported && u.billed != Attempts(1) { return Unusable; }
    if !measured { return Unmeasured; }
    var price := j.price(u.tokens.value.0, u.tokens.value.1);
    v := if price.None? then Unusable else Measured(QuantizeCeiling(price.value));
  }

  lemma ReconcileTaken(j: Job, cap: nat, rows: seq<Row>, rows': seq<Row>, ph: Phase, ph': Phase, r: Row, acked: bool)
    requires ph.Returned? && !Classify(j, ph.usage).Unusable? && Appended(rows, rows', r, acked)
    requires Classify(j, ph.usage).Unmeasured? ==>
               r == Kept(j, ph.tx, ph.usage) && ph' == if acked then Rejected(ph.tx) else Doubtful(ph.tx, ph.reserve)
    requires Classify(j, ph.usage).Measured? ==>
               var actual := Classify(j, ph.usage).actual;
               && r == Netted(ph.tx, ph.reserve, actual)
               && ph' == if acked then Booked(ph.tx, ph.reserve, actual, ph.usage) else Doubtful(ph.tx, ph.reserve)
    ensures Step(j, cap, rows, rows', ph, ph')
  {
  }

  // ---------------------------------------------- many reviewers, one ledger

  /** A step of one of the reviewers. */
  datatype Event = Event(owner: nat, move: Move)

  function Own(history: seq<Event>, i: nat): seq<Move> {
    if history == [] then []
    else
      var e := history[|history| - 1];
      Own(history[..|history| - 1], i) + if e.owner == i then [e.move] else []
  }

  function RowsAfter(init: seq<Row>, history: seq<Event>): seq<Row> {
    if history == [] then init else history[|history| - 1].move.rows'
  }

  /** Nothing but the listed steps changes the ledger. */
  ghost predicate Chained(init: seq<Row>, history: seq<Event>, k: nat)
    requires k < |history|
  {
    history[k].move.rows == RowsAfter(init, history[..k])
  }

  /** The steps of several reviewers' calls, in the order in which they reached the ledger. */
  ghost predicate Interleaved(c: Config, init: seq<Row>, history: seq<Event>) {
    && Accounted(init) && Total(init) <= c.cap
    && (forall k: nat :: k < |history| ==> Chained(init, history, k))
    && (forall e :: e in history ==> e.owner < |c.jobs|)
    && (forall i: nat :: i < |c.jobs| ==> Follows(c.jobs[i], c.cap, Own(history, i)))
  }

  ghost function PhaseAfter(history: seq<Event>, i: nat): Phase {
    if Own(history, i) == [] then Start else Last(Own(history, i)).ph'
  }

  ghost function StateAfter(c: Config, init: seq<Row>, history: seq<Event>): State {
    State(RowsAfter(init, history), seq(|c.jobs|, i requires 0 <= i < |c.jobs| => PhaseAfter(history, i)))
  }

  ghost function StatesOf(c: Config, init: seq<Row>, history: seq<Event>): (run: seq<State>)
    ensures |run| == |history| + 1
    ensures forall k :: 0 <= k < |run| ==> run[k] == StateAfter(c, init, history[..k])
  {
    seq(|history| + 1, k requires 0 <= k <= |history| => StateAfter(c, init, history[..k]))
  }

  lemma {:induction false} OwnPrefix(history: seq<Event>, k: nat, i: nat)
    requires k <= |history|
    ensures Own(history[..k], i) <= Own(history, i)
    decreases |history|
  {
    if k == |history| {
      assert history[..k] == history;
    } else {
      assert history[..|history| - 1][..k] == history[..k];
      OwnPrefix(history[..|history| - 1], k, i);
    }
  }

  lemma OwnNext(history: seq<Event>, k: nat, i: nat)
    requires k < |history|
    ensures Own(history[..k + 1], i) ==
            Own(history[..k], i) + if history[k].owner == i then [history[k].move] else []
  {
    assert history[..k + 1][..k] == history[..k];
  }

  /** Each listed step is a step of the protocol from the phase its reviewer has reached. */
  lemma OwnStep(c: Config, init: seq<Row>, history: seq<Event>, k: nat)
    requires Interleaved(c, init, history) && k < |history|
    ensures var e := history[k];
            && e.owner < |c.jobs| && e.move.ph == PhaseAfter(history[..k], e.owner)
            && PhaseAfter(history[..k + 1], e.owner) == e.move.ph'
            && Step(c.jobs[e.owner], c.cap, e.move.rows, e.move.rows', e.move.ph, e.move.ph')
  {
    var e := history[k];
    assert e in history;
    OwnPrefix(history, k + 1, e.owner);
    OwnNext(history, k, e.owner);
    var before, all := Own(history[..k], e.owner), Own(history, e.owner);
    assert before + [e.move] <= all;
    StepInside(c.jobs[e.owner], c.cap, before, e.move, all);
  }

  lemma StepInside(j: Job, cap: nat, before: seq<Move>, m: Move, all: seq<Move>)
    requires Follows(j, cap, all) && before + [m] <= all
    ensures Step(j, cap, m.rows, m.rows', m.ph, m.ph')
    ensures m.ph == if before == [] then Start else Last(before).ph'
  {
    var n := |before|;
    assert all[n] == (before + [m])[n] == m;
    if n > 0 { assert all[n - 1] == (before + [m])[n - 1] == before[n - 1]; }
  }

  lemma OneStep(c: Config, init: seq<Row>, history: seq<Event>, k: nat)
    requires Interleaved(c, init, history) && k < |history|
    ensures Next(c, StateAfter(c, init, history[..k]), StateAfter(c, init, history[..k + 1]))
  {
    var e := history[k];
    var s, s' := StateAfter(c, init, history[..k]), StateAfter(c, init, history[..k + 1]);
    OwnStep(c, init, history, k);
    RowsBetween(c, init, history, k);
    OthersStay(c, init, history, k);
    StepIsNext(c, s, s', e.owner);
  }

  lemma RowsBetween(c: Config, init: seq<Row>, history: seq<Event>, k: nat)
    requires Interleaved(c, init, history) && k < |history|
    ensures RowsAfter(init, history[..k]) == history[k].move.rows
    ensures RowsAfter(init, history[..k + 1]) == history[k].move.rows'
  {
    assert Chained(init, history, k);
    assert history[..k + 1][k] == history[k];
  }

  lemma OthersStay(c: Config, init: seq<Row>, history: seq<Event>, k: nat)
    requires Interleaved(c, init, history) && k < |history|
    ensures var s, s' := StateAfter(c, init, history[..k]), StateAfter(c, init, history[..k + 1]);
            history[k].owner < |s.phases| && s'.phases == s.phases[history[k].owner := s'.phases[history[k].owner]]
  {
    var owner := history[k].owner;
    assert history[k] in history;
    forall i: nat | i < |c.jobs| && i != owner ensures PhaseAfter(history[..k + 1], i) == PhaseAfter(history[..k], i) {
      OwnNext(history, k, i);
    }
  }

  /** Calls that interleave on one ledger make a run of the protocol. */
  lemma InterleavedIsRun(c: Config, init: seq<Row>, history: seq<Event>)
    requires Interleaved(c, init, history)
    ensures Run(c, StatesOf(c, init, history))
  {
    var run := StatesOf(c, init, history);
    assert history[..0] == [];
    forall k: nat | k + 1 < |run| ensures Moves(c, run, k) { OneStep(c, init, history, k); }
  }

  /**
   So the theorems of the protocol are about these calls: after every step of any of
   them the total is the sum of the charges, and under the cap when all reserves cover.
   */
  lemma InterleavedReviewsAccounted(c: Config, init: seq<Row>, history: seq<Event>, k: nat)
    requires Interleaved(c, init, history) && k < |history|
    ensures var rows := history[k].move.rows';
            && Accounted(rows) && Total(rows) == Charges(rows, rows)
            && ((forall i :: 0 <= i < |c.jobs| ==> Covers(c.jobs[i])) ==> Total(rows) <= c.cap)
  {
    var run := StatesOf(c, init, history);
    InterleavedIsRun(c, init, history);
    EveryStateAccounted(c, run, k + 1);
    LedgerTotal(c, run, k + 1);
    assert run[k + 1].rows == history[k].move.rows' by { assert history[..k + 1][k] == history[k]; }
    if forall i :: 0 <= i < |c.jobs| ==> Covers(c.jobs[i]) { SpendCap.CapNeverExceeded(c, run, k + 1); }
  }
}
