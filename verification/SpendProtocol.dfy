/**
 The spend protocol of the cross-model reviewer: reserve, dispatch, reconcile.
 Many reviewers share one durable ledger; every amount is in units of 1e-8 USD.
 */
module SpendLedger {
  import opened Wrappers

  /**
   The durable rows.  A measured reconcile row also carries the actual cost it books; an
   unverified one says that the provider's outcome or its model is not known.
   */
  datatype Row =
    | Reserve(tx: nat, amount: nat)
    | Reconcile(tx: nat, delta: int, measured: bool, actual: nat, unverified: bool)

  function Amount(r: Row): int { if r.Reserve? then r.amount else r.delta }

  function Total(rows: seq<Row>): int {
    if rows == [] then 0 else Total(rows[..|rows| - 1]) + Amount(rows[|rows| - 1])
  }

  function ReserveOf(rows: seq<Row>, tx: nat): Option<nat> {
    if rows == [] then None
    else if rows[|rows| - 1].Reserve? && rows[|rows| - 1].tx == tx then Some(rows[|rows| - 1].amount)
    else ReserveOf(rows[..|rows| - 1], tx)
  }

  function ReconcileOf(rows: seq<Row>, tx: nat): (r: Option<Row>)
    ensures r.Some? ==> r.value.Reconcile? && r.value.tx == tx
  {
    if rows == [] then None
    else if rows[|rows| - 1].Reconcile? && rows[|rows| - 1].tx == tx then Some(rows[|rows| - 1])
    else ReconcileOf(rows[..|rows| - 1], tx)
  }

  /** What a transaction costs: its measured cost once that is booked, else its full reserve. */
  function Charge(rows: seq<Row>, tx: nat, reserve: nat): int {
    match ReconcileOf(rows, tx)
    case Some(r) => if r.measured then r.actual else reserve
    case None => reserve
  }

  /** The sum of the charges of the transactions acknowledged in `acked`, as `rows` has them. */
  function Charges(acked: seq<Row>, rows: seq<Row>): int {
    if acked == [] then 0
    else
      var last := acked[|acked| - 1];
      Charges(acked[..|acked| - 1], rows) + if last.Reserve? then Charge(rows, last.tx, last.amount) else 0
  }

  /** May this row be appended?  One reserve per transaction, then at most one reconcile that nets it. */
  predicate Fits(rows: seq<Row>, r: Row) {
    match r
    case Reserve(tx, _) => ReserveOf(rows, tx).None? && ReconcileOf(rows, tx).None?
    case Reconcile(tx, delta, measured, actual, _) =>
      && ReserveOf(rows, tx).Some? && ReconcileOf(rows, tx).None?
      && delta == if measured then actual - ReserveOf(rows, tx).value else 0
  }

  /** The row proves that a reserve was too low, or cannot prove that it was not. */
  predicate Poisons(r: Row) { r.Reconcile? && (r.delta > 0 || r.unverified) }

  /** Such a row closes the ledger to every further reservation. */
  predicate Blocked(rows: seq<Row>) {
    rows != [] && (Blocked(rows[..|rows| - 1]) || Poisons(rows[|rows| - 1]))
  }

  /** 0.05 USD */
  const MIN_HEADROOM := 5000000

  /** A reservation is admitted on an unblocked ledger with the least headroom and with room for it. */
  predicate Admits(rows: seq<Row>, amount: nat, cap: nat) {
    !Blocked(rows) && Total(rows) + MIN_HEADROOM <= cap && Total(rows) + amount <= cap
  }

  predicate Accounted(rows: seq<Row>) {
    rows == [] || (Accounted(rows[..|rows| - 1]) && Fits(rows[..|rows| - 1], rows[|rows| - 1]))
  }

  lemma Snoc(rows: seq<Row>, r: Row)
    ensures (rows + [r])[..|rows + [r]| - 1] == rows && (rows + [r])[|rows + [r]| - 1] == r
  {
  }

  lemma AppendFacts(rows: seq<Row>, r: Row)
    ensures Total(rows + [r]) == Total(rows) + Amount(r)
    ensures Accounted(rows + [r]) <==> Accounted(rows) && Fits(rows, r)
    ensures Blocked(rows + [r]) <==> Blocked(rows) || Poisons(r)
    ensures forall tx :: ReserveOf(rows + [r], tx) ==
                         if r.Reserve? && r.tx == tx then Some(r.amount) else ReserveOf(rows, tx)
    ensures forall tx :: ReconcileOf(rows + [r], tx) ==
                         if r.Reconcile? && r.tx == tx then Some(r) else ReconcileOf(rows, tx)
  {
    Snoc(rows, r);
  }

  /** A new reconcile row moves the sum by its own delta, once its transaction is among those summed. */
  lemma {:induction false} ReconcileMovesCharges(acked: seq<Row>, rows: seq<Row>, r: Row)
    requires Accounted(acked) && r.Reconcile? && Fits(rows, r)
    requires forall tx :: ReserveOf(acked, tx).Some? ==> ReserveOf(rows, tx) == ReserveOf(acked, tx)
    ensures Charges(acked, rows + [r]) ==
            Charges(acked, rows) + if ReserveOf(acked, r.tx).Some? then r.delta else 0
  {
    if acked != [] {
      var init, last := acked[..|acked| - 1], acked[|acked| - 1];
      AppendFacts(rows, r);
      forall tx | ReserveOf(init, tx).Some? ensures ReserveOf(rows, tx) == ReserveOf(init, tx) {
        assert ReserveOf(acked, tx) == ReserveOf(init, tx);
      }
      ReconcileMovesCharges(init, rows, r);
    }
  }

  lemma {:induction false} ReserveLeavesCharges(acked: seq<Row>, rows: seq<Row>, r: Row)
    requires r.Reserve?
    ensures Charges(acked, rows + [r]) == Charges(acked, rows)
  {
    if acked != [] {
      AppendFacts(rows, r);
      ReserveLeavesCharges(acked[..|acked| - 1], rows, r);
    }
  }

  /** The ledger total is the sum over the acknowledged transactions of what each is charged. */
  lemma {:induction false} TotalIsSumOfCharges(rows: seq<Row>)
    requires Accounted(rows)
    ensures Total(rows) == Charges(rows, rows)
  {
    if rows != [] {
      var init, r := rows[..|rows| - 1], rows[|rows| - 1];
      assert rows == init + [r];
      TotalIsSumOfCharges(init);
      AppendFacts(init, r);
      if r.Reserve? {
        ReserveLeavesCharges(init, init, r);
      } else {
        ReconcileMovesCharges(init, init, r);
      }
    }
  }

  lemma {:induction false} ReconcileIsListed(rows: seq<Row>, tx: nat)
    ensures ReconcileOf(rows, tx).None? <==> forall i :: 0 <= i < |rows| && rows[i].Reconcile? ==> rows[i].tx != tx
    ensures ReconcileOf(rows, tx).Some? ==>
              && ReconcileOf(rows, tx).value in rows
              && ReconcileOf(rows, tx).value.Reconcile? && ReconcileOf(rows, tx).value.tx == tx
  {
    if rows != [] { ReconcileIsListed(rows[..|rows| - 1], tx); }
  }

  lemma {:induction false} BookedBreachBlocks(rows: seq<Row>, tx: nat)
    requires ReconcileOf(rows, tx).Some? && Poisons(ReconcileOf(rows, tx).value)
    ensures Blocked(rows)
  {
    if !(rows[|rows| - 1].Reconcile? && rows[|rows| - 1].tx == tx) { BookedBreachBlocks(rows[..|rows| - 1], tx); }
  }

  /** No transaction has two durable reconcile rows. */
  lemma {:induction false} AtMostOneReconcile(rows: seq<Row>, i: nat, j: nat)
    requires Accounted(rows) && i < j < |rows|
    requires rows[i].Reconcile? && rows[j].Reconcile?
    ensures rows[i].tx != rows[j].tx
    decreases |rows|
  {
    var n := |rows| - 1;
    if j < n {
      AtMostOneReconcile(rows[..n], i, j);
    } else {
      ReconcileIsListed(rows[..n], rows[j].tx);
      assert rows[..n][i] == rows[i];
    }
  }
}

/** The reviewers' steps over the shared ledger, in any interleaving. */
module SpendProtocol {
  import opened Wrappers
  import opened SpendLedger

  /** What a provider publishes after a call; None for a model name that is not a string. */
  datatype Billed = NotReported | Attempts(n: int) | NotAnInt
  datatype Usage =
    | NoUsage
    | Usage(requested: Option<string>, resolved: Option<string>, tokens: Option<(nat, nat)>, billed: Billed)

  /** One reviewer: its model and the token envelope that prices its single call. */
  datatype Job = Job(model: string, maxIn: nat, maxOut: nat, price: (nat, nat) -> Option<real>)

  const UNITS_PER_USD := 100000000.0

  /** Rounded up to the ledger's 8 decimals. */
  function QuantizeCeiling(usd: real): nat {
    var q := -((-usd * UNITS_PER_USD).Floor);
    if q < 0 then 0 else q
  }

  function ReserveAmount(j: Job): Option<nat> {
    match j.price(j.maxIn, j.maxOut)
    case Some(p) => Some(QuantizeCeiling(p))
    case None => None
  }

  predicate IdentityMeasured(j: Job, u: Usage) {
    u.Usage? && u.requested == Some(j.model) && u.resolved == Some(j.model)
  }

  datatype Verdict = Measured(actual: nat) | Unmeasured | Unusable

  /** What the published usage amounts to, in the order the checks are made. */
  function Classify(j: Job, u: Usage): Verdict {
    var measured := IdentityMeasured(j, u) && u.tokens.Some?;
    if measured && (u.tokens.value.0 > j.maxIn || u.tokens.value.1 > j.maxOut) then Unusable
    else if u.Usage? && u.billed != NotReported && u.billed != Attempts(1) then Unusable
    else if !measured then Unmeasured
    else match j.price(u.tokens.value.0, u.tokens.value.1)
         case None => Unusable
         case Some(p) => Measured(QuantizeCeiling(p))
  }

  /** Rounded up: the fewest units that are no less than the amount. */
  lemma QuantizeIsCeiling(usd: real)
    ensures usd >= 0.0 ==> QuantizeCeiling(usd) as real - 1.0 < usd * 100000000.0 <= QuantizeCeiling(usd) as real
    ensures usd < 0.0 ==> QuantizeCeiling(usd) == 0
  {
  }

  /**
   Which usage counts as measured: the requested model served it, within both bounds of
   the envelope, in at most one billed attempt, and it has a price.
   */
  lemma MeasuredExactly(j: Job, u: Usage)
    ensures Classify(j, u).Measured? <==>
            && u.Usage? && u.requested == Some(j.model) && u.resolved == Some(j.model)
            && u.tokens.Some? && u.tokens.value.0 <= j.maxIn && u.tokens.value.1 <= j.maxOut
            && (u.billed == NotReported || u.billed == Attempts(1))
            && j.price(u.tokens.value.0, u.tokens.value.1).Some?
    ensures Classify(j, u).Measured? ==>
              Classify(j, u).actual == QuantizeCeiling(j.price(u.tokens.value.0, u.tokens.value.1).value)
  {
  }

  /** And which is unusable: more than one attempt is billed, or a measured one breaks the envelope or has no price. */
  lemma UnusableExactly(j: Job, u: Usage)
    ensures Classify(j, u).Unusable? <==>
            u.Usage? && (|| (u.billed != NotReported && u.billed != Attempts(1))
                         || (&& u.requested == Some(j.model) && u.resolved == Some(j.model) && u.tokens.Some?
                             && (|| u.tokens.value.0 > j.maxIn || u.tokens.value.1 > j.maxOut
                                 || j.price(u.tokens.value.0, u.tokens.value.1).None?)))
  {
  }

  /** Where a reviewer is between two atomic steps. */
  datatype Phase =
    | Start
    | Refused
    | Reserved(tx: nat, reserve: nat)
    | ProviderFailed(tx: nat, reserve: nat)
    | Returned(tx: nat, reserve: nat, usage: Usage)
    | Booked(tx: nat, reserve: nat, actual: nat, usage: Usage)
    | Doubtful(tx: nat, reserve: nat)
    | Rejected(tx: nat)
    | Crashed
    | Accepted(tx: nat, actual: nat, usage: Usage)

  /** The whole reserve stays charged, and what the provider did is not known. */
  function Uncertain(tx: nat): Row { Reconcile(tx, 0, false, 0, true) }

  /** The whole reserve stays charged for want of token counts; the served model may be known. */
  function Kept(j: Job, tx: nat, u: Usage): Row { Reconcile(tx, 0, false, 0, !IdentityMeasured(j, u)) }

  /** The actual cost takes the place of the reserve. */
  function Netted(tx: nat, reserve: nat, actual: nat): Row { Reconcile(tx, actual - reserve, true, actual, false) }

  /**
   An append under the ledger's lock.  A row that does not fit is refused; one that
   fits may be lost, and it may be durable although its acknowledgement is not given.
   */
  predicate Appended(rows: seq<Row>, rows': seq<Row>, r: Row, acked: bool) {
    (!acked && rows' == rows) || (Fits(rows, r) && rows' == rows + [r])
  }

  /** The atomic check-and-append of the budget: refused unless the ledger admits it. */
  ghost predicate ReserveStep(j: Job, cap: nat, rows: seq<Row>, rows': seq<Row>, ph': Phase) {
    || (rows' == rows && ph' == Refused)
    || (ReserveAmount(j).Some? && exists tx: nat ::
          && Fits(rows, Reserve(tx, ReserveAmount(j).value))
          && Admits(rows, ReserveAmount(j).value, cap)
          && rows' == rows + [Reserve(tx, ReserveAmount(j).value)]
          && (ph' == Reserved(tx, ReserveAmount(j).value) || ph' == Rejected(tx)))
  }

  predicate ReconcileStep(j: Job, rows: seq<Row>, rows': seq<Row>, ph: Phase, ph': Phase)
    requires ph.Returned?
  {
    match Classify(j, ph.usage)
    case Unusable => rows' == rows && ph' == Doubtful(ph.tx, ph.reserve)
    case Unmeasured =>
      || (Appended(rows, rows', Kept(j, ph.tx, ph.usage), true) && ph' == Rejected(ph.tx))
      || (Appended(rows, rows', Kept(j, ph.tx, ph.usage), false) && ph' == Doubtful(ph.tx, ph.reserve))
    case Measured(actual) =>
      var r := Netted(ph.tx, ph.reserve, actual);
      || (Appended(rows, rows', r, true) && ph' == Booked(ph.tx, ph.reserve, actual, ph.usage))
      || (Appended(rows, rows', r, false) && ph' == Doubtful(ph.tx, ph.reserve))
  }

  /** One reviewer's atomic step; a crash is possible before any of them. */
  ghost predicate Step(j: Job, cap: nat, rows: seq<Row>, rows': seq<Row>, ph: Phase, ph': Phase) {
    || (ph' == Crashed && rows' == rows && !ph.Accepted? && !ph.Rejected? && !ph.Refused?)
    || match ph
       case Start => ReserveStep(j, cap, rows, rows', ph')
       case Reserved(tx, reserve) =>
         rows' == rows && (ph' == ProviderFailed(tx, reserve) || exists u: Usage :: ph' == Returned(tx, reserve, u))
       case ProviderFailed(tx, _) =>
         ph' == Rejected(tx) && exists acked :: Appended(rows, rows', Uncertain(tx), acked)
       case Returned(_, _, _) => ReconcileStep(j, rows, rows', ph, ph')
       case Booked(tx, reserve, actual, usage) =>
         && rows' == rows
         && ph' == if actual > reserve || Total(rows) > cap then Rejected(tx) else Accepted(tx, actual, usage)
       case Doubtful(tx, _) =>
         ph' == Rejected(tx) && exists acked :: Appended(rows, rows', Uncertain(tx), acked)
       case _ => false
  }

  // ------------------------------------------------------------------- runs

  datatype Config = Config(cap: nat, jobs: seq<Job>)
  datatype State = State(rows: seq<Row>, phases: seq<Phase>)

  ghost predicate Init(c: Config, s: State) {
    && Accounted(s.rows) && Total(s.rows) <= c.cap
    && |s.phases| == |c.jobs| && forall i :: 0 <= i < |s.phases| ==> s.phases[i] == Start
  }

  ghost predicate NextBy(c: Config, s: State, s': State, i: nat) {
    && i < |s.phases| == |c.jobs| && |s'.phases| == |s.phases|
    && s'.phases == s.phases[i := s'.phases[i]]
    && Step(c.jobs[i], c.cap, s.rows, s'.rows, s.phases[i], s'.phases[i])
  }

  ghost predicate Next(c: Config, s: State, s': State) { exists i: nat :: NextBy(c, s, s', i) }

  lemma StepIsNext(c: Config, s: State, s': State, i: nat)
    requires i < |s.phases| == |c.jobs| == |s'.phases| && s'.phases == s.phases[i := s'.phases[i]]
    requires Step(c.jobs[i], c.cap, s.rows, s'.rows, s.phases[i], s'.phases[i])
    ensures Next(c, s, s')
  {
    assert NextBy(c, s, s', i);
  }

  ghost predicate Run(c: Config, run: seq<State>) {
    && run != [] && Init(c, run[0])
    && forall k: nat :: k + 1 < |run| ==> Moves(c, run, k)
  }

  ghost predicate Moves(c: Config, run: seq<State>, k: nat)
    requires k + 1 < |run|
  {
    Next(c, run[k], run[k + 1])
  }

  // -------------------------------------------------------------- invariant

  function TxOf(ph: Phase): Option<nat> {
    match ph
    case Start => None
    case Refused => None
    case Crashed => None
    case Reserved(tx, _) => Some(tx)
    case ProviderFailed(tx, _) => Some(tx)
    case Returned(tx, _, _) => Some(tx)
    case Booked(tx, _, _, _) => Some(tx)
    case Doubtful(tx, _) => Some(tx)
    case Rejected(tx) => Some(tx)
    case Accepted(tx, _, _) => Some(tx)
  }

  /** Is the reviewer's transaction still without a reconcile row? */
  predicate Open(ph: Phase) { ph.Reserved? || ph.ProviderFailed? || ph.Returned? }

  ghost predicate BookedAs(j: Job, rows: seq<Row>, tx: nat, actual: nat, usage: Usage) {
    && ReserveOf(rows, tx) == ReserveAmount(j) && ReserveOf(rows, tx).Some?
    && ReconcileOf(rows, tx) == Some(Netted(tx, ReserveOf(rows, tx).value, actual))
    && Classify(j, usage) == Measured(actual)
  }

  ghost predicate PhaseOk(j: Job, rows: seq<Row>, ph: Phase) {
    && (TxOf(ph).Some? ==> ReserveOf(rows, TxOf(ph).value).Some?)
    && (Open(ph) || ph.Doubtful? ==> ReserveOf(rows, ph.tx) == Some(ph.reserve) == ReserveAmount(j))
    && (Open(ph) ==> ReconcileOf(rows, ph.tx).None?)
    && (ph.Booked? ==> ReserveOf(rows, ph.tx) == Some(ph.reserve) && BookedAs(j, rows, ph.tx, ph.actual, ph.usage))
    && (ph.Accepted? ==> BookedAs(j, rows, ph.tx, ph.actual, ph.usage) && ph.actual <= ReserveOf(rows, ph.tx).value)
  }

  ghost predicate Inv(c: Config, s: State) {
    && |s.phases| == |c.jobs| && Accounted(s.rows)
    && (forall i :: 0 <= i < |s.phases| ==> PhaseOk(c.jobs[i], s.rows, s.phases[i]))
    && (forall i, j :: 0 <= i < j < |s.phases| && TxOf(s.phases[i]).Some? ==> TxOf(s.phases[i]) != TxOf(s.phases[j]))
  }

  /** What one reviewer's step may do to the shared ledger. */
  ghost predicate LedgerMove(rows: seq<Row>, rows': seq<Row>, ph: Phase, ph': Phase) {
    || rows' == rows
    || (exists r :: Fits(rows, r) && rows' == rows + [r] && TxOf(ph') == Some(r.tx)
          && (r.Reserve? <==> ph == Start) && (r.Reconcile? ==> TxOf(ph) == Some(r.tx)))
  }

  /** What a step appends, if anything, fits the ledger and belongs to the stepping reviewer. */
  lemma StepMovesLedger(j: Job, cap: nat, rows: seq<Row>, rows': seq<Row>, ph: Phase, ph': Phase)
    requires PhaseOk(j, rows, ph) && Step(j, cap, rows, rows', ph, ph')
    ensures LedgerMove(rows, rows', ph, ph')
    ensures ph == Start || TxOf(ph').None? || TxOf(ph') == TxOf(ph)
  {
    if ph.Returned? {
      assert Fits(rows, Kept(j, ph.tx, ph.usage));
    }
  }

  lemma MoveKeepsAccounted(rows: seq<Row>, rows': seq<Row>, ph: Phase, ph': Phase)
    requires Accounted(rows) && LedgerMove(rows, rows', ph, ph')
    ensures Accounted(rows')
  {
    if rows' != rows {
      var r :| Fits(rows, r) && rows' == rows + [r];
      AppendFacts(rows, r);
    }
  }

  /** A step leads to a phase whose claims about the ledger are true. */
  lemma StepKeepsPhase(j: Job, cap: nat, rows: seq<Row>, rows': seq<Row>, ph: Phase, ph': Phase)
    requires PhaseOk(j, rows, ph) && Step(j, cap, rows, rows', ph, ph')
    ensures PhaseOk(j, rows', ph')
  {
    if rows' != rows {
      var r := rows'[|rows|];
      assert rows' == rows + [r];
      AppendFacts(rows, r);
      if ph.Returned? { ReconcileKeepsPhase(j, rows, ph, ph', r); }
    }
  }

  lemma ReconcileKeepsPhase(j: Job, rows: seq<Row>, ph: Phase, ph': Phase, r: Row)
    requires ph.Returned? && PhaseOk(j, rows, ph) && (ReconcileStep(j, rows, rows + [r], ph, ph') || ph'.Crashed?)
    ensures PhaseOk(j, rows + [r], ph')
  {
    AppendFacts(rows, r);
    assert rows + [r] != rows && (rows + [r])[|rows|] == r;
  }

  /** A ledger move by one reviewer leaves the others' transactions as they were. */
  lemma OthersKeepPhase(j: Job, rows: seq<Row>, rows': seq<Row>, mine: Phase, mine': Phase, ph: Phase)
    requires PhaseOk(j, rows, ph) && LedgerMove(rows, rows', mine, mine')
    requires TxOf(mine).Some? ==> TxOf(ph) != TxOf(mine)
    ensures PhaseOk(j, rows', ph)
    ensures rows' != rows && mine == Start ==> TxOf(ph) != TxOf(mine')
  {
    if rows' != rows {
      var r :| Fits(rows, r) && rows' == rows + [r] && TxOf(mine') == Some(r.tx)
          && (r.Reserve? <==> mine == Start) && (r.Reconcile? ==> TxOf(mine) == Some(r.tx));
      AppendFacts(rows, r);
    }
  }

  lemma {:induction false} InvInductive(c: Config, s: State, s': State)
    requires Inv(c, s) && Next(c, s, s')
    ensures Inv(c, s')
  {
    var i: nat :| NextBy(c, s, s', i);
    var mine, mine' := s.phases[i], s'.phases[i];
    StepMovesLedger(c.jobs[i], c.cap, s.rows, s'.rows, mine, mine');
    MoveKeepsAccounted(s.rows, s'.rows, mine, mine');
    StepKeepsPhase(c.jobs[i], c.cap, s.rows, s'.rows, mine, mine');
    forall k | 0 <= k < |s.phases| && k != i
      ensures PhaseOk(c.jobs[k], s'.rows, s'.phases[k])
      ensures TxOf(mine').Some? ==> TxOf(s'.phases[k]) != TxOf(mine')
    {
      assert s'.phases[k] == s.phases[k];
      OthersKeepPhase(c.jobs[k], s.rows, s'.rows, mine, mine', s.phases[k]);
    }
  }

  /** The protocol's accounting holds in every state of every run, for every price function. */
  lemma {:induction false} EveryStateAccounted(c: Config, run: seq<State>, k: nat)
    requires Run(c, run) && k < |run|
    ensures Inv(c, run[k])
  {
    if k > 0 {
      EveryStateAccounted(c, run, k - 1);
      assert Moves(c, run, k - 1);
      InvInductive(c, run[k - 1], run[k]);
    }
  }

  /** Total and per-transaction charges agree in every reachable state, crashes included. */
  lemma LedgerTotal(c: Config, run: seq<State>, k: nat)
    requires Run(c, run) && k < |run|
    ensures Total(run[k].rows) == Charges(run[k].rows, run[k].rows)
    ensures forall i, j ::
              0 <= i < j < |run[k].rows| && run[k].rows[i].Reconcile? && run[k].rows[j].Reconcile? ==>
                run[k].rows[i].tx != run[k].rows[j].tx
  {
    EveryStateAccounted(c, run, k);
    TotalIsSumOfCharges(run[k].rows);
    forall i, j | 0 <= i < j < |run[k].rows| && run[k].rows[i].Reconcile? && run[k].rows[j].Reconcile?
      ensures run[k].rows[i].tx != run[k].rows[j].tx
    {
      AtMostOneReconcile(run[k].rows, i, j);
    }
  }

  /**
   A review result is handed back only when its measured row is durable, the served
   model is the requested one and the booked cost is within the reserve.
   */
  lemma ResultOnlyWhenMeasured(c: Config, run: seq<State>, k: nat, i: nat)
    requires Run(c, run) && k < |run| && i < |c.jobs| && i < |run[k].phases| && run[k].phases[i].Accepted?
    ensures var ph := run[k].phases[i];
            var rows := run[k].rows;
            && (exists m :: && 0 <= m < |rows| && rows[m].Reconcile? && rows[m].tx == ph.tx
                            && rows[m].measured && rows[m].actual == ph.actual)
            && ph.usage.Usage?
            && ph.usage.requested == ph.usage.resolved == Some(c.jobs[i].model)
            && ReserveOf(rows, ph.tx).Some? && ph.actual <= ReserveOf(rows, ph.tx).value
            && Charge(rows, ph.tx, ReserveOf(rows, ph.tx).value) == ph.actual
  {
    EveryStateAccounted(c, run, k);
    var ph := run[k].phases[i];
    ReconcileIsListed(run[k].rows, ph.tx);
    assert PhaseOk(c.jobs[i], run[k].rows, ph);
    var r := ReconcileOf(run[k].rows, ph.tx).value;
    var m :| 0 <= m < |run[k].rows| && run[k].rows[m] == r;
  }

  // -------------------------------------------------------------------- cap

  /** The reserve covers every usage that stays within the priced token envelope. */
  ghost predicate Covers(j: Job) {
    ReserveAmount(j).Some? ==>
      forall a: nat, b: nat :: a <= j.maxIn && b <= j.maxOut && j.price(a, b).Some? ==>
        QuantizeCeiling(j.price(a, b).value) <= ReserveAmount(j).value
  }

  /** Prices never fall when tokens grow. */
  ghost predicate Monotone(j: Job) {
    forall a: nat, b: nat, x: nat, y: nat :: a <= x && b <= y && j.price(x, y).Some? && j.price(a, b).Some? ==>
      j.price(a, b).value <= j.price(x, y).value
  }

  lemma QuantizeMonotone(x: real, y: real)
    requires x <= y
    ensures QuantizeCeiling(x) <= QuantizeCeiling(y)
  {
    assert -y * UNITS_PER_USD <= -x * UNITS_PER_USD;
  }

  lemma MonotonePricesCover(j: Job)
    requires Monotone(j)
    ensures Covers(j)
  {
    forall a: nat, b: nat | a <= j.maxIn && b <= j.maxOut && j.price(a, b).Some? && ReserveAmount(j).Some?
      ensures QuantizeCeiling(j.price(a, b).value) <= ReserveAmount(j).value
    {
      QuantizeMonotone(j.price(a, b).value, j.price(j.maxIn, j.maxOut).value);
    }
  }

  /** What the catalog prices: so much per input token and so much per output token. */
  function LinearUsd(a: nat, b: nat, perInput: real, perOutput: real): real {
    a as real * perInput + b as real * perOutput
  }

  ghost predicate PricedLinearly(j: Job, perInput: real, perOutput: real) {
    forall a: nat, b: nat :: j.price(a, b) == Some(LinearUsd(a, b, perInput, perOutput))
  }

  lemma ScaleMonotone(a: nat, x: nat, rate: real)
    requires a <= x && rate >= 0.0
    ensures a as real * rate <= x as real * rate
  {
  }

  /** The program's own pricing is linear in the tokens, so its reserves do cover. */
  lemma LinearPricesCover(j: Job, perInput: real, perOutput: real)
    requires perInput >= 0.0 && perOutput >= 0.0 && PricedLinearly(j, perInput, perOutput)
    ensures Covers(j)
  {
    forall a: nat, b: nat, x: nat, y: nat | a <= x && b <= y
      ensures LinearUsd(a, b, perInput, perOutput) <= LinearUsd(x, y, perInput, perOutput)
    {
      ScaleMonotone(a, x, perInput);
      ScaleMonotone(b, y, perOutput);
    }
    MonotonePricesCover(j);
  }

  /** A measured cost is never above a reserve that covers. */
  lemma ActualWithinReserve(j: Job, u: Usage)
    requires Covers(j) && Classify(j, u).Measured? && ReserveAmount(j).Some?
    ensures Classify(j, u).actual <= ReserveAmount(j).value
  {
    var p := j.price(u.tokens.value.0, u.tokens.value.1).value;
    assert QuantizeCeiling(p) == Classify(j, u).actual;
  }

  // -------------------------------------------------------------- admission

  lemma BlockedStep(j: Job, cap: nat, rows: seq<Row>, rows': seq<Row>, ph: Phase, ph': Phase)
    requires Blocked(rows) && Step(j, cap, rows, rows', ph, ph')
    ensures rows' == rows || (|rows'| == |rows| + 1 && rows' == rows + [rows'[|rows|]] && rows'[|rows|].Reconcile?)
    ensures Blocked(rows')
    ensures ph.Start? ==> ph'.Refused? || ph'.Crashed?
  {
    if rows' != rows {
      var r := rows'[|rows|];
      assert rows' == rows + [r];
      AppendFacts(rows, r);
    }
  }

  /** Not started, refused, or crashed: no transaction of this reviewer will be touched before it reserves one. */
  predicate TurnedAway(ph: Phase) { ph.Start? || ph.Refused? || ph.Crashed? }

  /** No reservation in what was appended after the first n rows. */
  ghost predicate OnlyClosed(rows: seq<Row>, rows': seq<Row>) {
    rows <= rows' && forall m :: |rows| <= m < |rows'| ==> rows'[m].Reconcile?
  }

  /**
   Once the ledger is blocked, no reservation is admitted in any later state: open
   transactions are closed and nothing else is appended, and who has not started is
   turned away.
   */
  lemma {:induction false} BlockedAdmitsNothing(c: Config, run: seq<State>, k: nat, n: nat)
    requires Run(c, run) && k <= n < |run| && Blocked(run[k].rows)
    ensures Blocked(run[n].rows) && OnlyClosed(run[k].rows, run[n].rows)
    ensures |run[k].phases| == |run[n].phases|
    ensures forall i :: 0 <= i < |run[k].phases| && TurnedAway(run[k].phases[i]) ==> TurnedAway(run[n].phases[i])
  {
    if k < n {
      BlockedAdmitsNothing(c, run, k, n - 1);
      assert Moves(c, run, n - 1);
      var i: nat :| NextBy(c, run[n - 1], run[n], i);
      BlockedStep(c.jobs[i], c.cap, run[n - 1].rows, run[n].rows, run[n - 1].phases[i], run[n].phases[i]);
    }
  }

  /** Which rows close admission: those above their reserve, and those marked as unverified. */
  lemma {:induction false} AnyPoisonBlocks(rows: seq<Row>, m: nat)
    requires m < |rows| && rows[m].Reconcile? && (rows[m].delta > 0 || rows[m].unverified)
    ensures Blocked(rows)
  {
    if m < |rows| - 1 { AnyPoisonBlocks(rows[..|rows| - 1], m); }
  }

  /** And no other row does. */
  lemma {:induction false} BlockedHasPoison(rows: seq<Row>)
    requires Blocked(rows)
    ensures exists m :: 0 <= m < |rows| && rows[m].Reconcile? && (rows[m].delta > 0 || rows[m].unverified)
  {
    var n := |rows| - 1;
    if Blocked(rows[..n]) {
      BlockedHasPoison(rows[..n]);
      var m :| 0 <= m < n && rows[..n][m].Reconcile? && (rows[..n][m].delta > 0 || rows[..n][m].unverified);
      assert rows[m] == rows[..n][m];
    }
  }

  /** So a durable row of either kind ends admission for the rest of the run. */
  lemma UnverifiedEndsAdmission(c: Config, run: seq<State>, k: nat, n: nat, m: nat)
    requires Run(c, run) && k <= n < |run| && m < |run[k].rows| && run[k].rows[m].Reconcile?
    requires run[k].rows[m].delta > 0 || run[k].rows[m].unverified
    ensures OnlyClosed(run[k].rows, run[n].rows)
  {
    AnyPoisonBlocks(run[k].rows, m);
    BlockedAdmitsNothing(c, run, k, n);
  }

  /** In particular a booked cost above its reserve is the last thing that admission ever sees. */
  lemma BreachEndsAdmission(c: Config, run: seq<State>, k: nat, n: nat, i: nat)
    requires Run(c, run) && k <= n < |run| && i < |run[k].phases| && run[k].phases[i].Booked?
    requires run[k].phases[i].actual > run[k].phases[i].reserve
    ensures OnlyClosed(run[k].rows, run[n].rows)
  {
    EveryStateAccounted(c, run, k);
    assert PhaseOk(c.jobs[i], run[k].rows, run[k].phases[i]);
    BookedBreachBlocks(run[k].rows, run[k].phases[i].tx);
    BlockedAdmitsNothing(c, run, k, n);
  }

  // ---------------------------------------------------------- never too low

  /** A reviewer that has seen usage u for tx: the ledger books its cost or keeps the reserve. */
  ghost predicate WatchedBy(j: Job, rows: seq<Row>, ph: Phase, tx: nat, res: nat, u: Usage) {
    && ReserveOf(rows, tx) == Some(res)
    && (var booked := ReconcileOf(rows, tx);
        && (ph == Returned(tx, res, u) ==> booked.None?)
        && (booked.Some? && booked.value.measured ==> Classify(j, u) == Measured(booked.value.actual)))
    && (ph == Returned(tx, res, u) || ph == Doubtful(tx, res) || ph.Crashed? || ph == Rejected(tx)
        || ((ph.Booked? || ph.Accepted?) && ph.tx == tx))
  }

  ghost predicate Watched(c: Config, s: State, i: nat, tx: nat, res: nat, u: Usage) {
    && |s.phases| == |c.jobs| && i < |c.jobs|
    && WatchedBy(c.jobs[i], s.rows, s.phases[i], tx, res, u)
    && (forall k :: 0 <= k < |s.phases| && k != i ==> TxOf(s.phases[k]) != Some(tx))
  }

  lemma OwnStepWatched(j: Job, cap: nat, rows: seq<Row>, rows': seq<Row>, ph: Phase, ph': Phase,
                       tx: nat, res: nat, u: Usage)
    requires WatchedBy(j, rows, ph, tx, res, u) && Step(j, cap, rows, rows', ph, ph')
    ensures WatchedBy(j, rows', ph', tx, res, u)
  {
    if rows' != rows {
      var r := rows'[|rows|];
      assert rows' == rows + [r];
      AppendFacts(rows, r);
    }
  }

  lemma OthersStepWatched(j: Job, rows: seq<Row>, rows': seq<Row>, ph: Phase, mine: Phase, mine': Phase,
                          tx: nat, res: nat, u: Usage)
    requires WatchedBy(j, rows, ph, tx, res, u) && LedgerMove(rows, rows', mine, mine')
    requires TxOf(mine) != Some(tx)
    ensures WatchedBy(j, rows', ph, tx, res, u)
    ensures rows' != rows && mine == Start ==> TxOf(mine') != Some(tx)
  {
    if rows' != rows {
      var r :| Fits(rows, r) && rows' == rows + [r] && TxOf(mine') == Some(r.tx)
          && (r.Reserve? <==> mine == Start) && (r.Reconcile? ==> TxOf(mine) == Some(r.tx));
      AppendFacts(rows, r);
    }
  }

  lemma StaysWatched(c: Config, s: State, s': State, i: nat, tx: nat, res: nat, u: Usage)
    requires Watched(c, s, i, tx, res, u) && Next(c, s, s') && Inv(c, s)
    ensures Watched(c, s', i, tx, res, u)
  {
    var k: nat :| NextBy(c, s, s', k);
    var mine, mine' := s.phases[k], s'.phases[k];
    StepMovesLedger(c.jobs[k], c.cap, s.rows, s'.rows, mine, mine');
    assert forall m :: 0 <= m < |s.phases| && m != k ==> s'.phases[m] == s.phases[m];
    if k == i {
      OwnStepWatched(c.jobs[i], c.cap, s.rows, s'.rows, mine, mine', tx, res, u);
    } else {
      OthersStepWatched(c.jobs[i], s.rows, s'.rows, s.phases[i], mine, mine', tx, res, u);
      NoReserveNoTx(c.jobs[k], c.cap, s.rows, s'.rows, mine, mine');
    }
  }

  lemma NoReserveNoTx(j: Job, cap: nat, rows: seq<Row>, rows': seq<Row>, ph: Phase, ph': Phase)
    requires Step(j, cap, rows, rows', ph, ph')
    ensures ph == Start && rows' == rows ==> TxOf(ph').None?
  {
    assert forall r: Row :: rows + [r] != rows;
  }

  lemma {:induction false} WatchLasts(c: Config, run: seq<State>, k: nat, n: nat, i: nat, tx: nat, res: nat, u: Usage)
    requires Run(c, run) && k <= n < |run|
    requires Watched(c, run[k], i, tx, res, u)
    ensures Watched(c, run[n], i, tx, res, u)
  {
    if k < n {
      WatchLasts(c, run, k, n - 1, i, tx, res, u);
      WatchStep(c, run, n - 1, i, tx, res, u);
    }
  }

  lemma WatchStep(c: Config, run: seq<State>, k: nat, i: nat, tx: nat, res: nat, u: Usage)
    requires Run(c, run) && k + 1 < |run| && Watched(c, run[k], i, tx, res, u)
    ensures Watched(c, run[k + 1], i, tx, res, u)
  {
    EveryStateAccounted(c, run, k);
    assert Moves(c, run, k);
    StaysWatched(c, run[k], run[k + 1], i, tx, res, u);
  }

  /**
   The ledger is never short: once a provider has answered with a measurable cost,
   that transaction's charge is at least this cost in every later state, through
   crashes and failed appends alike.
   */
  lemma NeverUndercharged(c: Config, run: seq<State>, k: nat, n: nat, i: nat)
    requires Run(c, run) && k <= n < |run|
    requires i < |c.jobs| == |run[k].phases| && run[k].phases[i].Returned? && Covers(c.jobs[i])
    requires Classify(c.jobs[i], run[k].phases[i].usage).Measured?
    ensures var ph := run[k].phases[i];
            Charge(run[n].rows, ph.tx, ph.reserve) >= Classify(c.jobs[i], ph.usage).actual
  {
    var ph := run[k].phases[i];
    EveryStateAccounted(c, run, k);
    WatchStarts(c, run[k], i);
    WatchLasts(c, run, k, n, i, ph.tx, ph.reserve, ph.usage);
    assert PhaseOk(c.jobs[i], run[k].rows, ph);
    WatchedIsCharged(c.jobs[i], run[n].rows, run[n].phases[i], ph);
  }

  lemma WatchStarts(c: Config, s: State, i: nat)
    requires Inv(c, s) && i < |s.phases| && s.phases[i].Returned?
    ensures Watched(c, s, i, s.phases[i].tx, s.phases[i].reserve, s.phases[i].usage)
  {
    assert PhaseOk(c.jobs[i], s.rows, s.phases[i]);
    forall m | 0 <= m < |s.phases| && m != i ensures TxOf(s.phases[m]) != Some(s.phases[i].tx) {
      if m < i {
        assert TxOf(s.phases[m]).Some? ==> TxOf(s.phases[m]) != TxOf(s.phases[i]);
      } else {
        assert TxOf(s.phases[i]) != TxOf(s.phases[m]);
      }
    }
  }

  lemma WatchedIsCharged(j: Job, rows: seq<Row>, now: Phase, ph: Phase)
    requires Covers(j) && ph.Returned? && Classify(j, ph.usage).Measured? && ReserveAmount(j) == Some(ph.reserve)
    requires WatchedBy(j, rows, now, ph.tx, ph.reserve, ph.usage)
    ensures Charge(rows, ph.tx, ph.reserve) >= Classify(j, ph.usage).actual
  {
    ActualWithinReserve(j, ph.usage);
  }
}
