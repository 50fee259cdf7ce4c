/** How far above the cap the reviewers can ever take the ledger, and exactly when they cannot at all. */
module SpendCap {
  import opened Wrappers
  import opened SpendLedger
  import opened SpendProtocol

  // ------------------------------------------------------------- overshoot

  function Larger(x: nat, y: nat): nat { if x < y then y else x }

  /** By how much these token counts cost more than the reserve. */
  function OverAt(j: Job, res: nat, a: nat, b: nat): nat {
    match j.price(a, b)
    case None => 0
    case Some(p) => if QuantizeCeiling(p) > res then QuantizeCeiling(p) - res else 0
  }

  function OverRow(j: Job, res: nat, a: nat, n: nat): nat {
    if n == 0 then OverAt(j, res, a, 0) else Larger(OverRow(j, res, a, n - 1), OverAt(j, res, a, n))
  }

  function OverGrid(j: Job, res: nat, m: nat): nat {
    if m == 0 then OverRow(j, res, 0, j.maxOut) else Larger(OverGrid(j, res, m - 1), OverRow(j, res, m, j.maxOut))
  }

  /** The most by which a usage within the envelope costs more than the reserve. */
  function Overshoot(j: Job): nat {
    match ReserveAmount(j)
    case None => 0
    case Some(res) => OverGrid(j, res, j.maxIn)
  }

  lemma {:induction false} RowIsMost(j: Job, res: nat, a: nat, n: nat) returns (b: nat)
    ensures b <= n && OverRow(j, res, a, n) == OverAt(j, res, a, b)
    ensures forall k: nat :: k <= n ==> OverAt(j, res, a, k) <= OverRow(j, res, a, n)
  {
    b := n;
    if n > 0 {
      var b0 := RowIsMost(j, res, a, n - 1);
      if OverRow(j, res, a, n - 1) >= OverAt(j, res, a, n) { b := b0; }
    }
  }

  lemma {:induction false} GridIsMost(j: Job, res: nat, m: nat) returns (a: nat, b: nat)
    ensures a <= m && b <= j.maxOut && OverGrid(j, res, m) == OverAt(j, res, a, b)
    ensures forall x: nat, y: nat :: x <= m && y <= j.maxOut ==> OverAt(j, res, x, y) <= OverGrid(j, res, m)
  {
    a := m;
    b := RowIsMost(j, res, m, j.maxOut);
    if m > 0 {
      var a0, b0 := GridIsMost(j, res, m - 1);
      if OverGrid(j, res, m - 1) >= OverRow(j, res, m, j.maxOut) { a, b := a0, b0; }
    }
  }

  /** Nothing to overshoot by: the reserve covers. */
  lemma OvershootIsZero(j: Job)
    ensures Overshoot(j) == 0 <==> Covers(j)
  {
    if ReserveAmount(j).Some? {
      var res := ReserveAmount(j).value;
      var a, b := GridIsMost(j, res, j.maxIn);
      forall x: nat, y: nat | Overshoot(j) == 0 && x <= j.maxIn && y <= j.maxOut && j.price(x, y).Some?
        ensures QuantizeCeiling(j.price(x, y).value) <= res
      {
        assert OverAt(j, res, x, y) <= 0;
      }
    }
  }

  lemma MeasuredWithinOvershoot(j: Job, u: Usage)
    requires Classify(j, u).Measured? && ReserveAmount(j).Some?
    ensures Classify(j, u).actual <= ReserveAmount(j).value + Overshoot(j)
  {
    var res := ReserveAmount(j).value;
    var a, b := GridIsMost(j, res, j.maxIn);
    var x, y := u.tokens.value.0, u.tokens.value.1;
    assert OverAt(j, res, x, y) <= Overshoot(j);
  }

  /** The overshoot is reached by some usage that the provider may publish. */
  lemma OvershootReached(j: Job) returns (u: Usage)
    requires Overshoot(j) > 0
    ensures ReserveAmount(j).Some? && Classify(j, u) == Measured(ReserveAmount(j).value + Overshoot(j))
  {
    var res := ReserveAmount(j).value;
    var a, b := GridIsMost(j, res, j.maxIn);
    u := Usage(Some(j.model), Some(j.model), Some((a, b)), NotReported);
  }

  function TotalOvershoot(jobs: seq<Job>): nat {
    if jobs == [] then 0 else TotalOvershoot(jobs[..|jobs| - 1]) + Overshoot(jobs[|jobs| - 1])
  }

  function ReserveOr0(j: Job): nat { if ReserveAmount(j).Some? then ReserveAmount(j).value else 0 }

  function LargestReserve(jobs: seq<Job>): nat {
    if jobs == [] then 0 else Larger(LargestReserve(jobs[..|jobs| - 1]), ReserveOr0(jobs[|jobs| - 1]))
  }

  /** What the least headroom keeps free whichever reservation comes last. */
  function Slack(jobs: seq<Job>): nat {
    if LargestReserve(jobs) < MIN_HEADROOM then MIN_HEADROOM - LargestReserve(jobs) else 0
  }

  lemma {:induction false} LargestIsMost(jobs: seq<Job>, i: nat)
    requires i < |jobs|
    ensures ReserveOr0(jobs[i]) <= LargestReserve(jobs)
  {
    if i < |jobs| - 1 {
      assert jobs[..|jobs| - 1][i] == jobs[i];
      LargestIsMost(jobs[..|jobs| - 1], i);
    }
  }

  lemma {:induction false} LargestIsSome(jobs: seq<Job>) returns (i: nat)
    requires jobs != []
    ensures i < |jobs| && ReserveOr0(jobs[i]) == LargestReserve(jobs)
  {
    i := |jobs| - 1;
    var init := jobs[..|jobs| - 1];
    if init != [] && LargestReserve(init) >= ReserveOr0(jobs[i]) {
      i := LargestIsSome(init);
    }
  }

  // ----------------------------------------------------------- never above

  /** What this reviewer may still add to the ledger beyond its reserve. */
  function Share(j: Job, ph: Phase): nat {
    if ph.Start? || ph.Reserved? || ph.Returned? then Overshoot(j) else 0
  }

  function Left(jobs: seq<Job>, phases: seq<Phase>): nat
    requires |jobs| == |phases|
  {
    if jobs == [] then 0
    else
      var n := |jobs| - 1;
      Left(jobs[..n], phases[..n]) + Share(jobs[n], phases[n])
  }

  lemma {:induction false} LeftUpdate(jobs: seq<Job>, phases: seq<Phase>, i: nat, ph: Phase)
    requires |jobs| == |phases| && i < |jobs|
    ensures Left(jobs, phases[i := ph]) + Share(jobs[i], phases[i]) == Left(jobs, phases) + Share(jobs[i], ph)
  {
    var n := |jobs| - 1;
    if i == n {
      assert phases[i := ph][..n] == phases[..n];
    } else {
      assert phases[i := ph][..n] == phases[..n][i := ph];
      LeftUpdate(jobs[..n], phases[..n], i, ph);
    }
  }

  lemma {:induction false} LeftAtMost(jobs: seq<Job>, phases: seq<Phase>)
    requires |jobs| == |phases|
    ensures Left(jobs, phases) <= TotalOvershoot(jobs)
  {
    if jobs != [] { LeftAtMost(jobs[..|jobs| - 1], phases[..|jobs| - 1]); }
  }

  /** Nobody is in the middle of a transaction. */
  predicate Quiet(c: Config, s: State) {
    Total(s.rows) <= c.cap && forall i :: 0 <= i < |s.phases| ==> TurnedAway(s.phases[i])
  }

  /** With all that may still come, the ledger stays within the cap, the overshoots and less the slack. */
  predicate Bounded(c: Config, s: State) {
    && |s.phases| == |c.jobs|
    && Total(s.rows) + Left(c.jobs, s.phases) + Slack(c.jobs) <= c.cap + TotalOvershoot(c.jobs)
  }

  /** A reviewer that holds a transaction adds no more than the part of its share that it uses up. */
  lemma ShareIsUsedUp(j: Job, cap: nat, rows: seq<Row>, rows': seq<Row>, ph: Phase, ph': Phase)
    requires PhaseOk(j, rows, ph) && Step(j, cap, rows, rows', ph, ph') && !ph.Start?
    ensures Total(rows') + Share(j, ph') <= Total(rows) + Share(j, ph)
  {
    if rows' != rows {
      var r := rows'[|rows|];
      assert rows' == rows + [r];
      AppendFacts(rows, r);
      if ph.Returned? && Classify(j, ph.usage).Measured? { MeasuredWithinOvershoot(j, ph.usage); }
    }
  }

  lemma FirstStepBounded(j: Job, cap: nat, rows: seq<Row>, rows': seq<Row>, ph': Phase)
    requires Step(j, cap, rows, rows', Start, ph')
    ensures rows' == rows ==> TurnedAway(ph')
    ensures rows' != rows ==> Total(rows') <= cap && Total(rows') + MIN_HEADROOM <= cap + ReserveOr0(j)
    ensures Share(j, ph') <= Overshoot(j)
  {
    if rows' != rows {
      var r := rows'[|rows|];
      assert rows' == rows + [r];
      AppendFacts(rows, r);
    } else {
      assert forall r: Row :: rows + [r] != rows;
    }
  }

  lemma StepKeepsBound(c: Config, s: State, s': State, i: nat)
    requires Inv(c, s) && NextBy(c, s, s', i) && (Quiet(c, s) || Bounded(c, s))
    ensures Quiet(c, s') || Bounded(c, s')
  {
    var j, ph, ph' := c.jobs[i], s.phases[i], s'.phases[i];
    LeftUpdate(c.jobs, s.phases, i, ph');
    if ph.Start? {
      FirstStepBounded(j, c.cap, s.rows, s'.rows, ph');
      if s'.rows != s.rows {
        LargestIsMost(c.jobs, i);
        LeftAtMost(c.jobs, s'.phases);
      }
    } else {
      assert PhaseOk(j, s.rows, ph);
      ShareIsUsedUp(j, c.cap, s.rows, s'.rows, ph, ph');
    }
  }

  /**
   The most that the ledger can ever hold: the cap, or as much more as all overshoots
   together exceed the slack.
   */
  lemma {:induction false} OverrunBounded(c: Config, run: seq<State>, k: nat)
    requires Run(c, run) && k < |run|
    ensures Total(run[k].rows) <= c.cap || Total(run[k].rows) + Slack(c.jobs) <= c.cap + TotalOvershoot(c.jobs)
  {
    EveryStateBounded(c, run, k);
  }

  lemma {:induction false} EveryStateBounded(c: Config, run: seq<State>, k: nat)
    requires Run(c, run) && k < |run|
    ensures Quiet(c, run[k]) || Bounded(c, run[k])
  {
    if k > 0 {
      EveryStateBounded(c, run, k - 1);
      EveryStateAccounted(c, run, k - 1);
      assert Moves(c, run, k - 1);
      var i: nat :| NextBy(c, run[k - 1], run[k], i);
      StepKeepsBound(c, run[k - 1], run[k], i);
    }
  }

  lemma {:induction false} CoveredNeverOvershoot(jobs: seq<Job>)
    requires forall i :: 0 <= i < |jobs| ==> Covers(jobs[i])
    ensures TotalOvershoot(jobs) == 0
  {
    if jobs != [] {
      CoveredNeverOvershoot(jobs[..|jobs| - 1]);
      OvershootIsZero(jobs[|jobs| - 1]);
    }
  }

  /** When every reserve covers, no interleaving and no crash ever takes the ledger above the cap. */
  lemma CapNeverExceeded(c: Config, run: seq<State>, k: nat)
    requires Run(c, run) && k < |run|
    requires forall i :: 0 <= i < |c.jobs| ==> Covers(c.jobs[i])
    ensures Total(run[k].rows) <= c.cap
  {
    CoveredNeverOvershoot(c.jobs);
    OverrunBounded(c, run, k);
  }

  // ---------------------------------------------------- exactly when it holds

  /** The cap holds in every run of these reviewers, from every ledger and under every cap. */
  ghost predicate CapHolds(jobs: seq<Job>) {
    forall cap: nat, run: seq<State>, k: nat :: Run(Config(cap, jobs), run) && k < |run| ==> Total(run[k].rows) <= cap
  }

  /** The cap holds in every run exactly when all overshoots together fit into what the headroom keeps free. */
  lemma CapHoldsExactly(jobs: seq<Job>)
    ensures CapHolds(jobs) <==> TotalOvershoot(jobs) <= Slack(jobs)
  {
    if TotalOvershoot(jobs) <= Slack(jobs) {
      forall cap: nat, run: seq<State>, k: nat | Run(Config(cap, jobs), run) && k < |run|
        ensures Total(run[k].rows) <= cap
      {
        OverrunBounded(Config(cap, jobs), run, k);
      }
    } else {
      var cap, run := OvershootRun(jobs);
      assert Total(run[|run| - 1].rows) > cap;
    }
  }

  /** With one reserve as large as the headroom there is no slack, and every reserve must cover. */
  lemma CapNeedsCoverage(jobs: seq<Job>)
    requires LargestReserve(jobs) >= MIN_HEADROOM
    ensures CapHolds(jobs) <==> forall i :: 0 <= i < |jobs| ==> Covers(jobs[i])
  {
    CapHoldsExactly(jobs);
    if forall i :: 0 <= i < |jobs| ==> Covers(jobs[i]) { CoveredNeverOvershoot(jobs); }
    if TotalOvershoot(jobs) == 0 {
      forall i | 0 <= i < |jobs| ensures Covers(jobs[i]) {
        OvershootWithin(jobs, i);
        OvershootIsZero(jobs[i]);
      }
    }
  }

  lemma {:induction false} OvershootWithin(jobs: seq<Job>, i: nat)
    requires i < |jobs|
    ensures Overshoot(jobs[i]) <= TotalOvershoot(jobs)
  {
    if i < |jobs| - 1 {
      assert jobs[..|jobs| - 1][i] == jobs[i];
      OvershootWithin(jobs[..|jobs| - 1], i);
    }
  }

  // --------------------------------------------------------- the worst run

  /** The sum of the reserves of the first n reviewers without m. */
  function ReservesBut(jobs: seq<Job>, n: nat, m: nat): nat
    requires n <= |jobs|
  {
    if n == 0 then 0 else ReservesBut(jobs, n - 1, m) + if n - 1 == m then 0 else ReserveOr0(jobs[n - 1])
  }

  lemma {:induction false} ReservesGrow(jobs: seq<Job>, n: nat, k: nat, m: nat)
    requires n <= k <= |jobs|
    ensures ReservesBut(jobs, n, m) <= ReservesBut(jobs, k, m)
  {
    if n < k { ReservesGrow(jobs, n, k - 1, m); }
  }

  lemma {:induction false} SomeoneOvershoots(jobs: seq<Job>) returns (i: nat)
    requires TotalOvershoot(jobs) > 0
    ensures i < |jobs| && Overshoot(jobs[i]) > 0
  {
    i := |jobs| - 1;
    if Overshoot(jobs[i]) == 0 { i := SomeoneOvershoots(jobs[..|jobs| - 1]); }
  }

  /** A reviewer that can reserve, and reserves most. */
  lemma LargestPriced(jobs: seq<Job>) returns (m: nat)
    requires TotalOvershoot(jobs) > 0
    ensures m < |jobs| && ReserveAmount(jobs[m]) == Some(LargestReserve(jobs))
  {
    var i := SomeoneOvershoots(jobs);
    LargestIsMost(jobs, i);
    m := LargestIsSome(jobs);
    if ReserveAmount(jobs[m]).None? { m := i; }
  }

  ghost predicate Idle(s: State, i: nat)
    requires i < |s.phases|
  {
    s.phases[i] == Start && ReserveOf(s.rows, i).None? && ReconcileOf(s.rows, i).None?
  }

  /** Reviewer i holds the transaction with its own number. */
  ghost predicate Holds(j: Job, s: State, i: nat)
    requires i < |s.phases|
  {
    && ReserveAmount(j).Some? && s.phases[i] == Reserved(i, ReserveAmount(j).value)
    && ReserveOf(s.rows, i) == ReserveAmount(j) && ReconcileOf(s.rows, i).None?
  }

  /** The first n reviewers without m have reserved. */
  ghost predicate Gathered(c: Config, s: State, n: nat, m: nat)
    requires n <= |c.jobs|
  {
    && |s.phases| == |c.jobs| && !Blocked(s.rows) && Total(s.rows) == ReservesBut(c.jobs, n, m)
    && forall i: nat :: i < |c.jobs| ==>
         if i < n && i != m && ReserveAmount(c.jobs[i]).Some? then Holds(c.jobs[i], s, i) else Idle(s, i)
  }

  /** From here on all that can reserve have, and the first n have paid their overshoot. */
  ghost predicate Paid(c: Config, s: State, base: nat, n: nat)
    requires n <= |c.jobs|
  {
    && |s.phases| == |c.jobs| && Total(s.rows) == base + TotalOvershoot(c.jobs[..n])
    && forall i: nat :: n <= i < |c.jobs| && ReserveAmount(c.jobs[i]).Some? ==> Holds(c.jobs[i], s, i)
  }

  function Moved(s: State, i: nat, rows: seq<Row>, ph: Phase): State
    requires i < |s.phases|
  {
    State(rows, s.phases[i := ph])
  }

  lemma MovedByStep(c: Config, s: State, i: nat, rows: seq<Row>, ph: Phase)
    requires i < |s.phases| == |c.jobs| && Step(c.jobs[i], c.cap, s.rows, rows, s.phases[i], ph)
    ensures Next(c, s, Moved(s, i, rows, ph))
  {
    StepIsNext(c, s, Moved(s, i, rows, ph), i);
  }

  lemma Extended(c: Config, run: seq<State>, s: State)
    requires Run(c, run) && Next(c, run[|run| - 1], s)
    ensures Run(c, run + [s])
  {
    var longer := run + [s];
    forall k: nat | k + 1 < |longer| ensures Moves(c, longer, k) {
      if k + 1 < |run| { assert Moves(c, run, k); }
    }
  }

  /** Reviewer i reserves under its own number. */
  lemma Reserves(c: Config, s: State, i: nat)
    requires i < |s.phases| == |c.jobs| && Idle(s, i) && ReserveAmount(c.jobs[i]).Some?
    requires Admits(s.rows, ReserveAmount(c.jobs[i]).value, c.cap)
    ensures var res := ReserveAmount(c.jobs[i]).value;
            Next(c, s, Moved(s, i, s.rows + [Reserve(i, res)], Reserved(i, res)))
  {
    var res := ReserveAmount(c.jobs[i]).value;
    assert Fits(s.rows, Reserve(i, res));
    MovedByStep(c, s, i, s.rows + [Reserve(i, res)], Reserved(i, res));
  }

  lemma ReservedFacts(c: Config, s: State, i: nat, k: nat)
    requires i < |s.phases| == |c.jobs| && ReserveAmount(c.jobs[i]).Some? && k < |c.jobs|
    requires Idle(s, i)
    ensures var res := ReserveAmount(c.jobs[i]).value;
            var s' := Moved(s, i, s.rows + [Reserve(i, res)], Reserved(i, res));
            && Total(s'.rows) == Total(s.rows) + res && (Blocked(s'.rows) <==> Blocked(s.rows))
            && Holds(c.jobs[i], s', i)
            && (k != i ==> (Idle(s, k) ==> Idle(s', k)) && (Holds(c.jobs[k], s, k) ==> Holds(c.jobs[k], s', k)))
  {
    AppendFacts(s.rows, Reserve(i, ReserveAmount(c.jobs[i]).value));
  }

  lemma {:induction false} OthersReserve(c: Config, n: nat, m: nat) returns (run: seq<State>)
    requires n <= |c.jobs| && ReservesBut(c.jobs, |c.jobs|, m) + MIN_HEADROOM <= c.cap
    ensures Run(c, run) && Gathered(c, run[|run| - 1], n, m)
  {
    if n == 0 {
      run := [State([], seq(|c.jobs|, i => Start))];
    } else {
      run := OthersReserve(c, n - 1, m);
      var s, i := run[|run| - 1], n - 1;
      if i != m && ReserveAmount(c.jobs[i]).Some? {
        var res := ReserveAmount(c.jobs[i]).value;
        var s' := Moved(s, i, s.rows + [Reserve(i, res)], Reserved(i, res));
        ReservesGrow(c.jobs, n, |c.jobs|, m);
        Reserves(c, s, i);
        Extended(c, run, s');
        forall k: nat | k < |c.jobs|
          ensures if k < n && k != m && ReserveAmount(c.jobs[k]).Some? then Holds(c.jobs[k], s', k) else Idle(s', k)
        {
          ReservedFacts(c, s, i, k);
        }
        ReservedFacts(c, s, i, i);
        run := run + [s'];
      }
    }
  }

  /** Reviewer i's provider reports the worst usage, and the cost is booked. */
  lemma Overshoots(c: Config, s: State, i: nat) returns (mid: State, s': State)
    requires i < |s.phases| == |c.jobs| && Holds(c.jobs[i], s, i) && Overshoot(c.jobs[i]) > 0
    ensures Next(c, s, mid) && Next(c, mid, s') && |s'.phases| == |c.jobs|
    ensures Total(s'.rows) == Total(s.rows) + Overshoot(c.jobs[i])
    ensures forall k: nat :: k < |c.jobs| && k != i && Holds(c.jobs[k], s, k) ==> Holds(c.jobs[k], s', k)
  {
    var res := ReserveAmount(c.jobs[i]).value;
    var u := OvershootReached(c.jobs[i]);
    var actual := res + Overshoot(c.jobs[i]);
    var r := Netted(i, res, actual);
    mid := Moved(s, i, s.rows, Returned(i, res, u));
    MovedByStep(c, s, i, s.rows, Returned(i, res, u));
    assert Appended(s.rows, s.rows + [r], r, true);
    s' := Moved(mid, i, s.rows + [r], Booked(i, res, actual, u));
    MovedByStep(c, mid, i, s.rows + [r], Booked(i, res, actual, u));
    AppendFacts(s.rows, r);
  }

  lemma {:induction false} AllOvershoot(c: Config, run: seq<State>, n: nat) returns (longer: seq<State>)
    requires n <= |c.jobs| && Run(c, run) && Total(run[|run| - 1].rows) >= 0
    requires Paid(c, run[|run| - 1], Total(run[|run| - 1].rows), 0)
    ensures Run(c, longer) && Paid(c, longer[|longer| - 1], Total(run[|run| - 1].rows), n)
  {
    if n == 0 {
      longer := run;
    } else {
      longer := AllOvershoot(c, run, n - 1);
      var s, i := longer[|longer| - 1], n - 1;
      assert c.jobs[..n][..i] == c.jobs[..i];
      if Overshoot(c.jobs[i]) > 0 {
        var mid, s' := Overshoots(c, s, i);
        Extended(c, longer, mid);
        Extended(c, longer + [mid], s');
        longer := longer + [mid] + [s'];
      }
    }
  }

  /** Everyone but m reserves, then m; then each pays its overshoot. */
  lemma OvershootRun(jobs: seq<Job>) returns (cap: nat, run: seq<State>)
    requires TotalOvershoot(jobs) > 0
    ensures Run(Config(cap, jobs), run)
    ensures Total(run[|run| - 1].rows) + Slack(jobs) == cap + TotalOvershoot(jobs)
  {
    var m := LargestPriced(jobs);
    var res := LargestReserve(jobs);
    var others := ReservesBut(jobs, |jobs|, m);
    cap := others + Larger(res, MIN_HEADROOM);
    var c := Config(cap, jobs);
    run := OthersReserve(c, |jobs|, m);
    var s := run[|run| - 1];
    var s' := Moved(s, m, s.rows + [Reserve(m, res)], Reserved(m, res));
    Reserves(c, s, m);
    Extended(c, run, s');
    forall k: nat | k < |jobs| && ReserveAmount(jobs[k]).Some? ensures Holds(jobs[k], s', k) {
      ReservedFacts(c, s, m, k);
    }
    ReservedFacts(c, s, m, m);
    assert jobs[..0] == [] && jobs[..|jobs|] == jobs;
    run := AllOvershoot(c, run + [s'], |jobs|);
  }
}
