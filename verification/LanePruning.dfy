/** Cutting the planned lanes of an evidence burst down to what the cap can pay. */
module LanePruning {
  import opened Wrappers

  /** A float: an infinity and a NaN are not finite. */
  datatype Amount = Finite(value: real) | NotFinite

  /** The probed configuration: lanes of each of the two pods, and the price estimate of one lane. */
  datatype Probe = Probe(gridTaskCount: int, tokensPerLane: int, usdPerKtoken: Amount)

  const WORST_CASE_MARGIN := 2.0

  /** What to dispatch: the plan as it is, this many tasks of each pod, or nothing. */
  datatype Plan = AsPlanned | Pruned(gridTaskCount: nat) | Skipped

  function EstPerLane(p: Probe): Amount {
    match p.usdPerKtoken
    case NotFinite => NotFinite
    case Finite(usd) => Finite(p.tokensPerLane as real / 1000.0 * usd * WORST_CASE_MARGIN)
  }

  predicate Usable(a: Amount) { a.Finite? && a.value > 0.0 }

  /** None is a probe that failed: it must not stop the dispatch. */
  function PlanPruned(probe: Option<Probe>, maxUsd: Amount): Plan {
    if probe.None? then AsPlanned
    else
      var planned, est := 2 * probe.value.gridTaskCount, EstPerLane(probe.value);
      var invalid := !Usable(est) || !Usable(maxUsd);
      var affordable := if invalid || (maxUsd.value / est.value).Floor < 0 then 0 else (maxUsd.value / est.value).Floor;
      if !invalid && planned as real * est.value <= maxUsd.value then AsPlanned
      else
        var pruned := affordable / 2;
        if pruned < 1 then Skipped else Pruned(pruned)
  }

  /** The worst case of dispatching this many lanes. */
  function WorstCase(lanes: int, est: real): real { lanes as real * est }

  lemma Scale(a: real, b: real, c: real)
    requires a <= b && c > 0.0
    ensures a * c <= b * c
  {
  }

  /** Lanes that fit under the cap are those up to the floor of the quotient. */
  lemma AffordableMeans(lanes: int, est: real, cap: real)
    requires est > 0.0 && cap > 0.0
    ensures lanes as real * est <= cap <==> lanes <= (cap / est).Floor
  {
    var q := cap / est;
    assert q * est == cap;
    if lanes <= q.Floor {
      Scale(lanes as real, q, est);
    } else {
      assert lanes as real >= q.Floor as real + 1.0 > q;
      assert (lanes as real - q) * est > 0.0;
    }
  }

  /** Sound: unless the probe failed, whatever goes ahead costs at most the cap. */
  lemma PlanWithinCap(probe: Option<Probe>, maxUsd: Amount)
    requires probe.Some? && !PlanPruned(probe, maxUsd).Skipped?
    ensures Usable(EstPerLane(probe.value)) && Usable(maxUsd)
    ensures var lanes := match PlanPruned(probe, maxUsd)
                         case AsPlanned => 2 * probe.value.gridTaskCount
                         case Pruned(n) => 2 * n
                         case Skipped => 0;
            WorstCase(lanes, EstPerLane(probe.value).value) <= maxUsd.value
  {
    var plan := PlanPruned(probe, maxUsd);
    if plan.Pruned? {
      AffordableMeans(2 * plan.gridTaskCount, EstPerLane(probe.value).value, maxUsd.value);
    }
  }

  /** Maximal: pruning happens only when the plan is too dear, and leaves the most lanes two equal pods can have. */
  lemma PruningIsMaximal(probe: Option<Probe>, maxUsd: Amount, more: int)
    requires PlanPruned(probe, maxUsd).Pruned? && more > PlanPruned(probe, maxUsd).gridTaskCount
    ensures var n, est := PlanPruned(probe, maxUsd).gridTaskCount, EstPerLane(probe.value).value;
            && 1 <= n && 2 * n < 2 * probe.value.gridTaskCount
            && WorstCase(2 * probe.value.gridTaskCount, est) > maxUsd.value
            && WorstCase(2 * more, est) > maxUsd.value
  {
    var n, est := PlanPruned(probe, maxUsd).gridTaskCount, EstPerLane(probe.value).value;
    AffordableMeans(2 * probe.value.gridTaskCount, est, maxUsd.value);
    AffordableMeans(2 * more, est, maxUsd.value);
  }

  lemma MoreLanesCostMore(a: int, b: int, est: real)
    requires a <= b && est > 0.0
    ensures WorstCase(a, est) <= WorstCase(b, est)
  {
    Scale(a as real, b as real, est);
  }

  /** A burst is skipped exactly when a quantity is invalid, or the plan does not fit and two lanes do not either. */
  lemma SkippedExactly(probe: Option<Probe>, maxUsd: Amount)
    requires probe.Some?
    ensures PlanPruned(probe, maxUsd).Skipped? <==>
            || !Usable(EstPerLane(probe.value)) || !Usable(maxUsd)
            || (WorstCase(2 * probe.value.gridTaskCount, EstPerLane(probe.value).value) > maxUsd.value
                && WorstCase(2, EstPerLane(probe.value).value) > maxUsd.value)
  {
    if Usable(EstPerLane(probe.value)) && Usable(maxUsd) {
      AffordableMeans(2, EstPerLane(probe.value).value, maxUsd.value);
    }
  }

  /** With at least one task planned, that is: exactly when two lanes are out of reach. */
  lemma SkippedWhenTwoLanesTooDear(probe: Option<Probe>, maxUsd: Amount)
    requires probe.Some? && probe.value.gridTaskCount >= 1
    requires Usable(EstPerLane(probe.value)) && Usable(maxUsd)
    ensures PlanPruned(probe, maxUsd).Skipped? <==> WorstCase(2, EstPerLane(probe.value).value) > maxUsd.value
  {
    var est := EstPerLane(probe.value).value;
    SkippedExactly(probe, maxUsd);
    MoreLanesCostMore(2, 2 * probe.value.gridTaskCount, est);
  }
}
