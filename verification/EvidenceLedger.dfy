/** When evidence bursts may be dispatched, and how far apart they then are. */
module EvidenceLedger {
  import opened Wrappers

  datatype Stamp = At(t: real) | NotANumber
  datatype Reason = EvidenceProvided | DispatchError | Cooldown | QuotaExhausted | OtherReason(text: string)
  datatype Row = Row(dispatched: bool, ts: Stamp, reason: Reason)

  /** A setting that is missing, unreadable or not positive falls back to its default. */
  function FloatSetting(value: Option<real>, default: real): (v: real)
    requires default > 0.0
    ensures v > 0.0
  {
    if value.Some? && value.value > 0.0 then value.value else default
  }

  datatype Config = Config(minInterval: Option<real>, quotaOn: bool, maxPerEpisode: Option<real>,
                           defaultInterval: real, defaultMax: real)

  predicate Proper(c: Config) { c.defaultInterval > 0.0 && c.defaultMax > 0.0 }

  function CooldownOf(c: Config): (v: real)
    requires Proper(c)
    ensures v > 0.0
  {
    FloatSetting(c.minInterval, c.defaultInterval)
  }

  /** int() of a positive setting: a value below one is a limit of zero. */
  function LimitOf(c: Config): (m: nat)
    requires Proper(c)
  {
    FloatSetting(c.maxPerEpisode, c.defaultMax).Floor
  }

  /** One call: the clock it reads, and whether its dispatch works out. */
  datatype Call = Call(now: real, works: bool)

  function Later(a: Option<real>, t: real): Option<real> { Some(if a.Some? && a.value > t then a.value else t) }

  /** The latest time of a dispatched row; None when there is none. */
  function LastAttempt(rows: seq<Row>): Option<real> {
    if rows == [] then None
    else
      var r, before := rows[|rows| - 1], LastAttempt(rows[..|rows| - 1]);
      if r.dispatched && r.ts.At? then Later(before, r.ts.t) else before
  }

  function Dispatched(rows: seq<Row>): nat {
    if rows == [] then 0 else Dispatched(rows[..|rows| - 1]) + if rows[|rows| - 1].dispatched then 1 else 0
  }

  function Resting(c: Config, rows: seq<Row>, now: real): bool
    requires Proper(c)
  {
    LastAttempt(rows).Some? && now - LastAttempt(rows).value < CooldownOf(c)
  }

  /** The row a call leaves behind. */
  function RowFor(c: Config, rows: seq<Row>, call: Call): Row
    requires Proper(c)
  {
    if Resting(c, rows, call.now) && !c.quotaOn then Row(false, At(call.now), Cooldown)
    else if Resting(c, rows, call.now) && Dispatched(rows) >= LimitOf(c) then Row(false, At(call.now), QuotaExhausted)
    else if call.works then Row(true, At(call.now), EvidenceProvided)
    else Row(false, At(call.now), DispatchError)
  }

  /** Some dispatched row is less than a cooldown old. */
  ghost predicate JustDispatched(c: Config, rows: seq<Row>, now: real) {
    exists i :: && 0 <= i < |rows| && rows[i].dispatched && rows[i].ts.At?
                && now - rows[i].ts.t < SettingOr(c.minInterval, c.defaultInterval)
  }

  function SettingOr(value: Option<real>, default: real): real {
    match value case Some(v) => if v > 0.0 then v else default case None => default
  }

  /** The row of a call: a burst just before it and no quota left refuse it, and nothing else does. */
  ghost function RowSpelled(c: Config, rows: seq<Row>, call: Call): Row {
    var used := |DispatchedAt(rows)|;
    if JustDispatched(c, rows, call.now) && (!c.quotaOn || used >= SettingOr(c.maxPerEpisode, c.defaultMax).Floor) then
      Row(false, At(call.now), if c.quotaOn then QuotaExhausted else Cooldown)
    else
      Row(call.works, At(call.now), if call.works then EvidenceProvided else DispatchError)
  }

  lemma {:induction false} AttemptIsMaximum(rows: seq<Row>)
    ensures match LastAttempt(rows)
            case None => forall i :: 0 <= i < |rows| && rows[i].dispatched ==> !rows[i].ts.At?
            case Some(t) =>
              && (exists i :: 0 <= i < |rows| && rows[i].dispatched && rows[i].ts == At(t))
              && forall i :: 0 <= i < |rows| && rows[i].dispatched && rows[i].ts.At? ==> rows[i].ts.t <= t
  {
    if rows != [] {
      var init := rows[..|rows| - 1];
      AttemptIsMaximum(init);
      assert forall i :: 0 <= i < |init| ==> init[i] == rows[i];
    }
  }

  function DispatchedAt(rows: seq<Row>): set<int> { set i | 0 <= i < |rows| && rows[i].dispatched }

  lemma {:induction false} CountIsCardinality(rows: seq<Row>)
    ensures Dispatched(rows) == |DispatchedAt(rows)|
  {
    if rows != [] {
      var n := |rows| - 1;
      CountIsCardinality(rows[..n]);
      assert DispatchedAt(rows) == DispatchedAt(rows[..n]) + if rows[n].dispatched then {n} else {};
    }
  }

  lemma {:induction false} RowIsSpelled(c: Config, rows: seq<Row>, call: Call)
    requires Proper(c)
    ensures RowFor(c, rows, call) == RowSpelled(c, rows, call)
  {
    AttemptIsMaximum(rows);
    CountIsCardinality(rows);
  }

  class Ledger {
    var rows: seq<Row>

    method LastAttemptTs() returns (latest: Option<real>)
      ensures latest == LastAttempt(rows)
    {
      latest := None;
      for i := 0 to |rows|
        invariant latest == LastAttempt(rows[..i])
      {
        assert rows[..i + 1][..i] == rows[..i];
        var r := rows[i];
        if !r.dispatched { continue; }
        if r.ts.At? { latest := if latest.None? || latest.value < r.ts.t then Some(r.ts.t) else latest; }
      }
      assert rows[..|rows|] == rows;
    }

    method DispatchedCount() returns (n: nat)
      ensures n == Dispatched(rows)
    {
      n := 0;
      for i := 0 to |rows|
        invariant n == Dispatched(rows[..i])
      {
        assert rows[..i + 1][..i] == rows[..i];
        if rows[i].dispatched { n := n + 1; }
      }
      assert rows[..|rows|] == rows;
    }

    /** One evidence call: refuse with a row, or dispatch and record it. */
    method EvidenceBlocks(c: Config, call: Call) returns (provided: bool)
      requires Proper(c)
      modifies this
      ensures rows == old(rows) + [RowFor(c, old(rows), call)]
      ensures provided == RowFor(c, old(rows), call).dispatched
      ensures rows == old(rows) + [RowSpelled(c, old(rows), call)]
    {
      RowIsSpelled(c, rows, call);
      var last := LastAttemptTs();
      if last.Some? && call.now - last.value < CooldownOf(c) {
        if c.quotaOn {
          var used := DispatchedCount();
          if used >= LimitOf(c) {
            rows := rows + [Row(false, At(call.now), QuotaExhausted)];
            return false;
          }
        } else {
          rows := rows + [Row(false, At(call.now), Cooldown)];
          return false;
        }
      }
      provided := call.works;
      rows := rows + [Row(call.works, At(call.now), if call.works then EvidenceProvided else DispatchError)];
    }
  }

  // -------------------------------------------------------------------- runs

  /** The ledger after these calls, one after another, whatever the clock says. */
  function After(c: Config, calls: seq<Call>): seq<Row>
    requires Proper(c)
  {
    if calls == [] then []
    else
      var before := After(c, calls[..|calls| - 1]);
      before + [RowFor(c, before, calls[|calls| - 1])]
  }

  /** The times of the dispatches, in order. */
  function Times(rows: seq<Row>): seq<real> {
    if rows == [] then []
    else
      var r := rows[|rows| - 1];
      Times(rows[..|rows| - 1]) + if r.dispatched && r.ts.At? then [r.ts.t] else []
  }

  function Latest(ts: seq<real>): real
    requires ts != []
  {
    var last := ts[|ts| - 1];
    if |ts| == 1 then last
    else
      var before := Latest(ts[..|ts| - 1]);
      if before < last then last else before
  }

  /** The latest time is one of the times and above all of them. */
  lemma {:induction false} LatestIsMaximum(ts: seq<real>)
    requires ts != []
    ensures Latest(ts) in ts
    ensures forall i :: 0 <= i < |ts| ==> ts[i] <= Latest(ts)
  {
    if |ts| > 1 {
      var before := ts[..|ts| - 1];
      LatestIsMaximum(before);
      assert forall i :: 0 <= i < |before| ==> before[i] == ts[i];
    }
  }

  lemma LatestNext(ts: seq<real>, t: real)
    ensures Latest(ts + [t]) == if ts == [] || Latest(ts) < t then t else Latest(ts)
  {
    assert (ts + [t])[..|ts|] == ts;
  }

  lemma {:induction false} AttemptIsLatest(rows: seq<Row>)
    ensures LastAttempt(rows) == if Times(rows) == [] then None else Some(Latest(Times(rows)))
  {
    if rows != [] {
      var before, r := rows[..|rows| - 1], rows[|rows| - 1];
      AttemptIsLatest(before);
      if r.dispatched && r.ts.At? {
        LatestNext(Times(before), r.ts.t);
      } else {
        assert Times(rows) == Times(before);
      }
    }
  }

  predicate AllStamped(rows: seq<Row>) { forall i :: 0 <= i < |rows| ==> rows[i].ts.At? }

  lemma {:induction false} CountIsTimes(rows: seq<Row>)
    requires AllStamped(rows)
    ensures Dispatched(rows) == |Times(rows)|
  {
    if rows != [] { CountIsTimes(rows[..|rows| - 1]); }
  }

  /** One call adds at most one time, and says why it could. */
  lemma CallAddsTime(c: Config, rows: seq<Row>, call: Call)
    requires Proper(c) && AllStamped(rows)
    ensures var next := rows + [RowFor(c, rows, call)];
            && AllStamped(next)
            && (Times(next) == Times(rows)
                || (Times(next) == Times(rows) + [call.now]
                    && (Times(rows) == [] || call.now >= Latest(Times(rows)) + CooldownOf(c)
                        || (c.quotaOn && |Times(rows)| < LimitOf(c)))))
  {
    var next := rows + [RowFor(c, rows, call)];
    assert next[..|rows|] == rows;
    AttemptIsLatest(rows);
    CountIsTimes(rows);
    assert Times(rows) + [] == Times(rows);
  }

  lemma {:induction false} AfterStamped(c: Config, calls: seq<Call>)
    requires Proper(c)
    ensures AllStamped(After(c, calls))
  {
    if calls != [] {
      AfterStamped(c, calls[..|calls| - 1]);
      CallAddsTime(c, After(c, calls[..|calls| - 1]), calls[|calls| - 1]);
    }
  }

  /** Each time is at least a cooldown above every earlier one. */
  ghost predicate Spaced(ts: seq<real>, gap: real) {
    forall i, j :: 0 <= i < j < |ts| ==> ts[j] >= ts[i] + gap
  }

  /** Without the quota, dispatches are at least one cooldown apart, over any run and any clock. */
  lemma {:induction false} DispatchesSpaced(c: Config, calls: seq<Call>)
    requires Proper(c) && !c.quotaOn
    ensures Spaced(Times(After(c, calls)), CooldownOf(c))
  {
    if calls != [] {
      var before, call := After(c, calls[..|calls| - 1]), calls[|calls| - 1];
      DispatchesSpaced(c, calls[..|calls| - 1]);
      AfterStamped(c, calls[..|calls| - 1]);
      CallAddsTime(c, before, call);
      SpacedNext(Times(before), call.now, CooldownOf(c));
    }
  }

  lemma SpacedNext(ts: seq<real>, t: real, gap: real)
    requires Spaced(ts, gap)
    ensures ts == [] || t >= Latest(ts) + gap ==> Spaced(ts + [t], gap)
  {
    if ts != [] { LatestIsMaximum(ts); }
  }

  function FreeDispatches(c: Config): (m: nat)
    requires Proper(c)
    ensures m >= 1
  {
    if c.quotaOn && LimitOf(c) > 1 then LimitOf(c) else 1
  }

  /** n gaps end to end. */
  function Gaps(n: nat, gap: real): real { if n == 0 then 0.0 else Gaps(n - 1, gap) + gap }

  lemma {:induction false} GapsMultiply(n: nat, gap: real)
    ensures Gaps(n, gap) == n as real * gap
  {
    if n > 0 {
      GapsMultiply(n - 1, gap);
      assert n as real * gap == (n - 1) as real * gap + gap;
    }
  }

  ghost predicate QuotaSpaced(ts: seq<real>, m: nat, gap: real)
    requires m >= 1
  {
    |ts| >= m ==> Latest(ts) >= Latest(ts[..m]) + Gaps(|ts| - m, gap)
  }

  lemma {:induction false} QuotaSpacingOverRun(c: Config, calls: seq<Call>)
    requires Proper(c)
    ensures QuotaSpaced(Times(After(c, calls)), FreeDispatches(c), CooldownOf(c))
  {
    if calls != [] {
      var before, call := After(c, calls[..|calls| - 1]), calls[|calls| - 1];
      QuotaSpacingOverRun(c, calls[..|calls| - 1]);
      AfterStamped(c, calls[..|calls| - 1]);
      CallAddsTime(c, before, call);
      if Times(After(c, calls)) != Times(before) {
        QuotaNext(Times(before), call.now, FreeDispatches(c), CooldownOf(c));
      }
    }
  }

  lemma QuotaNext(ts: seq<real>, t: real, m: nat, gap: real)
    requires m >= 1 && QuotaSpaced(ts, m, gap) && (|ts| < m || t >= Latest(ts) + gap)
    ensures QuotaSpaced(ts + [t], m, gap)
  {
    if |ts| < m {
      FirstFree(ts + [t], m, gap);
    } else {
      LaterSpaced(ts, t, ts + [t], m, gap);
    }
  }

  lemma LaterSpaced(ts: seq<real>, t: real, next: seq<real>, m: nat, gap: real)
    requires 1 <= m <= |ts| && QuotaSpaced(ts, m, gap) && t >= Latest(ts) + gap && next == ts + [t]
    ensures QuotaSpaced(next, m, gap)
  {
    var base := Latest(ts[..m]);
    assert next[..m] == ts[..m];
    LatestNext(ts, t);
    assert Latest(next) >= t;
    OneGapMore(Latest(ts), t, base, |ts| - m, gap);
  }

  lemma FirstFree(ts: seq<real>, m: nat, gap: real)
    requires 1 <= m && |ts| <= m
    ensures QuotaSpaced(ts, m, gap)
  {
    assert |ts| == m ==> ts[..m] == ts;
  }

  lemma OneGapMore(latest: real, t: real, base: real, n: nat, gap: real)
    requires latest >= base + Gaps(n, gap) && t >= latest + gap
    ensures t >= base + Gaps(n + 1, gap)
  {
  }

  /**
   With the quota, the first `max(1, limit)` dispatches are free; each of the `further`
   ones moves the latest time on by at least a cooldown.
   */
  lemma QuotaSpacing(c: Config, calls: seq<Call>) returns (further: nat)
    requires Proper(c) && |Times(After(c, calls))| >= FreeDispatches(c)
    ensures further == |Times(After(c, calls))| - FreeDispatches(c)
    ensures var ts := Times(After(c, calls));
            Latest(ts) >= Latest(ts[..FreeDispatches(c)]) + further as real * CooldownOf(c)
  {
    further := |Times(After(c, calls))| - FreeDispatches(c);
    QuotaSpacingOverRun(c, calls);
    GapsMultiply(further, CooldownOf(c));
  }

  /** So a run whose clock never passes `end` makes only so many further dispatches. */
  lemma DispatchesBounded(c: Config, calls: seq<Call>, end: real) returns (further: nat)
    requires Proper(c) && |Times(After(c, calls))| >= FreeDispatches(c)
    requires forall i :: 0 <= i < |calls| ==> calls[i].now <= end
    ensures further == |Times(After(c, calls))| - FreeDispatches(c)
    ensures further as real * CooldownOf(c) <= end - Latest(Times(After(c, calls))[..FreeDispatches(c)])
  {
    further := QuotaSpacing(c, calls);
    TimesFromCalls(c, calls, end);
    LatestIsMaximum(Times(After(c, calls)));
  }

  lemma {:induction false} TimesFromCalls(c: Config, calls: seq<Call>, end: real)
    requires Proper(c) && forall i :: 0 <= i < |calls| ==> calls[i].now <= end
    ensures forall i :: 0 <= i < |Times(After(c, calls))| ==> Times(After(c, calls))[i] <= end
  {
    if calls != [] {
      TimesFromCalls(c, calls[..|calls| - 1], end);
      AfterStamped(c, calls[..|calls| - 1]);
      CallAddsTime(c, After(c, calls[..|calls| - 1]), calls[|calls| - 1]);
    }
  }
}
