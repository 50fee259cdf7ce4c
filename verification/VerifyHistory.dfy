/** Folding a cycle event stream into trailing rows, one per cycle, with the verify result beside. */
module VerifyHistory {
  import opened Wrappers

  datatype Kind = VerifyResult | ProgressVerdict | GoalReinject | OtherKind(name: string)

  /** `content` stands for the whole mapping, `status` for its status entry. */
  datatype Payload = NotMapping | Payload(status: Option<string>, content: string)

  /** An entry of the stream that is no mapping, or one cycle event; "" is a missing cycle id. */
  datatype Event = Foreign | Event(cycle: string, kind: Kind, payload: Payload)

  datatype Row = Row(cycle: string, kind: Kind, status: Option<string>)
  datatype HistoryRow = HistoryRow(row: Row, verify: Option<Payload>)

  predicate Counts(e: Event) { e.Event? && e.cycle != "" }

  predicate Telemetry(e: Event) { e.Event? && (e.kind.ProgressVerdict? || e.kind.GoalReinject?) }

  predicate Represents(e: Event) { Counts(e) && !Telemetry(e) }

  predicate Verifies(e: Event) { Counts(e) && e.kind.VerifyResult? && e.payload.Payload? }

  function RowFrom(e: Event): Row
    requires e.Event?
  {
    Row(e.cycle, e.kind, if e.payload.Payload? then e.payload.status else None)
  }

  // ------------------------------------------------------------ what it means

  /** The cycles that have a representing event, by first appearance. */
  function Cycles(events: seq<Event>): seq<string> {
    if events == [] then []
    else
      var before, e := Cycles(events[..|events| - 1]), events[|events| - 1];
      if Represents(e) && e.cycle !in before then before + [e.cycle] else before
  }

  /** A cycle's last representing event. */
  function LastRow(events: seq<Event>, cycle: string): Option<Row> {
    if events == [] then None
    else
      var e := events[|events| - 1];
      if Represents(e) && e.cycle == cycle then Some(RowFrom(e)) else LastRow(events[..|events| - 1], cycle)
  }

  /** A cycle's last verify payload, wherever in the stream it is. */
  function LastVerify(events: seq<Event>, cycle: string): Option<Payload> {
    if events == [] then None
    else
      var e := events[|events| - 1];
      if Verifies(e) && e.cycle == cycle then Some(e.payload) else LastVerify(events[..|events| - 1], cycle)
  }

  function Trail<T>(s: seq<T>, window: int): seq<T> {
    if 0 < window < |s| then s[|s| - window..] else s
  }

  lemma {:induction false} CycleHasRow(events: seq<Event>, cycle: string)
    ensures cycle in Cycles(events) <==> LastRow(events, cycle).Some?
  {
    if events != [] { CycleHasRow(events[..|events| - 1], cycle); }
  }

  function RowOf(events: seq<Event>, cycle: string): HistoryRow
    requires cycle in Cycles(events)
  {
    CycleHasRow(events, cycle);
    HistoryRow(LastRow(events, cycle).value, LastVerify(events, cycle))
  }

  function Rows(events: seq<Event>, window: int): seq<HistoryRow> {
    var ids := Trail(Cycles(events), window);
    seq(|ids|, i requires 0 <= i < |ids| => RowOf(events, ids[i]))
  }

  // ---------------------------------------------------------------- one pass

  /** The running maps agree with the events seen so far. */
  ghost predicate Folded(events: seq<Event>, perCycle: map<string, Row>, order: seq<string>,
                         verify: map<string, Payload>)
  {
    && order == Cycles(events)
    && (forall c :: c in perCycle <==> c in order)
    && (forall c :: c in perCycle ==> LastRow(events, c) == Some(perCycle[c]))
    && (forall c :: LastVerify(events, c) == if c in verify then Some(verify[c]) else None)
  }

  // ------------------------------------------------- what the rows say, spelled out

  /** An event that gives its cycle a row: any kind but the two kinds of telemetry. */
  predicate GivesRow(e: Event, cycle: string) {
    e.Event? && e.cycle == cycle && cycle != "" && e.kind != ProgressVerdict && e.kind != GoalReinject
  }

  predicate GivesVerify(e: Event, cycle: string) {
    e.Event? && e.cycle == cycle && cycle != "" && e.kind == VerifyResult && e.payload != NotMapping
  }

  /** The row is that of the cycle's last event that gives one. */
  ghost predicate FromLastEvent(events: seq<Event>, row: Row) {
    exists p: nat :: p < |events| && FromEventAt(events, row, p)
  }

  predicate FromEventAt(events: seq<Event>, row: Row, p: nat)
    requires p < |events|
  {
    && GivesRow(events[p], row.cycle) && row.kind == events[p].kind
    && row.status == (if events[p].payload == NotMapping then None else events[p].payload.status)
    && forall q :: p < q < |events| ==> !GivesRow(events[q], row.cycle)
  }

  /** The payload is that of the cycle's last verify result, if there is one. */
  ghost predicate FromLastVerify(events: seq<Event>, cycle: string, verify: Option<Payload>) {
    match verify
    case None => forall p :: 0 <= p < |events| ==> !GivesVerify(events[p], cycle)
    case Some(payload) => exists p: nat :: p < |events| && FromVerifyAt(events, cycle, payload, p)
  }

  predicate FromVerifyAt(events: seq<Event>, cycle: string, payload: Payload, p: nat)
    requires p < |events|
  {
    && GivesVerify(events[p], cycle) && events[p].payload == payload
    && forall q :: p < q < |events| ==> !GivesVerify(events[q], cycle)
  }

  lemma {:induction false} LastRowSpelled(events: seq<Event>, cycle: string)
    ensures match LastRow(events, cycle)
            case None => forall p :: 0 <= p < |events| && cycle != "" ==> !GivesRow(events[p], cycle)
            case Some(row) => row.cycle == cycle && FromLastEvent(events, row)
  {
    if events != [] {
      var n := |events| - 1;
      LastRowSpelled(events[..n], cycle);
      if Represents(events[n]) && events[n].cycle == cycle {
        assert FromEventAt(events, RowFrom(events[n]), n);
      } else if LastRow(events[..n], cycle).Some? {
        var row := LastRow(events[..n], cycle).value;
        var p: nat :| p < n && FromEventAt(events[..n], row, p);
        LaterRow(events, row, p);
      }
    }
  }

  lemma LaterRow(events: seq<Event>, row: Row, p: nat)
    requires p < |events| - 1 && FromEventAt(events[..|events| - 1], row, p)
    requires !GivesRow(events[|events| - 1], row.cycle)
    ensures FromEventAt(events, row, p)
  {
    var init := events[..|events| - 1];
    assert init[p] == events[p];
    forall q | p < q < |events| ensures !GivesRow(events[q], row.cycle) {
      if q < |init| { assert init[q] == events[q]; }
    }
  }

  lemma {:induction false} LastVerifySpelled(events: seq<Event>, cycle: string)
    ensures FromLastVerify(events, cycle, LastVerify(events, cycle))
  {
    if events != [] {
      var n := |events| - 1;
      LastVerifySpelled(events[..n], cycle);
      if Verifies(events[n]) && events[n].cycle == cycle {
        assert FromVerifyAt(events, cycle, events[n].payload, n);
      } else if LastVerify(events[..n], cycle).Some? {
        var payload := LastVerify(events[..n], cycle).value;
        var p: nat :| p < n && FromVerifyAt(events[..n], cycle, payload, p);
        LaterVerify(events, cycle, payload, p);
      } else {
        assert forall p :: 0 <= p < n ==> events[..n][p] == events[p];
      }
    }
  }

  lemma LaterVerify(events: seq<Event>, cycle: string, payload: Payload, p: nat)
    requires p < |events| - 1 && FromVerifyAt(events[..|events| - 1], cycle, payload, p)
    requires !GivesVerify(events[|events| - 1], cycle)
    ensures FromVerifyAt(events, cycle, payload, p)
  {
    var init := events[..|events| - 1];
    assert init[p] == events[p];
    forall q | p < q < |events| ensures !GivesVerify(events[q], cycle) {
      if q < |init| { assert init[q] == events[q]; }
    }
  }

  /** The trailing rows: the last cycles by first appearance, as many as the window takes, or all. */
  ghost predicate TrailingRows(events: seq<Event>, window: int, rows: seq<HistoryRow>) {
    var all := Cycles(events);
    && |rows| == (if 0 < window < |all| then window else |all|)
    && (forall i :: 0 <= i < |rows| ==> rows[i].row.cycle == all[|all| - |rows| + i])
    && (forall i :: 0 <= i < |rows| ==>
          FromLastEvent(events, rows[i].row) && FromLastVerify(events, rows[i].row.cycle, rows[i].verify))
  }

  lemma {:induction false} RowsTrail(events: seq<Event>, window: int)
    ensures TrailingRows(events, window, Rows(events, window))
  {
    var rows := Rows(events, window);
    forall i | 0 <= i < |rows|
      ensures rows[i].row.cycle == Cycles(events)[|Cycles(events)| - |rows| + i]
      ensures FromLastEvent(events, rows[i].row) && FromLastVerify(events, rows[i].row.cycle, rows[i].verify)
    {
      var cycle := Trail(Cycles(events), window)[i];
      CycleHasRow(events, cycle);
      LastRowSpelled(events, cycle);
      LastVerifySpelled(events, cycle);
    }
  }

  /** A cycle is listed exactly when some event gives it a row. */
  lemma {:induction false} ListedExactly(events: seq<Event>, cycle: string)
    ensures cycle in Cycles(events) <==> exists p :: 0 <= p < |events| && GivesRow(events[p], cycle)
  {
    CycleAppears(events, cycle);
    if p :| 0 <= p < |events| && GivesRow(events[p], cycle) { assert Represents(events[p]); }
    if Appears(events, cycle) {
      var i :| 0 <= i < |events| && Represents(events[i]) && events[i].cycle == cycle;
      assert GivesRow(events[i], cycle);
    }
  }

  method VerifyHistoryRows(events: seq<Event>, window: int) returns (rows: seq<HistoryRow>)
    ensures rows == Rows(events, window)
    ensures TrailingRows(events, window, rows)
  {
    RowsTrail(events, window);
    var perCycle: map<string, Row>, order: seq<string>, verify: map<string, Payload> := map[], [], map[];
    for i := 0 to |events|
      invariant Folded(events[..i], perCycle, order, verify)
    {
      var e := events[i];
      assert events[..i + 1] == events[..i] + [e];
      FoldedNext(events[..i], e, perCycle, order, verify);
      if !Counts(e) { continue; }
      if Verifies(e) { verify := verify[e.cycle := e.payload]; }
      if Telemetry(e) { continue; }
      if e.cycle !in perCycle { order := order + [e.cycle]; }
      perCycle := perCycle[e.cycle := RowFrom(e)];
    }
    assert events[..|events|] == events;
    rows := Assemble(events, Trail(order, window), perCycle, order, verify);
  }

  /** One row for each listed cycle. */
  method Assemble(ghost events: seq<Event>, ids: seq<string>, perCycle: map<string, Row>, ghost order: seq<string>,
                  verify: map<string, Payload>)
    returns (rows: seq<HistoryRow>)
    requires Folded(events, perCycle, order, verify) && forall i :: 0 <= i < |ids| ==> ids[i] in order
    ensures |rows| == |ids| && forall i :: 0 <= i < |ids| ==> rows[i] == RowOf(events, ids[i])
  {
    rows := [];
    for i := 0 to |ids|
      invariant |rows| == i && forall j :: 0 <= j < i ==> rows[j] == RowOf(events, ids[j])
    {
      CycleHasRow(events, ids[i]);
      rows := rows + [HistoryRow(perCycle[ids[i]], if ids[i] in verify then Some(verify[ids[i]]) else None)];
    }
  }

  lemma FoldedNext(events: seq<Event>, e: Event, perCycle: map<string, Row>, order: seq<string>,
                   verify: map<string, Payload>)
    requires Folded(events, perCycle, order, verify)
    ensures Folded(events + [e],
                   if Represents(e) then perCycle[e.cycle := RowFrom(e)] else perCycle,
                   if Represents(e) && e.cycle !in perCycle then order + [e.cycle] else order,
                   if Verifies(e) then verify[e.cycle := e.payload] else verify)
  {
    assert (events + [e])[..|events|] == events;
  }

  // -------------------------------------------------------------- properties

  /** Cycles are listed once each. */
  lemma {:induction false} CyclesDistinct(events: seq<Event>)
    ensures forall i, j :: 0 <= i < j < |Cycles(events)| ==> Cycles(events)[i] != Cycles(events)[j]
  {
    if events != [] {
      CyclesDistinct(events[..|events| - 1]);
      var before, e := Cycles(events[..|events| - 1]), events[|events| - 1];
      assert e.Event? && e.cycle !in before ==> forall i :: 0 <= i < |before| ==> before[i] != e.cycle;
    }
  }

  predicate Appears(events: seq<Event>, cycle: string) {
    exists i :: 0 <= i < |events| && Represents(events[i]) && events[i].cycle == cycle
  }

  lemma {:induction false} CycleAppears(events: seq<Event>, cycle: string)
    ensures cycle in Cycles(events) <==> Appears(events, cycle)
  {
    if events != [] {
      var before, e := events[..|events| - 1], events[|events| - 1];
      CycleAppears(before, cycle);
      assert forall i :: 0 <= i < |before| ==> before[i] == events[i];
    }
  }

  /** The rows stand in the order in which their cycles first appear. */
  lemma {:induction false} FirstAppearanceOrder(events: seq<Event>, i: nat, j: nat) returns (p: nat)
    requires i < j < |Cycles(events)|
    ensures p <= |events| && Appears(events[..p], Cycles(events)[i]) && !Appears(events[..p], Cycles(events)[j])
  {
    var before := events[..|events| - 1];
    if j < |Cycles(before)| {
      p := FirstAppearanceOrder(before, i, j);
      assert before[..p] == events[..p];
    } else {
      p := |before|;
      CycleAppears(before, Cycles(events)[i]);
      CycleAppears(before, Cycles(events)[j]);
    }
  }

  /** A row carries its cycle's last representing event and its last verify payload. */
  lemma {:induction false} LastRowIsLast(events: seq<Event>, cycle: string) returns (i: nat)
    requires cycle in Cycles(events)
    ensures i < |events| && Represents(events[i]) && events[i].cycle == cycle
    ensures RowOf(events, cycle).row == RowFrom(events[i])
    ensures forall k :: i < k < |events| && Represents(events[k]) ==> events[k].cycle != cycle
  {
    CycleHasRow(events, cycle);
    i := LastRowIndex(events, cycle);
  }

  lemma {:induction false} LastRowIndex(events: seq<Event>, cycle: string) returns (i: nat)
    requires LastRow(events, cycle).Some?
    ensures i < |events| && Represents(events[i]) && events[i].cycle == cycle
    ensures LastRow(events, cycle) == Some(RowFrom(events[i]))
    ensures forall k :: i < k < |events| && Represents(events[k]) ==> events[k].cycle != cycle
  {
    var n := |events| - 1;
    if Represents(events[n]) && events[n].cycle == cycle {
      i := n;
    } else {
      i := LastRowIndex(events[..n], cycle);
      assert forall k :: 0 <= k < n ==> events[..n][k] == events[k];
    }
  }

  lemma {:induction false} LastVerifyIsLast(events: seq<Event>, cycle: string)
    ensures match LastVerify(events, cycle)
            case None => forall i :: 0 <= i < |events| && Verifies(events[i]) ==> events[i].cycle != cycle
            case Some(p) =>
              exists i ::
                && 0 <= i < |events| && Verifies(events[i]) && events[i].cycle == cycle && events[i].payload == p
                && forall k :: i < k < |events| && Verifies(events[k]) ==> events[k].cycle != cycle
  {
    if events != [] {
      var n := |events| - 1;
      LastVerifyIsLast(events[..n], cycle);
      assert forall k :: 0 <= k < n ==> events[..n][k] == events[k];
      if !(Verifies(events[n]) && events[n].cycle == cycle) && LastVerify(events, cycle).Some? {
        var i :| 0 <= i < n && Verifies(events[..n][i]) && events[..n][i].cycle == cycle
                 && events[..n][i].payload == LastVerify(events, cycle).value
                 && forall k :: i < k < n && Verifies(events[..n][k]) ==> events[..n][k].cycle != cycle;
        assert Verifies(events[i]) && events[i].cycle == cycle;
      }
    }
  }

  /** The stream with some events taken out. */
  function Kept(events: seq<Event>, keep: seq<bool>): seq<Event>
    requires |keep| == |events|
  {
    if events == [] then []
    else
      Kept(events[..|events| - 1], keep[..|keep| - 1])
      + if keep[|keep| - 1] then [events[|events| - 1]] else []
  }

  lemma {:induction false} KeptMeansSame(events: seq<Event>, keep: seq<bool>, cycle: string)
    requires |keep| == |events| && forall i :: 0 <= i < |events| && !keep[i] ==> Telemetry(events[i])
    ensures Cycles(Kept(events, keep)) == Cycles(events)
    ensures LastRow(Kept(events, keep), cycle) == LastRow(events, cycle)
    ensures LastVerify(Kept(events, keep), cycle) == LastVerify(events, cycle)
  {
    if events != [] {
      var n := |events| - 1;
      KeptMeansSame(events[..n], keep[..n], cycle);
      var before := Kept(events[..n], keep[..n]);
      assert (before + [events[n]])[..|before|] == before;
      assert before + [] == before;
    }
  }

  /** Telemetry is invisible: taking any of the progress and reinjection events out changes no row. */
  lemma {:induction false} TelemetryInvisible(events: seq<Event>, keep: seq<bool>, window: int)
    requires |keep| == |events| && forall i :: 0 <= i < |events| && !keep[i] ==> Telemetry(events[i])
    ensures Rows(Kept(events, keep), window) == Rows(events, window)
  {
    KeptMeansSame(events, keep, "");
    var ids := Trail(Cycles(events), window);
    forall i | 0 <= i < |ids| ensures Rows(Kept(events, keep), window)[i] == Rows(events, window)[i] {
      KeptMeansSame(events, keep, ids[i]);
    }
  }
}
