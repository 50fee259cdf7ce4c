/** The bounded escalation ring, its append-only sidecar, and what a restart recovers. */
module ContinuationRing {
  datatype Key = Key(runId: string, sessionId: string, pod: string)
  predicate IsCanonicalStatus(t: string) {
    t == "accepted" || t == "escalated" || t == "continuation_pending" || t == "rejected"
  }

  type OtherStatusText = t: string | !IsCanonicalStatus(t)

  datatype Status = Accepted | Escalated | ContinuationPending | Rejected | OtherStatus(text: OtherStatusText)
  datatype Entry = Entry(cycle: int, status: Status, decision: string, timestamp: real)
  datatype Row = Row(key: Key, entry: Entry)

  predicate IsEscalated(e: Entry) { e.status.Escalated? }

  /** Python's s[-n:].  With n == 0 it is the whole of s; with n < 0 it drops the first -n members. */
  function LastSlice<T>(s: seq<T>, n: int): seq<T> {
    if n > 0 then s[if |s| < n then 0 else |s| - n..]
    else s[if |s| < -n then |s| else -n..]
  }

  function Trimmed<T>(s: seq<T>, maxSize: int): seq<T> {
    if |s| > maxSize then LastSlice(s, maxSize) else s
  }

  function Mine(rows: seq<Row>, key: Key): seq<Entry> {
    if rows == [] then []
    else Mine(rows[..|rows| - 1], key) + if rows[|rows| - 1].key == key then [rows[|rows| - 1].entry] else []
  }

  /** How many entries at the end, without a gap, are escalated. */
  function Streak(es: seq<Entry>): nat {
    if es != [] && IsEscalated(es[|es| - 1]) then 1 + Streak(es[..|es| - 1]) else 0
  }

  /** The streak is the whole escalated run at the end: all of it is escalated, and what stands before it is not. */
  lemma {:induction false} StreakIsRunAtEnd(es: seq<Entry>)
    ensures Streak(es) <= |es| && forall i :: |es| - Streak(es) <= i < |es| ==> es[i].status == Escalated
    ensures Streak(es) < |es| ==> es[|es| - 1 - Streak(es)].status != Escalated
  {
    if es != [] && IsEscalated(es[|es| - 1]) {
      var init := es[..|es| - 1];
      StreakIsRunAtEnd(init);
      assert forall i :: 0 <= i < |init| ==> init[i] == es[i];
    }
  }

  class Sidecar {
    var rows: seq<Row>
    constructor ()
      ensures rows == []
    {
      rows := [];
    }
  }

  class StatusHistoryRing {
    const key: Key
    const maxSize: int
    const sidecar: Sidecar
    var persist: bool
    var entries: seq<Entry>

    constructor (key: Key, maxSize: int, sidecar: Sidecar)
      ensures this.key == key && this.maxSize == maxSize && this.sidecar == sidecar
      ensures persist && entries == []
    {
      this.key, this.maxSize, this.sidecar := key, maxSize, sidecar;
      persist, entries := true, [];
    }

    /** Nothing happens when the ring's gate is off. */
    method Append(on: bool, e: Entry)
      modifies this`entries, sidecar
      ensures entries == if on then Trimmed(old(entries) + [e], maxSize) else old(entries)
      ensures sidecar.rows == if on && persist then old(sidecar.rows) + [Row(key, e)] else old(sidecar.rows)
    {
      if !on { return; }
      entries := entries + [e];
      if |entries| > maxSize {
        entries := LastSlice(entries, maxSize);
      }
      if persist {
        sidecar.rows := sidecar.rows + [Row(key, e)];
      }
    }

    method Tail(on: bool, n: int) returns (r: seq<Entry>)
      ensures |r| == if !on || n <= 0 then 0 else if n < |entries| then n else |entries|
      ensures r == entries[|entries| - |r|..]
    {
      if !on { return []; }
      r := if n > 0 then LastSlice(entries, n) else [];
    }

    method TrailingEscalatedCount(on: bool) returns (count: nat)
      ensures count == if on then Streak(entries) else 0
    {
      count := 0;
      if !on { return; }
      var i := |entries|;
      assert entries[..i] == entries;
      while i > 0
        invariant 0 <= i <= |entries| && count == |entries| - i
        invariant Streak(entries) == count + Streak(entries[..i])
      {
        assert entries[..i][..i - 1] == entries[..i - 1];
        if !IsEscalated(entries[i - 1]) { return; }
        count := count + 1;
        i := i - 1;
      }
    }
  }

  /** Rebuild a ring from its sidecar, which other rings may share. */
  method LoadFromSidecar(on: bool, key: Key, maxSize: int, sidecar: Sidecar) returns (ring: StatusHistoryRing)
    ensures fresh(ring) && ring.key == key && ring.maxSize == maxSize && ring.sidecar == sidecar
    ensures ring.persist == on
    ensures ring.entries == if on then LastSlice(Mine(sidecar.rows, key), maxSize) else []
  {
    ring := new StatusHistoryRing(key, maxSize, sidecar);
    ring.persist := false;
    if !on { return; }
    var matching: seq<Entry> := [];
    for i := 0 to |sidecar.rows|
      invariant matching == Mine(sidecar.rows[..i], key) && ring.entries == [] && !ring.persist
      invariant sidecar.rows == old(sidecar.rows)
    {
      assert sidecar.rows[..i + 1][..i] == sidecar.rows[..i];
      if sidecar.rows[i].key == key { matching := matching + [sidecar.rows[i].entry]; }
    }
    assert sidecar.rows[..|sidecar.rows|] == sidecar.rows;
    var kept := LastSlice(matching, maxSize);
    for i := 0 to |kept|
      invariant ring.entries == kept[..i] && !ring.persist && sidecar.rows == old(sidecar.rows)
    {
      ring.entries := ring.entries + [kept[i]];
    }
    ring.persist := true;
  }

  // --------------------------------------------------------- one live ring

  /** A ring that is never restarted, after these appends. */
  function Live<T>(appends: seq<T>, maxSize: int): seq<T> {
    if appends == [] then [] else Trimmed(Live(appends[..|appends| - 1], maxSize) + [appends[|appends| - 1]], maxSize)
  }

  lemma SliceNext<T>(s: seq<T>, x: T, n: int)
    requires n >= 0
    ensures Trimmed(LastSlice(s, n) + [x], n) == LastSlice(s + [x], n)
  {
    var a, b := Trimmed(LastSlice(s, n) + [x], n), LastSlice(s + [x], n);
    assert |a| == |b|;
    assert forall i :: 0 <= i < |a| ==> a[i] == b[i];
  }

  lemma {:induction false} LiveIsLastSlice<T>(appends: seq<T>, maxSize: int)
    requires maxSize >= 0
    ensures Live(appends, maxSize) == LastSlice(appends, maxSize)
  {
    if appends != [] {
      var init := appends[..|appends| - 1];
      LiveIsLastSlice(init, maxSize);
      SliceNext(init, appends[|appends| - 1], maxSize);
      assert init + [appends[|appends| - 1]] == appends;
    }
  }

  lemma {:induction false} LiveEmptyWhenNegative<T>(appends: seq<T>, maxSize: int)
    requires maxSize < 0
    ensures Live(appends, maxSize) == []
  {
    if appends != [] { LiveEmptyWhenNegative(appends[..|appends| - 1], maxSize); }
  }

  /**
   When a reload gives back the live ring: for every size from 0 up (0 keeps
   everything on both sides), and below 0 only while no more than -maxSize entries
   were appended.
   */
  lemma ReloadEqualsLive<T>(appends: seq<T>, maxSize: int)
    ensures LastSlice(appends, maxSize) == Live(appends, maxSize) <==> maxSize >= 0 || |appends| <= -maxSize
  {
    if maxSize >= 0 {
      LiveIsLastSlice(appends, maxSize);
    } else {
      LiveEmptyWhenNegative(appends, maxSize);
    }
  }

  // ------------------------------------- rings that share one sidecar, runs

  datatype Event = Appends(key: Key, entry: Entry) | Restarts(key: Key)

  /** The live rings by key, and the sidecar's rows. */
  datatype World = World(rings: map<Key, seq<Entry>>, rows: seq<Row>)

  function RingOf(w: World, key: Key): seq<Entry> { if key in w.rings then w.rings[key] else [] }

  function Step(w: World, size: Key -> int, ev: Event): World {
    match ev
    case Appends(k, e) => World(w.rings[k := Trimmed(RingOf(w, k) + [e], size(k))], w.rows + [Row(k, e)])
    case Restarts(k) => World(w.rings[k := LastSlice(Mine(w.rows, k), size(k))], w.rows)
  }

  function After(events: seq<Event>, size: Key -> int): World {
    if events == [] then World(map[], []) else Step(After(events[..|events| - 1], size), size, events[|events| - 1])
  }

  /** What a ring was given, whatever else happened meanwhile. */
  function AppendsTo(events: seq<Event>, key: Key): seq<Entry> {
    if events == [] then []
    else
      var last := events[|events| - 1];
      AppendsTo(events[..|events| - 1], key) + if last.Appends? && last.key == key then [last.entry] else []
  }

  function WithoutRestarts(events: seq<Event>): seq<Event> {
    if events == [] then []
    else WithoutRestarts(events[..|events| - 1]) + if events[|events| - 1].Appends? then [events[|events| - 1]] else []
  }

  lemma MineNext(rows: seq<Row>, r: Row, key: Key)
    ensures Mine(rows + [r], key) == Mine(rows, key) + if r.key == key then [r.entry] else []
  {
    assert (rows + [r])[..|rows|] == rows;
  }

  /** The sidecar holds each ring's own appends, in order. */
  lemma {:induction false} SidecarKeepsAppends(events: seq<Event>, size: Key -> int, key: Key)
    ensures Mine(After(events, size).rows, key) == AppendsTo(events, key)
  {
    if events != [] {
      var before, last := events[..|events| - 1], events[|events| - 1];
      SidecarKeepsAppends(before, size, key);
      if last.Appends? { MineNext(After(before, size).rows, Row(last.key, last.entry), key); }
    }
  }

  /** However appends and restarts of the rings interleave, a ring holds the last of its own appends. */
  lemma {:induction false} RingIsLastSlice(events: seq<Event>, size: Key -> int, key: Key)
    requires size(key) >= 0
    ensures RingOf(After(events, size), key) == LastSlice(AppendsTo(events, key), size(key))
  {
    if events != [] {
      var before, last := events[..|events| - 1], events[|events| - 1];
      RingIsLastSlice(before, size, key);
      SidecarKeepsAppends(before, size, key);
      StepAt(After(before, size), size, last, key);
      SliceNext(AppendsTo(before, key), if last.Appends? then last.entry else Entry(0, Accepted, "", 0.0), size(key));
    }
  }

  /** A step touches the ring it names and no other. */
  lemma StepAt(w: World, size: Key -> int, ev: Event, key: Key)
    ensures RingOf(Step(w, size, ev), key) ==
            if ev.key != key then RingOf(w, key)
            else if ev.Appends? then Trimmed(RingOf(w, key) + [ev.entry], size(key))
            else LastSlice(Mine(w.rows, key), size(key))
  {
  }

  lemma {:induction false} SameAppends(events: seq<Event>, key: Key)
    ensures AppendsTo(WithoutRestarts(events), key) == AppendsTo(events, key)
  {
    if events != [] {
      var before, last := events[..|events| - 1], events[|events| - 1];
      SameAppends(before, key);
      var kept := WithoutRestarts(before);
      if last.Appends? {
        assert (kept + [last])[..|kept|] == kept;
      } else {
        assert kept + [] == kept;
      }
    }
  }

  /**
   Restarts are invisible: at any point of any interleaving, every ring equals the
   ring of a run in which nothing was ever restarted.
   */
  lemma {:induction false} RestartTransparent(events: seq<Event>, size: Key -> int, key: Key)
    requires size(key) >= 0
    ensures RingOf(After(events, size), key) == RingOf(After(WithoutRestarts(events), size), key)
    ensures RingOf(After(events, size), key) == Live(AppendsTo(events, key), size(key))
  {
    RingIsLastSlice(events, size, key);
    RingIsLastSlice(WithoutRestarts(events), size, key);
    SameAppends(events, key);
    LiveIsLastSlice(AppendsTo(events, key), size(key));
  }
}

/** The replan policy that reads the ring at the entry of each cycle. */
module CyclePolicy {
  import opened ContinuationRing

  datatype Gates = Gates(ring: bool, policy: bool, rehydrate: bool, headAutoReset: bool)

  const FORCE_REPLAN_THRESHOLD := 3

  datatype Policy = Policy(escalateStreak: nat, forceReplan: bool, headAutoReset: bool)

  method BuildCyclePolicy(g: Gates, ring: StatusHistoryRing?) returns (p: Policy)
    ensures p == PolicyOf(g, if ring == null then [] else ring.entries)
    ensures !g.policy || !g.ring || ring == null ==> p == Policy(0, false, false)
    ensures g.policy && g.ring && ring != null ==>
              p == Policy(Streak(ring.entries), Streak(ring.entries) >= 3, Streak(ring.entries) >= 3 && g.headAutoReset)
  {
    if !g.policy { return Policy(0, false, false); }
    var streak := 0;
    if ring != null { streak := ring.TrailingEscalatedCount(g.ring); }
    var force := streak >= FORCE_REPLAN_THRESHOLD;
    p := Policy(streak, force, force && g.headAutoReset);
  }

  function PolicyOf(g: Gates, entries: seq<Entry>): Policy {
    var streak := if g.policy && g.ring then Streak(entries) else 0;
    Policy(streak, streak >= FORCE_REPLAN_THRESHOLD, streak >= FORCE_REPLAN_THRESHOLD && g.headAutoReset)
  }

  predicate IsListedStatus(t: string) {
    t == "consensus" || t == "blocked" || t == "split" || t == "advisory_stub" || t == "rejected"
  }

  type UnlistedText = t: string | !IsListedStatus(t)

  /** A cycle's own status; any text the map does not list is an other status. */
  datatype SiStatus = Consensus | Blocked | Split | AdvisoryStub | RejectedGoal | Unlisted(text: UnlistedText)

  function RingStatus(status: SiStatus, reverted: bool): Status {
    if reverted then Escalated
    else match status
         case Consensus => Accepted
         case Blocked => Escalated
         case Split => ContinuationPending
         case AdvisoryStub => ContinuationPending
         case RejectedGoal => Rejected
         case Unlisted(_) => ContinuationPending
  }

  function Text(status: SiStatus): string {
    match status
    case Consensus => "consensus"
    case Blocked => "blocked"
    case Split => "split"
    case AdvisoryStub => "advisory_stub"
    case RejectedGoal => "rejected"
    case Unlisted(text) => text
  }

  /** One cycle: does a new process run it, and how did it end? */
  datatype Cycle = Cycle(newProcess: bool, status: SiStatus, reverted: bool, number: int, at: real)

  predicate Escalates(c: Cycle) { c.reverted || c.status.Blocked? }

  function EntryOf(c: Cycle): Entry { Entry(c.number, RingStatus(c.status, c.reverted), Text(c.status), c.at) }

  /** Only a blocked or a reverted cycle feeds the streak. */
  lemma EscalatedMeans(c: Cycle)
    ensures IsEscalated(EntryOf(c)) <==> Escalates(c)
  {
  }

  /** What enters the ring for each status: the cycle's own text, and the canonical status it maps to. */
  lemma EntrySpelled(c: Cycle)
    ensures var e := EntryOf(c);
            && e.cycle == c.number && e.timestamp == c.at
            && (c.reverted ==> e.status == Escalated)
            && (!c.reverted ==>
                  && (c.status.Consensus? ==> e.status == Accepted) && (c.status.Blocked? ==> e.status == Escalated)
                  && (c.status.RejectedGoal? ==> e.status == Rejected)
                  && (c.status.Split? || c.status.AdvisoryStub? || c.status.Unlisted? ==>
                        e.status == ContinuationPending))
            && (c.status.Consensus? ==> e.decision == "consensus") && (c.status.Blocked? ==> e.decision == "blocked")
            && (c.status.Split? ==> e.decision == "split") && (c.status.AdvisoryStub? ==> e.decision == "advisory_stub")
            && (c.status.RejectedGoal? ==> e.decision == "rejected")
            && (c.status.Unlisted? ==> e.decision == c.status.text)
  {
  }

  datatype Loop = Loop(ring: seq<Entry>, sidecar: seq<Entry>)

  /** The ring a cycle finds: its process's own, or one built when the process started. */
  function AtEntry(g: Gates, maxSize: int, s: Loop, newProcess: bool): seq<Entry> {
    if !newProcess then s.ring
    else if g.rehydrate && g.ring then LastSlice(s.sidecar, maxSize)
    else []
  }

  function AfterCycles(g: Gates, maxSize: int, cycles: seq<Cycle>): Loop {
    if cycles == [] then Loop([], [])
    else
      var c, s := cycles[|cycles| - 1], AfterCycles(g, maxSize, cycles[..|cycles| - 1]);
      var ring := AtEntry(g, maxSize, s, c.newProcess);
      if g.ring then Loop(Trimmed(ring + [EntryOf(c)], maxSize), s.sidecar + [EntryOf(c)]) else Loop(ring, s.sidecar)
  }

  /** The policy of the cycle that follows these cycles. */
  function PolicyAfter(g: Gates, maxSize: int, cycles: seq<Cycle>, newProcess: bool): Policy {
    PolicyOf(g, AtEntry(g, maxSize, AfterCycles(g, maxSize, cycles), newProcess))
  }

  function EntriesOf(cycles: seq<Cycle>): (r: seq<Entry>)
    ensures |r| == |cycles| && forall i :: 0 <= i < |r| ==> r[i] == EntryOf(cycles[i])
  {
    seq(|cycles|, i requires 0 <= i < |cycles| => EntryOf(cycles[i]))
  }

  lemma EntriesNext(cycles: seq<Cycle>, c: Cycle)
    ensures EntriesOf(cycles + [c]) == EntriesOf(cycles) + [EntryOf(c)]
  {
  }

  predicate LastThreeEscalate(cycles: seq<Cycle>) {
    && |cycles| >= 3
    && Escalates(cycles[|cycles| - 1]) && Escalates(cycles[|cycles| - 2]) && Escalates(cycles[|cycles| - 3])
  }

  /** The last three entries are escalated. */
  predicate EndsEscalated(es: seq<Entry>) {
    |es| >= 3 && IsEscalated(es[|es| - 1]) && IsEscalated(es[|es| - 2]) && IsEscalated(es[|es| - 3])
  }

  lemma {:induction false} StreakReaches(es: seq<Entry>)
    ensures Streak(es) >= 3 <==> EndsEscalated(es)
    ensures Streak(es) <= |es|
  {
    if es != [] {
      var init := es[..|es| - 1];
      StreakReaches(init);
      assert |es| >= 2 && IsEscalated(es[|es| - 1]) && IsEscalated(es[|es| - 2]) ==>
          Streak(es) == 2 + Streak(init[..|init| - 1]);
      assert |es| >= 3 ==> (Streak(init[..|init| - 1]) >= 1 <==> IsEscalated(es[|es| - 3]));
    }
  }

  lemma {:induction false} SidecarHasAll(g: Gates, maxSize: int, cycles: seq<Cycle>)
    requires g.ring
    ensures AfterCycles(g, maxSize, cycles).sidecar == EntriesOf(cycles)
  {
    if cycles != [] {
      var before, c := cycles[..|cycles| - 1], cycles[|cycles| - 1];
      SidecarHasAll(g, maxSize, before);
      EntriesNext(before, c);
      assert cycles == before + [c];
    }
  }

  lemma AtEntryIsSlice(g: Gates, maxSize: int, s: Loop, newProcess: bool, all: seq<Entry>)
    requires g.ring && g.rehydrate && s.sidecar == all && s.ring == LastSlice(all, maxSize)
    ensures AtEntry(g, maxSize, s, newProcess) == LastSlice(all, maxSize)
  {
  }

  /** With rehydration on, the ring follows all the cycles, whichever processes ran them. */
  lemma {:induction false} RingFollowsCycles(g: Gates, maxSize: int, cycles: seq<Cycle>)
    requires g.ring && g.rehydrate && maxSize >= 0
    ensures AfterCycles(g, maxSize, cycles).sidecar == EntriesOf(cycles)
    ensures AfterCycles(g, maxSize, cycles).ring == LastSlice(EntriesOf(cycles), maxSize)
  {
    SidecarHasAll(g, maxSize, cycles);
    if cycles == [] {
      NoCyclesNoRing(g, maxSize, cycles);
    } else {
      var before := cycles[..|cycles| - 1];
      RingFollowsCycles(g, maxSize, before);
      RingUnfolds(g, maxSize, cycles);
      EntriesEnd(cycles);
      RingStep(g, maxSize, AfterCycles(g, maxSize, before), cycles[|cycles| - 1].newProcess, EntriesOf(before),
               EntryOf(cycles[|cycles| - 1]), AfterCycles(g, maxSize, cycles).ring);
    }
  }

  lemma EntriesEnd(cycles: seq<Cycle>)
    requires cycles != []
    ensures EntriesOf(cycles) == EntriesOf(cycles[..|cycles| - 1]) + [EntryOf(cycles[|cycles| - 1])]
  {
    EntriesNext(cycles[..|cycles| - 1], cycles[|cycles| - 1]);
    assert cycles == cycles[..|cycles| - 1] + [cycles[|cycles| - 1]];
  }

  lemma NoCyclesNoRing(g: Gates, maxSize: int, cycles: seq<Cycle>)
    requires cycles == []
    ensures AfterCycles(g, maxSize, cycles).ring == LastSlice(EntriesOf(cycles), maxSize)
  {
  }

  /** What one cycle makes of the ring: from the slice before it to the slice after it. */
  lemma RingStep(g: Gates, maxSize: int, s: Loop, newProcess: bool, all: seq<Entry>, e: Entry, next: seq<Entry>)
    requires g.ring && g.rehydrate && maxSize >= 0
    requires s.sidecar == all && s.ring == LastSlice(all, maxSize)
    requires next == Trimmed(AtEntry(g, maxSize, s, newProcess) + [e], maxSize)
    ensures next == LastSlice(all + [e], maxSize)
  {
    AtEntryIsSlice(g, maxSize, s, newProcess, all);
    SliceNext(all, e, maxSize);
  }

  lemma RingUnfolds(g: Gates, maxSize: int, cycles: seq<Cycle>)
    requires g.ring && cycles != []
    ensures var c, s := cycles[|cycles| - 1], AfterCycles(g, maxSize, cycles[..|cycles| - 1]);
            AfterCycles(g, maxSize, cycles).ring ==
            Trimmed(AtEntry(g, maxSize, s, c.newProcess) + [EntryOf(c)], maxSize)
  {
  }

  lemma LastOfSlice<T>(s: seq<T>, n: int, k: nat)
    requires (n == 0 || n > k) && k < |s|
    ensures k < |LastSlice(s, n)| && LastSlice(s, n)[|LastSlice(s, n)| - 1 - k] == s[|s| - 1 - k]
  {
  }

  /** A ring of size 3 or more, or of size 0, shows the policy enough. */
  lemma SliceStreak(all: seq<Entry>, maxSize: int)
    requires maxSize == 0 || maxSize >= 3
    ensures Streak(LastSlice(all, maxSize)) >= 3 <==> EndsEscalated(all)
  {
    StreakReaches(LastSlice(all, maxSize));
    if |all| >= 3 {
      LastOfSlice(all, maxSize, 0);
      LastOfSlice(all, maxSize, 1);
      LastOfSlice(all, maxSize, 2);
    }
  }

  lemma LastThreeMeans(cycles: seq<Cycle>)
    ensures LastThreeEscalate(cycles) <==> EndsEscalated(EntriesOf(cycles))
  {
    if |cycles| >= 3 {
      EscalatedMeans(cycles[|cycles| - 1]);
      EscalatedMeans(cycles[|cycles| - 2]);
      EscalatedMeans(cycles[|cycles| - 3]);
    }
  }

  lemma ForcedFrom(g: Gates, maxSize: int, own: seq<Cycle>, entries: seq<Entry>)
    requires g.ring && g.policy && (maxSize == 0 || maxSize >= 3) && entries == LastSlice(EntriesOf(own), maxSize)
    ensures PolicyOf(g, entries).forceReplan <==> LastThreeEscalate(own)
  {
    SliceStreak(EntriesOf(own), maxSize);
    LastThreeMeans(own);
  }

  /**
   Replanning is forced at a cycle's entry exactly when the three cycles before it
   were all blocked or reverted, over any restarts between them.
   */
  lemma ForcedExactlyAfterThree(g: Gates, maxSize: int, cycles: seq<Cycle>, newProcess: bool)
    requires g.ring && g.policy && g.rehydrate && (maxSize == 0 || maxSize >= 3)
    ensures PolicyAfter(g, maxSize, cycles, newProcess).forceReplan <==> LastThreeEscalate(cycles)
    ensures PolicyAfter(g, maxSize, cycles, newProcess).headAutoReset <==> g.headAutoReset && LastThreeEscalate(cycles)
  {
    RingFollowsCycles(g, maxSize, cycles);
    ForcedFrom(g, maxSize, cycles, AtEntry(g, maxSize, AfterCycles(g, maxSize, cycles), newProcess));
  }

  /** Three cycles of one process, all blocked. */
  function ThreeBlocked(): seq<Cycle> {
    seq(3, i => Cycle(false, Blocked, false, i, 0.0))
  }

  /** Every other size breaks this: three blocked cycles in one process force nothing. */
  lemma ThreeBlockedUnforced(g: Gates, maxSize: int)
    requires maxSize < 0 || maxSize == 1 || maxSize == 2
    ensures LastThreeEscalate(ThreeBlocked())
    ensures !PolicyAfter(g, maxSize, ThreeBlocked(), false).forceReplan
  {
    SmallRing(g, maxSize, ThreeBlocked());
    StreakReaches(AfterCycles(g, maxSize, ThreeBlocked()).ring);
  }

  lemma {:induction false} SmallRing(g: Gates, maxSize: int, cycles: seq<Cycle>)
    requires maxSize == 1 || maxSize == 2 || (maxSize < 0 && forall c :: c in cycles ==> !c.newProcess)
    ensures |AfterCycles(g, maxSize, cycles).ring| <= 2
  {
    if cycles != [] {
      SmallRing(g, maxSize, cycles[..|cycles| - 1]);
    }
  }

  /** The sizes for which replanning follows three escalating cycles, in every run, are exactly these. */
  lemma {:induction false} RightSizesExactly(g: Gates, maxSize: int)
    requires g.ring && g.policy && g.rehydrate
    ensures (forall cycles, newProcess ::
               PolicyAfter(g, maxSize, cycles, newProcess).forceReplan <==> LastThreeEscalate(cycles))
            <==> maxSize == 0 || maxSize >= 3
  {
    if maxSize == 0 || maxSize >= 3 {
      forall cycles, newProcess
        ensures PolicyAfter(g, maxSize, cycles, newProcess).forceReplan <==> LastThreeEscalate(cycles)
      {
        ForcedExactlyAfterThree(g, maxSize, cycles, newProcess);
      }
    } else {
      ThreeBlockedUnforced(g, maxSize);
    }
  }

  /** Rings of one or two entries never force anything, in any run. */
  lemma SizesOneAndTwoNeverForce(g: Gates, maxSize: int, cycles: seq<Cycle>, newProcess: bool)
    requires maxSize == 1 || maxSize == 2
    ensures !PolicyAfter(g, maxSize, cycles, newProcess).forceReplan
  {
    SmallRing(g, maxSize, cycles);
    StreakReaches(AtEntry(g, maxSize, AfterCycles(g, maxSize, cycles), newProcess));
  }

  /** A negative size may force after all: the reload brings entries back that the live ring had dropped. */
  lemma {:induction false} NegativeSizeForcesAfterRestart(g: Gates)
    requires g.ring && g.policy && g.rehydrate
    ensures !PolicyAfter(g, -1, FourBlocked(), false).forceReplan
    ensures PolicyAfter(g, -1, FourBlocked(), true).forceReplan
  {
    var cycles := FourBlocked();
    SmallRing(g, -1, cycles);
    StreakReaches(AfterCycles(g, -1, cycles).ring);
    SidecarHasAll(g, -1, cycles);
    StreakReaches(LastSlice(EntriesOf(cycles), -1));
  }

  /** Four cycles of one process, all blocked. */
  function FourBlocked(): seq<Cycle> {
    seq(4, i => Cycle(false, Blocked, false, i, 0.0))
  }

  /** The cycles that the last process has run so far. */
  function SinceRestart(cycles: seq<Cycle>): seq<Cycle> {
    if cycles == [] then []
    else if cycles[|cycles| - 1].newProcess then [cycles[|cycles| - 1]]
    else SinceRestart(cycles[..|cycles| - 1]) + [cycles[|cycles| - 1]]
  }

  lemma {:induction false} RingForgetsProcesses(g: Gates, maxSize: int, cycles: seq<Cycle>)
    requires g.ring && !g.rehydrate && maxSize >= 0
    ensures AfterCycles(g, maxSize, cycles).ring == LastSlice(EntriesOf(SinceRestart(cycles)), maxSize)
  {
    if cycles != [] {
      var before, c := cycles[..|cycles| - 1], cycles[|cycles| - 1];
      RingForgetsProcesses(g, maxSize, before);
      var own := if c.newProcess then [] else SinceRestart(before);
      EntriesNext(own, c);
      assert SinceRestart(cycles) == own + [c];
      SliceNext(EntriesOf(own), EntryOf(c), maxSize);
    }
  }

  /** Without rehydration only the running process's own cycles count. */
  lemma WithoutRehydration(g: Gates, maxSize: int, cycles: seq<Cycle>, newProcess: bool)
    requires g.ring && g.policy && !g.rehydrate && (maxSize == 0 || maxSize >= 3)
    ensures PolicyAfter(g, maxSize, cycles, newProcess).forceReplan <==>
            !newProcess && LastThreeEscalate(SinceRestart(cycles))
  {
    if newProcess {
      NothingForcesNothing(g);
    } else {
      RingForgetsProcesses(g, maxSize, cycles);
      ForcedFrom(g, maxSize, SinceRestart(cycles), AfterCycles(g, maxSize, cycles).ring);
    }
  }

  /** So one process per cycle never replans, however many cycles were blocked. */
  lemma OneProcessPerCycle(g: Gates, maxSize: int, cycles: seq<Cycle>)
    requires !g.rehydrate
    ensures !PolicyAfter(g, maxSize, cycles, true).forceReplan
  {
    NothingForcesNothing(g);
  }

  lemma NothingForcesNothing(g: Gates)
    ensures !PolicyOf(g, []).forceReplan
  {
  }
}
