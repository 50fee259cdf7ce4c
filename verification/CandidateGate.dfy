/** Verifying ranked candidates in order, and the one-shot confirmation handles. */
module CandidateGate {
  import opened Wrappers
  import opened CyclePolicy
  import ApplyLadder

  type Change = ApplyLadder.Change

  /** A confirmation handle: no text, or a text known by a number, 0 being the empty text. */
  datatype Handle = NotText | Text(id: nat)
  const EMPTY := 0
  datatype Accepted = NotAList | Listed(items: seq<Change>)
  datatype Verdict = Verdict(ok: bool, ran: bool, completionVerified: bool, handle: Handle, accepted: Accepted)
  datatype Outcome = Raises | Gives(v: Verdict)

  datatype Candidate = Candidate(changes: seq<Change>, commands: seq<string>)

  /**
   How each verification call ends, whether discarding a handle raises, whether recording
   the verdict does, and whether a lane or a log between the gate and the ladder does.
   */
  datatype World = World(verify: nat -> Outcome, discardRaises: nat -> bool, recordRaises: bool, lanesRaise: bool)

  /** A handle counts as consumed when consuming it was tried, even if that call raises. */
  datatype Event = Verified(rank: nat, batch: seq<Change>) | Consumed(handle: nat, applied: bool)

  /** What the gate hands on; `handle` is the confirmation to spend after the ladder, `failed` says that it raised. */
  datatype Passed = Passed(changes: seq<Change>, commands: seq<string>, verified: bool, handle: Option<nat>,
                           failed: bool, trace: seq<Event>)

  /** One cycle's proposals, and the pods' own changes and commands, which ride beside them. */
  datatype Proposal = Proposal(changes: seq<Change>, commands: seq<string>, ranked: seq<Candidate>,
                               podChanges: seq<Change>, podCommands: seq<string>)

  /** With `strict` on, a failure that is otherwise swallowed ends the cycle. */
  datatype Config = Config(gateOn: bool, strict: bool, ladder: ApplyLadder.Gates,
                           digest: string -> string, normalize: seq<string> -> seq<string>)

  /** A result that may be applied. */
  predicate Green(o: Outcome) {
    && o.Gives? && o.v.ok && o.v.ran && o.v.completionVerified
    && o.v.handle.Text? && o.v.handle.id != EMPTY && o.v.accepted.Listed? && o.v.accepted.items != []
  }

  predicate Discards(o: Outcome) { o.Gives? && !Green(o) && o.v.handle.Text? }

  /** The loop goes no further than this rank. */
  predicate Stops(w: World, k: nat) {
    w.verify(k).Raises? || Green(w.verify(k)) || (Discards(w.verify(k)) && w.discardRaises(k))
  }

  /** The first rank that stops the loop; n when none does. */
  function FirstStop(w: World, n: nat): (k: nat)
    ensures k <= n && (k < n ==> Stops(w, k))
    ensures forall j :: 0 <= j < k ==> !Stops(w, j)
  {
    if n == 0 then 0
    else
      var k := FirstStop(w, n - 1);
      if k < n - 1 then k else if Stops(w, n - 1) then n - 1 else n
  }

  function EventsAt(w: World, changes: seq<Change>, k: nat): seq<Event> {
    [Verified(k, changes)] + if Discards(w.verify(k)) then [Consumed(w.verify(k).v.handle.id, false)] else []
  }

  function EventsTo(w: World, base: seq<Change>, ranked: seq<Candidate>, n: nat): seq<Event>
    requires n <= |ranked|
  {
    if n == 0 then [] else EventsTo(w, base, ranked, n - 1) + EventsAt(w, base + ranked[n - 1].changes, n - 1)
  }

  /** What the ordered loop amounts to: the first stopping rank decides everything. */
  function OrderedOf(changes: seq<Change>, commands: seq<string>, ranked: seq<Candidate>, w: World): Passed {
    var k := FirstStop(w, |ranked|);
    if k < |ranked| && Green(w.verify(k)) then
      Passed(if w.recordRaises then [] else w.verify(k).v.accepted.items, commands + ranked[k].commands, true,
             Some(w.verify(k).v.handle.id), w.recordRaises, EventsTo(w, changes, ranked, k + 1))
    else
      Passed([], commands, false, None, k < |ranked| || w.recordRaises,
             EventsTo(w, changes, ranked, if k < |ranked| then k + 1 else k))
  }

  lemma StopHere(w: World, k: nat, n: nat)
    requires k < n && Stops(w, k) && forall j :: 0 <= j < k ==> !Stops(w, j)
    ensures FirstStop(w, n) == k
  {
  }

  method OrderedFirstGreen(changes: seq<Change>, commands: seq<string>, ranked: seq<Candidate>, w: World)
    returns (r: Passed)
    ensures r == OrderedOf(changes, commands, ranked, w)
  {
    var trace: seq<Event> := [];
    for rank := 0 to |ranked|
      invariant trace == EventsTo(w, changes, ranked, rank)
      invariant forall j :: 0 <= j < rank ==> !Stops(w, j)
    {
      var batch := changes + ranked[rank].changes;
      var outcome := w.verify(rank);
      trace := trace + [Verified(rank, batch)];
      if outcome.Raises? {
        StopHere(w, rank, |ranked|);
        return Passed([], commands, false, None, true, trace);
      }
      var v := outcome.v;
      var green := v.ok && v.ran && v.completionVerified && v.handle.Text? && v.handle.id != EMPTY
                   && v.accepted.Listed? && v.accepted.items != [];
      if green {
        StopHere(w, rank, |ranked|);
        return Passed(if w.recordRaises then [] else v.accepted.items, commands + ranked[rank].commands, true,
                      Some(v.handle.id), w.recordRaises, trace);
      }
      if v.handle.Text? {
        trace := trace + [Consumed(v.handle.id, false)];
        if w.discardRaises(rank) {
          StopHere(w, rank, |ranked|);
          return Passed([], commands, false, None, true, trace);
        }
      }
    }
    r := Passed([], commands, false, None, w.recordRaises, trace);
  }

  /** One batch without ranks: its handle is kept whatever the verdict says. */
  function SingleOf(changes: seq<Change>, commands: seq<string>, w: World): Passed {
    match w.verify(0)
    case Raises => Passed([], commands, false, None, true, [Verified(0, changes)])
    case Gives(v) =>
      var handle := if v.handle.Text? then Some(v.handle.id) else None;
      if v.accepted.NotAList? then Passed([], commands, false, handle, true, [Verified(0, changes)])
      else Passed(if w.recordRaises then [] else v.accepted.items, commands,
                  v.ok && v.ran && v.completionVerified, handle, w.recordRaises, [Verified(0, changes)])
  }

  /** Drop unverified commands, then remove duplicates and cap what is left. */
  function Cleared(c: Config, p: Passed): Passed {
    var kept := if c.gateOn && !p.verified then [] else p.commands;
    p.(commands := if kept == [] then [] else c.normalize(kept))
  }

  function GateOf(c: Config, i: Proposal, w: World): Passed {
    Cleared(c, if !c.gateOn || (i.changes == [] && i.ranked == []) then
                 Passed(i.changes, i.commands, false, None, false, [])
               else if i.ranked != [] then OrderedOf(i.changes, i.commands, i.ranked, w)
               else SingleOf(i.changes, i.commands, w))
  }

  /** The gate keeps its promises: handles balance, none is confirmed, and what goes on was verified. */
  method RunGate(c: Config, i: Proposal, w: World) returns (p: Passed)
    ensures p == GateOf(c, i, w)
    ensures HandlesBalance(w, p)
    ensures forall e :: e in p.trace && e.Consumed? ==> !e.applied
    ensures p.failed <==> GateFails(c, i, w)
    ensures c.gateOn && p.commands != [] ==> CommandsVerified(i, w)
    ensures c.gateOn && p.changes != [] ==> ChangesAccepted(i, w, p.changes)
    ensures GateSpelled(c, i, w, p)
    ensures forall e :: e in p.trace && e.Verified? ==> VerifiedAsOffered(i, e)
  {
    GateIsSpelled(c, i, w);
    BatchesAsOffered(c, i, w);
    GateKeeps(c, i, w);
    GateFailsExactly(c, i, w);
    p := Passed(i.changes, i.commands, false, None, false, []);
    if c.gateOn && (i.changes != [] || i.ranked != []) {
      if i.ranked != [] {
        p := OrderedFirstGreen(i.changes, i.commands, i.ranked, w);
      } else {
        p := p.(changes := [], trace := [Verified(0, i.changes)]);
        match w.verify(0) {
          case Raises => p := p.(failed := true);
          case Gives(v) =>
            if v.handle.Text? { p := p.(handle := Some(v.handle.id)); }
            if v.accepted.NotAList? {
              p := p.(failed := true);
            } else {
              p := p.(verified := v.ok && v.ran && v.completionVerified);
              if w.recordRaises { p := p.(failed := true); } else { p := p.(changes := v.accepted.items); }
            }
        }
      }
    }
    if c.gateOn && p.commands != [] && !p.verified { p := p.(commands := []); }
    if p.commands != [] { p := p.(commands := c.normalize(p.commands)); }
  }

  // ------------------------------------------------- what passes, spelled out

  /** ok, run, verified complete, with a non-empty handle and something accepted. */
  predicate TrustedGreen(o: Outcome) {
    match o
    case Raises => false
    case Gives(Verdict(ok, ran, complete, handle, accepted)) =>
      && ok && ran && complete && handle != NotText && handle != Text(EMPTY)
      && accepted != NotAList && accepted != Listed([])
  }

  /** The verification gave no green, and what there was to discard was discarded. */
  predicate PassedOver(w: World, k: nat) {
    w.verify(k) != Raises && !TrustedGreen(w.verify(k)) && (w.verify(k).v.handle == NotText || !w.discardRaises(k))
  }

  /** Rank k is the first green one, reached over ranks that were passed over. */
  ghost predicate SelectedAt(i: Proposal, w: World, k: nat) {
    k < |i.ranked| && TrustedGreen(w.verify(k)) && forall j: nat :: j < k ==> PassedOver(w, j)
  }

  function Tidied(c: Config, commands: seq<string>): seq<string> {
    if commands == [] then [] else c.normalize(commands)
  }

  /** What the gate hands on, for every way that it may go. */
  ghost predicate GateSpelled(c: Config, i: Proposal, w: World, p: Passed) {
    && (!c.gateOn ==>
          && p.changes == i.changes && p.commands == Tidied(c, i.commands)
          && p.handle == None && p.trace == [] && !p.failed)
    && (c.gateOn && i.ranked == [] && i.changes == [] ==>
          p.changes == [] && p.commands == [] && p.handle == None && p.trace == [] && !p.failed)
    && (c.gateOn && i.ranked != [] ==> RankedSpelled(c, i, w, p))
    && (c.gateOn && i.ranked == [] && i.changes != [] ==> SingleSpelled(c, i, w, p))
  }

  ghost predicate RankedSpelled(c: Config, i: Proposal, w: World, p: Passed) {
    && (forall k: nat :: SelectedAt(i, w, k) ==>
          && p.handle == Some(w.verify(k).v.handle.id)
          && p.changes == (if w.recordRaises then [] else w.verify(k).v.accepted.items)
          && p.commands == Tidied(c, i.commands + i.ranked[k].commands))
    && ((forall k: nat :: !SelectedAt(i, w, k)) ==> p.handle == None && p.changes == [] && p.commands == [])
  }

  ghost predicate SingleSpelled(c: Config, i: Proposal, w: World, p: Passed) {
    match w.verify(0)
    case Raises => p.handle == None && p.changes == [] && p.commands == []
    case Gives(v) =>
      && p.handle == (if v.handle == NotText then None else Some(v.handle.id))
      && p.changes == (if v.accepted == NotAList || w.recordRaises then [] else v.accepted.items)
      && p.commands == (if v.ok && v.ran && v.completionVerified && v.accepted != NotAList then Tidied(c, i.commands)
                        else [])
  }

  lemma SelectedMeansStop(i: Proposal, w: World, k: nat)
    ensures SelectedAt(i, w, k) <==>
            k < |i.ranked| && FirstStop(w, |i.ranked|) == k && Green(w.verify(k))
  {
    forall j: nat ensures Green(w.verify(j)) <==> TrustedGreen(w.verify(j))
                  ensures PassedOver(w, j) <==> !Stops(w, j)
    {
    }
    if SelectedAt(i, w, k) { StopHere(w, k, |i.ranked|); }
  }

  lemma {:induction false} GateIsSpelled(c: Config, i: Proposal, w: World)
    ensures GateSpelled(c, i, w, GateOf(c, i, w))
  {
    if c.gateOn && i.ranked != [] { RankedIsSpelled(c, i, w); }
  }

  lemma {:induction false} RankedIsSpelled(c: Config, i: Proposal, w: World)
    requires c.gateOn && i.ranked != []
    ensures RankedSpelled(c, i, w, GateOf(c, i, w))
  {
    var p := GateOf(c, i, w);
    forall k: nat | SelectedAt(i, w, k)
      ensures && p.handle == Some(w.verify(k).v.handle.id)
              && p.changes == (if w.recordRaises then [] else w.verify(k).v.accepted.items)
              && p.commands == Tidied(c, i.commands + i.ranked[k].commands)
    {
      SelectedMeansStop(i, w, k);
    }
    SelectedMeansStop(i, w, FirstStop(w, |i.ranked|));
  }

  /** A verified batch is the shared changes with those of its rank, or the single batch. */
  predicate VerifiedAsOffered(i: Proposal, e: Event)
    requires e.Verified?
  {
    if i.ranked == [] then e.rank == 0 && e.batch == i.changes
    else e.rank < |i.ranked| && e.batch == i.changes + i.ranked[e.rank].changes
  }

  lemma {:induction false} BatchesAsOffered(c: Config, i: Proposal, w: World)
    ensures forall e :: e in GateOf(c, i, w).trace && e.Verified? ==> VerifiedAsOffered(i, e)
  {
    if c.gateOn && i.ranked != [] { RankedAsOffered(i, w); }
  }

  lemma RankedAsOffered(i: Proposal, w: World)
    requires i.ranked != []
    ensures forall e :: e in OrderedOf(i.changes, i.commands, i.ranked, w).trace && e.Verified? ==>
                          VerifiedAsOffered(i, e)
  {
    var k := FirstStop(w, |i.ranked|);
    EventsAsOffered(i, w, if k < |i.ranked| then k + 1 else k);
  }

  lemma {:induction false} EventsAsOffered(i: Proposal, w: World, n: nat)
    requires n <= |i.ranked|
    ensures forall e :: e in EventsTo(w, i.changes, i.ranked, n) && e.Verified? ==>
                          e.rank < |i.ranked| && e.batch == i.changes + i.ranked[e.rank].changes
  {
    if n > 0 { EventsAsOffered(i, w, n - 1); }
  }

  /** The verdict that this cycle's commands rest on. */
  predicate CommandsVerified(i: Proposal, w: World) {
    if i.ranked != [] then FirstStop(w, |i.ranked|) < |i.ranked| && Green(w.verify(FirstStop(w, |i.ranked|)))
    else
      && i.changes != [] && w.verify(0).Gives?
      && w.verify(0).v.ok && w.verify(0).v.ran && w.verify(0).v.completionVerified
  }

  /** These changes are what a verification accepted: that of the first green rank, or the single one. */
  predicate ChangesAccepted(i: Proposal, w: World, changes: seq<Change>) {
    var k := if i.ranked != [] then FirstStop(w, |i.ranked|) else 0;
    && (i.ranked != [] ==> k < |i.ranked| && Green(w.verify(k)))
    && w.verify(k).Gives? && w.verify(k).v.accepted == Listed(changes)
  }

  /** The gate raises: a call or a discard before any green one, an answer without a list, or recording the verdict. */
  predicate GateFails(c: Config, i: Proposal, w: World) {
    && c.gateOn && (i.changes != [] || i.ranked != [])
    && (|| w.recordRaises
        || if i.ranked != [] then
             FirstStop(w, |i.ranked|) < |i.ranked| && !Green(w.verify(FirstStop(w, |i.ranked|)))
           else w.verify(0).Raises? || w.verify(0).v.accepted.NotAList?)
  }

  lemma GateFailsExactly(c: Config, i: Proposal, w: World)
    ensures GateOf(c, i, w).failed <==> GateFails(c, i, w)
  {
  }

  // -------------------------------------------------------------- first green

  predicate VerifiedAt(trace: seq<Event>, k: nat) {
    exists i :: 0 <= i < |trace| && trace[i].Verified? && trace[i].rank == k
  }

  lemma {:induction false} VerifiedRanks(w: World, base: seq<Change>, ranked: seq<Candidate>, n: nat, k: nat)
    requires n <= |ranked|
    ensures VerifiedAt(EventsTo(w, base, ranked, n), k) <==> k < n
  {
    if n > 0 {
      VerifiedRanks(w, base, ranked, n - 1, k);
      var before, here := EventsTo(w, base, ranked, n - 1), EventsAt(w, base + ranked[n - 1].changes, n - 1);
      assert (before + here)[|before|] == here[0];
      assert forall i :: 0 <= i < |before| ==> (before + here)[i] == before[i];
    }
  }

  /**
   The selected batch is the least green rank; every rank up to it was verified and
   gave no reason to stop, and no later one was verified at all.
   */
  lemma FirstGreenSelected(changes: seq<Change>, commands: seq<string>, ranked: seq<Candidate>, w: World)
    ensures var p := OrderedOf(changes, commands, ranked, w);
            var k := FirstStop(w, |ranked|);
            && (p.verified <==> k < |ranked| && Green(w.verify(k)))
            && (p.verified ==> p.handle == Some(w.verify(k).v.handle.id))
            && (p.changes != [] ==> p.verified && p.changes == w.verify(k).v.accepted.items)
            && (forall j: nat :: j < k ==> !Green(w.verify(j)))
            && (forall j: nat :: VerifiedAt(p.trace, j) <==> j <= k && j < |ranked|)
  {
    var k := FirstStop(w, |ranked|);
    var n := if k < |ranked| then k + 1 else k;
    forall j: nat ensures VerifiedAt(EventsTo(w, changes, ranked, n), j) <==> j < n {
      VerifiedRanks(w, changes, ranked, n, j);
    }
    forall j: nat | j < k ensures !Green(w.verify(j)) { assert !Stops(w, j); }
  }

  /** When no discard raises and no earlier call does, a green rank is always found. */
  lemma GreenIsFound(changes: seq<Change>, commands: seq<string>, ranked: seq<Candidate>, w: World, g: nat)
    requires g < |ranked| && Green(w.verify(g))
    requires forall j: nat :: j < g ==> w.verify(j).Gives? && !w.discardRaises(j)
    ensures OrderedOf(changes, commands, ranked, w).verified
  {
    assert Stops(w, g);
  }

  // ------------------------------------------------------------------ handles

  function HandleOf(o: Outcome): Handle { if o.Gives? then o.v.handle else NotText }

  function IsIt(h: Handle, id: nat): nat { if h == Text(id) then 1 else 0 }

  function HeldAs(p: Passed, id: nat): nat { if p.handle == Some(id) then 1 else 0 }

  /** How often the verifications in a trace issued this handle. */
  function Issued(w: World, trace: seq<Event>, id: nat): nat {
    if trace == [] then 0
    else
      var e := trace[|trace| - 1];
      Issued(w, trace[..|trace| - 1], id) + if e.Verified? then IsIt(HandleOf(w.verify(e.rank)), id) else 0
  }

  /** How often this handle was spent. */
  function Spent(trace: seq<Event>, id: nat): nat {
    if trace == [] then 0
    else
      var e := trace[|trace| - 1];
      Spent(trace[..|trace| - 1], id) + if e.Consumed? && e.handle == id then 1 else 0
  }

  lemma TraceNext(w: World, trace: seq<Event>, e: Event, id: nat)
    ensures Issued(w, trace + [e], id) ==
            Issued(w, trace, id) + if e.Verified? then IsIt(HandleOf(w.verify(e.rank)), id) else 0
    ensures Spent(trace + [e], id) == Spent(trace, id) + if e.Consumed? && e.handle == id then 1 else 0
  {
    assert (trace + [e])[..|trace|] == trace;
  }

  lemma AttemptBalance(w: World, trace: seq<Event>, batch: seq<Change>, k: nat, id: nat)
    requires Issued(w, trace, id) == Spent(trace, id)
    ensures var after := trace + EventsAt(w, batch, k);
            Issued(w, after, id) == Spent(after, id) + if Green(w.verify(k)) then IsIt(HandleOf(w.verify(k)), id) else 0
  {
    TraceNext(w, trace, Verified(k, batch), id);
    if Discards(w.verify(k)) {
      var spent := Consumed(w.verify(k).v.handle.id, false);
      TraceNext(w, trace + [Verified(k, batch)], spent, id);
      assert trace + EventsAt(w, batch, k) == trace + [Verified(k, batch)] + [spent];
    } else {
      assert trace + EventsAt(w, batch, k) == trace + [Verified(k, batch)];
    }
  }

  lemma {:induction false} LoopBalance(w: World, base: seq<Change>, ranked: seq<Candidate>, n: nat, id: nat)
    requires n <= |ranked| && forall j: nat :: j < n ==> !Green(w.verify(j))
    ensures Issued(w, EventsTo(w, base, ranked, n), id) == Spent(EventsTo(w, base, ranked, n), id)
  {
    if n > 0 {
      LoopBalance(w, base, ranked, n - 1, id);
      AttemptBalance(w, EventsTo(w, base, ranked, n - 1), base + ranked[n - 1].changes, n - 1, id);
    }
  }

  lemma OrderedBalance(changes: seq<Change>, commands: seq<string>, ranked: seq<Candidate>, w: World, id: nat)
    ensures var p := OrderedOf(changes, commands, ranked, w);
            Issued(w, p.trace, id) == Spent(p.trace, id) + HeldAs(p, id)
  {
    var k := FirstStop(w, |ranked|);
    forall j: nat | j < k ensures !Green(w.verify(j)) { assert !Stops(w, j); }
    LoopBalance(w, changes, ranked, k, id);
    if k < |ranked| { AttemptBalance(w, EventsTo(w, changes, ranked, k), changes + ranked[k].changes, k, id); }
  }

  lemma SingleBalance(changes: seq<Change>, commands: seq<string>, w: World, id: nat)
    ensures var p := SingleOf(changes, commands, w); Issued(w, p.trace, id) == Spent(p.trace, id) + HeldAs(p, id)
  {
    TraceNext(w, [], Verified(0, changes), id);
    assert [] + [Verified(0, changes)] == [Verified(0, changes)];
  }

  ghost predicate HandlesBalance(w: World, p: Passed) {
    forall id :: Issued(w, p.trace, id) == Spent(p.trace, id) + HeldAs(p, id)
  }

  /** Whatever way the gate ends, each issued handle is spent already, and as not applied, or held, and never both. */
  lemma GateBalance(c: Config, i: Proposal, w: World, id: nat)
    ensures var p := GateOf(c, i, w);
            && Issued(w, p.trace, id) == Spent(p.trace, id) + HeldAs(p, id)
            && forall e :: e in p.trace && e.Consumed? ==> !e.applied
  {
    GateIssuesWhatItHolds(c, i, w, id);
    GateAppliesNothing(c, i, w);
  }

  lemma GateIssuesWhatItHolds(c: Config, i: Proposal, w: World, id: nat)
    ensures var p := GateOf(c, i, w); Issued(w, p.trace, id) == Spent(p.trace, id) + HeldAs(p, id)
  {
    if i.ranked != [] {
      OrderedBalance(i.changes, i.commands, i.ranked, w, id);
    } else {
      SingleBalance(i.changes, i.commands, w, id);
    }
  }

  lemma GateAppliesNothing(c: Config, i: Proposal, w: World)
    ensures forall e :: e in GateOf(c, i, w).trace && e.Consumed? ==> !e.applied
  {
    var k := FirstStop(w, |i.ranked|);
    NoneApplied(w, i.changes, i.ranked, if k < |i.ranked| then k + 1 else k);
  }

  lemma {:induction false} GateKeeps(c: Config, i: Proposal, w: World)
    ensures var p := GateOf(c, i, w); HandlesBalance(w, p) && forall e :: e in p.trace && e.Consumed? ==> !e.applied
  {
    var p := GateOf(c, i, w);
    GateBalance(c, i, w, 0);
    forall id ensures Issued(w, p.trace, id) == Spent(p.trace, id) + HeldAs(p, id) { GateBalance(c, i, w, id); }
  }

  lemma {:induction false} NoneApplied(w: World, base: seq<Change>, ranked: seq<Candidate>, n: nat)
    requires n <= |ranked|
    ensures forall e :: e in EventsTo(w, base, ranked, n) && e.Consumed? ==> !e.applied
  {
    if n > 0 { NoneApplied(w, base, ranked, n - 1); }
  }

  // -------------------------------------------------------------------- cycle

  datatype Ended = Ended(passed: Passed, result: ApplyLadder.Result, trace: seq<Event>)

  function JobOf(c: Config, i: Proposal, status: SiStatus, p: Passed): ApplyLadder.Job {
    var flat := i.podCommands + p.commands;
    ApplyLadder.Job(status, i.podChanges + p.changes, if flat == [] then [] else c.normalize(flat),
                    if c.gateOn then Some(set x | x in p.commands :: c.digest(x)) else None, p.handle)
  }

  /** In strict mode a failure before the ladder ends the cycle: nothing is written, run or confirmed. */
  function CycleOf(c: Config, i: Proposal, status: SiStatus, w: World, lw: ApplyLadder.World): Ended {
    var p := GateOf(c, i, w);
    if c.strict && (p.failed || w.lanesRaise) then Ended(p, ApplyLadder.Raised(false, []), p.trace)
    else
      var r := ApplyLadder.LadderOf(c.ladder, JobOf(c, i, status, p), c.digest, lw);
      Ended(p, r, p.trace + if p.handle.Some? && r.Done? then [Consumed(p.handle.value, r.applied)] else [])
  }

  /** The gate, the ladder, and then the confirmation of the handle that is held. */
  method RunCycle(c: Config, i: Proposal, status: SiStatus, w: World, lw: ApplyLadder.World) returns (out: Ended)
    ensures out == CycleOf(c, i, status, w, lw)
    ensures out.result.Done? <==> CycleReturns(c, i, status, w, lw)
    ensures out.result.Done? ==> forall id :: Issued(w, out.trace, id) == Spent(out.trace, id)
    ensures forall e :: e in out.trace && e.Consumed? && e.applied ==> ConfirmedAndWritten(i, lw, out, e.handle)
    ensures CycleSpelled(c, i, status, w, lw, out)
  {
    CycleKeeps(c, i, status, w, lw);
    CycleIsSpelled(c, i, status, w, lw);
    var p := RunGate(c, i, w);
    if c.strict && (p.failed || w.lanesRaise) { return Ended(p, ApplyLadder.Raised(false, []), p.trace); }
    var approved: Option<set<string>> := None;
    if c.gateOn { approved := Some(set x | x in p.commands :: c.digest(x)); }
    var flat := i.podCommands + p.commands;
    if flat != [] { flat := c.normalize(flat); }
    var job := ApplyLadder.Job(status, i.podChanges + p.changes, flat, approved, p.handle);
    var r := ApplyLadder.RunApplyLadder(c.ladder, job, c.digest, lw);
    var trace := p.trace;
    if r.Done? && p.handle.Some? { trace := trace + [Consumed(p.handle.value, r.applied)]; }
    out := Ended(p, r, trace);
  }

  /** The ladder gets the pods' changes and commands before the gate's, and only the gate's commands are approved. */
  ghost predicate JobSpelled(c: Config, i: Proposal, status: SiStatus, p: Passed, j: ApplyLadder.Job) {
    && j.status == status && j.changes == i.podChanges + p.changes && j.handle == p.handle
    && j.commands == Tidied(c, i.podCommands + p.commands)
    && (!c.gateOn ==> j.approved == None)
    && (c.gateOn ==>
          && j.approved.Some?
          && forall d :: d in j.approved.value <==> exists x :: x in p.commands && d == c.digest(x))
  }

  /** Strict mode ends the cycle before the ladder, or the ladder does what its job allows and the handle is spent. */
  ghost predicate CycleSpelled(c: Config, i: Proposal, status: SiStatus, w: World, lw: ApplyLadder.World, out: Ended) {
    && GateSpelled(c, i, w, out.passed)
    && if c.strict && (GateFails(c, i, w) || w.lanesRaise) then
         out.result == ApplyLadder.Raised(false, []) && out.trace == out.passed.trace
       else
         && (exists j :: && JobSpelled(c, i, status, out.passed, j)
                         && ApplyLadder.Authorized(c.ladder, j, c.digest, lw, out.result))
         && out.trace == out.passed.trace + if out.result.Done? && out.passed.handle.Some?
                                            then [Consumed(out.passed.handle.value, out.result.applied)] else []
  }

  lemma {:induction false} CycleIsSpelled(c: Config, i: Proposal, status: SiStatus, w: World, lw: ApplyLadder.World)
    ensures CycleSpelled(c, i, status, w, lw, CycleOf(c, i, status, w, lw))
  {
    var p := GateOf(c, i, w);
    var j := JobOf(c, i, status, p);
    GateIsSpelled(c, i, w);
    GateFailsExactly(c, i, w);
    assert JobSpelled(c, i, status, p, j);
    ApplyLadder.LadderAuthorized(c.ladder, j, c.digest, lw);
  }

  /** A cycle gets to its confirmation: no strict abort, and nothing in the ladder raises. */
  predicate CycleReturns(c: Config, i: Proposal, status: SiStatus, w: World, lw: ApplyLadder.World) {
    && !(c.strict && (GateFails(c, i, w) || w.lanesRaise))
    && !ApplyLadder.LadderRaises(c.ladder, JobOf(c, i, status, GateOf(c, i, w)), c.digest, lw)
  }

  lemma {:induction false} ReturnsExactly(c: Config, i: Proposal, status: SiStatus, w: World, lw: ApplyLadder.World)
    ensures CycleOf(c, i, status, w, lw).result.Done? <==> CycleReturns(c, i, status, w, lw)
  {
    GateFailsExactly(c, i, w);
    ApplyLadder.RaisedExactly(c.ladder, JobOf(c, i, status, GateOf(c, i, w)), c.digest, lw);
  }

  /**
   Every text handle issued in a cycle is spent exactly once when the cycle returns; when
   the ladder raises, or strict mode ends the cycle before it, exactly the held one is left.
   */
  lemma {:induction false} HandlesSpentOnce(c: Config, i: Proposal, status: SiStatus, w: World, lw: ApplyLadder.World,
                                            id: nat)
    ensures var out := CycleOf(c, i, status, w, lw);
            Issued(w, out.trace, id) ==
            Spent(out.trace, id) + if CycleReturns(c, i, status, w, lw) then 0 else HeldAs(out.passed, id)
  {
    var out := CycleOf(c, i, status, w, lw);
    ReturnsExactly(c, i, status, w, lw);
    GateBalance(c, i, w, id);
    Confirm(w, out.passed, out.result, out.trace, id);
  }

  lemma Confirm(w: World, p: Passed, r: ApplyLadder.Result, trace: seq<Event>, id: nat)
    requires Issued(w, p.trace, id) == Spent(p.trace, id) + HeldAs(p, id)
    requires trace == p.trace + if p.handle.Some? && r.Done? then [Consumed(p.handle.value, r.applied)] else []
    ensures Issued(w, trace, id) == Spent(trace, id) + if r.Done? then 0 else HeldAs(p, id)
  {
    if p.handle.Some? && r.Done? {
      TraceNext(w, p.trace, Consumed(p.handle.value, r.applied), id);
    } else {
      assert trace == p.trace;
    }
  }

  /** So no handle outlives its cycle exactly when the cycle returns or holds none. */
  lemma {:induction false} NoHandleLeftExactly(c: Config, i: Proposal, status: SiStatus, w: World,
                                               lw: ApplyLadder.World)
    ensures var out := CycleOf(c, i, status, w, lw);
            (forall id :: Issued(w, out.trace, id) == Spent(out.trace, id))
            <==> CycleReturns(c, i, status, w, lw) || out.passed.handle.None?
  {
    var out := CycleOf(c, i, status, w, lw);
    forall id
      ensures Issued(w, out.trace, id) ==
              Spent(out.trace, id) + if CycleReturns(c, i, status, w, lw) then 0 else HeldAs(out.passed, id)
    {
      HandlesSpentOnce(c, i, status, w, lw, id);
    }
    if out.passed.handle.Some? && !CycleReturns(c, i, status, w, lw) {
      HandlesSpentOnce(c, i, status, w, lw, out.passed.handle.value);
    }
  }

  /** One candidate with one change, and a verification that accepts it under handle 1. */
  function OneCandidate(a: Change): Proposal { Proposal([], [], [Candidate([a], [])], [], []) }

  function OneGreen(a: Change, recordRaises: bool): World {
    World(_ => Gives(Verdict(true, true, true, Text(1), Listed([a]))), _ => false, recordRaises, false)
  }

  lemma OneGreenHeld(c: Config, a: Change, recordRaises: bool)
    requires c.gateOn
    ensures GateOf(c, OneCandidate(a), OneGreen(a, recordRaises)).handle == Some(1)
    ensures GateFails(c, OneCandidate(a), OneGreen(a, recordRaises)) <==> recordRaises
  {
    var i, w := OneCandidate(a), OneGreen(a, recordRaises);
    assert Green(w.verify(0)) && Stops(w, 0);
    GreenIsFound(i.changes, i.commands, i.ranked, w, 0);
    FirstGreenSelected(i.changes, i.commands, i.ranked, w);
    assert FirstStop(w, 1) == 0;
  }

  /** Such a handle is left over when the session raises, in any mode. */
  lemma {:induction false} RaisingSessionLeavesHandle(c: Config, a: Change, status: SiStatus, lw: ApplyLadder.World)
    requires c.gateOn && lw.session.SessionRaises?
    ensures var w := OneGreen(a, false);
            var out := CycleOf(c, OneCandidate(a), status, w, lw);
            Issued(w, out.trace, 1) == Spent(out.trace, 1) + 1
  {
    OneGreenHeld(c, a, false);
    HandlesSpentOnce(c, OneCandidate(a), status, OneGreen(a, false), lw, 1);
  }

  /** And in strict mode when recording the verdict raises, whatever the ladder would have done. */
  lemma {:induction false} StrictRecordLeavesHandle(c: Config, a: Change, status: SiStatus, lw: ApplyLadder.World)
    requires c.gateOn && c.strict
    ensures var w := OneGreen(a, true);
            var out := CycleOf(c, OneCandidate(a), status, w, lw);
            Issued(w, out.trace, 1) == Spent(out.trace, 1) + 1
  {
    OneGreenHeld(c, a, true);
    HandlesSpentOnce(c, OneCandidate(a), status, OneGreen(a, true), lw, 1);
  }

  /** The handle is the held one, and the session really wrote the transaction that this handle confirms. */
  predicate ConfirmedAndWritten(i: Proposal, lw: ApplyLadder.World, out: Ended, handle: nat) {
    && out.passed.handle == Some(handle) && out.result.Done? && out.result.applied && out.result.live
    && lw.session.Session? && lw.session.success
    && lw.confirmed(handle) == Some(i.podChanges + out.passed.changes)
  }

  /** A handle is confirmed as applied only when its own transaction was written, in an agreed cycle. */
  lemma {:induction false} AppliedConfirmation(c: Config, i: Proposal, status: SiStatus, w: World,
                                               lw: ApplyLadder.World, e: Event)
    requires var out := CycleOf(c, i, status, w, lw); e in out.trace && e.Consumed? && e.applied
    ensures ConfirmedAndWritten(i, lw, CycleOf(c, i, status, w, lw), e.handle) && status.Consensus?
    ensures i.ranked != [] ==> Green(w.verify(FirstStop(w, |i.ranked|)))
  {
    var out := CycleOf(c, i, status, w, lw);
    GateBalance(c, i, w, e.handle);
    if out.result.Done? {
      ApplyLadder.AppliedMeans(c.ladder, JobOf(c, i, status, out.passed), c.digest, lw);
    }
    HeldByGreen(c, i, w);
  }

  lemma HeldByGreen(c: Config, i: Proposal, w: World)
    ensures i.ranked != [] && GateOf(c, i, w).handle.Some? ==> Green(w.verify(FirstStop(w, |i.ranked|)))
  {
  }

  /** Verification issues a handle for the very changes it accepts. */
  ghost predicate ConfirmsAccepted(w: World, lw: ApplyLadder.World) {
    forall k :: w.verify(k).Gives? && w.verify(k).v.handle.Text? && w.verify(k).v.accepted.Listed? ==>
                  lw.confirmed(w.verify(k).v.handle.id) == Some(w.verify(k).v.accepted.items)
  }

  /** Then an applied confirmation means that what the first green rank had accepted was written, and nothing else. */
  lemma {:induction false} SelectedIsWritten(c: Config, i: Proposal, status: SiStatus, w: World,
                                             lw: ApplyLadder.World, e: Event)
    requires ConfirmsAccepted(w, lw) && i.ranked != []
    requires var out := CycleOf(c, i, status, w, lw); e in out.trace && e.Consumed? && e.applied
    ensures var k := FirstStop(w, |i.ranked|);
            && Green(w.verify(k))
            && i.podChanges + CycleOf(c, i, status, w, lw).passed.changes == w.verify(k).v.accepted.items
  {
    AppliedConfirmation(c, i, status, w, lw, e);
  }

  lemma {:induction false} CycleKeeps(c: Config, i: Proposal, status: SiStatus, w: World, lw: ApplyLadder.World)
    ensures var out := CycleOf(c, i, status, w, lw);
            && (out.result.Done? <==> CycleReturns(c, i, status, w, lw))
            && (out.result.Done? ==> forall id :: Issued(w, out.trace, id) == Spent(out.trace, id))
            && forall e :: e in out.trace && e.Consumed? && e.applied ==> ConfirmedAndWritten(i, lw, out, e.handle)
  {
    var out := CycleOf(c, i, status, w, lw);
    ReturnsExactly(c, i, status, w, lw);
    NoHandleLeftExactly(c, i, status, w, lw);
    forall e | e in out.trace && e.Consumed? && e.applied ensures ConfirmedAndWritten(i, lw, out, e.handle) {
      AppliedConfirmation(c, i, status, w, lw, e);
    }
  }

  /** Normalising only drops commands and trims white space. */
  ghost predicate KeepsMeaning(c: Config) {
    forall cs, x :: x in c.normalize(cs) ==> exists y :: y in cs && c.digest(y) == c.digest(x)
  }

  /** With the gate armed, proposed commands go on only after a verified completion. */
  lemma CommandsNeedVerification(c: Config, i: Proposal, w: World)
    requires c.gateOn && GateOf(c, i, w).commands != []
    ensures CommandsVerified(i, w)
  {
  }

  /**
   What may run at the end of it all: with the gate armed and execution authority on,
   a command runs only in an agreed cycle, and it is, up to white space, one of the
   proposer's commands that rode on a verified completion, even when a pod listed it.
   */
  lemma {:induction false} OnlyReviewedCommandsRun(c: Config, i: Proposal, status: SiStatus, w: World,
                                                   lw: ApplyLadder.World, x: string)
    requires c.gateOn && c.ladder.executionAuthority && KeepsMeaning(c)
    requires x in CycleOf(c, i, status, w, lw).result.ran
    ensures status.Consensus? && c.ladder.seam && c.ladder.armed && lw.allowed(x)
    ensures CommandsVerified(i, w)
    ensures exists y :: y in ProposedWith(i, w) && c.digest(y) == c.digest(x)
  {
    var p := GateOf(c, i, w);
    ApplyLadder.RunCommandsAuthorized(c.ladder, JobOf(c, i, status, p), c.digest, lw, x);
    var y :| y in p.commands && c.digest(y) == c.digest(x);
    CommandsNeedVerification(c, i, w);
    assert y in c.normalize(ProposedWith(i, w));
  }

  /** The proposer's commands: the shared ones, and the selected candidate's own. */
  function ProposedWith(i: Proposal, w: World): seq<string> {
    var k := FirstStop(w, |i.ranked|);
    if k < |i.ranked| then i.commands + i.ranked[k].commands else i.commands
  }
}
