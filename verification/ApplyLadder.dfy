/** The apply ladder: when a session really writes, and which commands run. */
module ApplyLadder {
  import opened Wrappers
  import opened CyclePolicy

  type Change = string

  /** What the cycle hands to the ladder; `handle` is the confirmation that is held for its changes. */
  datatype Job = Job(status: SiStatus, changes: seq<Change>, commands: seq<string>, approved: Option<set<string>>,
                     handle: Option<nat>)

  /**
   The local verification, the session and the executor, as they turn out.  A confirmation
   handle names at most one transaction; `ok` is what all the other checks of the review say.
   `laterRaises` stands for the sessions that follow the commands and are not modelled.
   */
  datatype Review = ReviewRaises | Review(ok: bool, digestOf: Option<seq<Change>>)
  datatype Session = SessionRaises | Session(success: bool, reverted: bool)
  datatype World = World(review: Review, confirmed: nat -> Option<seq<Change>>, session: Session,
                         allowed: string -> bool, execRaises: string -> bool, laterRaises: bool)

  datatype Gates = Gates(writeOn: bool, executionAuthority: bool, seam: bool, armed: bool)

  /** What identifies a command: its text without surrounding white space. */
  type Digest = string -> string

  /** `live` says that the session ran for real, `ran` which commands were executed. */
  datatype Result =
    | Raised(live: bool, ran: seq<string>)
    | Done(live: bool, ran: seq<string>, applied: bool, reverted: bool)

  /** A held handle stands in for the local tests, and only for the very transaction it was issued for. */
  predicate ReviewPasses(j: Job, w: World) {
    w.review.Review? && w.review.ok && (j.handle.Some? ==> w.confirmed(j.handle.value) == Some(j.changes))
  }

  predicate VerifyPass(j: Job, w: World) { j.changes == [] || ReviewPasses(j, w) }

  /** The content that was verified is not the content about to be written. */
  predicate Diverged(g: Gates, j: Job, w: World) {
    && g.executionAuthority && j.changes != [] && w.review.Review?
    && w.review.digestOf.Some? && w.review.digestOf.value != j.changes
  }

  predicate WritesForReal(g: Gates, j: Job, w: World) {
    j.status.Consensus? && VerifyPass(j, w) && g.writeOn && !Diverged(g, j, w)
  }

  predicate MayRun(g: Gates, j: Job, digest: Digest, w: World, c: string) {
    && g.seam && g.armed && w.allowed(c)
    && (g.executionAuthority ==>
          && j.status.Consensus? && VerifyPass(j, w)
          && (j.approved.Some? ==> digest(c) in j.approved.value))
  }

  /** The commands that run, in order, until one raises. */
  function Executed(cs: seq<string>, may: string -> bool, raises: string -> bool): (seq<string>, bool) {
    if cs == [] then ([], false)
    else
      var (ran, raised) := Executed(cs[..|cs| - 1], may, raises);
      var c := cs[|cs| - 1];
      if raised || !may(c) then (ran, raised) else (ran + [c], raises(c))
  }

  function LadderOf(g: Gates, j: Job, digest: Digest, w: World): Result {
    if j.changes != [] && w.review.ReviewRaises? then Raised(false, [])
    else
      var live := WritesForReal(g, j, w);
      if w.session.SessionRaises? then Raised(live, [])
      else
        var (ran, raised) := Executed(j.commands, c => MayRun(g, j, digest, w, c), w.execRaises);
        if raised || w.laterRaises then Raised(live, ran)
        else Done(live, ran, w.session.success && live && j.changes != [], w.session.reverted)
  }

  method RunApplyLadder(g: Gates, j: Job, digest: Digest, w: World) returns (r: Result)
    ensures r == LadderOf(g, j, digest, w)
    ensures Authorized(g, j, digest, w, r)
  {
    LadderAuthorized(g, j, digest, w);
    var consensus := j.status.Consensus?;
    var verifyPass := true;
    if j.changes != [] {
      if w.review.ReviewRaises? { return Raised(false, []); }
      verifyPass := w.review.ok;
      if j.handle.Some? && w.confirmed(j.handle.value) != Some(j.changes) { verifyPass := false; }
    }
    var live := consensus && verifyPass && g.writeOn;
    if g.executionAuthority && j.changes != [] {
      if w.review.digestOf.Some? && w.review.digestOf.value != j.changes { live := false; }
    }
    if w.session.SessionRaises? { return Raised(live, []); }
    var applied := w.session.success && live && j.changes != [];
    var ran, raised := RunCommands(g, j, digest, w, consensus && verifyPass);
    if raised || w.laterRaises { return Raised(live, ran); }
    r := Done(live, ran, applied, w.session.reverted);
  }

  /** Runs what may run, one command after another, until one raises. */
  method RunCommands(g: Gates, j: Job, digest: Digest, w: World, allowCommands: bool)
    returns (ran: seq<string>, raised: bool)
    requires allowCommands <==> j.status.Consensus? && VerifyPass(j, w)
    ensures (ran, raised) == Executed(j.commands, c => MayRun(g, j, digest, w, c), w.execRaises)
  {
    ran := [];
    ghost var may := c => MayRun(g, j, digest, w, c);
    for i := 0 to |j.commands|
      invariant Executed(j.commands[..i], may, w.execRaises) == (ran, false)
    {
      assert j.commands[..i + 1][..i] == j.commands[..i];
      var c := j.commands[i];
      var would := g.seam && g.armed && w.allowed(c);
      if would && g.executionAuthority && !allowCommands {
        would := false;
      } else if would && g.executionAuthority && j.approved.Some? && digest(c) !in j.approved.value {
        would := false;
      }
      if would {
        ran := ran + [c];
        if w.execRaises(c) {
          RaisedStays(j.commands, i + 1, may, w.execRaises);
          return ran, true;
        }
      }
    }
    assert j.commands[..|j.commands|] == j.commands;
    raised := false;
  }

  lemma {:induction false} RaisedStays(cs: seq<string>, n: nat, may: string -> bool, raises: string -> bool)
    requires n <= |cs| && Executed(cs[..n], may, raises).1
    ensures Executed(cs, may, raises) == Executed(cs[..n], may, raises)
    decreases |cs|
  {
    if n == |cs| {
      assert cs[..n] == cs;
    } else {
      assert cs[..|cs| - 1][..n] == cs[..n];
      RaisedStays(cs[..|cs| - 1], n, may, raises);
    }
  }

  lemma {:induction false} OnlyAllowedRun(cs: seq<string>, may: string -> bool, raises: string -> bool, c: string)
    requires c in Executed(cs, may, raises).0
    ensures c in cs && may(c)
  {
    var init := cs[..|cs| - 1];
    if c in Executed(init, may, raises).0 { OnlyAllowedRun(init, may, raises, c); }
  }

  /** A run command was allowed by every gate; with execution authority on, in an agreed and verified cycle. */
  lemma RunCommandsAuthorized(g: Gates, j: Job, digest: Digest, w: World, c: string)
    requires c in LadderOf(g, j, digest, w).ran
    ensures c in j.commands && MayRun(g, j, digest, w, c)
  {
    OnlyAllowedRun(j.commands, c => MayRun(g, j, digest, w, c), w.execRaises, c);
  }

  predicate SomeRaises(cs: seq<string>, may: string -> bool, raises: string -> bool) {
    exists c :: c in cs && may(c) && raises(c)
  }

  lemma {:induction false} ExecutionRaisesExactly(cs: seq<string>, may: string -> bool, raises: string -> bool)
    ensures Executed(cs, may, raises).1 <==> SomeRaises(cs, may, raises)
  {
    if cs != [] {
      var init, c := cs[..|cs| - 1], cs[|cs| - 1];
      ExecutionRaisesExactly(init, may, raises);
      assert cs == init + [c];
    }
  }

  /** The ladder cannot return: the review of some changes raises, or a session does, or a command that may run. */
  predicate LadderRaises(g: Gates, j: Job, digest: Digest, w: World) {
    || (j.changes != [] && w.review.ReviewRaises?)
    || w.session.SessionRaises? || w.laterRaises
    || SomeRaises(j.commands, c => MayRun(g, j, digest, w, c), w.execRaises)
  }

  lemma {:induction false} RaisedExactly(g: Gates, j: Job, digest: Digest, w: World)
    ensures LadderOf(g, j, digest, w).Raised? <==> LadderRaises(g, j, digest, w)
  {
    ExecutionRaisesExactly(j.commands, c => MayRun(g, j, digest, w, c), w.execRaises);
  }

  /** Changes landed: agreed, write-enabled, reviewed as they are written, and the confirmed ones of a held handle. */
  predicate Landed(g: Gates, j: Job, w: World) {
    && j.status.Consensus? && g.writeOn && j.changes != [] && w.review.Review? && w.review.ok
    && (j.handle.Some? ==> w.confirmed(j.handle.value) == Some(j.changes))
    && (g.executionAuthority && w.review.digestOf.Some? ==> w.review.digestOf.value == j.changes)
    && w.session.Session? && w.session.success
  }

  /** A ladder that returns reports applied changes exactly when they landed. */
  lemma AppliedMeans(g: Gates, j: Job, digest: Digest, w: World)
    requires LadderOf(g, j, digest, w).Done?
    ensures LadderOf(g, j, digest, w).applied <==> Landed(g, j, w)
  {
  }

  /** The commands of the list that may run, in order and as often as they are listed. */
  function Allowed(cs: seq<string>, may: string -> bool): seq<string> {
    if cs == [] then [] else Allowed(cs[..|cs| - 1], may) + if may(cs[|cs| - 1]) then [cs[|cs| - 1]] else []
  }

  predicate RaisesFirst(cs: seq<string>, may: string -> bool, raises: string -> bool, n: nat) {
    && n < |cs| && may(cs[n]) && raises(cs[n])
    && forall m :: 0 <= m < n ==> !(may(cs[m]) && raises(cs[m]))
  }

  /** What runs is all that may run, up to and with the first command that raises. */
  lemma {:induction false} RanExactly(cs: seq<string>, may: string -> bool, raises: string -> bool)
    ensures !SomeRaises(cs, may, raises) ==> Executed(cs, may, raises).0 == Allowed(cs, may)
    ensures forall n: nat :: RaisesFirst(cs, may, raises, n) ==>
                               Executed(cs, may, raises).0 == Allowed(cs[..n + 1], may)
  {
    if cs != [] {
      var init, c := cs[..|cs| - 1], cs[|cs| - 1];
      RanExactly(init, may, raises);
      ExecutionRaisesExactly(init, may, raises);
      assert cs == init + [c];
      forall n: nat | RaisesFirst(cs, may, raises, n)
        ensures Executed(cs, may, raises).0 == Allowed(cs[..n + 1], may)
      {
        if n < |init| {
          assert forall m :: 0 <= m <= n ==> init[m] == cs[m];
          assert RaisesFirst(init, may, raises, n) && init[..n + 1] == cs[..n + 1];
          assert init[n] in init;
        } else {
          NoneBefore(cs, may, raises, n);
          assert cs[..n + 1] == cs;
        }
      }
    }
  }

  lemma NoneBefore(cs: seq<string>, may: string -> bool, raises: string -> bool, n: nat)
    requires RaisesFirst(cs, may, raises, n)
    ensures !SomeRaises(cs[..n], may, raises)
  {
    forall c | c in cs[..n] ensures !(may(c) && raises(c)) {
      var m :| 0 <= m < n && cs[..n][m] == c;
      assert cs[m] == c;
    }
  }

  /** The review stands for the changes: it passed, and under a held handle they are the confirmed ones. */
  ghost predicate Reviewed(j: Job, w: World) {
    || j.changes == []
    || (&& w.review.Review? && w.review.ok
        && (j.handle.Some? ==> w.confirmed(j.handle.value) == Some(j.changes)))
  }

  /** Why a command runs: seam, arming, plan; with execution authority an agreed, reviewed cycle and its digest too. */
  ghost predicate MayBeRun(g: Gates, j: Job, digest: Digest, w: World, c: string) {
    && g.seam && g.armed && w.allowed(c)
    && (g.executionAuthority ==> && j.status == Consensus && Reviewed(j, w)
                                 && (j.approved == None || digest(c) in j.approved.value))
  }

  /** Why a session is real: agreed, reviewed, write-enabled, and no other content than was verified. */
  ghost predicate MayBeWritten(g: Gates, j: Job, w: World) {
    && j.status == Consensus && g.writeOn && Reviewed(j, w)
    && (g.executionAuthority && j.changes != [] && w.review.Review? && w.review.digestOf.Some? ==>
          w.review.digestOf.value == j.changes)
  }

  /** What a result says: it raised for a reason, wrote and applied for a reason, and ran all that was allowed. */
  ghost predicate Authorized(g: Gates, j: Job, digest: Digest, w: World, r: Result) {
    && (r.Raised? <==> LadderRaises(g, j, digest, w))
    && (r.Done? ==> (r.applied <==> Landed(g, j, w)) && w.session.Session? && r.reverted == w.session.reverted)
    && (if j.changes != [] && w.review.ReviewRaises? then r == Raised(false, [])
        else (r.live <==> MayBeWritten(g, j, w)))
    && RanAll(g, j, digest, w, r.ran)
  }

  /** Nothing runs when review or session raise; else all that may run does, up to and with the first that raises. */
  ghost predicate RanAll(g: Gates, j: Job, digest: Digest, w: World, ran: seq<string>) {
    var may := (c: string) => MayRun(g, j, digest, w, c);
    && (forall c :: may(c) <==> MayBeRun(g, j, digest, w, c))
    && if (j.changes != [] && w.review.ReviewRaises?) || w.session.SessionRaises? then ran == []
       else
         && (!SomeRaises(j.commands, may, w.execRaises) ==> ran == Allowed(j.commands, may))
         && (forall n: nat :: RaisesFirst(j.commands, may, w.execRaises, n) ==>
                                ran == Allowed(j.commands[..n + 1], may))
  }

  lemma {:induction false} LadderRanAll(g: Gates, j: Job, digest: Digest, w: World)
    ensures RanAll(g, j, digest, w, LadderOf(g, j, digest, w).ran)
  {
    RanExactly(j.commands, c => MayRun(g, j, digest, w, c), w.execRaises);
  }

  lemma {:induction false} LadderAuthorized(g: Gates, j: Job, digest: Digest, w: World)
    ensures Authorized(g, j, digest, w, LadderOf(g, j, digest, w))
  {
    var r := LadderOf(g, j, digest, w);
    RaisedExactly(g, j, digest, w);
    if r.Done? { AppliedMeans(g, j, digest, w); }
    LadderRanAll(g, j, digest, w);
  }
}
