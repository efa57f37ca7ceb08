/**
 How a publication goes wrong: when a builder that has ended leaves the lock behind, and a run that both publishes
 and reports failure.
 */
module SuiteFailures {
  import opened Common
  import opened SuitePublication

  // ---------------------------------------------------------------------------------------
  // Locks that stay

  /** The builder still holds the lock and is past every point at which it would remove it. */
  predicate Stuck(b: Builder) {
    && b.holdsLock
    && (b.phase.CleanupCheck? || b.phase.Removing? || Terminated(b)
        || ((b.phase.Closing? || b.phase.Releasing?) && b.lockIdentity.None?))
  }

  /**
   What leaves a lock behind: reading its identity fails, closing it fails, looking at it or unlinking it fails, or
   the builder crashes anywhere between creating and unlinking it.
   */
  predicate Abandons(b: Builder, a: Action) {
    || a.CloseFails?
    || (a.CallFails? && (b.phase.LockOpened? || b.phase.Unlinking? || (b.phase.Releasing? && b.lockIdentity.Some?)))
    || (a.Crash? && (b.phase.LockOpened? || b.phase.LockHeld? || b.phase.Checked? || b.phase.Unlinking?
                     || ((b.phase.Closing? || b.phase.Releasing?) && b.lockIdentity.Some?)))
  }

  ghost predicate IsStuck(s: State, p: Pid) {
    p in s.builders && Stuck(s.builders[p])
  }

  /** One of the builder's actions in this run was such a failure. */
  ghost predicate Abandoned(s: State, total: nat, events: seq<Event>, p: Pid)
    requires ValidRun(s, total, events)
    decreases |events|
  {
    |events| > 0 &&
      (|| (events[0].0 == p && p in s.builders && Abandons(s.builders[p], events[0].1))
       || Abandoned(Next(s, total, events[0].0, events[0].1), total, events[1..], p))
  }

  lemma {:induction false} FailureStuck(s: State, total: nat, p: Pid, a: Action)
    requires p in s.builders && LockFacts(Lookup(s, LockFile), s.builders[p])
    requires Enabled(s, total, p, a) && (a.CallFails? || a.Crash?)
    ensures IsStuck(Next(s, total, p, a), p) <==> IsStuck(s, p) || Abandons(s.builders[p], a)
  {
    hide Free;
  }

  lemma {:induction false} LockStuck(s: State, total: nat, p: Pid, a: Action)
    requires p in s.builders && LockFacts(Lookup(s, LockFile), s.builders[p])
    requires Enabled(s, total, p, a)
    requires a.OpenLock? || a.OpenLockFails? || a.Close? || a.CloseFails? || a.LookAtLock? || a.UnlinkLock?
    ensures IsStuck(Next(s, total, p, a), p) <==> IsStuck(s, p) || Abandons(s.builders[p], a)
  {
    hide Free;
  }

  lemma {:induction false} OrdinaryStuck(s: State, total: nat, p: Pid, a: Action)
    requires p in s.builders && LockFacts(Lookup(s, LockFile), s.builders[p])
    requires Enabled(s, total, p, a) && !a.CallFails? && !a.Crash?
    requires !(a.OpenLock? || a.OpenLockFails? || a.Close? || a.CloseFails? || a.LookAtLock? || a.UnlinkLock?)
    ensures IsStuck(Next(s, total, p, a), p) <==> IsStuck(s, p) || Abandons(s.builders[p], a)
  {
    hide Free;
  }

  /** The builder's own step gets it stuck exactly when it was stuck or the step is such a failure. */
  lemma {:induction false} OwnStepStuck(s: State, total: nat, p: Pid, a: Action)
    requires Inv(s, total) && Enabled(s, total, p, a) && p in s.builders
    ensures IsStuck(Next(s, total, p, a), p) <==> IsStuck(s, p) || Abandons(s.builders[p], a)
  {
    hide Enabled, Next, LockFacts, HomeFacts, Placed, IsStuck, Abandons, EntryOwned, OneInodePerPath;
    assert BuilderOk(s, total, p);
    if a.CallFails? || a.Crash? {
      FailureStuck(s, total, p, a);
    } else if a.OpenLock? || a.OpenLockFails? || a.Close? || a.CloseFails? || a.LookAtLock? || a.UnlinkLock? {
      LockStuck(s, total, p, a);
    } else {
      OrdinaryStuck(s, total, p, a);
    }
  }

  lemma {:induction false} StepStuck(s: State, total: nat, q: Pid, a: Action, p: Pid)
    requires Inv(s, total) && Enabled(s, total, q, a)
    ensures IsStuck(Next(s, total, q, a), p) <==>
              IsStuck(s, p) || (q == p && p in s.builders && Abandons(s.builders[p], a))
  {
    if q == p && p in s.builders {
      OwnStepStuck(s, total, p, a);
    } else {
      OtherStep(s, total, q, a, p);
    }
  }

  lemma {:induction false} OtherStep(s: State, total: nat, q: Pid, a: Action, p: Pid)
    requires Enabled(s, total, q, a) && (q != p || p !in s.builders)
    ensures IsStuck(Next(s, total, q, a), p) <==> IsStuck(s, p)
  {
    hide Free;
    if q != p && p in s.builders { StepFrame(s, total, q, a); }
  }

  lemma {:induction false} StuckIff(s: State, total: nat, events: seq<Event>, p: Pid)
    requires Inv(s, total) && ValidRun(s, total, events)
    ensures IsStuck(After(s, total, events), p) <==> IsStuck(s, p) || Abandoned(s, total, events, p)
    decreases |events|
  {
    hide Inv, Next, Enabled, IsStuck, Abandons;
    if |events| > 0 {
      var (q, a) := events[0];
      StepStuck(s, total, q, a, p);
      StepKeepsInv(s, total, q, a);
      StuckIff(Next(s, total, q, a), total, events[1..], p);
    }
  }

  /** In every run a builder that has ended still holds the lock exactly when one of its actions was such a failure. */
  lemma {:induction false} LockIsLeftIff(total: nat, events: seq<Event>, p: Pid)
    requires ValidRun(INITIAL, total, events)
    requires var t := After(INITIAL, total, events); p in t.builders && Terminated(t.builders[p])
    ensures Orphaned(After(INITIAL, total, events), p) <==> Abandoned(INITIAL, total, events, p)
  {
    InitialInv(total);
    StuckIff(INITIAL, total, events, p);
  }

  // ---------------------------------------------------------------------------------------
  // Staging directories that stay

  /** The directory that the builder made is still at its staging path. */
  ghost predicate HasStaging(s: State, p: Pid) {
    && p in s.builders
    && var b := s.builders[p];
    && Lookup(s, Staging(b.name)) == Some(b.directory)
    && b.directory in s.creator && s.creator[b.directory] == p
  }

  /**
   What leaves a staging directory behind: reading its identity fails, looking at it or removing it fails, or the
   builder crashes, while the directory is there.
   */
  ghost predicate Strands(s: State, p: Pid, a: Action) {
    HasStaging(s, p) && GivesUpStaging(s.builders[p].phase, a)
  }

  predicate GivesUpStaging(phase: Phase, a: Action) {
    a.Crash? || (a.CallFails? && (phase.Made? || phase.CleanupCheck? || phase.Removing?))
  }

  ghost predicate Stranded(s: State, total: nat, events: seq<Event>, p: Pid)
    requires ValidRun(s, total, events)
    decreases |events|
  {
    |events| > 0 &&
      (|| (events[0].0 == p && Strands(s, p, events[0].1))
       || Stranded(Next(s, total, events[0].0, events[0].1), total, events[1..], p))
  }

  /** The disk agrees with the builder's record of where its directory is. */
  lemma {:induction false} HasStagingIff(s: State, total: nat, p: Pid)
    requires Inv(s, total) && p in s.builders
    ensures HasStaging(s, p) <==> s.builders[p].home.InStaging?
  {
    hide OneInodePerPath, HomeFacts, LockFacts;
    assert BuilderOk(s, total, p);
    if HasStaging(s, p) { assert EntryOwned(s, Staging(s.builders[p].name)); }
  }

  ghost predicate EndedInStaging(s: State, p: Pid) {
    p in s.builders && Terminated(s.builders[p]) && s.builders[p].home.InStaging?
  }

  ghost predicate StrandsHere(b: Builder, a: Action) {
    b.home.InStaging? && GivesUpStaging(b.phase, a)
  }

  lemma {:induction false} FailureStrands(s: State, total: nat, p: Pid, a: Action)
    requires p in s.builders && HomeFacts(s.content, total, s.builders[p])
    requires Enabled(s, total, p, a) && (a.CallFails? || a.Crash?)
    ensures EndedInStaging(Next(s, total, p, a), p) <==> EndedInStaging(s, p) || StrandsHere(s.builders[p], a)
  {
    hide Free;
  }

  /** A cleanup that gets to look at its own directory finds it. */
  lemma {:induction false} CleanupStrands(s: State, total: nat, p: Pid, a: Action)
    requires p in s.builders && BuilderOk(s, total, p) && Enabled(s, total, p, a)
    requires a.LookAtStaging? || a.RemoveSome? || a.RemoveDirectory?
    ensures EndedInStaging(Next(s, total, p, a), p) <==> EndedInStaging(s, p) || StrandsHere(s.builders[p], a)
  {
    hide Free, LockFacts;
  }

  lemma {:induction false} OrdinaryStrands(s: State, total: nat, p: Pid, a: Action)
    requires p in s.builders && HomeFacts(s.content, total, s.builders[p]) && Enabled(s, total, p, a)
    requires !a.CallFails? && !a.Crash? && !a.LookAtStaging? && !a.RemoveSome? && !a.RemoveDirectory?
    ensures EndedInStaging(Next(s, total, p, a), p) <==> EndedInStaging(s, p) || StrandsHere(s.builders[p], a)
  {
    hide Free;
  }

  lemma {:induction false} OwnStepStrands(s: State, total: nat, p: Pid, a: Action)
    requires p in s.builders && BuilderOk(s, total, p) && Enabled(s, total, p, a)
    ensures EndedInStaging(Next(s, total, p, a), p) <==> EndedInStaging(s, p) || StrandsHere(s.builders[p], a)
  {
    hide Enabled, Next, LockFacts, HomeFacts, Placed, EndedInStaging, StrandsHere;
    if a.CallFails? || a.Crash? {
      FailureStrands(s, total, p, a);
    } else if a.LookAtStaging? || a.RemoveSome? || a.RemoveDirectory? {
      CleanupStrands(s, total, p, a);
    } else {
      OrdinaryStrands(s, total, p, a);
    }
  }

  lemma {:induction false} OtherStepStrands(s: State, total: nat, q: Pid, a: Action, p: Pid)
    requires Enabled(s, total, q, a) && (q != p || p !in s.builders)
    ensures EndedInStaging(Next(s, total, q, a), p) <==> EndedInStaging(s, p)
  {
    hide Free;
    if q != p && p in s.builders { StepFrame(s, total, q, a); }
  }

  lemma {:induction false} StepStrands(s: State, total: nat, q: Pid, a: Action, p: Pid)
    requires Inv(s, total) && Enabled(s, total, q, a)
    ensures EndedInStaging(Next(s, total, q, a), p) <==> EndedInStaging(s, p) || (q == p && Strands(s, p, a))
  {
    hide Next, Enabled, EndedInStaging, BuilderOk, EntryOwned, OneInodePerPath, HasStaging;
    if p in s.builders { HasStagingIff(s, total, p); }
    if q == p && p in s.builders {
      assert BuilderOk(s, total, p);
      OwnStepStrands(s, total, p, a);
    } else {
      OtherStepStrands(s, total, q, a, p);
      assert p !in s.builders ==> !Strands(s, p, a) by { NoBuilderNoStaging(s, p); }
    }
  }

  lemma {:induction false} NoBuilderNoStaging(s: State, p: Pid)
    ensures p !in s.builders ==> !HasStaging(s, p)
  {
  }

  lemma {:induction false} EndedInStagingIff(s: State, total: nat, events: seq<Event>, p: Pid)
    requires Inv(s, total) && ValidRun(s, total, events)
    ensures EndedInStaging(After(s, total, events), p) <==> EndedInStaging(s, p) || Stranded(s, total, events, p)
    decreases |events|
  {
    hide Inv, Next, Enabled, EndedInStaging, Strands;
    if |events| > 0 {
      var (q, a) := events[0];
      StepStrands(s, total, q, a, p);
      StepKeepsInv(s, total, q, a);
      EndedInStagingIff(Next(s, total, q, a), total, events[1..], p);
    }
  }

  /**
   In every run a builder that has ended still has its directory at its staging path exactly when one of its actions
   was such a failure; every other failure ends with the directory removed.
   */
  lemma {:induction false} StagingIsLeftIff(total: nat, events: seq<Event>, p: Pid)
    requires ValidRun(INITIAL, total, events)
    requires var t := After(INITIAL, total, events); p in t.builders && Terminated(t.builders[p])
    ensures HasStaging(After(INITIAL, total, events), p) <==> Stranded(INITIAL, total, events, p)
  {
    hide Inv, HasStaging;
    InitialInv(total);
    RunKeepsInv(INITIAL, total, events);
    HasStagingIff(After(INITIAL, total, events), total, p);
    EndedInStagingIff(INITIAL, total, events, p);
  }

  // ---------------------------------------------------------------------------------------
  // A run that publishes and reports failure

  ghost predicate Leads(s: State, total: nat, events: seq<Event>, t: State) {
    ValidRun(s, total, events) && After(s, total, events) == t
  }

  lemma {:induction false} Append(s: State, total: nat, x: seq<Event>, t: State, p: Pid, a: Action, u: State)
    requires Leads(s, total, x, t) && Enabled(t, total, p, a) && Next(t, total, p, a) == u
    ensures Leads(s, total, x + [(p, a)], u)
    decreases |x|
  {
    hide Enabled, Next;
    if |x| == 0 {
      var y := x + [(p, a)];
      assert y[0] == (p, a) && y[1..] == [];
      assert ValidRun(u, total, y[1..]) && After(u, total, y[1..]) == u;
      assert ValidRun(s, total, y) && After(s, total, y) == u;
    } else {
      assert (x + [(p, a)])[1..] == x[1..] + [(p, a)] && (x + [(p, a)])[0] == x[0];
      Append(Next(s, total, x[0].0, x[0].1), total, x[1..], t, p, a, u);
    }
  }

  /** A single builder has staged this many files. */
  function Staged(n: nat, phase: Phase): State {
    State(map[Staging(0) := 0], map[0 := n], map[0 := 0],
          map[0 := Builder(phase, 0, 0, Some(0), None, None, false, InStaging, false)])
  }

  function Written(n: nat): seq<Event> {
    if n == 0 then [(0, MakeStaging(0, 0)), (0, CaptureIdentity)] else Written(n - 1) + [(0, WriteFile)]
  }

  lemma {:induction false} WrittenRun(total: nat, n: nat)
    requires n <= total
    ensures Leads(INITIAL, total, Written(n), Staged(n, Building))
    decreases n
  {
    if n == 0 {
      var s := State(map[Staging(0) := 0], map[0 := 0], map[0 := 0],
                     map[0 := Builder(Made, 0, 0, None, None, None, false, InStaging, false)]);
      assert ValidRun(INITIAL, total, []);
      assert Next(INITIAL, total, 0, MakeStaging(0, 0)) == s;
      Append(INITIAL, total, [], INITIAL, 0, MakeStaging(0, 0), s);
      assert Next(s, total, 0, CaptureIdentity) == Staged(0, Building);
      Append(INITIAL, total, [(0, MakeStaging(0, 0))], s, 0, CaptureIdentity, Staged(0, Building));
      assert [] + [(0, MakeStaging(0, 0))] + [(0, CaptureIdentity)] == Written(0);
    } else {
      WrittenRun(total, n - 1);
      assert Next(Staged(n - 1, Building), total, 0, WriteFile) == Staged(n, Building);
      Append(INITIAL, total, Written(n - 1), Staged(n - 1, Building), 0, WriteFile, Staged(n, Building));
    }
  }

  /** The steps that follow: seven actions, and the state before each of them and at the end. */
  function Act(k: nat): Action {
    match k
    case 0 => FinishBuild
    case 1 => OpenLock(1)
    case 2 => CaptureLock
    case 3 => CheckDestination
    case 4 => Rename
    case 5 => CloseFails
    case _ => LookAtStaging
  }

  function PhaseAt(k: nat): Phase {
    match k
    case 0 => Building
    case 1 => Ready
    case 2 => LockOpened
    case 3 => LockHeld
    case 4 => Checked
    case 5 => Closing(true)
    case 6 => CleanupCheck
    case _ => Failed
  }

  function Stage(total: nat, k: nat): State {
    if k < 2 then Staged(total, PhaseAt(k))
    else
      State(map[if k < 5 then Staging(0) else Destination := 0, LockFile := 1], map[0 := total], map[0 := 0, 1 := 0],
            map[0 := Builder(PhaseAt(k), 0, 0, Some(0), if k < 6 then Some(1) else None,
                             if k < 3 then None else Some(1), true, if k < 5 then InStaging else Published, k >= 6)])
  }

  lemma {:induction false} EarlyStage(total: nat, k: nat)
    requires k < 3
    ensures Enabled(Stage(total, k), total, 0, Act(k)) && Next(Stage(total, k), total, 0, Act(k)) == Stage(total, k + 1)
  {
  }

  lemma {:induction false} LateStage(total: nat, k: nat)
    requires 3 <= k < 7
    ensures Enabled(Stage(total, k), total, 0, Act(k)) && Next(Stage(total, k), total, 0, Act(k)) == Stage(total, k + 1)
  {
    hide Free;
    var s := Stage(total, k);
    assert 0 in s.builders && s.fs[LockFile] == 1;
    if k == 4 { assert s.fs - {Staging(0)} == map[LockFile := 1]; }
  }

  function PublishedYetFailed(total: nat, k: nat): seq<Event> {
    if k == 0 then Written(total) else PublishedYetFailed(total, k - 1) + [(0, Act(k - 1))]
  }

  lemma {:induction false} StagesRun(total: nat, k: nat)
    requires k <= 7
    ensures Leads(INITIAL, total, PublishedYetFailed(total, k), Stage(total, k))
    decreases k
  {
    hide Leads, Enabled, Next;
    if k == 0 {
      WrittenRun(total, total);
    } else {
      StagesRun(total, k - 1);
      if k <= 3 { EarlyStage(total, k - 1); } else { LateStage(total, k - 1); }
      Append(INITIAL, total, PublishedYetFailed(total, k - 1), Stage(total, k - 1), 0, Act(k - 1), Stage(total, k));
    }
  }

  /** For every size of suite: closing the lock fails after the rename. The suite is out, and the lock stays. */
  lemma {:induction false} CloseCanFailAfterPublishing(total: nat)
    ensures ValidRun(INITIAL, total, PublishedYetFailed(total, 7))
    ensures var s := After(INITIAL, total, PublishedYetFailed(total, 7));
            && 0 in s.builders && s.builders[0].phase.Failed? && s.builders[0].home.Published?
            && Destination in s.fs && Orphaned(s, 0)
  {
    hide PublishedYetFailed, ValidRun, After;
    StagesRun(total, 7);
  }

  // ---------------------------------------------------------------------------------------
  // What is looked at before acting

  /**
   In any state, whatever else is on the disk: a builder sets out to unlink the lock exactly when it sees the captured
   identity there, to remove its staging directory exactly when it sees the captured identity there, and to rename
   exactly when it sees no destination.
   */
  lemma {:induction false} GuardsAreExact(s: State, total: nat, p: Pid, a: Action)
    requires p in s.builders && Enabled(s, total, p, a)
    ensures var b, phase := s.builders[p], Next(s, total, p, a).builders[p].phase;
            && (phase.Unlinking? && !b.phase.Unlinking? <==>
                  a.LookAtLock? && b.lockIdentity.Some? && Lookup(s, LockFile) == b.lockIdentity)
            && (phase.Removing? && !b.phase.Removing? <==>
                  a.LookAtStaging? && b.identity.Some? && Lookup(s, Staging(b.name)) == b.identity)
            && (phase.Checked? && !b.phase.Checked? <==> a.CheckDestination? && Destination !in s.fs)
  {
    hide Free;
  }
}
