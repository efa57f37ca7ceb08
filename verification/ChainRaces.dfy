/**
 Concurrent ingests and the history that the head stands for. The head is replaced without comparing it with the one
 that was read; the runs that only ever append to the history are exactly those in which the two are equal.
 */
module ChainRaces {
  import opened Common
  import opened ProspectiveChain
  import opened ChainHistory
  import opened ChainRuns

  /** The chain of the head that the ingest read. */
  function ReadChain(worker: Worker): seq<Partition> {
    if worker.Committed? && |worker.chain| > 0 then worker.chain[..|worker.chain| - 1] else worker.chain
  }

  /** A head replacement finds the head that its ingest had read. */
  ghost predicate Unraced(s: State, a: Action) {
    a.ReplaceHead? && a.w in s.workers ==> s.workers[a.w].read == s.head
  }

  ghost predicate NeverRaces(s: State, b: Baseline, feed: Feed, actions: seq<Action>, h: Hashes)
    requires ValidRun(s, b, feed, actions, h)
    decreases |actions|
  {
    |actions| > 0 ==>
      Unraced(s, actions[0]) && NeverRaces(Next(s, b, feed, actions[0], h), b, feed, actions[1..], h)
  }

  /** No step takes a partition out of the history. */
  ghost predicate OnlyAppends(s: State, b: Baseline, feed: Feed, actions: seq<Action>, h: Hashes)
    requires ValidRun(s, b, feed, actions, h)
    decreases |actions|
  {
    |actions| > 0 ==>
      var t := Next(s, b, feed, actions[0], h);
      s.chain <= t.chain && OnlyAppends(t, b, feed, actions[1..], h)
  }

  function Ids(chain: seq<Partition>): set<PartitionId> {
    set p | p in chain :: p.receipt.id
  }

  /** The partition that a worker has just stored is on no chain but its own. */
  ghost predicate Fresh(s: State, w: nat)
    requires w in s.workers
  {
    var chain := s.workers[w].chain;
    s.workers[w].Committed? && |chain| > 0 ==>
      var id := chain[|chain| - 1].receipt.id;
      && id in s.parts && id !in Ids(s.chain)
      && forall v | v in s.workers && v != w :: id !in Ids(s.workers[v].chain)
  }

  ghost predicate AllFresh(s: State) {
    forall w | w in s.workers :: Fresh(s, w)
  }

  ghost predicate Stored(s: State) {
    Ids(s.chain) <= s.parts.Keys && forall w | w in s.workers :: Ids(s.workers[w].chain) <= s.parts.Keys
  }

  /** Every ingest in flight read a chain that the present one extends. */
  ghost predicate AllBehind(s: State) {
    forall w | w in s.workers :: ReadChain(s.workers[w]) <= s.chain
  }

  lemma {:induction false} ChainIsStored(b: Baseline, parts: Partitions, chain: seq<Partition>, h: Hashes)
    requires IsChain(b, parts, chain, h)
    ensures Ids(chain) <= parts.Keys
  {
    forall p | p in chain ensures p.receipt.id in parts {
      var i :| 0 <= i < |chain| && chain[i] == p;
      EveryLink(b, parts, chain, i, h);
    }
  }

  lemma {:induction false} InvMeansStored(s: State, b: Baseline, feed: Feed, h: Hashes)
    requires Inv(s, b, feed, h)
    ensures Stored(s)
    ensures forall w | w in s.workers && s.workers[w].Committed? :: |s.workers[w].chain| > 0
  {
    hide IsChain, Fed, Feeds, LeadsTo, Extends, ChronologicalSource;
    if s.head.Some? { ChainIsStored(b, s.parts, s.chain, h); }
    forall w | w in s.workers
      ensures Ids(s.workers[w].chain) <= s.parts.Keys
      ensures s.workers[w].Committed? ==> |s.workers[w].chain| > 0
    {
      assert WorkerOk(b, s.parts, feed, s.workers[w], h);
      ChainIsStored(b, s.parts, s.workers[w].chain, h);
    }
  }

  lemma {:induction false} StepKeepsFresh(s: State, b: Baseline, feed: Feed, a: Action, h: Hashes)
    requires Enabled(s, b, feed, a, h) && Stored(s) && AllFresh(s)
    ensures AllFresh(Next(s, b, feed, a, h))
  {
    hide LoadHead, Decide, Feeds, ChronologicalSource;
    var t := Next(s, b, feed, a, h);
    forall w | w in t.workers ensures Fresh(t, w) {
      if w in s.workers { assert Fresh(s, w); }
    }
  }

  lemma {:induction false} PrefixHolds(x: seq<Partition>, y: seq<Partition>, n: nat)
    ensures x <= y && n < |x| ==> y[n] in x
  {
    assert x <= y && n < |x| ==> y[n] == x[n];
  }

  /** Replacing the head keeps the history exactly when the present chain is the one that was read. */
  lemma {:induction false} ReplacementAppendsIff(s: State, w: nat)
    requires w in s.workers && s.workers[w].Committed? && |s.workers[w].chain| > 0
    requires Fresh(s, w) && ReadChain(s.workers[w]) <= s.chain
    ensures s.chain <= s.workers[w].chain <==> ReadChain(s.workers[w]) == s.chain
  {
    var chain, read := s.workers[w].chain, ReadChain(s.workers[w]);
    PrefixHolds(s.chain, chain, |read|);
    assert chain[|read|] !in s.chain;
  }

  // ---------------------------------------------------------------------------------------
  // Heads and chains

  /** The head that an ingest read describes the chain that it is recorded with. */
  ghost predicate ReadsOk(s: State, b: Baseline, feed: Feed, h: Hashes) {
    forall w | w in s.workers :: HeadOk(b, s.parts, feed, s.workers[w].read, ReadChain(s.workers[w]), h)
  }

  /** An ingest that read the present chain read it from the present head: no chain gets a second head. */
  ghost predicate ChainFixesHead(s: State) {
    forall w | w in s.workers && ReadChain(s.workers[w]) == s.chain :: s.workers[w].read == s.head
  }

  lemma {:induction false} HeadSurvivesGrowth(b: Baseline, parts: Partitions, parts': Partitions, feed: Feed,
                                              head: Option<Head>, chain: seq<Partition>, h: Hashes)
    requires Grows(parts, parts') && HeadOk(b, parts, feed, head, chain, h)
    ensures HeadOk(b, parts', feed, head, chain, h)
  {
    hide IsChain, Fed, Describes;
    if head.Some? { ChainSurvivesGrowth(b, parts, parts', chain, h); }
  }

  lemma {:induction false} StepKeepsReads(s: State, b: Baseline, feed: Feed, a: Action, h: Hashes)
    requires Enabled(s, b, feed, a, h) && HeadOk(b, s.parts, feed, s.head, s.chain, h) && ReadsOk(s, b, feed, h)
    ensures ReadsOk(Next(s, b, feed, a, h), b, feed, h)
  {
    hide LoadHead, Decide, Feeds, ChronologicalSource, HeadOk;
    var t := Next(s, b, feed, a, h);
    forall w | w in t.workers ensures HeadOk(b, t.parts, feed, t.workers[w].read, ReadChain(t.workers[w]), h) {
      if w in s.workers {
        assert HeadOk(b, s.parts, feed, s.workers[w].read, ReadChain(s.workers[w]), h);
        HeadSurvivesGrowth(b, s.parts, t.parts, feed, s.workers[w].read, ReadChain(s.workers[w]), h);
        if a.CommitPartition? && a.w == w { assert ReadChain(t.workers[w]) == s.workers[w].chain; }
      }
    }
  }

  /** A chain that ends in a partition unknown to an ingest is not the one that it read. */
  lemma {:induction false} UnknownEnd(worker: Worker, chain: seq<Partition>)
    requires |chain| > 0 && chain[|chain| - 1].receipt.id !in Ids(worker.chain)
    ensures ReadChain(worker) != chain
  {
    assert chain[|chain| - 1] in chain;
    assert forall p | p in ReadChain(worker) :: p in worker.chain;
  }

  lemma {:induction false} StepKeepsHeads(s: State, b: Baseline, feed: Feed, a: Action, h: Hashes)
    requires Enabled(s, b, feed, a, h) && AllFresh(s) && ChainFixesHead(s)
    requires forall w | w in s.workers && s.workers[w].Committed? :: |s.workers[w].chain| > 0
    ensures ChainFixesHead(Next(s, b, feed, a, h))
  {
    hide LoadHead, Decide, Feeds, ChronologicalSource;
    var t := Next(s, b, feed, a, h);
    forall w | w in t.workers && ReadChain(t.workers[w]) == t.chain ensures t.workers[w].read == t.head {
      if a.ReplaceHead? {
        assert Fresh(s, a.w);
        UnknownEnd(t.workers[w], t.chain);
      } else if a.CommitPartition? && a.w == w {
        assert ReadChain(t.workers[w]) == s.workers[w].chain;
      }
    }
  }

  /** What was read is the present head exactly when its chain is the present chain. */
  lemma {:induction false} SameHeadIffSameChain(s: State, b: Baseline, feed: Feed, w: nat, h: Hashes)
    requires HeadOk(b, s.parts, feed, s.head, s.chain, h) && ReadsOk(s, b, feed, h) && ChainFixesHead(s)
    requires InjectiveRecords(h) && w in s.workers
    ensures s.workers[w].read == s.head <==> ReadChain(s.workers[w]) == s.chain
  {
    hide IsChain, Fed, Describes, InjectiveRecords;
    if s.workers[w].read == s.head && s.head.Some? {
      SameHeadSameHistory(b, s.parts, ReadChain(s.workers[w]), s.parts, s.chain, s.head.value, h);
    }
  }

  // ---------------------------------------------------------------------------------------
  // Whole runs

  lemma {:induction false} StepKeepsBehind(s: State, b: Baseline, feed: Feed, a: Action, h: Hashes)
    requires Enabled(s, b, feed, a, h) && AllBehind(s) && s.chain <= Next(s, b, feed, a, h).chain
    ensures AllBehind(Next(s, b, feed, a, h))
  {
    hide LoadHead, Decide, Feeds, ChronologicalSource;
    var t := Next(s, b, feed, a, h);
    forall w | w in t.workers ensures ReadChain(t.workers[w]) <= t.chain {
      if w in s.workers {
        assert ReadChain(s.workers[w]) <= s.chain;
        if a.CommitPartition? && a.w == w { assert ReadChain(t.workers[w]) == s.workers[w].chain; }
      }
    }
  }

  /** What every step of a run keeps. */
  ghost predicate Consistent(s: State, b: Baseline, feed: Feed, h: Hashes) {
    && Inv(s, b, feed, h) && Stored(s) && AllFresh(s) && ReadsOk(s, b, feed, h) && ChainFixesHead(s)
    && forall w | w in s.workers && s.workers[w].Committed? :: |s.workers[w].chain| > 0
  }

  lemma {:induction false} StepKeepsConsistent(s: State, b: Baseline, feed: Feed, a: Action, h: Hashes)
    requires Consistent(s, b, feed, h) && Enabled(s, b, feed, a, h)
    ensures Consistent(Next(s, b, feed, a, h), b, feed, h)
  {
    hide Next, Enabled, HeadOk, WorkersOk, Stored, AllFresh, ReadsOk, ChainFixesHead;
    StepKeepsInv(s, b, feed, a, h);
    StepKeepsFresh(s, b, feed, a, h);
    StepKeepsReads(s, b, feed, a, h);
    StepKeepsHeads(s, b, feed, a, h);
    InvMeansStored(Next(s, b, feed, a, h), b, feed, h);
  }

  lemma {:induction false} RunKeepsConsistent(s: State, b: Baseline, feed: Feed, actions: seq<Action>, h: Hashes)
    requires Consistent(s, b, feed, h) && ValidRun(s, b, feed, actions, h)
    ensures Consistent(After(s, b, feed, actions, h), b, feed, h)
    decreases |actions|
  {
    hide Consistent, Next, Enabled;
    if |actions| > 0 {
      StepKeepsConsistent(s, b, feed, actions[0], h);
      RunKeepsConsistent(Next(s, b, feed, actions[0], h), b, feed, actions[1..], h);
    }
  }

  lemma {:induction false} InitialIsConsistent(s: State, b: Baseline, feed: Feed, h: Hashes)
    requires IsInitial(s, b, feed, h)
    ensures Consistent(s, b, feed, h) && AllBehind(s)
  {
    hide HeadOk;
    InvMeansStored(s, b, feed, h);
  }

  /**
   After every run, raced or not: an ingest in flight read the present head exactly when the history that it read is
   the present one.
   */
  lemma {:induction false} ReadHeadIffReadHistory(s: State, b: Baseline, feed: Feed, actions: seq<Action>, w: nat,
                                                  h: Hashes)
    requires IsInitial(s, b, feed, h) && ValidRun(s, b, feed, actions, h) && InjectiveRecords(h)
    requires w in After(s, b, feed, actions, h).workers
    ensures var t := After(s, b, feed, actions, h);
            t.workers[w].read == t.head <==> ReadChain(t.workers[w]) == t.chain
  {
    hide IsInitial, ValidRun, After, HeadOk, WorkersOk, ReadsOk, ChainFixesHead, InjectiveRecords;
    InitialIsConsistent(s, b, feed, h);
    RunKeepsConsistent(s, b, feed, actions, h);
    SameHeadIffSameChain(After(s, b, feed, actions, h), b, feed, w, h);
  }

  /** What the steps of a run keep as long as none was raced. */
  ghost predicate Together(s: State, b: Baseline, feed: Feed, h: Hashes) {
    Consistent(s, b, feed, h) && AllBehind(s)
  }

  lemma {:induction false} StepAppendsIffUnraced(s: State, b: Baseline, feed: Feed, a: Action, h: Hashes)
    requires Together(s, b, feed, h) && Enabled(s, b, feed, a, h) && InjectiveRecords(h)
    ensures s.chain <= Next(s, b, feed, a, h).chain <==> Unraced(s, a)
  {
    hide LoadHead, Decide, Feeds, ChronologicalSource, HeadOk, WorkersOk, ReadsOk, ChainFixesHead, InjectiveRecords,
         Fresh;
    if a.ReplaceHead? {
      assert Fresh(s, a.w) && ReadChain(s.workers[a.w]) <= s.chain;
      ReplacementAppendsIff(s, a.w);
      SameHeadIffSameChain(s, b, feed, a.w, h);
    }
  }

  lemma {:induction false} StepKeepsTogether(s: State, b: Baseline, feed: Feed, a: Action, h: Hashes)
    requires Together(s, b, feed, h) && Enabled(s, b, feed, a, h) && s.chain <= Next(s, b, feed, a, h).chain
    ensures Together(Next(s, b, feed, a, h), b, feed, h)
  {
    hide Next, Enabled, Consistent, AllBehind;
    StepKeepsConsistent(s, b, feed, a, h);
    StepKeepsBehind(s, b, feed, a, h);
  }

  lemma {:induction false} AppendsIffUnraced(s: State, b: Baseline, feed: Feed, actions: seq<Action>, h: Hashes)
    requires Together(s, b, feed, h) && ValidRun(s, b, feed, actions, h) && InjectiveRecords(h)
    ensures OnlyAppends(s, b, feed, actions, h) <==> NeverRaces(s, b, feed, actions, h)
    decreases |actions|
  {
    hide Together, Next, Enabled, Unraced, InjectiveRecords;
    if |actions| > 0 {
      StepAppendsIffUnraced(s, b, feed, actions[0], h);
      if Unraced(s, actions[0]) {
        StepKeepsTogether(s, b, feed, actions[0], h);
        AppendsIffUnraced(Next(s, b, feed, actions[0], h), b, feed, actions[1..], h);
      }
    }
  }

  /** Whatever the interleaving: the history only grows exactly when every replacement finds the head that was read. */
  lemma {:induction false} HistoryGrowsIffUnraced(s: State, b: Baseline, feed: Feed, actions: seq<Action>, h: Hashes)
    requires IsInitial(s, b, feed, h) && ValidRun(s, b, feed, actions, h) && InjectiveRecords(h)
    ensures OnlyAppends(s, b, feed, actions, h) <==> NeverRaces(s, b, feed, actions, h)
  {
    hide IsInitial, Consistent, AllBehind, InjectiveRecords;
    InitialIsConsistent(s, b, feed, h);
    AppendsIffUnraced(s, b, feed, actions, h);
  }
}
