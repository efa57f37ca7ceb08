/**
 Any number of ingests running against one chain directory without a lock. An ingest reads the
 head, decides, commits a partition directory (which fails if the id exists) and replaces the
 head; it may stop after any of these. Runs are arbitrary interleavings of such steps.
 */
module ChainRuns {
  import opened Common
  import opened ProspectiveChain
  import opened ChainHistory

  /**
   `read` is the head record that was read. `chain` records which partitions it stands for, and from the commit on
   also the new one. No step depends on either.
   */
  datatype Worker =
    | Loaded(at: Position, src: Source, read: Option<Head>, chain: seq<Partition>)
    | Decided(partition: Partition, newHead: Head, read: Option<Head>, chain: seq<Partition>)
    | Committed(newHead: Head, read: Option<Head>, chain: seq<Partition>)

  datatype State = State(head: Option<Head>, chain: seq<Partition>, parts: Partitions, workers: map<nat, Worker>)

  datatype Action =
    | Load(w: nat, src: Source)
    | Choose(w: nat, now: Time, later: Time)
    | CommitPartition(w: nat)
    | ReplaceHead(w: nat)
    | Stop(w: nat)                       // crash, rejection, or end of the process

  /** Optional promise about the sources: windows of one series per symbol that reach back to the loaded end. */
  type Feed = Option<map<Symbol, seq<Row>>>

  ghost predicate Feeds(feed: Feed, b: Baseline, at: Position, src: Source) {
    feed.Some? ==>
      && feed.value.Keys == b.seenEnd.Keys == src.frames.Keys == at.lastAt.Keys
      && forall s | s in b.seenEnd ::
           && Chronological(feed.value[s])
           && exists w :: WindowFrame(feed.value[s], src.frames[s], at.lastAt[s], w)
  }

  ghost predicate WindowFrame(series: seq<Row>, frame: seq<Row>, previous: Time, w: Window) {
    && w.start <= w.end <= |series| && frame == series[w.start..w.end] && ReachesBack(series, w.start, previous)
  }

  ghost predicate Enabled(s: State, b: Baseline, feed: Feed, a: Action, h: Hashes) {
    match a
    case Load(w, src) =>
      && w !in s.workers && ChronologicalSource(src)
      && var r := LoadHead(s.head, s.parts, b, h);
      r.Success? && Feeds(feed, b, r.value, src)
    case Choose(w, now, later) =>
      && w in s.workers && s.workers[w].Loaded?
      && Decide(b, s.workers[w].at, s.workers[w].src, now, later, h).Commit?
    case CommitPartition(w) =>
      w in s.workers && s.workers[w].Decided? && s.workers[w].partition.receipt.id !in s.parts
    case ReplaceHead(w) => w in s.workers && s.workers[w].Committed?
    case Stop(w) => w in s.workers
  }

  ghost function Next(s: State, b: Baseline, feed: Feed, a: Action, h: Hashes): State
    requires Enabled(s, b, feed, a, h)
  {
    match a
    case Load(w, src) =>
      s.(workers := s.workers[w := Loaded(LoadHead(s.head, s.parts, b, h).value, src, s.head, s.chain)])
    case Choose(w, now, later) =>
      var d := Decide(b, s.workers[w].at, s.workers[w].src, now, later, h);
      s.(workers := s.workers[w := Decided(d.partition, d.head, s.workers[w].read, s.workers[w].chain)])
    case CommitPartition(w) =>
      var worker := s.workers[w];
      var p := worker.partition;
      s.(parts := s.parts[p.receipt.id := p],
         workers := s.workers[w := Committed(worker.newHead, worker.read, worker.chain + [p])])
    case ReplaceHead(w) =>
      s.(head := Some(s.workers[w].newHead), chain := s.workers[w].chain, workers := s.workers - {w})
    case Stop(w) => s.(workers := s.workers - {w})
  }

  ghost predicate ValidRun(s: State, b: Baseline, feed: Feed, actions: seq<Action>, h: Hashes)
    decreases |actions|
  {
    |actions| > 0 ==>
      Enabled(s, b, feed, actions[0], h) && ValidRun(Next(s, b, feed, actions[0], h), b, feed, actions[1..], h)
  }

  ghost function After(s: State, b: Baseline, feed: Feed, actions: seq<Action>, h: Hashes): State
    requires ValidRun(s, b, feed, actions, h)
    decreases |actions|
  {
    if |actions| == 0 then s else After(Next(s, b, feed, actions[0], h), b, feed, actions[1..], h)
  }

  // ---------------------------------------------------------------------------------------
  // The invariant

  ghost predicate Fed(b: Baseline, chain: seq<Partition>, feed: Feed) {
    feed.Some? ==>
      && feed.value.Keys == b.seenEnd.Keys
      && forall s | s in b.seenEnd :: FedByWindows(b, chain, s, feed.value[s])
  }

  /** A chain that leads to the position a worker loaded. */
  ghost predicate LoadedFrom(b: Baseline, parts: Partitions, feed: Feed, at: Position, chain: seq<Partition>,
                             h: Hashes) {
    IsChain(b, parts, chain, h) && Fed(b, chain, feed) && LeadsTo(b, chain, at, h)
  }

  /** A chain that a decided partition and head would extend, once the partition is stored. */
  ghost predicate DecidedFrom(b: Baseline, parts: Partitions, feed: Feed, p: Partition, hd: Head,
                              chain: seq<Partition>, h: Hashes) {
    && IsChain(b, parts, chain, h)
    && Fed(b, chain + [p], feed)
    && Extends(b, parts[p.receipt.id := p], chain, p, h)
    && Describes(b, chain + [p], hd, h)
  }

  ghost predicate HeadFrom(b: Baseline, parts: Partitions, feed: Feed, hd: Head, chain: seq<Partition>, h: Hashes) {
    IsChain(b, parts, chain, h) && Fed(b, chain, feed) && Describes(b, chain, hd, h)
  }

  ghost predicate WorkerOk(b: Baseline, parts: Partitions, feed: Feed, worker: Worker, h: Hashes) {
    match worker
    case Loaded(at, src, _, chain) =>
      ChronologicalSource(src) && Feeds(feed, b, at, src) && LoadedFrom(b, parts, feed, at, chain, h)
    case Decided(p, hd, _, chain) => DecidedFrom(b, parts, feed, p, hd, chain, h)
    case Committed(hd, _, chain) => HeadFrom(b, parts, feed, hd, chain, h)
  }

  /** The stored head, if any, describes a valid chain of stored partitions. */
  ghost predicate HeadOk(b: Baseline, parts: Partitions, feed: Feed, head: Option<Head>, chain: seq<Partition>,
                         h: Hashes) {
    if head.None? then chain == [] else HeadFrom(b, parts, feed, head.value, chain, h)
  }

  ghost predicate WorkersOk(s: State, b: Baseline, feed: Feed, h: Hashes) {
    forall w | w in s.workers :: WorkerOk(b, s.parts, feed, s.workers[w], h)
  }

  ghost predicate Inv(s: State, b: Baseline, feed: Feed, h: Hashes) {
    && b.seenEnd.Keys == SYMBOL_SET
    && (feed.Some? ==> feed.value.Keys == SYMBOL_SET)
    && HeadOk(b, s.parts, feed, s.head, s.chain, h)
    && WorkersOk(s, b, feed, h)
  }

  lemma {:induction false} LoadOk(s: State, b: Baseline, feed: Feed, at: Position, src: Source, h: Hashes)
    requires b.seenEnd.Keys == SYMBOL_SET && (feed.Some? ==> feed.value.Keys == SYMBOL_SET)
    requires HeadOk(b, s.parts, feed, s.head, s.chain, h)
    requires LoadHead(s.head, s.parts, b, h) == Success(at)
    ensures LoadedFrom(b, s.parts, feed, at, s.chain, h)
  {
    if s.head.None? {
      assert Ends(b, []) == b.seenEnd;
    } else {
      LoadFollowsChain(b, s.parts, s.chain, s.head.value, h);
    }
  }

  lemma {:induction false} FeedContinues(b: Baseline, feed: Feed, chain: seq<Partition>, at: Position, src: Source,
                                         p: Partition)
    requires Fed(b, chain, feed) && Feeds(feed, b, at, src) && at.lastAt == Ends(b, chain)
    requires forall s | s in b.seenEnd && s in src.frames && s in at.lastAt ::
               RowsFor(p, s) == NewRows(src.frames[s], at.lastAt[s])
    ensures Fed(b, chain + [p], feed)
  {
    if feed.Some? {
      forall s | s in b.seenEnd ensures FedByWindows(b, chain + [p], s, feed.value[s]) {
        var w :| WindowFrame(feed.value[s], src.frames[s], at.lastAt[s], w);
        assert FedByWindow(b, chain, p, s, feed.value[s], w);
        assert (chain + [p])[..|chain + [p]| - 1] == chain;
      }
    }
  }

  lemma {:induction false} NewPartitionRows(b: Baseline, at: Position, src: Source, now: Time, h: Hashes)
    requires FramesComplete(src) && at.lastAt.Keys == SYMBOL_SET
    ensures forall s | s in src.frames && s in at.lastAt ::
              RowsFor(PartitionFor(b, at, src, now, h), s) == NewRows(src.frames[s], at.lastAt[s])
  {
  }

  lemma {:induction false} DecisionParts(b: Baseline, at: Position, src: Source, now: Time, later: Time, d: Decision,
                                         h: Hashes)
    requires d == Decide(b, at, src, now, later, h) && d.Commit?
    ensures FramesComplete(src) && at.lastAt.Keys == SYMBOL_SET
    ensures at.lastCaptured.Some? ==> at.lastCaptured.value < src.captured
    ensures d.partition == PartitionFor(b, at, src, now, h)
    ensures d.head == HeadFor(b, at, d.partition, later, h)
  {
  }

  lemma {:induction false} ChooseOk(b: Baseline, parts: Partitions, feed: Feed, at: Position, src: Source,
                                    chain: seq<Partition>, now: Time, p: Partition, h: Hashes)
    requires b.seenEnd.Keys == SYMBOL_SET && ChronologicalSource(src) && Feeds(feed, b, at, src)
    requires FramesComplete(src) && at.lastAt.Keys == SYMBOL_SET
    requires at.lastCaptured.Some? ==> at.lastCaptured.value < src.captured
    requires LoadedFrom(b, parts, feed, at, chain, h) && p == PartitionFor(b, at, src, now, h)
    ensures Fed(b, chain + [p], feed) && Extends(b, parts[p.receipt.id := p], chain, p, h)
  {
    NewPartitionExtends(b, parts[p.receipt.id := p], chain, at, src, now, h);
    NewPartitionRows(b, at, src, now, h);
    FeedContinues(b, feed, chain, at, src, p);
  }

  lemma {:induction false} CommitOk(b: Baseline, parts: Partitions, feed: Feed, p: Partition, hd: Head,
                                    chain: seq<Partition>, h: Hashes)
    requires DecidedFrom(b, parts, feed, p, hd, chain, h) && p.receipt.id !in parts
    ensures HeadFrom(b, parts[p.receipt.id := p], feed, hd, chain + [p], h)
  {
    var parts' := parts[p.receipt.id := p];
    ChainSurvivesGrowth(b, parts, parts', chain, h);
    AppendToChain(b, parts', chain, p, h);
  }

  lemma {:induction false} ExtendsSurvivesGrowth(b: Baseline, parts: Partitions, parts': Partitions,
                                                 chain: seq<Partition>, p: Partition, h: Hashes)
    requires Extends(b, parts, chain, p, h) && p.receipt.id in parts' && parts'[p.receipt.id] == p
    ensures Extends(b, parts', chain, p, h)
  {
  }

  /** A new partition disturbs nobody else. */
  lemma {:induction false} WorkerSurvivesGrowth(b: Baseline, parts: Partitions, parts': Partitions, feed: Feed,
                                                worker: Worker, h: Hashes)
    requires Grows(parts, parts') && WorkerOk(b, parts, feed, worker, h)
    ensures WorkerOk(b, parts', feed, worker, h)
  {
    ChainSurvivesGrowth(b, parts, parts', worker.chain, h);
    if worker.Decided? {
      var p := worker.partition;
      ExtendsSurvivesGrowth(b, parts[p.receipt.id := p], parts'[p.receipt.id := p], worker.chain, p, h);
    }
  }

  lemma {:induction false} OneWorkerChanges(s: State, t: State, b: Baseline, feed: Feed, w: nat, h: Hashes)
    requires WorkersOk(s, b, feed, h) && t.parts == s.parts
    requires forall v | v in t.workers && v != w :: v in s.workers && t.workers[v] == s.workers[v]
    requires w in t.workers ==> WorkerOk(b, s.parts, feed, t.workers[w], h)
    ensures WorkersOk(t, b, feed, h)
  {
  }

  lemma {:induction false} LoadKeepsInv(s: State, b: Baseline, feed: Feed, a: Action, h: Hashes)
    requires a.Load? && Inv(s, b, feed, h) && Enabled(s, b, feed, a, h)
    ensures Inv(Next(s, b, feed, a, h), b, feed, h)
  {
    LoadOk(s, b, feed, LoadHead(s.head, s.parts, b, h).value, a.src, h);
    OneWorkerChanges(s, Next(s, b, feed, a, h), b, feed, a.w, h);
  }

  lemma {:induction false} DecideFromLoaded(b: Baseline, parts: Partitions, feed: Feed, worker: Worker, now: Time,
                                            later: Time, d: Decision, h: Hashes)
    requires b.seenEnd.Keys == SYMBOL_SET && worker.Loaded? && WorkerOk(b, parts, feed, worker, h)
    requires d == Decide(b, worker.at, worker.src, now, later, h) && d.Commit?
    ensures DecidedFrom(b, parts, feed, d.partition, d.head, worker.chain, h)
  {
    DecisionParts(b, worker.at, worker.src, now, later, d, h);
    ChooseOk(b, parts, feed, worker.at, worker.src, worker.chain, now, d.partition, h);
    NewHeadDescribes(b, worker.chain, worker.at, d.partition, later, h);
  }

  lemma {:induction false} ChooseKeepsInv(s: State, b: Baseline, feed: Feed, a: Action, h: Hashes)
    requires a.Choose? && Inv(s, b, feed, h) && Enabled(s, b, feed, a, h)
    ensures Inv(Next(s, b, feed, a, h), b, feed, h)
  {
    hide Extends, IsChain, Describes, LeadsTo, Fed, Feeds, Decide, LoadHead, HeadOk, HeadFrom, LoadedFrom, DecidedFrom;
    var worker := s.workers[a.w];
    assert WorkerOk(b, s.parts, feed, worker, h);
    DecideFromLoaded(b, s.parts, feed, worker, a.now, a.later, Decide(b, worker.at, worker.src, a.now, a.later, h), h);
    OneWorkerChanges(s, Next(s, b, feed, a, h), b, feed, a.w, h);
  }

  lemma {:induction false} OthersSurviveCommit(s: State, t: State, b: Baseline, feed: Feed, w: nat, h: Hashes)
    requires WorkersOk(s, b, feed, h) && Grows(s.parts, t.parts)
    requires forall v | v in t.workers && v != w :: v in s.workers && t.workers[v] == s.workers[v]
    requires w in t.workers ==> WorkerOk(b, t.parts, feed, t.workers[w], h)
    ensures WorkersOk(t, b, feed, h)
  {
    forall v | v in t.workers ensures WorkerOk(b, t.parts, feed, t.workers[v], h) {
      if v != w {
        WorkerSurvivesGrowth(b, s.parts, t.parts, feed, s.workers[v], h);
      }
    }
  }

  lemma {:induction false} CommitKeepsInv(s: State, b: Baseline, feed: Feed, a: Action, h: Hashes)
    requires a.CommitPartition? && Inv(s, b, feed, h) && Enabled(s, b, feed, a, h)
    ensures Inv(Next(s, b, feed, a, h), b, feed, h)
  {
    hide Extends, IsChain, Describes, LeadsTo, Fed, Feeds, Decide, LoadHead, LoadedFrom, DecidedFrom;
    var worker, t := s.workers[a.w], Next(s, b, feed, a, h);
    CommitOk(b, s.parts, feed, worker.partition, worker.newHead, worker.chain, h);
    OthersSurviveCommit(s, t, b, feed, a.w, h);
    if s.head.Some? {
      ChainSurvivesGrowth(b, s.parts, t.parts, s.chain, h);
    }
  }

  lemma {:induction false} ReplaceKeepsInv(s: State, b: Baseline, feed: Feed, a: Action, h: Hashes)
    requires (a.ReplaceHead? || a.Stop?) && Inv(s, b, feed, h) && Enabled(s, b, feed, a, h)
    ensures Inv(Next(s, b, feed, a, h), b, feed, h)
  {
    hide LoadHead, Decide, Feeds, ChronologicalSource, LoadedFrom, DecidedFrom, IsChain, Fed, Describes;
    assert WorkerOk(b, s.parts, feed, s.workers[a.w], h);
    OneWorkerChanges(s, Next(s, b, feed, a, h), b, feed, a.w, h);
  }

  lemma {:induction false} StepKeepsInv(s: State, b: Baseline, feed: Feed, a: Action, h: Hashes)
    requires Inv(s, b, feed, h) && Enabled(s, b, feed, a, h)
    ensures Inv(Next(s, b, feed, a, h), b, feed, h)
  {
    hide Inv, Next, Enabled;
    match a
    case Load(_, _) => LoadKeepsInv(s, b, feed, a, h);
    case Choose(_, _, _) => ChooseKeepsInv(s, b, feed, a, h);
    case CommitPartition(_) => CommitKeepsInv(s, b, feed, a, h);
    case ReplaceHead(_) => ReplaceKeepsInv(s, b, feed, a, h);
    case Stop(_) => ReplaceKeepsInv(s, b, feed, a, h);
  }

  lemma {:induction false} RunKeepsInv(s: State, b: Baseline, feed: Feed, actions: seq<Action>, h: Hashes)
    requires Inv(s, b, feed, h) && ValidRun(s, b, feed, actions, h)
    ensures Inv(After(s, b, feed, actions, h), b, feed, h)
    decreases |actions|
  {
    hide Inv, Next, Enabled;
    if |actions| > 0 {
      StepKeepsInv(s, b, feed, actions[0], h);
      RunKeepsInv(Next(s, b, feed, actions[0], h), b, feed, actions[1..], h);
    }
  }

  // ---------------------------------------------------------------------------------------
  // What holds over whole runs

  /** The directory before any of the modelled ingests: no head, or one that describes a valid chain. */
  ghost predicate IsInitial(s: State, b: Baseline, feed: Feed, h: Hashes) {
    && b.seenEnd.Keys == SYMBOL_SET && (feed.Some? ==> feed.value.Keys == SYMBOL_SET)
    && s.workers == map[] && HeadOk(b, s.parts, feed, s.head, s.chain, h)
  }

  /** Whatever the interleaving and wherever ingests stop, the stored head describes a valid chain. */
  lemma {:induction false} EveryRunKeepsAValidChain(s: State, b: Baseline, feed: Feed, actions: seq<Action>, h: Hashes)
    requires IsInitial(s, b, feed, h) && ValidRun(s, b, feed, actions, h)
    ensures var t := After(s, b, feed, actions, h);
            if t.head.None? then t.chain == []
            else IsChain(b, t.parts, t.chain, h) && Describes(b, t.chain, t.head.value, h)
  {
    RunKeepsInv(s, b, feed, actions, h);
  }

  /** Fed with windows of one series per symbol, the stored chain holds the series up to the head's end. */
  lemma {:induction false} EveryRunEqualsBatch(s: State, b: Baseline, series: map<Symbol, seq<Row>>,
                                               actions: seq<Action>, symbol: Symbol, h: Hashes)
    requires IsInitial(s, b, Some(series), h) && ValidRun(s, b, Some(series), actions, h)
    requires symbol in SYMBOL_SET && Chronological(series[symbol])
    ensures var t := After(s, b, Some(series), actions, h);
            t.head.Some? ==>
              && symbol in t.head.value.lastAt
              && Contents(t.chain, symbol) == Between(series[symbol], b.seenEnd[symbol], t.head.value.lastAt[symbol])
  {
    RunKeepsInv(s, b, Some(series), actions, h);
    var t := After(s, b, Some(series), actions, h);
    if t.head.Some? {
      IncrementalEqualsBatch(b, t.parts, t.chain, symbol, series[symbol], h);
      assert t.head.value.lastAt == Ends(b, t.chain);
    }
  }
}
