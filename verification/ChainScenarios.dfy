/**
 Scenarios of the chain: an ingest that stopped between its two commits and is tried again, and one that read an
 old head.
 */
module ChainScenarios {
  import opened Common
  import opened ProspectiveChain
  import opened ChainRuns

  // ---------------------------------------------------------------------------------------
  // Trying an ingest again

  /**
   An ingest that stopped between its two commits cannot be repeated: while the head stays where it
   was, deciding on the same snapshot again always yields the id that is already taken.
   */
  lemma {:induction false} InterruptedIngestCannotBeRepeated(
      b: Baseline, head: Option<Head>, parts: Partitions, src: Source, now: Time, later: Time, d: Decision,
      parts': Partitions, now': Time, later': Time, d': Decision, h: Hashes)
    requires LoadHead(head, parts, b, h).Success?
    requires d == Decide(b, LoadHead(head, parts, b, h).value, src, now, later, h) && d.Commit?
    requires d.partition.receipt.id !in parts
    requires Grows(parts[d.partition.receipt.id := d.partition], parts')
    ensures LoadHead(head, parts', b, h) == LoadHead(head, parts, b, h)
    ensures d' == Decide(b, LoadHead(head, parts', b, h).value, src, now', later', h) ==>
              d'.Commit? && d'.partition.receipt.id == d.partition.receipt.id && d.partition.receipt.id in parts'
  {
    hide RecordOf, TotalRows, NewRows, LastOf, SYMBOL_SET, SYMBOLS;
  }

  /**
   From any position, deciding on a snapshot again commits exactly when it is not the latest one and was captured
   later than the latest one; it then yields the id of the first attempt exactly when as many partitions precede it.
   */
  lemma {:induction false} RetryTakesSameIdIff(b: Baseline, at: Position, src: Source, now: Time, later: Time,
                                               d: Decision, at': Position, now': Time, later': Time, h: Hashes)
    requires d == Decide(b, at, src, now, later, h) && d.Commit? && at'.lastAt.Keys == SYMBOL_SET
    ensures var d' := Decide(b, at', src, now', later', h);
            && (d'.Commit? <==> at'.lastSource != Some(h.source(src))
                                && (at'.lastCaptured.Some? ==> at'.lastCaptured.value < src.captured))
            && (d'.Commit? ==> (d'.partition.receipt.id == d.partition.receipt.id <==> at'.sequence == at.sequence))
  {
    hide RecordOf, TotalRows, NewRows, LastOf, SYMBOL_SET, SYMBOLS;
  }

  // ---------------------------------------------------------------------------------------
  // Pieces of runs

  lemma {:induction false} RunAppend(s: State, b: Baseline, feed: Feed, x: seq<Action>, y: seq<Action>, h: Hashes)
    requires ValidRun(s, b, feed, x, h) && ValidRun(After(s, b, feed, x, h), b, feed, y, h)
    ensures ValidRun(s, b, feed, x + y, h)
    ensures After(s, b, feed, x + y, h) == After(After(s, b, feed, x, h), b, feed, y, h)
    decreases |x|
  {
    hide Next, Enabled;
    if |x| == 0 {
      assert x + y == y;
    } else {
      assert (x + y)[1..] == x[1..] + y;
      RunAppend(Next(s, b, feed, x[0], h), b, feed, x[1..], y, h);
    }
  }

  function Finish(w: nat): seq<Action> {
    [Choose(w, 0, 0), CommitPartition(w), ReplaceHead(w)]
  }

  // Single steps, as runs of one action.

  lemma {:induction false} LoadAlone(s: State, b: Baseline, w: nat, at: Position, src: Source, h: Hashes)
    requires w !in s.workers && LoadHead(s.head, s.parts, b, h) == Success(at) && ChronologicalSource(src)
    ensures ValidRun(s, b, None, [Load(w, src)], h)
    ensures After(s, b, None, [Load(w, src)], h) == s.(workers := s.workers[w := Loaded(at, src, s.head, s.chain)])
  {
    hide LoadHead, ChronologicalSource, ValidRun, After;
    OneAction(s, b, Load(w, src), h);
  }

  lemma {:induction false} ChooseAlone(s: State, b: Baseline, w: nat, d: Decision, h: Hashes)
    requires w in s.workers && s.workers[w].Loaded?
    requires d == Decide(b, s.workers[w].at, s.workers[w].src, 0, 0, h) && d.Commit?
    ensures ValidRun(s, b, None, [Choose(w, 0, 0)], h)
    ensures After(s, b, None, [Choose(w, 0, 0)], h)
            == s.(workers := s.workers[w := Decided(d.partition, d.head, s.workers[w].read, s.workers[w].chain)])
  {
    hide Decide, ValidRun, After;
    OneAction(s, b, Choose(w, 0, 0), h);
  }

  lemma {:induction false} CommitAlone(s: State, b: Baseline, w: nat, h: Hashes)
    requires w in s.workers && s.workers[w].Decided? && s.workers[w].partition.receipt.id !in s.parts
    ensures ValidRun(s, b, None, [CommitPartition(w)], h)
    ensures var k := s.workers[w];
            After(s, b, None, [CommitPartition(w)], h)
            == s.(parts := s.parts[k.partition.receipt.id := k.partition],
                  workers := s.workers[w := Committed(k.newHead, k.read, k.chain + [k.partition])])
  {
    hide ValidRun, After;
    OneAction(s, b, CommitPartition(w), h);
  }

  lemma {:induction false} ReplaceAlone(s: State, b: Baseline, w: nat, h: Hashes)
    requires w in s.workers && s.workers[w].Committed?
    ensures ValidRun(s, b, None, [ReplaceHead(w)], h)
    ensures After(s, b, None, [ReplaceHead(w)], h)
            == State(Some(s.workers[w].newHead), s.workers[w].chain, s.parts, s.workers - {w})
  {
    hide ValidRun, After;
    OneAction(s, b, ReplaceHead(w), h);
  }

  lemma {:induction false} OneStop(s: State, b: Baseline, w: nat, h: Hashes)
    requires w in s.workers
    ensures ValidRun(s, b, None, [Stop(w)], h)
    ensures After(s, b, None, [Stop(w)], h) == s.(workers := s.workers - {w})
  {
    hide ValidRun, After;
    OneAction(s, b, Stop(w), h);
  }

  /** The last three steps of an ingest, with nobody in between. */
  lemma {:induction false} FinishRun(s: State, b: Baseline, w: nat, d: Decision, h: Hashes)
    requires w in s.workers && s.workers[w].Loaded?
    requires d == Decide(b, s.workers[w].at, s.workers[w].src, 0, 0, h) && d.Commit?
    requires d.partition.receipt.id !in s.parts
    ensures ValidRun(s, b, None, Finish(w), h)
    ensures After(s, b, None, Finish(w), h)
            == State(Some(d.head), s.workers[w].chain + [d.partition], s.parts[d.partition.receipt.id := d.partition],
                     s.workers - {w})
  {
    hide Decide, Next, Enabled, ValidRun, After;
    var read, chain, p := s.workers[w].read, s.workers[w].chain, d.partition;
    var s1 := s.(workers := s.workers[w := Decided(p, d.head, read, chain)]);
    var s2 := State(s.head, s.chain, s.parts[p.receipt.id := p], s.workers[w := Committed(d.head, read, chain + [p])]);
    ChooseAlone(s, b, w, d, h);
    CommitAlone(s1, b, w, h);
    assert s1.workers[w := Committed(d.head, read, chain + [p])] == s2.workers;
    ReplaceAlone(s2, b, w, h);
    assert s2.workers - {w} == s.workers - {w};
    RunAppend(s, b, None, [Choose(w, 0, 0)], [CommitPartition(w)], h);
    RunAppend(s, b, None, [Choose(w, 0, 0)] + [CommitPartition(w)], [ReplaceHead(w)], h);
    assert [Choose(w, 0, 0)] + [CommitPartition(w)] + [ReplaceHead(w)] == Finish(w);
  }

  /** A snapshot that an ingest can take: complete, chronological and long enough. */
  ghost predicate Usable(src: Source) {
    FramesComplete(src) && ChronologicalSource(src) && LongEnough(src)
  }

  lemma {:induction false} UsableDecision(b: Baseline, at: Position, src: Source, h: Hashes)
    requires Usable(src) && at.lastAt.Keys == SYMBOL_SET && at.lastSource != Some(h.source(src))
    requires at.lastCaptured.Some? ==> at.lastCaptured.value < src.captured
    ensures var d := Decide(b, at, src, 0, 0, h);
            && d.Commit?
            && d.partition.receipt.id.sequence == at.sequence + 1 && d.partition.receipt.id.captured == src.captured
            && d.head.sequence == at.sequence + 1 && d.head.lastCaptured == Some(src.captured)
            && d.head.lastSource == h.source(src)
            && d.head.baseline == b.content && d.head.snapshotId == b.snapshotId && d.head.lastAt.Keys == SYMBOL_SET
  {
    hide RecordOf, TotalRows, NewRows, LastOf, SYMBOL_SET;
  }

  lemma {:induction false} OneAction(s: State, b: Baseline, a: Action, h: Hashes)
    requires Enabled(s, b, None, a, h)
    ensures ValidRun(s, b, None, [a], h) && After(s, b, None, [a], h) == Next(s, b, None, a, h)
  {
    assert [a][1..] == [];
    assert ValidRun(Next(s, b, None, a, h), b, None, [], h);
  }

  /** A whole ingest with nobody in between. */
  lemma {:induction false} IngestAlone(s: State, b: Baseline, w: nat, at: Position, src: Source, d: Decision, h: Hashes)
    requires w !in s.workers && LoadHead(s.head, s.parts, b, h) == Success(at) && ChronologicalSource(src)
    requires d == Decide(b, at, src, 0, 0, h) && d.Commit? && d.partition.receipt.id !in s.parts
    ensures ValidRun(s, b, None, [Load(w, src)] + Finish(w), h)
    ensures After(s, b, None, [Load(w, src)] + Finish(w), h)
            == State(Some(d.head), s.chain + [d.partition], s.parts[d.partition.receipt.id := d.partition], s.workers)
  {
    hide Decide, LoadHead, ChronologicalSource, Next, Enabled, ValidRun, After;
    var s1 := s.(workers := s.workers[w := Loaded(at, src, s.head, s.chain)]);
    LoadAlone(s, b, w, at, src, h);
    FinishRun(s1, b, w, d, h);
    RunAppend(s, b, None, [Load(w, src)], Finish(w), h);
    assert s1.workers - {w} == s.workers;
  }

  /** An ingest that stops between its two commits, with nobody in between. */
  lemma {:induction false} InterruptAlone(s: State, b: Baseline, w: nat, at: Position, src: Source, d: Decision,
                                          h: Hashes)
    requires w !in s.workers && LoadHead(s.head, s.parts, b, h) == Success(at) && ChronologicalSource(src)
    requires d == Decide(b, at, src, 0, 0, h) && d.Commit? && d.partition.receipt.id !in s.parts
    ensures ValidRun(s, b, None, Interrupted(w, src), h)
    ensures After(s, b, None, Interrupted(w, src), h) == s.(parts := s.parts[d.partition.receipt.id := d.partition])
  {
    hide Decide, LoadHead, Next, Enabled, ValidRun, After;
    var p := d.partition;
    var s1 := s.(workers := s.workers[w := Loaded(at, src, s.head, s.chain)]);
    var s2 := s.(workers := s.workers[w := Decided(p, d.head, s.head, s.chain)]);
    var s3 := s.(parts := s.parts[p.receipt.id := p],
                 workers := s.workers[w := Committed(d.head, s.head, s.chain + [p])]);
    LoadAlone(s, b, w, at, src, h);
    ChooseAlone(s1, b, w, d, h);
    assert s1.workers[w := Decided(p, d.head, s.head, s.chain)] == s2.workers;
    CommitAlone(s2, b, w, h);
    assert s2.workers[w := Committed(d.head, s.head, s.chain + [p])] == s3.workers;
    OneStop(s3, b, w, h);
    assert s3.workers - {w} == s.workers;
    RunAppend(s, b, None, [Load(w, src)], [Choose(w, 0, 0)], h);
    RunAppend(s, b, None, [Load(w, src)] + [Choose(w, 0, 0)], [CommitPartition(w)], h);
    RunAppend(s, b, None, [Load(w, src)] + [Choose(w, 0, 0)] + [CommitPartition(w)], [Stop(w)], h);
  }

  function Interrupted(w: nat, src: Source): seq<Action> {
    [Load(w, src)] + [Choose(w, 0, 0)] + [CommitPartition(w)] + [Stop(w)]
  }

  // ---------------------------------------------------------------------------------------
  // Concrete runs

  const EMPTY: State := State(None, [], map[], map[])

  function Start(b: Baseline): Position {
    Position(0, b.content, None, None, b.seenEnd)
  }

  function After1(d: Decision): Position
    requires d.Commit? && d.head.lastCaptured.Some?
  {
    Position(1, d.head.lastPartition, Some(d.head.lastSource), d.head.lastCaptured, d.head.lastAt)
  }

  function RetryRun(x: Source, y: Source): seq<Action> {
    Interrupted(0, x) + ([Load(1, y)] + Finish(1)) + ([Load(2, x)] + Finish(2))
  }

  /**
   Once an ingest of an older snapshot has moved the head, the interrupted snapshot goes in after all, as the second
   partition.
   */
  lemma {:induction false} RetryGoesThroughLater(b: Baseline, x: Source, y: Source, h: Hashes)
    requires b.seenEnd.Keys == SYMBOL_SET && Usable(x) && Usable(y)
    requires y.captured < x.captured && h.source(y) != h.source(x)
    ensures IsInitial(EMPTY, b, None, h) && ValidRun(EMPTY, b, None, RetryRun(x, y), h)
    ensures var t := After(EMPTY, b, None, RetryRun(x, y), h);
            && t.head.Some? && t.head.value.sequence == 2 && t.head.value.lastSource == h.source(x)
            && |t.chain| == 2 && |t.parts| == 3
  {
    hide Decide, LoadHead, FramesComplete, LongEnough, Next, Enabled, ValidRun, After, ChronologicalSource;
    UsableDecision(b, Start(b), x, h);
    var d0 := Decide(b, Start(b), x, 0, 0, h);
    EmptyLoads(map[], b, h);
    InterruptAlone(EMPTY, b, 0, Start(b), x, d0, h);
    var s1 := EMPTY.(parts := map[d0.partition.receipt.id := d0.partition]);

    UsableDecision(b, Start(b), y, h);
    var d1 := Decide(b, Start(b), y, 0, 0, h);
    EmptyLoads(s1.parts, b, h);
    IngestAlone(s1, b, 1, Start(b), y, d1, h);
    var s2 := State(Some(d1.head), [] + [d1.partition], s1.parts[d1.partition.receipt.id := d1.partition], map[]);

    UsableDecision(b, After1(d1), x, h);
    var d2 := Decide(b, After1(d1), x, 0, 0, h);
    FirstHeadLoads(d1, s2.parts, b, h);
    IngestAlone(s2, b, 2, After1(d1), x, d2, h);

    RunAppend(EMPTY, b, None, Interrupted(0, x), [Load(1, y)] + Finish(1), h);
    RunAppend(EMPTY, b, None, Interrupted(0, x) + ([Load(1, y)] + Finish(1)), [Load(2, x)] + Finish(2), h);
    ThreeParts(d0.partition, d1.partition, d2.partition);
  }

  lemma {:induction false} ThreeParts(x: Partition, y: Partition, z: Partition)
    requires x.receipt.id != y.receipt.id && x.receipt.id != z.receipt.id && y.receipt.id != z.receipt.id
    ensures |map[x.receipt.id := x][y.receipt.id := y][z.receipt.id := z]| == 3
  {
    var m := map[x.receipt.id := x][y.receipt.id := y][z.receipt.id := z];
    assert m.Keys == {x.receipt.id, y.receipt.id, z.receipt.id};
    assert |m| == |m.Keys|;
  }

  lemma {:induction false} EmptyLoads(parts: Partitions, b: Baseline, h: Hashes)
    requires b.seenEnd.Keys == SYMBOL_SET
    ensures LoadHead(None, parts, b, h) == Success(Start(b))
  {
  }

  lemma {:induction false} FirstHeadLoads(d: Decision, parts: Partitions, b: Baseline, h: Hashes)
    requires d.Commit? && d.head.sequence == 1 && d.head.lastCaptured.Some? && d.head.lastAt.Keys == SYMBOL_SET
    requires d.head.baseline == b.content && d.head.snapshotId == b.snapshotId
    ensures LoadHead(Some(d.head), parts, b, h) == Success(After1(d))
  {
  }

  function StaleRun(x: Source, y: Source, z: Source): seq<Action> {
    [Load(0, x)] + ([Load(1, y)] + Finish(1)) + ([Load(2, z)] + Finish(2)) + Finish(0)
  }

  /**
   Without a lock the head can go back: an ingest that read an old head replaces the chain of two by a
   chain of one, although every chain on the way is valid.
   */
  lemma {:induction false} StaleIngestRollsBack(b: Baseline, x: Source, y: Source, z: Source, h: Hashes)
    requires b.seenEnd.Keys == SYMBOL_SET && Usable(x) && Usable(y) && Usable(z)
    requires x.captured != y.captured < z.captured && h.source(y) != h.source(z)
    ensures IsInitial(EMPTY, b, None, h) && |StaleRun(x, y, z)| == 12
    ensures ValidRun(EMPTY, b, None, StaleRun(x, y, z)[..9], h) && ValidRun(EMPTY, b, None, StaleRun(x, y, z), h)
    ensures var s := After(EMPTY, b, None, StaleRun(x, y, z)[..9], h); s.head.Some? && s.head.value.sequence == 2
    ensures var s := After(EMPTY, b, None, StaleRun(x, y, z), h); s.head.Some? && s.head.value.sequence == 1
  {
    hide Decide, LoadHead, FramesComplete, LongEnough, Next, Enabled, ValidRun, After, ChronologicalSource;
    EmptyLoads(map[], b, h);
    UsableDecision(b, Start(b), x, h);
    var s1 := EMPTY.(workers := map[0 := Loaded(Start(b), x, None, [])]);
    LoadAlone(EMPTY, b, 0, Start(b), x, h);

    UsableDecision(b, Start(b), y, h);
    var d1 := Decide(b, Start(b), y, 0, 0, h);
    IngestAlone(s1, b, 1, Start(b), y, d1, h);
    var s2 := State(Some(d1.head), [] + [d1.partition], map[d1.partition.receipt.id := d1.partition], s1.workers);

    UsableDecision(b, After1(d1), z, h);
    var d2 := Decide(b, After1(d1), z, 0, 0, h);
    FirstHeadLoads(d1, s2.parts, b, h);
    IngestAlone(s2, b, 2, After1(d1), z, d2, h);
    var s3 := State(Some(d2.head), s2.chain + [d2.partition], s2.parts[d2.partition.receipt.id := d2.partition],
                    s1.workers);

    var d0 := Decide(b, Start(b), x, 0, 0, h);
    FinishRun(s3, b, 0, d0, h);

    var begin, second, third := [Load(0, x)], [Load(1, y)] + Finish(1), [Load(2, z)] + Finish(2);
    RunAppend(EMPTY, b, None, begin, second, h);
    RunAppend(EMPTY, b, None, begin + second, third, h);
    RunAppend(EMPTY, b, None, begin + second + third, Finish(0), h);
    assert StaleRun(x, y, z)[..9] == begin + second + third;
  }
}
