/** The chain directory as one object, and the ingest that updates it. */
module ChainStore {
  import opened Common
  import opened ProspectiveChain

  datatype Outcome =
    | SourceAlreadyIngested(sequence: nat)
    | PartitionCommitted(id: PartitionId, sequence: nat, newRows: nat)
    | Blocked(error: Error)
    | Interrupted                         // stopped between the two commits

  class Store {
    var head: Option<Head>
    var partitions: Partitions

    constructor ()
      ensures head == None && partitions == map[]
    {
      head, partitions := None, map[];
    }

    /** The loop over the symbols: new rows, receipt records, new ends and the row count. */
    method Collect(order: seq<Symbol>, frames: map<Symbol, seq<Row>>, lastAt: map<Symbol, Time>, h: Hashes)
      returns (files: map<Symbol, seq<Row>>, symbols: map<Symbol, SymbolRecord>, nextLastAt: map<Symbol, Time>,
              total: nat)
      requires forall s | s in order :: s in frames && s in lastAt
      requires forall i, j | 0 <= i < j < |order| :: order[i] != order[j]
      ensures files.Keys == symbols.Keys == Members(order) && nextLastAt.Keys == lastAt.Keys
      ensures AllCollected(order, files, symbols, nextLastAt, frames, lastAt, h)
      ensures total == TotalRows(files, order)
    {
      hide AllCollected, NewRows, RecordOf, TotalRows;
      files, symbols, nextLastAt, total := map[], map[], lastAt, 0;
      NothingCollected(lastAt);
      for k := 0 to |order|
        invariant files.Keys == symbols.Keys == Members(order[..k]) && nextLastAt.Keys == lastAt.Keys
        invariant AllCollected(order[..k], files, symbols, nextLastAt, frames, lastAt, h)
        invariant total == TotalRows(files, order[..k])
      {
        var s := order[k];
        assert s !in order[..k] && order[..k + 1] == order[..k] + [s];
        var future := NewRows(frames[s], lastAt[s]);
        ghost var before, records, ends := files, symbols, nextLastAt;
        files := files[s := future];
        if |future| > 0 {
          nextLastAt := nextLastAt[s := future[|future| - 1].at];
          total := total + |future|;
        }
        symbols := symbols[s := RecordOf(future, lastAt[s], h)];
        TotalRowsSnoc(before, order[..k], s, future);
        CollectedSnoc(order[..k], before, records, ends, frames, lastAt, s, h);
      }
      assert order[..|order|] == order;
    }

    /** The partition and the head for one snapshot. */
    method Prepare(b: Baseline, at: Position, src: Source, now: Time, later: Time, h: Hashes)
      returns (p: Partition, hd: Head)
      requires FramesComplete(src) && at.lastAt.Keys == SYMBOL_SET
      ensures p == PartitionFor(b, at, src, now, h) && hd == HeadFor(b, at, p, later, h)
    {
      hide NewRows, RecordOf, LastOf, TotalRows, Collected, SYMBOLS, SYMBOL_SET;
      EverySymbolOnce();
      var files, symbols, nextLastAt, total := Collect(SYMBOLS, src.frames, at.lastAt, h);
      CollectedAll(files, symbols, nextLastAt, src, at, h);
      var hash, sequence := h.source(src), at.sequence + 1;
      p := Partition(
        Receipt(PartitionId(sequence, src.captured, Prefix(hash)), sequence, b.snapshotId, b.content, at.lastPartition,
                hash, src.discovery, src.captured, now, symbols, total),
        files);
      hd := Head(b.snapshotId, b.content, sequence, p.receipt.id, h.receipt(p.receipt), hash, Some(src.captured),
                 nextLastAt, later);
    }

    ghost predicate Holds(b: Baseline, chain: seq<Partition>, h: Hashes)
      reads this
    {
      StoredChain(b, head, partitions, chain, h)
    }

    /**
     One ingest. `chain` is the history that the head stands for; a committed ingest appends exactly one
     partition to it, an interrupted one stores a partition that the head does not reach, and a blocked one
     changes nothing.
     */
    method Ingest(b: Baseline, src: Source, now: Time, later: Time, stop: bool, h: Hashes, ghost chain: seq<Partition>)
      returns (outcome: Outcome)
      modifies this
      ensures outcome.SourceAlreadyIngested? || outcome.Blocked? ==> unchanged(this)
      ensures outcome.Interrupted? ==> unchanged(`head)
      ensures outcome.PartitionCommitted? || outcome.Interrupted? ==>
                && LoadHead(old(head), old(partitions), b, h).Success?
                && var d := Decide(b, LoadHead(old(head), old(partitions), b, h).value, src, now, later, h);
                && d.Commit? && d.partition.receipt.id !in old(partitions)
                && partitions == old(partitions)[d.partition.receipt.id := d.partition]
                && (outcome.PartitionCommitted? ==> head == Some(d.head) && outcome.sequence == d.head.sequence
                                                    && outcome.newRows == d.partition.receipt.newRows)
      ensures old(Holds(b, chain, h)) && b.seenEnd.Keys == SYMBOL_SET && ChronologicalSource(src) ==>
                if outcome.PartitionCommitted?
                then outcome.id in partitions && Holds(b, chain + [partitions[outcome.id]], h)
                else Holds(b, chain, h)
    {
      hide PartitionFor, LoadHead, StoredChain;
      if src.frames.Keys != SYMBOL_SET { return Blocked(SourceSymbolSetInvalid); }
      var loaded := LoadHead(head, partitions, b, h);
      if loaded.Failure? { return Blocked(loaded.error); }
      var at := loaded.value;
      if at.lastSource == Some(h.source(src)) { return SourceAlreadyIngested(at.sequence); }
      if at.lastCaptured.Some? && src.captured <= at.lastCaptured.value { return Blocked(CaptureTimeNotIncreasing); }
      if !LongEnough(src) { return Blocked(NotEnoughCandles); }
      var p, hd := Prepare(b, at, src, now, later, h);
      if p.receipt.id in partitions { return Blocked(ArtifactExists); }
      if StoredChain(b, head, partitions, chain, h) && b.seenEnd.Keys == SYMBOL_SET && ChronologicalSource(src) {
        StoredChainGrows(b, head, partitions, chain, at, src, now, later, p, hd, h);
      }
      partitions := partitions[p.receipt.id := p];
      if stop { return Interrupted; }
      head := Some(hd);
      return PartitionCommitted(p.receipt.id, p.receipt.sequence, p.receipt.newRows);
    }
  }

  /** The head, if any, describes this chain of stored partitions. */
  ghost predicate StoredChain(b: Baseline, head: Option<Head>, parts: Partitions, chain: seq<Partition>, h: Hashes) {
    if head.None? then chain == []
    else IsChain(b, parts, chain, h) && Describes(b, chain, head.value, h)
  }

  lemma {:induction false} StoredChainLeads(b: Baseline, head: Option<Head>, parts: Partitions, chain: seq<Partition>,
                                            at: Position, h: Hashes)
    requires b.seenEnd.Keys == SYMBOL_SET && StoredChain(b, head, parts, chain, h)
    requires LoadHead(head, parts, b, h) == Success(at)
    ensures IsChain(b, parts, chain, h) && LeadsTo(b, chain, at, h)
  {
    if head.None? {
      assert Ends(b, []) == b.seenEnd;
    } else {
      LoadFollowsChain(b, parts, chain, head.value, h);
    }
  }

  /** Storing the decided partition keeps the chain; replacing the head as well appends to it. */
  lemma {:induction false} StoredChainGrows(b: Baseline, head: Option<Head>, parts: Partitions, chain: seq<Partition>,
                                            at: Position, src: Source, now: Time, later: Time, p: Partition,
                                                hd: Head, h: Hashes)
    requires b.seenEnd.Keys == SYMBOL_SET && StoredChain(b, head, parts, chain, h) && ChronologicalSource(src)
    requires LoadHead(head, parts, b, h) == Success(at) && p.receipt.id !in parts
    requires Decide(b, at, src, now, later, h) == Commit(p, hd)
    ensures StoredChain(b, head, parts[p.receipt.id := p], chain, h)
    ensures StoredChain(b, Some(hd), parts[p.receipt.id := p], chain + [p], h)
  {
    hide Extends, Describes, LoadHead, Decide;
    var parts' := parts[p.receipt.id := p];
    StoredChainLeads(b, head, parts, chain, at, h);
    ChainSurvivesGrowth(b, parts, parts', chain, h);
    CommitExtendsChain(b, parts', chain, at, src, now, later, Commit(p, hd), h);
  }

  function Members(order: seq<Symbol>): set<Symbol> {
    set s | s in order
  }

  /** What the loop has collected for one symbol. */
  ghost predicate Collected(files: map<Symbol, seq<Row>>, symbols: map<Symbol, SymbolRecord>,
                            nextLastAt: map<Symbol, Time>,
                            frames: map<Symbol, seq<Row>>, lastAt: map<Symbol, Time>, s: Symbol, h: Hashes)
  {
    && s in files && s in symbols && s in nextLastAt && s in frames && s in lastAt
    && files[s] == NewRows(frames[s], lastAt[s])
    && symbols[s] == RecordOf(files[s], lastAt[s], h)
    && nextLastAt[s] == LastOf(files[s], lastAt[s])
  }

  /** What it has collected for these symbols; the ends of the others are as they were. */
  ghost predicate AllCollected(order: seq<Symbol>, files: map<Symbol, seq<Row>>, symbols: map<Symbol, SymbolRecord>,
                               nextLastAt: map<Symbol, Time>, frames: map<Symbol, seq<Row>>, lastAt: map<Symbol, Time>,
                               h: Hashes)
  {
    && (forall s | s in order :: Collected(files, symbols, nextLastAt, frames, lastAt, s, h))
    && (forall s | s in lastAt && s !in order :: s in nextLastAt && nextLastAt[s] == lastAt[s])
  }

  lemma {:induction false} NothingCollected(lastAt: map<Symbol, Time>)
    ensures Members([]) == {} && TotalRows(map[], []) == 0
    ensures forall frames, h :: AllCollected([], map[], map[], lastAt, frames, lastAt, h)
  {
  }

  lemma {:induction false} CollectedSnoc(order: seq<Symbol>, files: map<Symbol, seq<Row>>,
                                         symbols: map<Symbol, SymbolRecord>,
                                         nextLastAt: map<Symbol, Time>, frames: map<Symbol, seq<Row>>,
                                         lastAt: map<Symbol, Time>, s: Symbol, h: Hashes)
    requires AllCollected(order, files, symbols, nextLastAt, frames, lastAt, h) && s !in order && s in frames
             && s in lastAt
    ensures var future := NewRows(frames[s], lastAt[s]);
            AllCollected(order + [s], files[s := future], symbols[s := RecordOf(future, lastAt[s], h)],
                         if |future| > 0 then nextLastAt[s := future[|future| - 1].at] else nextLastAt,
                         frames, lastAt, h)
  {
    hide NewRows, RecordOf;
    var future := NewRows(frames[s], lastAt[s]);
    var files', symbols' := files[s := future], symbols[s := RecordOf(future, lastAt[s], h)];
    var ends := if |future| > 0 then nextLastAt[s := future[|future| - 1].at] else nextLastAt;
    forall x | x in order + [s] ensures Collected(files', symbols', ends, frames, lastAt, x, h) {
      if x != s { assert Collected(files, symbols, nextLastAt, frames, lastAt, x, h); }
    }
  }

  lemma {:induction false} CollectedAll(files: map<Symbol, seq<Row>>, symbols: map<Symbol, SymbolRecord>,
                                        nextLastAt: map<Symbol, Time>, src: Source, at: Position, h: Hashes)
    requires FramesComplete(src) && at.lastAt.Keys == files.Keys == symbols.Keys == nextLastAt.Keys == SYMBOL_SET
    requires AllCollected(SYMBOLS, files, symbols, nextLastAt, src.frames, at.lastAt, h)
    ensures files == RowsAfter(src, at)
    ensures symbols == map s | s in SYMBOL_SET :: RecordOf(files[s], at.lastAt[s], h)
    ensures nextLastAt == map s | s in at.lastAt :: LastOf(files[s], at.lastAt[s])
  {
    hide NewRows, RecordOf, LastOf, SYMBOLS, SYMBOL_SET;
    EverySymbolOnce();
    forall s | s in SYMBOL_SET
      ensures files[s] == NewRows(src.frames[s], at.lastAt[s])
      ensures symbols[s] == RecordOf(files[s], at.lastAt[s], h) && nextLastAt[s] == LastOf(files[s], at.lastAt[s])
    {
      assert s in Members(SYMBOLS);
      assert Collected(files, symbols, nextLastAt, src.frames, at.lastAt, s, h);
    }
  }

  lemma {:induction false} EverySymbolOnce()
    ensures Members(SYMBOLS) == SYMBOL_SET
    ensures forall i, j | 0 <= i < j < |SYMBOLS| :: SYMBOLS[i] != SYMBOLS[j]
  {
    assert SYMBOLS[0] == XAUUSD && SYMBOLS[1] == EURUSD && SYMBOLS[2] == USDJPY && SYMBOLS[3] == AUDUSD;
  }

  lemma {:induction false} TotalRowsSnoc(files: map<Symbol, seq<Row>>, symbols: seq<Symbol>, s: Symbol, rows: seq<Row>)
    requires (forall x | x in symbols :: x in files) && s !in symbols
    ensures TotalRows(files[s := rows], symbols + [s]) == TotalRows(files, symbols) + |rows|
  {
    if |symbols| == 0 {
      assert symbols + [s] == [s];
    } else {
      assert (symbols + [s])[1..] == symbols[1..] + [s];
      TotalRowsSnoc(files, symbols[1..], s, rows);
    }
  }
}
