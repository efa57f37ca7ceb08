/**
 The prospective M15 chain: a frozen baseline, an append-only set of partitions linked by
 content hash, and one head record. This module holds the records, the pure steps of an ingest,
 and what makes a sequence of partitions a valid chain.
 */
module ProspectiveChain {
  import opened Common

  type Digest = string
  type Time = int

  datatype Symbol = XAUUSD | EURUSD | USDJPY | AUDUSD | OtherSymbol(name: string)

  /** The order in which an ingest goes through the symbols, and the set of them. */
  const SYMBOLS: seq<Symbol> := [XAUUSD, EURUSD, USDJPY, AUDUSD]
  const SYMBOL_SET: set<Symbol> := {XAUUSD, EURUSD, USDJPY, AUDUSD}

  datatype Row = Row(at: Time, bar: string)

  /** A verified read-only snapshot: one chronological frame per symbol. */
  datatype Source = Source(captured: Time, discovery: Digest, frames: map<Symbol, seq<Row>>)

  datatype Baseline = Baseline(content: Digest, snapshotId: string, seenEnd: map<Symbol, Time>)

  datatype PartitionId = PartitionId(sequence: nat, captured: Time, sourcePrefix: string)

  datatype SymbolRecord = SymbolRecord(
    rows: nat, file: Option<Digest>, firstAt: Option<Time>, lastAt: Option<Time>, previousLast: Time)

  datatype Receipt = Receipt(
    id: PartitionId, sequence: nat, snapshotId: string, baseline: Digest, previous: Digest, source: Digest,
    discovery: Digest, captured: Time, ingested: Time, symbols: map<Symbol, SymbolRecord>, newRows: nat)

  /** A committed directory: its receipt and the new rows of each symbol; no rows means no file. */
  datatype Partition = Partition(receipt: Receipt, files: map<Symbol, seq<Row>>)

  /** `captured` is absent in heads written by an earlier version. */
  datatype Head = Head(
    snapshotId: string, baseline: Digest, sequence: nat, lastPartitionId: PartitionId, lastPartition: Digest,
    lastSource: Digest, lastCaptured: Option<Time>, lastAt: map<Symbol, Time>, updated: Time)

  /** What an ingest works from: the stored head, or the baseline when there is none. */
  datatype Position = Position(
    sequence: nat, lastPartition: Digest, lastSource: Option<Digest>, lastCaptured: Option<Time>,
    lastAt: map<Symbol, Time>)

  /** The content hashes, kept abstract. */
  datatype Hashes = Hashes(source: Source -> Digest, receipt: Receipt -> Digest, rows: seq<Row> -> Digest)

  ghost predicate InjectiveSources(h: Hashes) {
    forall a, b :: h.source(a) == h.source(b) ==> a == b
  }

  ghost predicate InjectiveRecords(h: Hashes) {
    && (forall a, b :: h.receipt(a) == h.receipt(b) ==> a == b)
    && (forall a, b :: h.rows(a) == h.rows(b) ==> a == b)
  }

  datatype Error =
    | BaselineContractsInvalid
    | SourceSymbolSetInvalid
    | HeadBindingInvalid
    | HeadCaptureTimeMissing
    | LastPartitionBindingInvalid
    | CaptureTimeNotIncreasing
    | NotEnoughCandles
    | ArtifactExists

  // ---------------------------------------------------------------------------------------
  // Loading

  type Partitions = map<PartitionId, Partition>

  function InitialPosition(b: Baseline): Result<Position, Error> {
    if b.seenEnd.Keys != SYMBOL_SET then Failure(BaselineContractsInvalid)
    else Success(Position(0, b.content, None, None, b.seenEnd))
  }

  /** Reads the head; a head without capture time takes it from the receipt of its last partition. */
  function LoadHead(head: Option<Head>, parts: Partitions, b: Baseline, h: Hashes): (r: Result<Position, Error>)
    ensures r.Success? ==> r.value.lastAt.Keys == SYMBOL_SET
    ensures r.Success? && head.Some? ==> r.value.lastCaptured.Some?
  {
    if head.None? then InitialPosition(b)
    else
      var hd := head.value;
      if hd.baseline != b.content || hd.snapshotId != b.snapshotId || hd.sequence < 1
         || hd.lastAt.Keys != SYMBOL_SET then Failure(HeadBindingInvalid)
      else if hd.lastCaptured.Some? then
        Success(Position(hd.sequence, hd.lastPartition, Some(hd.lastSource), hd.lastCaptured, hd.lastAt))
      else if hd.lastPartitionId !in parts then Failure(HeadCaptureTimeMissing)
      else
        var r := parts[hd.lastPartitionId].receipt;
        if h.receipt(r) != hd.lastPartition || r.id != hd.lastPartitionId || r.sequence != hd.sequence
        then Failure(LastPartitionBindingInvalid)
        else Success(Position(hd.sequence, hd.lastPartition, Some(hd.lastSource), Some(r.captured), hd.lastAt))
  }

  // ---------------------------------------------------------------------------------------
  // Rows newer than the previous end

  predicate Chronological(rows: seq<Row>) {
    forall i, j | 0 <= i < j < |rows| :: rows[i].at < rows[j].at
  }

  function NewRows(frame: seq<Row>, previous: Time): (r: seq<Row>)
    ensures forall x | x in r :: x in frame && x.at > previous
  {
    if |frame| == 0 then []
    else
      var rest := NewRows(frame[1..], previous);
      if frame[0].at > previous then [frame[0]] + rest else rest
  }

  function LastOf(rows: seq<Row>, previous: Time): Time {
    if |rows| == 0 then previous else rows[|rows| - 1].at
  }

  function RecordOf(rows: seq<Row>, previous: Time, h: Hashes): SymbolRecord {
    if |rows| == 0 then SymbolRecord(0, None, None, None, previous)
    else SymbolRecord(|rows|, Some(h.rows(rows)), Some(rows[0].at), Some(rows[|rows| - 1].at), previous)
  }

  function TotalRows(files: map<Symbol, seq<Row>>, symbols: seq<Symbol>): nat
    requires forall s | s in symbols :: s in files
  {
    if |symbols| == 0 then 0 else |files[symbols[0]]| + TotalRows(files, symbols[1..])
  }

  // ---------------------------------------------------------------------------------------
  // One ingest

  function Prefix(d: Digest): string {
    if |d| <= 12 then d else d[..12]
  }

  predicate FramesComplete(src: Source) {
    src.frames.Keys == SYMBOL_SET
  }

  const MINIMUM_CANDLES: nat := 260

  /** Every frame has the rows that normalising it demands. */
  predicate LongEnough(src: Source) {
    forall s | s in src.frames :: |src.frames[s]| >= MINIMUM_CANDLES
  }

  function RowsAfter(src: Source, at: Position): (files: map<Symbol, seq<Row>>)
    requires FramesComplete(src) && at.lastAt.Keys == SYMBOL_SET
    ensures files.Keys == SYMBOL_SET
  {
    map s | s in SYMBOL_SET :: NewRows(src.frames[s], at.lastAt[s])
  }

  function PartitionFor(b: Baseline, at: Position, src: Source, now: Time, h: Hashes): Partition
    requires FramesComplete(src) && at.lastAt.Keys == SYMBOL_SET
  {
    var hash := h.source(src);
    var files := RowsAfter(src, at);
    Partition(
      Receipt(PartitionId(at.sequence + 1, src.captured, Prefix(hash)), at.sequence + 1, b.snapshotId, b.content,
              at.lastPartition, hash, src.discovery, src.captured, now,
              map s | s in SYMBOL_SET :: RecordOf(files[s], at.lastAt[s], h), TotalRows(files, SYMBOLS)),
      files)
  }

  function HeadFor(b: Baseline, at: Position, p: Partition, now: Time, h: Hashes): Head
    requires p.files.Keys == at.lastAt.Keys
  {
    Head(b.snapshotId, b.content, p.receipt.sequence, p.receipt.id, h.receipt(p.receipt), p.receipt.source,
         Some(p.receipt.captured), map s | s in at.lastAt :: LastOf(p.files[s], at.lastAt[s]), now)
  }

  datatype Decision =
    | AlreadyIngested
    | Reject(error: Error)
    | Commit(partition: Partition, head: Head)

  /** Everything an ingest decides between reading the head and its first commit. */
  function Decide(b: Baseline, at: Position, src: Source, now: Time, later: Time, h: Hashes): Decision {
    if !FramesComplete(src) then Reject(SourceSymbolSetInvalid)
    else if at.lastSource == Some(h.source(src)) then AlreadyIngested
    else if at.lastCaptured.Some? && src.captured <= at.lastCaptured.value then Reject(CaptureTimeNotIncreasing)
    else if at.lastAt.Keys != SYMBOL_SET then Reject(HeadBindingInvalid)
    else if !LongEnough(src) then Reject(NotEnoughCandles)
    else
      var p := PartitionFor(b, at, src, now, h);
      Commit(p, HeadFor(b, at, p, later, h))
  }

  // ---------------------------------------------------------------------------------------
  // Valid chains

  function RowsFor(p: Partition, s: Symbol): seq<Row> {
    if s in p.files then p.files[s] else []
  }

  /** The newest time that the baseline and the partitions hold for a symbol. */
  function EndOf(b: Baseline, chain: seq<Partition>, s: Symbol): Time
    requires s in b.seenEnd
  {
    if |chain| == 0 then b.seenEnd[s]
    else LastOf(RowsFor(chain[|chain| - 1], s), EndOf(b, chain[..|chain| - 1], s))
  }

  /** Hash that the next partition has to carry as its predecessor. */
  function LinkAfter(b: Baseline, chain: seq<Partition>, h: Hashes): Digest {
    if |chain| == 0 then b.content else h.receipt(chain[|chain| - 1].receipt)
  }

  /** Some chronological snapshot with the recorded hash and capture time gave the rows newer than the ends. */
  ghost predicate Captures(b: Baseline, before: seq<Partition>, p: Partition, src: Source, h: Hashes) {
    && src.frames.Keys == b.seenEnd.Keys
    && h.source(src) == p.receipt.source
    && src.captured == p.receipt.captured && src.discovery == p.receipt.discovery
    && forall s | s in b.seenEnd ::
         Chronological(src.frames[s]) && RowsFor(p, s) == NewRows(src.frames[s], EndOf(b, before, s))
  }

  /** The partition is stored under its own id and continues the partitions before it. */
  ghost predicate Extends(b: Baseline, parts: Partitions, before: seq<Partition>, p: Partition, h: Hashes) {
    && p.receipt.id in parts && parts[p.receipt.id] == p
    && p.receipt.sequence == |before| + 1
    && p.receipt.baseline == b.content && p.receipt.snapshotId == b.snapshotId
    && IdentifiedBy(p.receipt.id, p.receipt)
    && p.receipt.previous == LinkAfter(b, before, h)
    && (|before| > 0 ==> before[|before| - 1].receipt.captured < p.receipt.captured)
    && p.files.Keys == p.receipt.symbols.Keys == b.seenEnd.Keys
    && (forall s | s in b.seenEnd :: p.receipt.symbols[s] == RecordOf(RowsFor(p, s), EndOf(b, before, s), h))
    && (SYMBOL_SET <= p.receipt.symbols.Keys ==> p.receipt.newRows == AllRows(p.receipt.symbols))
    && exists src :: Captures(b, before, p, src, h)
  }

  /** The id is made of the number, the capture time and the first twelve characters of the snapshot's hash. */
  predicate IdentifiedBy(id: PartitionId, r: Receipt) {
    && id.sequence == r.sequence && id.captured == r.captured
    && id.sourcePrefix <= r.source && (|id.sourcePrefix| == 12 || (|r.source| < 12 && id.sourcePrefix == r.source))
  }

  function AllRows(symbols: map<Symbol, SymbolRecord>): nat
    requires SYMBOL_SET <= symbols.Keys
  {
    symbols[XAUUSD].rows + symbols[EURUSD].rows + symbols[USDJPY].rows + symbols[AUDUSD].rows
  }

  ghost predicate IsChain(b: Baseline, parts: Partitions, chain: seq<Partition>, h: Hashes) {
    |chain| > 0 ==>
      var before := chain[..|chain| - 1];
      IsChain(b, parts, before, h) && Extends(b, parts, before, chain[|chain| - 1], h)
  }

  function Ends(b: Baseline, chain: seq<Partition>): map<Symbol, Time> {
    map s | s in b.seenEnd :: EndOf(b, chain, s)
  }

  /** The position that a chain leads to. */
  ghost predicate LeadsTo(b: Baseline, chain: seq<Partition>, at: Position, h: Hashes) {
    && at.sequence == |chain|
    && at.lastPartition == LinkAfter(b, chain, h)
    && at.lastAt == Ends(b, chain)
    && (if |chain| == 0 then at.lastSource == None && at.lastCaptured == None
        else
          && at.lastSource == Some(chain[|chain| - 1].receipt.source)
          && at.lastCaptured == Some(chain[|chain| - 1].receipt.captured))
  }

  /** The head record describes the end of this chain; an old record may lack the capture time. */
  ghost predicate Describes(b: Baseline, chain: seq<Partition>, hd: Head, h: Hashes) {
    && |chain| > 0
    && hd.baseline == b.content && hd.snapshotId == b.snapshotId
    && var last := chain[|chain| - 1].receipt;
    && hd.lastPartitionId == last.id
    && (hd.lastCaptured.Some? ==> hd.lastCaptured.value == last.captured)
    && var at := Position(hd.sequence, hd.lastPartition, Some(hd.lastSource), Some(last.captured), hd.lastAt);
    LeadsTo(b, chain, at, h)
  }

  /** A head is taken exactly when it is bound to the baseline and, without a capture time, to its last receipt. */
  lemma {:induction false} LoadsIffBound(hd: Head, parts: Partitions, b: Baseline, h: Hashes)
    ensures var r := LoadHead(Some(hd), parts, b, h);
            && (r.Success? <==>
                  && hd.baseline == b.content && hd.snapshotId == b.snapshotId && hd.sequence >= 1
                  && hd.lastAt.Keys == {XAUUSD, EURUSD, USDJPY, AUDUSD}
                  && (hd.lastCaptured.None? ==>
                        && hd.lastPartitionId in parts
                        && var last := parts[hd.lastPartitionId].receipt;
                        h.receipt(last) == hd.lastPartition && last.id == hd.lastPartitionId
                        && last.sequence == hd.sequence))
            && (r.Success? ==>
                  && r.value.sequence == hd.sequence && r.value.lastPartition == hd.lastPartition
                  && r.value.lastSource == Some(hd.lastSource) && r.value.lastAt == hd.lastAt
                  && r.value.lastCaptured == if hd.lastCaptured.Some? then hd.lastCaptured
                                             else Some(parts[hd.lastPartitionId].receipt.captured))
  {
  }

  /** An ingest commits exactly when the snapshot is complete, long enough, new and newer than the latest one. */
  lemma {:induction false} CommitsIff(b: Baseline, at: Position, src: Source, now: Time, later: Time, h: Hashes)
    requires at.lastAt.Keys == {XAUUSD, EURUSD, USDJPY, AUDUSD}
    ensures var d := Decide(b, at, src, now, later, h);
            && (d.Commit? <==>
                  && src.frames.Keys == {XAUUSD, EURUSD, USDJPY, AUDUSD}
                  && (forall s | s in src.frames :: |src.frames[s]| >= 260)
                  && at.lastSource != Some(h.source(src))
                  && (at.lastCaptured.Some? ==> at.lastCaptured.value < src.captured))
            && (d.AlreadyIngested? ==> at.lastSource == Some(h.source(src)))
  {
    hide RecordOf, TotalRows, NewRows, LastOf;
  }

  /** A described head always loads, and a missing capture time is recovered from the last receipt. */
  lemma {:induction false} LoadFollowsChain(b: Baseline, parts: Partitions, chain: seq<Partition>, hd: Head, h: Hashes)
    requires b.seenEnd.Keys == SYMBOL_SET
    requires IsChain(b, parts, chain, h) && Describes(b, chain, hd, h)
    ensures var r := LoadHead(Some(hd), parts, b, h);
            && r.Success? && LeadsTo(b, chain, r.value, h)
            && r.value.lastCaptured == Some(chain[|chain| - 1].receipt.captured)
  {
    hide SYMBOL_SET, RecordOf, EndOf;
    assert parts[hd.lastPartitionId] == chain[|chain| - 1];
    assert hd.lastAt.Keys == SYMBOL_SET;
  }

  /** Partitions are only ever added. */
  ghost predicate Grows(parts: Partitions, parts': Partitions) {
    forall id | id in parts :: id in parts' && parts'[id] == parts[id]
  }

  lemma {:induction false} ChainSurvivesGrowth(b: Baseline, parts: Partitions, parts': Partitions,
                                               chain: seq<Partition>, h: Hashes)
    requires Grows(parts, parts') && IsChain(b, parts, chain, h)
    ensures IsChain(b, parts', chain, h)
    decreases |chain|
  {
    if |chain| > 0 {
      ChainSurvivesGrowth(b, parts, parts', chain[..|chain| - 1], h);
    }
  }

  ghost predicate ChronologicalSource(src: Source) {
    forall s | s in src.frames :: Chronological(src.frames[s])
  }

  /** The partition an ingest decides on continues the chain it was decided from. */
  lemma {:induction false} NewPartitionExtends(b: Baseline, parts: Partitions, chain: seq<Partition>, at: Position,
                                               src: Source, now: Time, h: Hashes)
    requires b.seenEnd.Keys == SYMBOL_SET && FramesComplete(src) && ChronologicalSource(src)
    requires LeadsTo(b, chain, at, h)
    requires at.lastCaptured.Some? ==> at.lastCaptured.value < src.captured
    requires var p := PartitionFor(b, at, src, now, h); p.receipt.id in parts && parts[p.receipt.id] == p
    ensures Extends(b, parts, chain, PartitionFor(b, at, src, now, h), h)
  {
    var p := PartitionFor(b, at, src, now, h);
    NewReceipt(b, at, src, now, h);
    hide TotalRows, AllRows, IdentifiedBy, RecordOf;
    assert at.lastAt.Keys == b.seenEnd.Keys;
    assert Captures(b, chain, p, src, h);
  }

  /** The receipt of a new partition counts its rows and is identified by its own fields. */
  lemma {:induction false} NewReceipt(b: Baseline, at: Position, src: Source, now: Time, h: Hashes)
    requires FramesComplete(src) && at.lastAt.Keys == SYMBOL_SET
    ensures var r := PartitionFor(b, at, src, now, h).receipt;
            SYMBOL_SET <= r.symbols.Keys && r.newRows == AllRows(r.symbols) && IdentifiedBy(r.id, r)
  {
    hide NewRows;
    FourTotals(RowsAfter(src, at));
  }

  lemma {:induction false} FourTotals(files: map<Symbol, seq<Row>>)
    requires files.Keys == SYMBOL_SET
    ensures TotalRows(files, SYMBOLS) == |files[XAUUSD]| + |files[EURUSD]| + |files[USDJPY]| + |files[AUDUSD]|
  {
    var three: seq<Symbol> := [EURUSD, USDJPY, AUDUSD];
    assert SYMBOLS[0] == XAUUSD && SYMBOLS[1..] == three && three[1..] == [USDJPY, AUDUSD];
    assert TotalRows(files, SYMBOLS) == |files[XAUUSD]| + TotalRows(files, three);
    assert TotalRows(files, three) == |files[EURUSD]| + TotalRows(files, [USDJPY, AUDUSD]);
    assert [USDJPY, AUDUSD][1..] == [AUDUSD] && [AUDUSD][1..] == [];
    assert TotalRows(files, [AUDUSD]) == |files[AUDUSD]| + TotalRows(files, []);
  }

  lemma {:induction false} NewHeadDescribes(b: Baseline, chain: seq<Partition>, at: Position, p: Partition,
                                            later: Time, h: Hashes)
    requires p.files.Keys == b.seenEnd.Keys == at.lastAt.Keys
    requires LeadsTo(b, chain, at, h) && p.receipt.sequence == |chain| + 1
    ensures Describes(b, chain + [p], HeadFor(b, at, p, later, h), h)
  {
    var longer := chain + [p];
    assert longer[..|longer| - 1] == chain;
    assert HeadFor(b, at, p, later, h).lastAt == Ends(b, longer);
  }

  lemma {:induction false} AppendToChain(b: Baseline, parts: Partitions, chain: seq<Partition>, p: Partition, h: Hashes)
    requires IsChain(b, parts, chain, h) && Extends(b, parts, chain, p, h)
    ensures IsChain(b, parts, chain + [p], h)
  {
    assert (chain + [p])[..|chain + [p]| - 1] == chain;
  }

  lemma {:induction false} CommitExtendsChain(b: Baseline, parts: Partitions, chain: seq<Partition>, at: Position,
                                              src: Source, now: Time, later: Time, d: Decision, h: Hashes)
    requires b.seenEnd.Keys == SYMBOL_SET && ChronologicalSource(src)
    requires IsChain(b, parts, chain, h) && LeadsTo(b, chain, at, h)
    requires d == Decide(b, at, src, now, later, h) && d.Commit?
    requires d.partition.receipt.id in parts && parts[d.partition.receipt.id] == d.partition
    ensures IsChain(b, parts, chain + [d.partition], h)
    ensures Describes(b, chain + [d.partition], d.head, h)
    ensures d.partition.receipt.ingested == now && d.head.updated == later
  {
    NewPartitionExtends(b, parts, chain, at, src, now, h);
    AppendToChain(b, parts, chain, d.partition, h);
    NewHeadDescribes(b, chain, at, d.partition, later, h);
  }
}
