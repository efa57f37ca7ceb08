/**
 What a valid prospective chain says about history: no snapshot enters it twice, equal heads mean
 equal histories, its rows never repeat and never touch the frozen baseline, and ingesting windows
 one by one yields the same rows as taking the whole series at once.
 */
module ChainHistory {
  import opened Common
  import opened ProspectiveChain

  // ---------------------------------------------------------------------------------------
  // Identity of histories

  lemma {:induction false} PrefixIsChain(b: Baseline, parts: Partitions, chain: seq<Partition>, n: nat, h: Hashes)
    requires IsChain(b, parts, chain, h) && n <= |chain|
    ensures IsChain(b, parts, chain[..n], h)
    decreases |chain|
  {
    if n == |chain| {
      assert chain[..n] == chain;
    } else {
      assert chain[..|chain| - 1][..n] == chain[..n];
      PrefixIsChain(b, parts, chain[..|chain| - 1], n, h);
    }
  }

  /** Link by link: stored, numbered from one, bound to the baseline or to its predecessor's hash. */
  lemma {:induction false} EveryLink(b: Baseline, parts: Partitions, chain: seq<Partition>, i: nat, h: Hashes)
    requires IsChain(b, parts, chain, h) && i < |chain|
    ensures var r := chain[i].receipt;
            && r.id in parts && parts[r.id] == chain[i]
            && r.sequence == i + 1
            && r.baseline == b.content
            && r.previous == (if i == 0 then b.content else h.receipt(chain[i - 1].receipt))
            && (i > 0 ==> chain[i - 1].receipt.captured < r.captured)
  {
    PrefixIsChain(b, parts, chain, i + 1, h);
    assert chain[..i + 1][..i] == chain[..i];
  }

  lemma {:induction false} CaptureTimesIncrease(b: Baseline, parts: Partitions, chain: seq<Partition>, i: nat, j: nat,
                                                h: Hashes)
    requires IsChain(b, parts, chain, h) && i < j < |chain|
    ensures chain[i].receipt.captured < chain[j].receipt.captured
    decreases j
  {
    EveryLink(b, parts, chain, j, h);
    if i < j - 1 {
      CaptureTimesIncrease(b, parts, chain, i, j - 1, h);
    }
  }

  lemma {:induction false} SourceOf(b: Baseline, parts: Partitions, chain: seq<Partition>, i: nat,
                                    h: Hashes) returns (src: Source)
    requires IsChain(b, parts, chain, h) && i < |chain|
    ensures h.source(src) == chain[i].receipt.source && src.captured == chain[i].receipt.captured
  {
    PrefixIsChain(b, parts, chain, i + 1, h);
    assert chain[..i + 1][..i] == chain[..i];
    src :| Captures(b, chain[..i], chain[i], src, h);
  }

  /** The shortcut compares with the latest snapshot only; capture times rule out all earlier ones. */
  lemma {:induction false} NoSnapshotTwice(b: Baseline, parts: Partitions, chain: seq<Partition>, i: nat, j: nat,
                                           h: Hashes)
    requires IsChain(b, parts, chain, h) && InjectiveSources(h) && i < j < |chain|
    ensures chain[i].receipt.source != chain[j].receipt.source
  {
    CaptureTimesIncrease(b, parts, chain, i, j, h);
    var x := SourceOf(b, parts, chain, i, h);
    var y := SourceOf(b, parts, chain, j, h);
  }

  lemma {:induction false} RecordFixesRows(xs: seq<Row>, ys: seq<Row>, s: Time, t: Time, h: Hashes)
    requires InjectiveRecords(h) && RecordOf(xs, s, h) == RecordOf(ys, t, h)
    ensures xs == ys
  {
  }

  ghost predicate FilesMatchReceipt(p: Partition, ends: map<Symbol, Time>, h: Hashes) {
    && p.files.Keys == p.receipt.symbols.Keys == ends.Keys
    && forall s | s in ends :: p.receipt.symbols[s] == RecordOf(p.files[s], ends[s], h)
  }

  lemma {:induction false} ReceiptFixesFiles(p: Partition, q: Partition, e: map<Symbol, Time>, f: map<Symbol, Time>,
                                             h: Hashes)
    requires FilesMatchReceipt(p, e, h) && FilesMatchReceipt(q, f, h) && InjectiveRecords(h)
    requires p.receipt == q.receipt
    ensures p == q
  {
    forall s | s in e ensures p.files[s] == q.files[s] {
      RecordFixesRows(p.files[s], q.files[s], e[s], f[s], h);
    }
    assert p.files == q.files;
  }

  lemma {:induction false} ExtensionMatchesReceipt(b: Baseline, parts: Partitions, before: seq<Partition>,
                                                   p: Partition, h: Hashes)
    requires Extends(b, parts, before, p, h)
    ensures FilesMatchReceipt(p, Ends(b, before), h)
  {
    forall s | s in b.seenEnd
      ensures p.receipt.symbols[s] == RecordOf(p.files[s], Ends(b, before)[s], h)
    {
      assert RowsFor(p, s) == p.files[s];
    }
  }

  /** Two histories, in any two stores, that end in the same link are the same partition by partition. */
  lemma {:induction false} SameLinkSameHistory(b: Baseline, parts1: Partitions, chain1: seq<Partition>,
                                               parts2: Partitions, chain2: seq<Partition>, h: Hashes)
    requires IsChain(b, parts1, chain1, h) && IsChain(b, parts2, chain2, h) && InjectiveRecords(h)
    requires |chain1| == |chain2| && LinkAfter(b, chain1, h) == LinkAfter(b, chain2, h)
    ensures chain1 == chain2
    decreases |chain1|
  {
    if |chain1| > 0 {
      var n := |chain1| - 1;
      var before1, before2 := chain1[..n], chain2[..n];
      ExtensionMatchesReceipt(b, parts1, before1, chain1[n], h);
      ExtensionMatchesReceipt(b, parts2, before2, chain2[n], h);
      ReceiptFixesFiles(chain1[n], chain2[n], Ends(b, before1), Ends(b, before2), h);
      SameLinkSameHistory(b, parts1, before1, parts2, before2, h);
      assert chain1 == before1 + [chain1[n]] && chain2 == before2 + [chain2[n]];
    }
  }

  lemma {:induction false} SameHeadSameHistory(b: Baseline, parts1: Partitions, chain1: seq<Partition>,
                            parts2: Partitions, chain2: seq<Partition>, hd: Head, h: Hashes)
    requires IsChain(b, parts1, chain1, h) && IsChain(b, parts2, chain2, h) && InjectiveRecords(h)
    requires Describes(b, chain1, hd, h) && Describes(b, chain2, hd, h)
    ensures chain1 == chain2
  {
    SameLinkSameHistory(b, parts1, chain1, parts2, chain2, h);
  }

  // ---------------------------------------------------------------------------------------
  // Rows as slices of a chronological series

  /** How many rows are not newer than `t`. */
  function Upper(rows: seq<Row>, t: Time): (u: nat)
    requires Chronological(rows)
    ensures u <= |rows|
    ensures forall i | 0 <= i < u :: rows[i].at <= t
    ensures forall i | u <= i < |rows| :: rows[i].at > t
  {
    if |rows| == 0 || rows[0].at > t then 0
    else
      var rest := rows[1..];
      assert forall i | 1 <= i < |rows| :: rows[i] == rest[i - 1];
      1 + Upper(rest, t)
  }

  lemma {:induction false} UpperIsUnique(rows: seq<Row>, t: Time, u: nat)
    requires Chronological(rows) && u <= |rows|
    requires u > 0 ==> rows[u - 1].at <= t
    requires u < |rows| ==> rows[u].at > t
    ensures Upper(rows, t) == u
  {
  }

  lemma {:induction false} NewRowsIsSuffix(frame: seq<Row>, previous: Time)
    requires Chronological(frame)
    ensures NewRows(frame, previous) == frame[Upper(frame, previous)..]
  {
    if |frame| > 0 {
      UpperStep(frame, previous);
      NewRowsIsSuffix(frame[1..], previous);
      SuffixStep(frame, Upper(frame[1..], previous));
    }
  }

  lemma {:induction false} SuffixStep(rows: seq<Row>, u: nat)
    requires |rows| > 0 && u < |rows|
    ensures rows[1..][u..] == rows[u + 1..] && rows == [rows[0]] + rows[1..]
  {
  }

  /** The rows of a series in the half-open interval `(lo, hi]`, taken in one go. */
  function Between(rows: seq<Row>, lo: Time, hi: Time): seq<Row> {
    if |rows| == 0 then []
    else (if lo < rows[0].at <= hi then [rows[0]] else []) + Between(rows[1..], lo, hi)
  }

  lemma {:induction false} UpperStep(rows: seq<Row>, t: Time)
    requires Chronological(rows) && |rows| > 0
    ensures Chronological(rows[1..])
    ensures Upper(rows, t) == if rows[0].at <= t then 1 + Upper(rows[1..], t) else 0
    ensures rows[0].at > t ==> Upper(rows[1..], t) == 0
  {
  }

  lemma {:induction false} BetweenIsSlice(rows: seq<Row>, lo: Time, hi: Time)
    requires Chronological(rows) && lo <= hi
    ensures Upper(rows, lo) <= Upper(rows, hi)
    ensures Between(rows, lo, hi) == rows[Upper(rows, lo)..Upper(rows, hi)]
  {
    if |rows| > 0 {
      var rest := rows[1..];
      UpperStep(rows, lo);
      UpperStep(rows, hi);
      BetweenIsSlice(rest, lo, hi);
      SliceStep(rows, Upper(rest, lo), Upper(rest, hi));
    }
  }

  lemma {:induction false} SliceStep(rows: seq<Row>, u: nat, v: nat)
    requires |rows| > 0 && u <= v < |rows|
    ensures rows[1..][u..v] == rows[u + 1..v + 1]
    ensures [rows[0]] + rows[1..][..v] == rows[..v + 1]
  {
  }

  lemma {:induction false} IntervalsJoin(rows: seq<Row>, lo: Time, mid: Time, hi: Time)
    requires Chronological(rows) && lo <= mid <= hi
    ensures Between(rows, lo, mid) + Between(rows, mid, hi) == Between(rows, lo, hi)
  {
    hide Between, Upper, Chronological;
    BetweenIsSlice(rows, lo, mid);
    BetweenIsSlice(rows, mid, hi);
    BetweenIsSlice(rows, lo, hi);
  }

  /** The window starts no later than the first row newer than the previous end. */
  predicate ReachesBack(series: seq<Row>, start: nat, previous: Time)
    requires start <= |series|
  {
    start == 0 || series[start - 1].at <= previous
  }

  lemma {:induction false} SliceIsChronological(rows: seq<Row>, i: nat, j: nat)
    requires Chronological(rows) && i <= j <= |rows|
    ensures Chronological(rows[i..j])
  {
  }

  /** Where the rows newer than `t` start inside a window. */
  lemma {:induction false} UpperOfWindow(rows: seq<Row>, i: nat, j: nat, t: Time)
    requires i <= j <= |rows| && Chronological(rows) && Chronological(rows[i..j])
    ensures var u := Upper(rows, t);
            Upper(rows[i..j], t) == if u <= i then 0 else if u >= j then j - i else u - i
  {
    var u, window := Upper(rows, t), rows[i..j];
    var v := if u <= i then 0 else if u >= j then j - i else u - i;
    if v > 0 { assert window[v - 1] == rows[i + v - 1]; }
    if v < |window| { assert window[v] == rows[i + v]; }
    UpperIsUnique(window, t, v);
  }

  /** The new rows of a window are the part of the series from the later of two starts. */
  lemma {:induction false} WindowNews(series: seq<Row>, start: nat, end: nat, previous: Time)
    requires Chronological(series) && start <= end <= |series|
    ensures var from := if start <= Upper(series, previous) then Upper(series, previous) else start;
            NewRows(series[start..end], previous) == if from <= end then series[from..end] else []
  {
    hide NewRows, Upper, Chronological;
    var frame := series[start..end];
    SliceIsChronological(series, start, end);
    NewRowsIsSuffix(frame, previous);
    UpperOfWindow(series, start, end, previous);
    SuffixOfSlice(series, start, end, Upper(frame, previous));
  }

  lemma {:induction false} SuffixOfSlice(series: seq<Row>, start: nat, end: nat, k: nat)
    requires start <= end <= |series| && k <= end - start
    ensures series[start..end][k..] == series[start + k..end]
  {
  }

  /**
   Taking the new rows of one window loses nothing between the previous end and the new one
   exactly when there are no new rows or the window reaches back to the previous end.
   */
  lemma {:induction false} WindowLosesNothing(series: seq<Row>, start: nat, end: nat, previous: Time)
    requires Chronological(series) && start <= end <= |series|
    ensures var news := NewRows(series[start..end], previous);
            (news == Between(series, previous, LastOf(news, previous)))
              <==> (news == [] || ReachesBack(series, start, previous))
  {
    hide NewRows, Between, Upper, Chronological;
    var news := NewRows(series[start..end], previous);
    WindowNews(series, start, end, previous);
    var u := Upper(series, previous);
    var from := if start <= u then u else start;
    if news == [] {
      BetweenIsSlice(series, previous, previous);
    } else {
      assert news == series[from..end];
      LastTimeIsUpper(series, end);
      BetweenIsSlice(series, previous, series[end - 1].at);
      ReachesBackIff(series, start, previous);
      assert |series[u..end]| == end - u && |series[from..end]| == end - from;
    }
  }

  lemma {:induction false} LastTimeIsUpper(series: seq<Row>, end: nat)
    requires Chronological(series) && 0 < end <= |series|
    ensures Upper(series, series[end - 1].at) == end
  {
    UpperIsUnique(series, series[end - 1].at, end);
  }

  lemma {:induction false} ReachesBackIff(series: seq<Row>, start: nat, previous: Time)
    requires Chronological(series) && start <= |series|
    ensures ReachesBack(series, start, previous) <==> start <= Upper(series, previous)
  {
  }

  // ---------------------------------------------------------------------------------------
  // Contents of a chain

  /** All rows that a chain holds for one symbol, in chain order. */
  function Contents(chain: seq<Partition>, s: Symbol): seq<Row> {
    if |chain| == 0 then [] else Contents(chain[..|chain| - 1], s) + RowsFor(chain[|chain| - 1], s)
  }

  lemma {:induction false} NewRowsFollow(frame: seq<Row>, end: Time)
    requires Chronological(frame)
    ensures Chronological(NewRows(frame, end)) && forall x | x in NewRows(frame, end) :: end < x.at
  {
    hide Upper, NewRows, Chronological;
    NewRowsIsSuffix(frame, end);
    SliceIsChronological(frame, Upper(frame, end), |frame|);
    assert frame[Upper(frame, end)..] == frame[Upper(frame, end)..|frame|];
  }

  lemma {:induction false} LinkFollows(b: Baseline, parts: Partitions, before: seq<Partition>, p: Partition,
                                       s: Symbol, h: Hashes)
    requires Extends(b, parts, before, p, h) && s in b.seenEnd
    ensures Chronological(RowsFor(p, s)) && forall x | x in RowsFor(p, s) :: EndOf(b, before, s) < x.at
  {
    hide NewRows, Chronological, RowsFor, EndOf, RecordOf, LinkAfter;
    var src :| Captures(b, before, p, src, h);
    NewRowsFollow(src.frames[s], EndOf(b, before, s));
  }

  lemma {:induction false} AppendFresh(earlier: seq<Row>, news: seq<Row>, lo: Time, end: Time)
    requires Chronological(earlier) && Chronological(news)
    requires lo <= end == LastOf(earlier, lo)
    requires forall x | x in earlier :: lo < x.at <= end
    requires forall x | x in news :: end < x.at
    ensures Chronological(earlier + news)
    ensures LastOf(news, end) == LastOf(earlier + news, lo) >= end
    ensures forall x | x in earlier + news :: lo < x.at <= LastOf(news, end)
  {
    forall x | x in news ensures x.at <= LastOf(news, end) {
      var i :| 0 <= i < |news| && news[i] == x;
    }
    if |news| > 0 {
      assert news[|news| - 1] in news;
    }
  }

  /** No row repeats, none lies in the frozen baseline, and the recorded end is the last row's. */
  lemma {:induction false} ContentsAreFresh(b: Baseline, parts: Partitions, chain: seq<Partition>, s: Symbol, h: Hashes)
    requires IsChain(b, parts, chain, h) && s in b.seenEnd
    ensures var rows, end := Contents(chain, s), EndOf(b, chain, s);
            && Chronological(rows)
            && b.seenEnd[s] <= end == LastOf(rows, b.seenEnd[s])
            && forall x | x in rows :: b.seenEnd[s] < x.at <= end
    decreases |chain|
  {
    if |chain| > 0 {
      var n := |chain| - 1;
      ContentsAreFresh(b, parts, chain[..n], s, h);
      LinkFollows(b, parts, chain[..n], chain[n], s, h);
      AppendFresh(Contents(chain[..n], s), RowsFor(chain[n], s), b.seenEnd[s], EndOf(b, chain[..n], s));
    }
  }

  /** The receipt of a symbol says how many rows are stored, their hash, and the least and the greatest time in them. */
  ghost predicate RecordsRows(r: SymbolRecord, rows: seq<Row>, before: Time, after: Time, h: Hashes) {
    && r.rows == |rows| && r.previousLast == before
    && (rows == [] <==> r.file.None?) && (rows == [] <==> r.firstAt.None?) && (rows == [] <==> r.lastAt.None?)
    && (rows == [] ==> after == before)
    && (rows != [] ==>
          && r.file.value == h.rows(rows)
          && (forall x | x in rows :: r.firstAt.value <= x.at <= r.lastAt.value)
          && (exists x | x in rows :: x.at == r.firstAt.value) && (exists x | x in rows :: x.at == r.lastAt.value)
          && before < r.firstAt.value && r.lastAt.value == after)
  }

  /**
   Every receipt on a valid chain, symbol by symbol: it records the stored rows, its previous end is the end before
   the partition, and its last time, if any, is the end after it. Its total is the sum of the four counts.
   */
  lemma {:induction false} ReceiptsRecordRows(b: Baseline, parts: Partitions, chain: seq<Partition>, i: nat, s: Symbol,
                                              h: Hashes)
    requires IsChain(b, parts, chain, h) && i < |chain| && s in b.seenEnd
    ensures var r := chain[i].receipt;
            && s in r.symbols && s in chain[i].files
            && RecordsRows(r.symbols[s], chain[i].files[s], EndOf(b, chain[..i], s), EndOf(b, chain[..i + 1], s), h)
    ensures b.seenEnd.Keys == SYMBOL_SET ==>
              var r := chain[i].receipt.symbols;
              && XAUUSD in r && EURUSD in r && USDJPY in r && AUDUSD in r
              && chain[i].receipt.newRows == r[XAUUSD].rows + r[EURUSD].rows + r[USDJPY].rows + r[AUDUSD].rows
  {
    hide IsChain, Extends, EndOf, RecordsRows, SYMBOL_SET, AllRows;
    LinkExtends(b, parts, chain, i, h);
    ExtensionRecordsRows(b, parts, chain[..i], chain[i], s, h);
    assert chain[..i + 1] == chain[..i] + [chain[i]];
    if b.seenEnd.Keys == SYMBOL_SET { ExtensionTotals(b, parts, chain[..i], chain[i], h); }
  }

  lemma {:induction false} LinkExtends(b: Baseline, parts: Partitions, chain: seq<Partition>, i: nat, h: Hashes)
    requires IsChain(b, parts, chain, h) && i < |chain|
    ensures Extends(b, parts, chain[..i], chain[i], h)
  {
    hide Extends;
    PrefixIsChain(b, parts, chain, i + 1, h);
    assert chain[..i + 1][..i] == chain[..i];
  }

  lemma {:induction false} ExtensionTotals(b: Baseline, parts: Partitions, before: seq<Partition>, p: Partition,
                                           h: Hashes)
    requires Extends(b, parts, before, p, h) && b.seenEnd.Keys == SYMBOL_SET
    ensures var r := p.receipt.symbols;
            && XAUUSD in r && EURUSD in r && USDJPY in r && AUDUSD in r
            && p.receipt.newRows == r[XAUUSD].rows + r[EURUSD].rows + r[USDJPY].rows + r[AUDUSD].rows
  {
    hide RecordOf, LinkAfter, IdentifiedBy, EndOf;
  }

  lemma {:induction false} ExtensionRecordsRows(b: Baseline, parts: Partitions, before: seq<Partition>, p: Partition,
                                                s: Symbol, h: Hashes)
    requires Extends(b, parts, before, p, h) && s in b.seenEnd
    ensures s in p.receipt.symbols && s in p.files
    ensures RecordsRows(p.receipt.symbols[s], p.files[s], EndOf(b, before, s), EndOf(b, before + [p], s), h)
  {
    hide NewRows, EndOf, LinkAfter, AllRows, IdentifiedBy;
    LinkFollows(b, parts, before, p, s, h);
    EndAfter(b, before, p, s);
    RecordSays(p.files[s], EndOf(b, before, s), h);
  }

  lemma {:induction false} EndAfter(b: Baseline, before: seq<Partition>, p: Partition, s: Symbol)
    requires s in b.seenEnd
    ensures EndOf(b, before + [p], s) == LastOf(RowsFor(p, s), EndOf(b, before, s))
  {
    assert (before + [p])[..|before + [p]| - 1] == before;
  }

  lemma {:induction false} RecordSays(rows: seq<Row>, previous: Time, h: Hashes)
    requires Chronological(rows) && forall x | x in rows :: previous < x.at
    ensures RecordsRows(RecordOf(rows, previous, h), rows, previous, LastOf(rows, previous), h)
  {
    if rows != [] {
      assert rows[0] in rows && rows[|rows| - 1] in rows;
      forall x | x in rows ensures rows[0].at <= x.at <= rows[|rows| - 1].at {
        var k :| 0 <= k < |rows| && rows[k] == x;
      }
    }
  }

  datatype Window = Window(start: nat, end: nat)

  /** The partition took the new rows of a window of the series that reaches back far enough. */
  ghost predicate FedByWindow(b: Baseline, before: seq<Partition>, p: Partition, s: Symbol, series: seq<Row>, w: Window)
    requires s in b.seenEnd
  {
    && w.start <= w.end <= |series|
    && RowsFor(p, s) == NewRows(series[w.start..w.end], EndOf(b, before, s))
    && ReachesBack(series, w.start, EndOf(b, before, s))
  }

  ghost predicate FedByWindows(b: Baseline, chain: seq<Partition>, s: Symbol, series: seq<Row>)
    requires s in b.seenEnd
  {
    |chain| > 0 ==>
      var before := chain[..|chain| - 1];
      && FedByWindows(b, before, s, series)
      && FedBySomeWindow(b, before, chain[|chain| - 1], s, series)
  }

  ghost predicate FedBySomeWindow(b: Baseline, before: seq<Partition>, p: Partition, s: Symbol, series: seq<Row>)
    requires s in b.seenEnd
  {
    exists w :: FedByWindow(b, before, p, s, series, w)
  }

  lemma {:induction false} BatchStep(series: seq<Row>, lo: Time, previous: Time, news: seq<Row>, start: nat, end: nat)
    requires Chronological(series) && lo <= previous && start <= end <= |series|
    requires news == NewRows(series[start..end], previous) && ReachesBack(series, start, previous)
    ensures Between(series, lo, previous) + news == Between(series, lo, LastOf(news, previous))
  {
    WindowLosesNothing(series, start, end, previous);
    if |news| > 0 {
      assert news[|news| - 1] in news;
    }
    IntervalsJoin(series, lo, previous, LastOf(news, previous));
  }

  /** Ingesting window by window gives the rows that one batch over the whole series would give. */
  lemma {:induction false} IncrementalEqualsBatch(b: Baseline, parts: Partitions, chain: seq<Partition>, s: Symbol,
                                                  series: seq<Row>, h: Hashes)
    requires IsChain(b, parts, chain, h) && s in b.seenEnd
    requires Chronological(series) && FedByWindows(b, chain, s, series)
    ensures Contents(chain, s) == Between(series, b.seenEnd[s], EndOf(b, chain, s))
    decreases |chain|
  {
    if |chain| == 0 {
      BetweenIsSlice(series, b.seenEnd[s], b.seenEnd[s]);
    } else {
      var before, p := chain[..|chain| - 1], chain[|chain| - 1];
      IncrementalEqualsBatch(b, parts, before, s, series, h);
      ContentsAreFresh(b, parts, before, s, h);
      var w :| FedByWindow(b, before, p, s, series, w);
      BatchStep(series, b.seenEnd[s], EndOf(b, before, s), RowsFor(p, s), w.start, w.end);
    }
  }

  // ---------------------------------------------------------------------------------------
  // The frozen baseline

  const MINIMUM_ROWS: nat := 300

  /** The boundary that freezing records for each symbol: the time of the last frozen row. */
  function FrozenEnds(frames: map<Symbol, seq<Row>>): Option<map<Symbol, Time>> {
    if frames.Keys != SYMBOL_SET || (exists s | s in SYMBOL_SET :: |frames[s]| < MINIMUM_ROWS) then None
    else Some(map s | s in SYMBOL_SET :: frames[s][|frames[s]| - 1].at)
  }

  /** No time in the chain is a time in the frozen frames. */
  lemma {:induction false} ChainAvoidsBaseline(b: Baseline, frozen: map<Symbol, seq<Row>>, parts: Partitions,
                                               chain: seq<Partition>, s: Symbol, h: Hashes)
    requires IsChain(b, parts, chain, h) && s in SYMBOL_SET
    requires FrozenEnds(frozen) == Some(b.seenEnd) && Chronological(frozen[s])
    ensures forall x, y | x in frozen[s] && y in Contents(chain, s) :: x.at < y.at
  {
    hide IsChain, FrozenEnds, Chronological, SYMBOL_SET;
    FrozenRowsEnd(frozen, b.seenEnd, s);
    ContentsAreFresh(b, parts, chain, s, h);
  }

  lemma {:induction false} FrozenRowsEnd(frozen: map<Symbol, seq<Row>>, ends: map<Symbol, Time>, s: Symbol)
    requires FrozenEnds(frozen) == Some(ends) && s in SYMBOL_SET && Chronological(frozen[s])
    ensures s in ends && forall x | x in frozen[s] :: x.at <= ends[s]
  {
    assert |frozen[s]| >= MINIMUM_ROWS;
    forall x | x in frozen[s] ensures x.at <= ends[s] {
      var i :| 0 <= i < |frozen[s]| && frozen[s][i] == x;
    }
  }

  /** Freezing takes frames of the four symbols with 300 rows or more each, and records the greatest time in each. */
  lemma {:induction false} FreezesIff(frames: map<Symbol, seq<Row>>)
    ensures FrozenEnds(frames).Some? <==>
              frames.Keys == {XAUUSD, EURUSD, USDJPY, AUDUSD} && forall s | s in frames :: |frames[s]| >= 300
    ensures FrozenEnds(frames).Some? ==>
              forall s | s in frames && Chronological(frames[s]) ::
                s in FrozenEnds(frames).value && IsGreatest(frames[s], FrozenEnds(frames).value[s])
  {
    if FrozenEnds(frames).Some? {
      forall s | s in frames && Chronological(frames[s])
        ensures s in FrozenEnds(frames).value && IsGreatest(frames[s], FrozenEnds(frames).value[s])
      {
        FrozenEndIsGreatest(frames, FrozenEnds(frames).value, s);
      }
    }
  }

  ghost predicate IsGreatest(rows: seq<Row>, t: Time) {
    (forall x | x in rows :: x.at <= t) && exists x | x in rows :: x.at == t
  }

  lemma {:induction false} FrozenEndIsGreatest(frames: map<Symbol, seq<Row>>, ends: map<Symbol, Time>, s: Symbol)
    requires FrozenEnds(frames) == Some(ends) && s in SYMBOL_SET && Chronological(frames[s])
    ensures s in ends && IsGreatest(frames[s], ends[s])
  {
    FrozenRowsEnd(frames, ends, s);
    hide Chronological;
    assert |frames[s]| >= 300;
    assert frames[s][|frames[s]| - 1] in frames[s];
  }
}
