/**
 The bounded reader that compares file facts before, during and after reading. One action is
 one system call of the reader or one step of anybody else: a write to any file, the path
 being pointed elsewhere, or an inode number being recycled for another file while the reader
 does not hold it open. A run is any interleaving of these.
 */
module StableRead {
  import opened Common

  type Inode = nat
  type Bytes = seq<nat>

  const CHUNK_BYTES: nat := 1024 * 1024

  datatype File = File(bytes: Bytes, mtime: int, regular: bool)
  datatype Stat = Stat(ino: Inode, size: nat, mtime: int, regular: bool)

  datatype Phase =
    | Start
    | LookedAt                     // path facts taken before opening
    | Opened                       // descriptor open
    | Reading                      // descriptor facts taken
    | AtEnd                        // an empty chunk was read
    | Refetched                    // descriptor facts taken again, descriptor closed
    | Returned
    | Rejected

  datatype Reader = Reader(
    phase: Phase,
    descriptor: Option<Inode>,
    before: Option<Stat>,          // path, before opening
    atOpen: Option<Stat>,          // descriptor, before reading
    atClose: Option<Stat>,         // descriptor, after reading
    after: Option<Stat>,           // path, after closing
    data: Bytes,
    version: Bytes)                // contents of the open file when its facts were first taken

  datatype State = State(path: Option<Inode>, files: map<Inode, File>, reader: Reader)

  /** Which modification time may follow which when a file is written. */
  type Clock = (int, int) -> bool

  datatype Action =
    | Lstat
    | Open
    | Fstat
    | ReadChunk(n: nat)
    | ReadEnd
    | FstatAgain
    | LstatAgain
    | Write(ino: Inode, bytes: Bytes, mtime: int)
    | Recycle(ino: Inode, file: File)
    | Repoint(target: Option<Inode>)

  function StatOf(s: State, i: Inode): Stat
    requires i in s.files
  {
    Stat(i, |s.files[i].bytes|, s.files[i].mtime, s.files[i].regular)
  }

  predicate PathResolves(s: State) {
    s.path.Some? && s.path.value in s.files
  }

  predicate DescriptorOpen(s: State) {
    s.reader.descriptor.Some? && s.reader.descriptor.value in s.files
  }

  predicate Enabled(s: State, limit: nat, clock: Clock, a: Action) {
    match a
    case Lstat => s.reader.phase.Start? && PathResolves(s)
    case Open => s.reader.phase.LookedAt? && PathResolves(s)
    case Fstat => s.reader.phase.Opened? && DescriptorOpen(s)
    case ReadChunk(n) =>
      && s.reader.phase.Reading? && DescriptorOpen(s)
      && 0 < n <= CHUNK_BYTES && n <= limit + 1
      && |s.reader.data| + n <= |s.files[s.reader.descriptor.value].bytes|
    case ReadEnd =>
      s.reader.phase.Reading? && DescriptorOpen(s) && |s.reader.data| >= |s.files[s.reader.descriptor.value].bytes|
    case FstatAgain => s.reader.phase.AtEnd? && DescriptorOpen(s)
    case LstatAgain => s.reader.phase.Refetched? && PathResolves(s)
    case Write(i, _, m) => i in s.files && clock(s.files[i].mtime, m)
    case Recycle(i, _) => s.reader.descriptor != Some(i)
    case Repoint(_) => true
  }

  /** All facts that the reader compares: device and inode, size, modification time, file type. */
  predicate FactsAgree(r: Reader, after: Stat) {
    r.before == r.atOpen && r.atOpen == r.atClose && r.atClose == Some(after)
  }

  function Next(s: State, limit: nat, clock: Clock, a: Action): State
    requires Enabled(s, limit, clock, a)
  {
    var r := s.reader;
    match a
    case Lstat =>
      var st := StatOf(s, s.path.value);
      s.(reader := r.(phase := if st.regular then LookedAt else Rejected, before := Some(st)))
    case Open => s.(reader := r.(phase := Opened, descriptor := s.path))
    case Fstat =>
      var i := r.descriptor.value;
      s.(reader := r.(phase := Reading, atOpen := Some(StatOf(s, i)), version := s.files[i].bytes))
    case ReadChunk(n) =>
      var bytes := s.files[r.descriptor.value].bytes;
      var data := r.data + bytes[|r.data|..|r.data| + n];
      if |data| > limit then s.(reader := r.(phase := Rejected, descriptor := None))
      else s.(reader := r.(data := data))
    case ReadEnd => s.(reader := r.(phase := AtEnd))
    case FstatAgain =>
      s.(reader := r.(phase := Refetched, atClose := Some(StatOf(s, r.descriptor.value)), descriptor := None))
    case LstatAgain =>
      var st := StatOf(s, s.path.value);
      s.(reader := r.(phase := if FactsAgree(r, st) then Returned else Rejected, after := Some(st)))
    case Write(i, bytes, m) => s.(files := s.files[i := s.files[i].(bytes := bytes, mtime := m)])
    case Recycle(i, file) => s.(files := s.files[i := file])
    case Repoint(target) => s.(path := target)
  }

  predicate IsInitial(s: State) {
    s.reader == Reader(Start, None, None, None, None, None, [], [])
  }

  ghost predicate ValidRun(s: State, limit: nat, clock: Clock, actions: seq<Action>)
    decreases |actions|
  {
    |actions| > 0 ==>
      Enabled(s, limit, clock, actions[0]) && ValidRun(Next(s, limit, clock, actions[0]), limit, clock, actions[1..])
  }

  ghost function After(s: State, limit: nat, clock: Clock, actions: seq<Action>): State
    requires ValidRun(s, limit, clock, actions)
    decreases |actions|
  {
    if |actions| == 0 then s
    else After(Next(s, limit, clock, actions[0]), limit, clock, actions[1..])
  }

  // ---------------------------------------------------------------------------------------
  // Modification times that never come back

  /** Modification times that successive writes may leave. */
  ghost predicate Ticks(clock: Clock, times: seq<int>) {
    forall k | 0 < k < |times| :: clock(times[k - 1], times[k])
  }

  /** One or more writes lead from one modification time to the other. */
  ghost predicate LeadsTo(clock: Clock, from: int, to: int) {
    exists times :: Ticks(clock, times) && |times| >= 2 && times[0] == from && times[|times| - 1] == to
  }

  /** No number of writes brings a modification time back. */
  ghost predicate NeverReturns(clock: Clock) {
    forall m :: !LeadsTo(clock, m, m)
  }

  lemma OneTick(clock: Clock, from: int, to: int)
    requires clock(from, to)
    ensures LeadsTo(clock, from, to)
  {
    assert Ticks(clock, [from, to]);
  }

  lemma OneMoreTick(clock: Clock, from: int, mid: int, to: int)
    requires LeadsTo(clock, from, mid) && clock(mid, to)
    ensures LeadsTo(clock, from, to)
  {
    var times :| Ticks(clock, times) && |times| >= 2 && times[0] == from && times[|times| - 1] == mid;
    assert Ticks(clock, times + [to]);
  }

  /** Either the open file is as it was when its facts were taken, or its modification time has moved on. */
  ghost predicate SameOrLater(r: Reader, clock: Clock, f: File)
    requires r.atOpen.Some?
  {
    || (f.mtime == r.atOpen.value.mtime && f.bytes == r.version && r.data <= r.version
        && (r.phase.AtEnd? ==> r.data == r.version))
    || LeadsTo(clock, r.atOpen.value.mtime, f.mtime)
  }

  ghost predicate Inv(s: State, limit: nat, clock: Clock) {
    var r := s.reader;
    && |r.data| <= limit
    && (r.phase.Start? || r.phase.LookedAt? || r.phase.Opened? ==> r.data == [])
    && (r.phase.Reading? || r.phase.AtEnd? ==>
          && DescriptorOpen(s)
          && r.atOpen.Some?
          && r.atOpen.value.ino == r.descriptor.value
          && r.atOpen.value.size == |r.version|
          && SameOrLater(r, clock, s.files[r.descriptor.value]))
    && (r.phase.Refetched? ==>
          r.atOpen.Some? && r.atOpen.value.size == |r.version| &&
          (r.atOpen == r.atClose ==> r.data == r.version))
    && (r.phase.Returned? ==>
          && r.data == r.version && r.atOpen.Some? && r.atOpen.value.size == |r.version|
          && r.atOpen.value.regular
          && r.before == r.atOpen == r.atClose == r.after)
    && (r.phase.LookedAt? || r.phase.Opened? || r.phase.Reading? || r.phase.AtEnd? || r.phase.Refetched? ==>
          r.before.Some? && r.before.value.regular)
  }

  lemma WriteKeepsInv(s: State, limit: nat, clock: Clock, a: Action)
    requires a.Write? && Inv(s, limit, clock) && Enabled(s, limit, clock, a)
    ensures Inv(Next(s, limit, clock, a), limit, clock)
  {
    hide LeadsTo;
    var r := s.reader;
    if (r.phase.Reading? || r.phase.AtEnd?) && r.descriptor == Some(a.ino) {
      var from, mid := r.atOpen.value.mtime, s.files[a.ino].mtime;
      if LeadsTo(clock, from, mid) { OneMoreTick(clock, from, mid, a.mtime); } else { OneTick(clock, from, a.mtime); }
    }
  }

  lemma StepKeepsInv(s: State, limit: nat, clock: Clock, a: Action)
    requires NeverReturns(clock) && Inv(s, limit, clock) && Enabled(s, limit, clock, a)
    ensures Inv(Next(s, limit, clock, a), limit, clock)
  {
    hide LeadsTo;
    if a.Write? {
      WriteKeepsInv(s, limit, clock, a);
    } else if a.ReadChunk? {
      var bytes, k := s.files[s.reader.descriptor.value].bytes, |s.reader.data|;
      assert bytes[..k] + bytes[k..k + a.n] == bytes[..k + a.n];
    }
  }

  lemma {:induction false} RunKeepsInv(s: State, limit: nat, clock: Clock, actions: seq<Action>)
    requires NeverReturns(clock) && Inv(s, limit, clock) && ValidRun(s, limit, clock, actions)
    ensures Inv(After(s, limit, clock, actions), limit, clock)
    decreases |actions|
  {
    hide Inv, NeverReturns, Enabled, Next;
    if |actions| > 0 {
      StepKeepsInv(s, limit, clock, actions[0]);
      RunKeepsInv(Next(s, limit, clock, actions[0]), limit, clock, actions[1..]);
    }
  }

  /** Some state of the run has exactly these bytes in this file. */
  ghost predicate HeldDuring(s: State, limit: nat, clock: Clock, actions: seq<Action>, i: Inode, bytes: Bytes)
    requires ValidRun(s, limit, clock, actions)
    decreases |actions|
  {
    || (i in s.files && s.files[i].bytes == bytes)
    || (|actions| > 0 && HeldDuring(Next(s, limit, clock, actions[0]), limit, clock, actions[1..], i, bytes))
  }

  /** Once the descriptor's facts are taken, neither they nor the recorded version change. */
  lemma {:induction false} FactsStay(s: State, limit: nat, clock: Clock, actions: seq<Action>)
    requires ValidRun(s, limit, clock, actions)
    requires !s.reader.phase.Start? && !s.reader.phase.LookedAt? && !s.reader.phase.Opened?
    ensures After(s, limit, clock, actions).reader.atOpen == s.reader.atOpen
    ensures After(s, limit, clock, actions).reader.version == s.reader.version
    decreases |actions|
  {
    if |actions| > 0 {
      FactsStay(Next(s, limit, clock, actions[0]), limit, clock, actions[1..]);
    }
  }

  lemma {:induction false} VersionWasHeld(s: State, limit: nat, clock: Clock, actions: seq<Action>)
    requires ValidRun(s, limit, clock, actions)
    requires s.reader.phase.Start? || s.reader.phase.LookedAt? || s.reader.phase.Opened?
    ensures var r := After(s, limit, clock, actions).reader;
            r.phase.Returned? ==>
              r.atOpen.Some? && HeldDuring(s, limit, clock, actions, r.atOpen.value.ino, r.version)
    decreases |actions|
  {
    if |actions| > 0 {
      var t := Next(s, limit, clock, actions[0]);
      if actions[0].Fstat? || t.reader.phase.Rejected? {
        FactsStay(t, limit, clock, actions[1..]);
        if t.reader.phase.Rejected? { RejectedStays(t, limit, clock, actions[1..]); }
      } else {
        VersionWasHeld(t, limit, clock, actions[1..]);
      }
    }
  }

  lemma {:induction false} RejectedStays(s: State, limit: nat, clock: Clock, actions: seq<Action>)
    requires ValidRun(s, limit, clock, actions) && s.reader.phase.Rejected?
    ensures After(s, limit, clock, actions).reader.phase.Rejected?
    decreases |actions|
  {
    if |actions| > 0 {
      RejectedStays(Next(s, limit, clock, actions[0]), limit, clock, actions[1..]);
    }
  }

  /**
   What the reader promises of a run: whatever it returns is the whole contents that one regular
   file had at some moment of the run, the path showed that file's facts before and after, and
   the bound holds.
   */
  ghost predicate ReadsWhole(s: State, limit: nat, clock: Clock, actions: seq<Action>)
    requires ValidRun(s, limit, clock, actions)
  {
    var r := After(s, limit, clock, actions).reader;
    r.phase.Returned? ==>
      && r.atOpen.Some? && r.atOpen.value.regular
      && HeldDuring(s, limit, clock, actions, r.atOpen.value.ino, r.data)
      && r.atOpen.value.size == |r.data| <= limit
      && r.before == r.atOpen == r.atClose == r.after
  }

  lemma {:induction false} ReturnedBytesAreOneVersion(s: State, limit: nat, clock: Clock, actions: seq<Action>)
    requires NeverReturns(clock) && IsInitial(s) && ValidRun(s, limit, clock, actions)
    ensures ReadsWhole(s, limit, clock, actions)
  {
    RunKeepsInv(s, limit, clock, actions);
    VersionWasHeld(s, limit, clock, actions);
  }

  lemma {:induction false} LaterTicksAreGreater(clock: Clock, times: seq<int>)
    requires Ticks(clock, times) && |times| >= 2 && forall m, n | clock(m, n) :: m < n
    ensures times[0] < times[|times| - 1]
    decreases |times|
  {
    if |times| > 2 {
      assert Ticks(clock, times[..|times| - 1]) by {
        forall k | 0 < k < |times| - 1 ensures clock(times[k - 1], times[k]) {
        }
      }
      LaterTicksAreGreater(clock, times[..|times| - 1]);
    }
    assert clock(times[|times| - 2], times[|times| - 1]);
  }

  /** A clock that only moves forward is enough. */
  lemma {:induction false} IncreasingNeverReturns(clock: Clock)
    requires forall m, n | clock(m, n) :: m < n
    ensures NeverReturns(clock)
  {
    forall m ensures !LeadsTo(clock, m, m) {
      if LeadsTo(clock, m, m) {
        var times :| Ticks(clock, times) && |times| >= 2 && times[0] == m && times[|times| - 1] == m;
        LaterTicksAreGreater(clock, times);
        assert false;
      }
    }
  }

  // ---------------------------------------------------------------------------------------
  // Modification times that come back

  const TORN: Bytes := [3]

  /** These actions lead from one state to the other, and the file never holds the torn bytes. */
  ghost predicate Segment(s: State, limit: nat, clock: Clock, actions: seq<Action>, t: State) {
    ValidRun(s, limit, clock, actions) && After(s, limit, clock, actions) == t
    && !HeldDuring(s, limit, clock, actions, 0, TORN)
  }

  predicate Holds(s: State, bytes: Bytes) {
    0 in s.files && s.files[0].bytes == bytes
  }

  lemma {:induction false} Single(s: State, limit: nat, clock: Clock, a: Action, t: State)
    requires Enabled(s, limit, clock, a) && Next(s, limit, clock, a) == t
    requires !Holds(s, TORN) && !Holds(t, TORN)
    ensures Segment(s, limit, clock, [a], t)
  {
    assert [a][0] == a && [a][1..] == [];
    assert ValidRun(t, limit, clock, [a][1..]);
    assert ValidRun(s, limit, clock, [a]);
    assert !HeldDuring(t, limit, clock, [a][1..], 0, TORN);
  }

  lemma {:induction false} Join(s: State, limit: nat, clock: Clock, x: seq<Action>, t: State, y: seq<Action>, u: State)
    requires Segment(s, limit, clock, x, t) && Segment(t, limit, clock, y, u)
    ensures Segment(s, limit, clock, x + y, u)
    decreases |x|
  {
    hide Enabled, Next;
    if |x| == 0 {
      assert x + y == y;
    } else {
      assert (x + y)[1..] == x[1..] + y;
      Join(Next(s, limit, clock, x[0]), limit, clock, x[1..], t, y, u);
    }
  }

  lemma {:induction false} Extend(s: State, limit: nat, clock: Clock, x: seq<Action>, t: State, a: Action, u: State)
    requires Segment(s, limit, clock, x, t) && Enabled(t, limit, clock, a) && Next(t, limit, clock, a) == u
    requires !Holds(t, TORN) && !Holds(u, TORN)
    ensures Segment(s, limit, clock, x + [a], u)
  {
    hide Segment, Enabled, Next;
    Single(t, limit, clock, a, u);
    Join(s, limit, clock, x, t, [a], u);
  }

  /** Writes of the same bytes that take the file through the given modification times. */
  function Writes(bytes: Bytes, times: seq<int>): seq<Action> {
    if |times| <= 1 then [] else [Write(0, bytes, times[1])] + Writes(bytes, times[1..])
  }

  lemma {:induction false} WritesRun(s: State, limit: nat, clock: Clock, was: Bytes, bytes: Bytes, times: seq<int>)
    requires Ticks(clock, times) && |times| >= 2 && was != TORN && bytes != TORN
    requires s.files == map[0 := File(was, times[0], true)]
    ensures Segment(s, limit, clock, Writes(bytes, times), s.(files := map[0 := File(bytes, times[|times| - 1], true)]))
    decreases |times|
  {
    var t := s.(files := map[0 := File(bytes, times[1], true)]);
    assert clock(times[1 - 1], times[1]);
    Single(s, limit, clock, Write(0, bytes, times[1]), t);
    if |times| == 2 {
      assert Writes(bytes, times) == [Write(0, bytes, times[1])];
    } else {
      var rest := times[1..];
      assert Ticks(clock, rest) by {
        forall k | 0 < k < |rest| ensures clock(rest[k - 1], rest[k]) {
          assert rest[k - 1] == times[k + 1 - 1];
        }
      }
      WritesRun(t, limit, clock, bytes, bytes, rest);
      Join(s, limit, clock, [Write(0, bytes, times[1])], t, Writes(bytes, rest),
           s.(files := map[0 := File(bytes, times[|times| - 1], true)]));
    }
  }

  function TornStart(m: int): State {
    State(Some(0), map[0 := File([1], m, true)], Reader(Start, None, None, None, None, None, [], []))
  }

  /** While the file is read, it goes round the cycle twice: once before the chunk and once after. */
  function TornRun(times: seq<int>): seq<Action> {
    [Lstat] + [Open] + [Fstat] + Writes([3, 4], times) + [ReadChunk(1)] + Writes([5], times)
    + [ReadEnd] + [FstatAgain] + [LstatAgain]
  }

  /** The bytes that are returned need not even be bytes that the file ever held. */
  lemma {:induction false} TornReadIsPossible(limit: nat, clock: Clock, times: seq<int>)
    requires limit > 0 && Ticks(clock, times) && |times| >= 2 && times[0] == times[|times| - 1]
    ensures IsInitial(TornStart(times[0])) && ValidRun(TornStart(times[0]), limit, clock, TornRun(times))
    ensures var r := After(TornStart(times[0]), limit, clock, TornRun(times)).reader;
            && r.phase.Returned? && r.atOpen.Some? && r.atOpen.value.ino == 0
            && !HeldDuring(TornStart(times[0]), limit, clock, TornRun(times), 0, r.data)
  {
    hide Segment;
    var m := times[0];
    var st := Some(Stat(0, 1, m, true));
    var s0 := TornStart(m);
    var s1 := s0.(reader := Reader(LookedAt, None, st, None, None, None, [], []));
    var s2 := s0.(reader := Reader(Opened, Some(0), st, None, None, None, [], []));
    var s3 := s0.(reader := Reader(Reading, Some(0), st, st, None, None, [], [1]));
    var s4 := s3.(files := map[0 := File([3, 4], m, true)]);
    var s5 := s4.(reader := Reader(Reading, Some(0), st, st, None, None, [3], [1]));
    var s6 := s5.(files := map[0 := File([5], m, true)]);
    var s7 := s6.(reader := Reader(AtEnd, Some(0), st, st, None, None, [3], [1]));
    var s8 := s6.(reader := Reader(Refetched, None, st, st, st, None, [3], [1]));
    var s9 := s6.(reader := Reader(Returned, None, st, st, st, st, [3], [1]));
    var x4, x6 := [Lstat] + [Open] + [Fstat] + Writes([3, 4], times), TornRun(times)[..|TornRun(times)| - 3];
    Single(s0, limit, clock, Lstat, s1);
    Extend(s0, limit, clock, [Lstat], s1, Open, s2);
    Extend(s0, limit, clock, [Lstat] + [Open], s2, Fstat, s3);
    WritesRun(s3, limit, clock, [1], [3, 4], times);
    Join(s0, limit, clock, [Lstat] + [Open] + [Fstat], s3, Writes([3, 4], times), s4);
    Extend(s0, limit, clock, x4, s4, ReadChunk(1), s5);
    WritesRun(s5, limit, clock, [3, 4], [5], times);
    Join(s0, limit, clock, x4 + [ReadChunk(1)], s5, Writes([5], times), s6);
    assert x6 == x4 + [ReadChunk(1)] + Writes([5], times);
    Extend(s0, limit, clock, x6, s6, ReadEnd, s7);
    Extend(s0, limit, clock, x6 + [ReadEnd], s7, FstatAgain, s8);
    Extend(s0, limit, clock, x6 + [ReadEnd] + [FstatAgain], s8, LstatAgain, s9);
    SegmentFacts(s0, limit, clock, TornRun(times), s9);
  }

  lemma SegmentFacts(s: State, limit: nat, clock: Clock, actions: seq<Action>, t: State)
    requires Segment(s, limit, clock, actions, t)
    ensures ValidRun(s, limit, clock, actions) && After(s, limit, clock, actions) == t
    ensures !HeldDuring(s, limit, clock, actions, 0, TORN)
  {
  }

  /** The file is emptied, read to its end, and filled again. */
  function EmptyRun(times: seq<int>): seq<Action> {
    [Lstat] + [Open] + [Fstat] + Writes([], times) + [ReadEnd] + Writes([5], times) + [FstatAgain] + [LstatAgain]
  }

  /** Whatever the bound, the same cycle lets an empty read pass for a file of one byte. */
  lemma {:induction false} EmptyReadIsPossible(limit: nat, clock: Clock, times: seq<int>)
    requires Ticks(clock, times) && |times| >= 2 && times[0] == times[|times| - 1]
    ensures IsInitial(TornStart(times[0])) && ValidRun(TornStart(times[0]), limit, clock, EmptyRun(times))
    ensures var r := After(TornStart(times[0]), limit, clock, EmptyRun(times)).reader;
            r.phase.Returned? && r.data == [] && r.atOpen.Some? && r.atOpen.value.size == 1
  {
    hide Segment;
    var m := times[0];
    var st := Some(Stat(0, 1, m, true));
    var s0 := TornStart(m);
    var s1 := s0.(reader := Reader(LookedAt, None, st, None, None, None, [], []));
    var s2 := s0.(reader := Reader(Opened, Some(0), st, None, None, None, [], []));
    var s3 := s0.(reader := Reader(Reading, Some(0), st, st, None, None, [], [1]));
    var s4 := s3.(files := map[0 := File([], m, true)]);
    var s5 := s4.(reader := Reader(AtEnd, Some(0), st, st, None, None, [], [1]));
    var s6 := s5.(files := map[0 := File([5], m, true)]);
    var s7 := s6.(reader := Reader(Refetched, None, st, st, st, None, [], [1]));
    var s8 := s6.(reader := Reader(Returned, None, st, st, st, st, [], [1]));
    var x4 := [Lstat] + [Open] + [Fstat] + Writes([], times);
    var x6 := x4 + [ReadEnd] + Writes([5], times);
    Single(s0, limit, clock, Lstat, s1);
    Extend(s0, limit, clock, [Lstat], s1, Open, s2);
    Extend(s0, limit, clock, [Lstat] + [Open], s2, Fstat, s3);
    WritesRun(s3, limit, clock, [1], [], times);
    Join(s0, limit, clock, [Lstat] + [Open] + [Fstat], s3, Writes([], times), s4);
    Extend(s0, limit, clock, x4, s4, ReadEnd, s5);
    WritesRun(s5, limit, clock, [], [5], times);
    Join(s0, limit, clock, x4 + [ReadEnd], s5, Writes([5], times), s6);
    Extend(s0, limit, clock, x6, s6, FstatAgain, s7);
    Extend(s0, limit, clock, x6 + [FstatAgain], s7, LstatAgain, s8);
    SegmentFacts(s0, limit, clock, EmptyRun(times), s8);
  }

  /**
   The reader keeps its promise in all runs exactly when no modification time can come back. That
   each write changes the modification time is not enough: a later write may restore it.
   */
  lemma {:induction false} WholeReadsExactly(limit: nat, clock: Clock)
    ensures (forall s, actions | IsInitial(s) && ValidRun(s, limit, clock, actions) ::
               ReadsWhole(s, limit, clock, actions))
            <==> NeverReturns(clock)
  {
    if NeverReturns(clock) {
      forall s, actions | IsInitial(s) && ValidRun(s, limit, clock, actions)
        ensures ReadsWhole(s, limit, clock, actions)
      {
        ReturnedBytesAreOneVersion(s, limit, clock, actions);
      }
    } else {
      var m :| LeadsTo(clock, m, m);
      var times :| Ticks(clock, times) && |times| >= 2 && times[0] == m && times[|times| - 1] == m;
      EmptyReadIsPossible(limit, clock, times);
      assert !ReadsWhole(TornStart(m), limit, clock, EmptyRun(times));
    }
  }
}
