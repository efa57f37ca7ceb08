/** The bounded reader when nobody else touches the file: it neither refuses too much nor returns too little. */
module QuietRead {
  import opened Common
  import opened StableRead

  /** Only the reader acts. */
  ghost predicate Alone(actions: seq<Action>) {
    forall a | a in actions :: !a.Write? && !a.Recycle? && !a.Repoint?
  }

  /** What the reader knows at each point while the path names this file. */
  ghost predicate Follows(s: State, limit: nat, i: Inode, f: File) {
    var r := s.reader;
    var st := Some(Stat(i, |f.bytes|, f.mtime, f.regular));
    && s.path == Some(i) && i in s.files && s.files[i] == f
    && r.data <= f.bytes && |r.data| <= limit
    && (r.phase.Start? || r.phase.LookedAt? || r.phase.Opened? ==> r.data == [])
    && (!r.phase.Start? ==> r.before == st)
    && (!r.phase.Start? && !r.phase.Rejected? ==> f.regular)
    && (r.phase.Opened? || r.phase.Reading? || r.phase.AtEnd? ==> r.descriptor == Some(i))
    && (r.phase.Reading? || r.phase.AtEnd? || r.phase.Refetched? || r.phase.Returned? ==> r.atOpen == st)
    && (r.phase.AtEnd? || r.phase.Refetched? || r.phase.Returned? ==> r.data == f.bytes)
    && (r.phase.Refetched? || r.phase.Returned? ==> r.atClose == st)
    && (r.phase.Rejected? ==> !f.regular || |f.bytes| > limit)
  }

  lemma {:induction false} StepFollows(s: State, limit: nat, clock: Clock, a: Action, i: Inode, f: File)
    requires Follows(s, limit, i, f) && Enabled(s, limit, clock, a) && !a.Write? && !a.Recycle? && !a.Repoint?
    ensures Follows(Next(s, limit, clock, a), limit, i, f)
  {
    if a.ReadChunk? {
      var k := |s.reader.data|;
      assert f.bytes[..k] + f.bytes[k..k + a.n] == f.bytes[..k + a.n];
    }
  }

  lemma {:induction false} RunFollows(s: State, limit: nat, clock: Clock, actions: seq<Action>, i: Inode, f: File)
    requires Follows(s, limit, i, f) && ValidRun(s, limit, clock, actions) && Alone(actions)
    ensures Follows(After(s, limit, clock, actions), limit, i, f)
    decreases |actions|
  {
    hide Follows, Enabled, Next;
    if |actions| > 0 {
      assert actions[0] in actions;
      StepFollows(s, limit, clock, actions[0], i, f);
      assert forall a | a in actions[1..] :: a in actions;
      RunFollows(Next(s, limit, clock, actions[0]), limit, clock, actions[1..], i, f);
    }
  }

  /** An undisturbed read returns the file's bytes, and refuses only what is no regular file or too long. */
  lemma {:induction false} QuietReadsDecide(s: State, limit: nat, clock: Clock, actions: seq<Action>)
    requires IsInitial(s) && PathResolves(s) && ValidRun(s, limit, clock, actions) && Alone(actions)
    ensures var f, r := s.files[s.path.value], After(s, limit, clock, actions).reader;
            && (r.phase.Returned? ==> r.data == f.bytes && f.regular && |f.bytes| <= limit)
            && (r.phase.Rejected? ==> !f.regular || |f.bytes| > limit)
  {
    hide Enabled, Next, ValidRun, After;
    RunFollows(s, limit, clock, actions, s.path.value, s.files[s.path.value]);
  }

  /** Reads what is left byte by byte, and finishes. */
  function ReadOut(left: nat): seq<Action> {
    if left == 0 then [ReadEnd, FstatAgain, LstatAgain] else [ReadChunk(1)] + ReadOut(left - 1)
  }

  lemma {:induction false} Prepend(s: State, limit: nat, clock: Clock, a: Action, rest: seq<Action>)
    requires Enabled(s, limit, clock, a) && ValidRun(Next(s, limit, clock, a), limit, clock, rest)
    ensures ValidRun(s, limit, clock, [a] + rest)
    ensures After(s, limit, clock, [a] + rest) == After(Next(s, limit, clock, a), limit, clock, rest)
  {
    hide Enabled, Next;
    assert ([a] + rest)[0] == a && ([a] + rest)[1..] == rest;
  }

  lemma {:induction false} FinishesFromEnd(s: State, limit: nat, clock: Clock, i: Inode, f: File)
    requires Follows(s, limit, i, f) && s.reader.phase.Reading? && s.reader.data == f.bytes
    ensures ValidRun(s, limit, clock, ReadOut(0)) && After(s, limit, clock, ReadOut(0)).reader.phase.Returned?
  {
    var s1 := Next(s, limit, clock, ReadEnd);
    var s2 := Next(s1, limit, clock, FstatAgain);
    var s3 := Next(s2, limit, clock, LstatAgain);
    assert s3.reader.phase.Returned?;
    assert ValidRun(s3, limit, clock, []);
    Prepend(s2, limit, clock, LstatAgain, []);
    Prepend(s1, limit, clock, FstatAgain, [LstatAgain] + []);
    Prepend(s, limit, clock, ReadEnd, [FstatAgain] + ([LstatAgain] + []));
    assert [ReadEnd] + ([FstatAgain] + ([LstatAgain] + [])) == ReadOut(0);
  }

  lemma {:induction false} Finishes(s: State, limit: nat, clock: Clock, i: Inode, f: File)
    requires Follows(s, limit, i, f) && s.reader.phase.Reading? && |f.bytes| <= limit
    ensures var run := ReadOut(|f.bytes| - |s.reader.data|);
            ValidRun(s, limit, clock, run) && After(s, limit, clock, run).reader.phase.Returned?
    decreases |f.bytes| - |s.reader.data|
  {
    var left := |f.bytes| - |s.reader.data|;
    if left == 0 {
      FinishesFromEnd(s, limit, clock, i, f);
    } else {
      var t := Next(s, limit, clock, ReadChunk(1));
      StepFollows(s, limit, clock, ReadChunk(1), i, f);
      Finishes(t, limit, clock, i, f);
      Prepend(s, limit, clock, ReadChunk(1), ReadOut(left - 1));
    }
  }

  function QuietRun(left: nat): seq<Action> {
    [Lstat] + ([Open] + ([Fstat] + ReadOut(left)))
  }

  /** For every regular file within the bound there is such a read that returns. */
  lemma {:induction false} QuietReadReturns(s: State, limit: nat, clock: Clock)
    requires IsInitial(s) && PathResolves(s)
    requires s.files[s.path.value].regular && |s.files[s.path.value].bytes| <= limit
    ensures var f, run := s.files[s.path.value], QuietRun(|s.files[s.path.value].bytes|);
            && Alone(run) && ValidRun(s, limit, clock, run)
            && After(s, limit, clock, run).reader.phase.Returned? && After(s, limit, clock, run).reader.data == f.bytes
  {
    var i := s.path.value;
    var f := s.files[i];
    var s1 := Next(s, limit, clock, Lstat);
    var s2 := Next(s1, limit, clock, Open);
    var s3 := Next(s2, limit, clock, Fstat);
    StepFollows(s, limit, clock, Lstat, i, f);
    StepFollows(s1, limit, clock, Open, i, f);
    StepFollows(s2, limit, clock, Fstat, i, f);
    hide Follows, ValidRun, After;
    var left := |f.bytes|;
    Finishes(s3, limit, clock, i, f);
    Prepend(s2, limit, clock, Fstat, ReadOut(left));
    Prepend(s1, limit, clock, Open, [Fstat] + ReadOut(left));
    Prepend(s, limit, clock, Lstat, [Open] + ([Fstat] + ReadOut(left)));
    OnlyReads(left);
    QuietReadsDecide(s, limit, clock, QuietRun(left));
  }

  lemma {:induction false} OnlyReads(left: nat)
    ensures Alone(ReadOut(left)) && Alone(QuietRun(left))
  {
    if left > 0 { OnlyReads(left - 1); }
  }
}
