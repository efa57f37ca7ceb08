/**
 Publication of a release suite by any number of concurrent builders. Each builder stages a
 directory, takes a create-exclusive lock file, checks the destination, renames without
 replacing, and cleans up behind identity checks. One action below is one system call, so a
 sequence of actions by different builders is an interleaving. Inode numbers may be reused as
 soon as nothing holds them, and every call may fail.
 */
module SuitePublication {
  import opened Common

  type Pid = nat
  type Inode = nat

  datatype Path = Destination | LockFile | Staging(name: nat)

  datatype Phase =
    | Made                          // staging directory created, its identity not yet read
    | Building                      // role archives, sidecars and the manifest being written
    | Ready                         // staged bytes revalidated; about to open the lock
    | LockOpened                    // lock created, its identity not yet read
    | LockHeld                      // about to look at the destination
    | Checked                       // destination seen absent; about to rename
    | Closing(published: bool)      // about to close the lock descriptor
    | Releasing(published: bool)    // about to look at the lock path
    | Unlinking(published: bool)    // lock path matched the captured identity
    | CleanupCheck                  // failed; about to look at the staging path
    | Removing                      // staging path matched the captured identity
    | Succeeded
    | Failed
    | Crashed

  /** Where the directory that a builder made is now. */
  datatype Home = InStaging | Published | Removed

  datatype Builder = Builder(
    phase: Phase,
    name: nat,                      // staging path
    directory: Inode,               // inode that mkdtemp made
    identity: Option<Inode>,        // staging identity, once captured
    descriptor: Option<Inode>,      // open lock descriptor
    lockIdentity: Option<Inode>,    // lock identity, once captured
    holdsLock: bool,                // the lock path still names the file this builder created
    home: Home,
    closeFailed: bool)

  datatype State = State(
    fs: map<Path, Inode>,
    content: map<Inode, nat>,       // how many of the suite's files a directory holds
    creator: map<Inode, Pid>,       // who made the file or directory now at this inode
    builders: map<Pid, Builder>)

  const INITIAL := State(map[], map[], map[], map[])

  datatype Action =
    | MakeStaging(name: nat, inode: Inode)
    | CaptureIdentity
    | WriteFile
    | FinishBuild
    | OpenLock(inode: Inode)
    | OpenLockFails
    | CaptureLock
    | CheckDestination
    | Rename
    | Close
    | CloseFails
    | LookAtLock
    | UnlinkLock
    | LookAtStaging
    | RemoveSome                    // rmtree deletes one more entry
    | RemoveDirectory
    | CallFails                     // the pending call raises or is given up on
    | Crash

  /** No directory entry and no open descriptor holds this inode number. */
  ghost predicate Free(s: State, i: Inode) {
    && i !in s.fs.Values
    && forall p | p in s.builders :: s.builders[p].descriptor != Some(i)
  }

  function Lookup(s: State, path: Path): Option<Inode> {
    if path in s.fs then Some(s.fs[path]) else None
  }

  ghost predicate Enabled(s: State, total: nat, p: Pid, a: Action) {
    if a.MakeStaging? then p !in s.builders && Staging(a.name) !in s.fs && Free(s, a.inode)
    else
      && p in s.builders
      && var b := s.builders[p];
      match a
      case CaptureIdentity => b.phase.Made? && Staging(b.name) in s.fs
      case WriteFile => b.phase.Building? && Staging(b.name) in s.fs
                        && s.fs[Staging(b.name)] in s.content && s.content[s.fs[Staging(b.name)]] < total
      case FinishBuild => b.phase.Building? && Staging(b.name) in s.fs
                          && s.fs[Staging(b.name)] in s.content && s.content[s.fs[Staging(b.name)]] == total
      case OpenLock(i) => b.phase.Ready? && LockFile !in s.fs && Free(s, i)
      case OpenLockFails => b.phase.Ready?
      case CaptureLock => b.phase.LockOpened? && b.descriptor.Some?
      case CheckDestination => b.phase.LockHeld?
      case Rename => b.phase.Checked? && Destination !in s.fs && Staging(b.name) in s.fs
      case Close => b.phase.Closing?
      case CloseFails => b.phase.Closing? && b.descriptor.Some?
      case LookAtLock => b.phase.Releasing?
      case UnlinkLock => b.phase.Unlinking? && LockFile in s.fs
      case LookAtStaging => b.phase.CleanupCheck?
      case RemoveSome => b.phase.Removing? && Staging(b.name) in s.fs
                         && s.fs[Staging(b.name)] in s.content && s.content[s.fs[Staging(b.name)]] > 0
      case RemoveDirectory => b.phase.Removing? && Staging(b.name) in s.fs
      case CallFails => !b.phase.Closing? && !b.phase.Succeeded? && !b.phase.Failed? && !b.phase.Crashed?
      case Crash => !b.phase.Succeeded? && !b.phase.Failed? && !b.phase.Crashed?
  }

  /** After the lock has been dealt with, a failure goes on to clean its staging directory up. */
  function AfterRelease(published: bool): Phase {
    if published then Succeeded else CleanupCheck
  }

  /** Where an exception raised by the pending call leads. */
  function FailureTarget(phase: Phase): Phase {
    match phase
    case Made => Failed                     // identity never captured, so nothing is cleaned up
    case Building => CleanupCheck
    case Ready => Releasing(false)
    case LockOpened => Closing(false)
    case LockHeld => Closing(false)
    case Checked => Closing(false)
    case Releasing(published) => AfterRelease(published)
    case Unlinking(published) => AfterRelease(published)
    case _ => Failed
  }

  ghost function Next(s: State, total: nat, p: Pid, a: Action): State
    requires Enabled(s, total, p, a)
  {
    if a.MakeStaging? then
      State(s.fs[Staging(a.name) := a.inode], s.content[a.inode := 0], s.creator[a.inode := p],
            s.builders[p := Builder(Made, a.name, a.inode, None, None, None, false, InStaging, false)])
    else
      var b := s.builders[p];
      match a
      case CaptureIdentity =>
        s.(builders := s.builders[p := b.(phase := Building, identity := Some(s.fs[Staging(b.name)]))])
      case WriteFile =>
        var i := s.fs[Staging(b.name)];
        s.(content := s.content[i := s.content[i] + 1])
      case FinishBuild => s.(builders := s.builders[p := b.(phase := Ready)])
      case OpenLock(i) =>
        s.(fs := s.fs[LockFile := i], creator := s.creator[i := p],
           builders := s.builders[p := b.(phase := LockOpened, descriptor := Some(i), holdsLock := true)])
      case OpenLockFails => s.(builders := s.builders[p := b.(phase := Releasing(false))])
      case CaptureLock => s.(builders := s.builders[p := b.(phase := LockHeld, lockIdentity := b.descriptor)])
      case CheckDestination =>
        s.(builders := s.builders[p := b.(phase := if Destination in s.fs then Closing(false) else Checked)])
      case Rename =>
        s.(fs := (s.fs - {Staging(b.name)})[Destination := s.fs[Staging(b.name)]],
           builders := s.builders[p := b.(phase := Closing(true), home := Published)])
      case Close =>
        s.(builders := s.builders[p := b.(phase := Releasing(b.phase.published), descriptor := None)])
      case CloseFails =>
        s.(builders := s.builders[p := b.(phase := CleanupCheck, descriptor := None, closeFailed := true)])
      case LookAtLock =>
        s.(builders := s.builders[p := b.(phase :=
             if LockFile in s.fs && b.lockIdentity == Some(s.fs[LockFile]) then Unlinking(b.phase.published)
             else AfterRelease(b.phase.published))])
      case UnlinkLock =>
        s.(fs := s.fs - {LockFile},
           builders := s.builders[p := b.(phase := AfterRelease(b.phase.published), holdsLock := false)])
      case LookAtStaging =>
        s.(builders := s.builders[p := b.(phase :=
             if b.identity.Some? && Lookup(s, Staging(b.name)) == b.identity then Removing else Failed)])
      case RemoveSome =>
        var i := s.fs[Staging(b.name)];
        s.(content := s.content[i := s.content[i] - 1])
      case RemoveDirectory =>
        s.(fs := s.fs - {Staging(b.name)},
           builders := s.builders[p := b.(phase := Failed, home := Removed)])
      case CallFails => s.(builders := s.builders[p := b.(phase := FailureTarget(b.phase))])
      case Crash => s.(builders := s.builders[p := b.(phase := Crashed, descriptor := None)])
  }

  // ---------------------------------------------------------------------------------------
  // What every action keeps

  /** The builder is between creating the lock and giving it up. */
  predicate InCriticalSection(b: Builder) {
    || b.phase.LockOpened? || b.phase.LockHeld? || b.phase.Checked?
    || (b.phase.Closing? && b.descriptor.Some?)
    || b.phase.Unlinking?
  }

  ghost predicate OneInodePerPath(s: State) {
    forall x, y | x in s.fs && y in s.fs && s.fs[x] == s.fs[y] :: x == y
  }

  /** Every entry was made by a builder whose own record agrees with it. */
  ghost predicate EntryOwned(s: State, path: Path)
    requires path in s.fs
  {
    && s.fs[path] in s.creator
    && s.creator[s.fs[path]] in s.builders
    && var b := s.builders[s.creator[s.fs[path]]];
    match path
    case Destination => b.home.Published? && b.directory == s.fs[path]
    case LockFile => b.holdsLock
    case Staging(n) => b.home.InStaging? && b.name == n && b.directory == s.fs[path]
  }

  /** The builder's record of where its things are agrees with the disk. */
  ghost predicate Placed(fs: map<Path, Inode>, content: map<Inode, nat>, creator: map<Inode, Pid>, total: nat,
                         p: Pid, b: Builder)
  {
    && (b.home.InStaging? ==>
          && Staging(b.name) in fs && fs[Staging(b.name)] == b.directory
          && b.directory in creator && creator[b.directory] == p && b.directory in content)
    && (b.home.Published? ==>
          && Destination in fs && fs[Destination] == b.directory
          && b.directory in creator && creator[b.directory] == p
          && b.directory in content && content[b.directory] == total)
    && (b.holdsLock ==>
          && LockFile in fs && fs[LockFile] in creator && creator[fs[LockFile]] == p)
    && (b.identity.Some? ==> b.identity.value == b.directory)
  }

  /** Where the staging directory is, and how complete, at each point of the program. */
  ghost predicate HomeFacts(content: map<Inode, nat>, total: nat, b: Builder) {
    && ((b.phase.Made? || b.phase.Building? || b.phase.Ready? || b.phase.LockOpened? || b.phase.LockHeld?
         || b.phase.Checked? || b.phase.Removing?) ==> b.home.InStaging?)
    && (b.phase.Ready? || b.phase.LockOpened? || b.phase.LockHeld? || b.phase.Checked? ==>
          b.directory in content && content[b.directory] == total)
    && (b.home.Removed? ==> b.phase.Failed?)
    && (b.phase.Closing? || b.phase.Releasing? || b.phase.Unlinking? ==> (b.phase.published <==> b.home.Published?))
    && (b.phase.Succeeded? ==> b.home.Published?)
    && (b.phase.CleanupCheck? || b.phase.Failed? ==> b.home.Published? ==> b.closeFailed)
    && (b.closeFailed ==> b.phase.CleanupCheck? || b.phase.Removing? || b.phase.Failed? || b.phase.Crashed?)
    && (b.phase.Made? || b.phase.Failed? || b.phase.Crashed? || b.identity.Some?)
  }

  /** What the builder knows about the lock, with the inode at the lock path if any. */
  ghost predicate LockFacts(lock: Option<Inode>, b: Builder) {
    && (b.phase.LockOpened? || b.phase.LockHeld? || b.phase.Checked? ==> b.descriptor.Some?)
    && (b.descriptor.Some? ==> b.phase.LockOpened? || b.phase.LockHeld? || b.phase.Checked? || b.phase.Closing?)
    && (b.phase.LockHeld? || b.phase.Checked? ==> b.lockIdentity == b.descriptor)
    && (b.descriptor.Some? ==> b.holdsLock && lock == b.descriptor)
    && (b.phase.Made? || b.phase.Building? || b.phase.Ready? ==>
          !b.holdsLock && b.descriptor.None? && b.lockIdentity.None?)
    && (b.phase.LockOpened? ==> b.lockIdentity.None?)
    && (b.phase.Closing? || b.phase.Releasing? ==> b.lockIdentity.Some? ==> b.holdsLock && lock == b.lockIdentity)
    && (b.phase.Closing? && b.descriptor.None? ==> b.lockIdentity.None?)
    && (b.phase.Unlinking? ==> b.holdsLock && b.lockIdentity.Some? && lock == b.lockIdentity)
  }

  ghost predicate BuilderOk(s: State, total: nat, p: Pid)
    requires p in s.builders
  {
    && Placed(s.fs, s.content, s.creator, total, p, s.builders[p])
    && HomeFacts(s.content, total, s.builders[p])
    && LockFacts(Lookup(s, LockFile), s.builders[p])
  }

  ghost predicate Inv(s: State, total: nat) {
    && OneInodePerPath(s)
    && (forall path | path in s.fs :: EntryOwned(s, path))
    && (forall p | p in s.builders :: BuilderOk(s, total, p))
  }

  lemma InitialInv(total: nat)
    ensures Inv(INITIAL, total)
  {
  }

  // One lemma for the directory entries and one for the builders' records, for each kind of action.

  lemma {:induction false} LocalKeepsEntries(s: State, p: Pid, b: Builder, path: Path)
    requires p in s.builders && path in s.fs && EntryOwned(s, path)
    requires b.name == s.builders[p].name && b.directory == s.builders[p].directory
    requires b.home == s.builders[p].home && b.holdsLock == s.builders[p].holdsLock
    ensures EntryOwned(s.(builders := s.builders[p := b]), path)
  {
  }

  lemma {:induction false} PlacedStays(s: State, total: nat, p: Pid, a: Builder, b: Builder)
    requires Placed(s.fs, s.content, s.creator, total, p, a)
    requires b.name == a.name && b.directory == a.directory && b.home == a.home && b.holdsLock == a.holdsLock
    requires b.identity.Some? ==> b.identity.value == b.directory
    ensures Placed(s.fs, s.content, s.creator, total, p, b)
  {
  }

  /** An action that changes one builder's record, but neither the disk nor where its things are. */
  lemma {:induction false} LocalKeepsInv(s: State, total: nat, p: Pid, b: Builder)
    requires Inv(s, total) && p in s.builders
    requires b.name == s.builders[p].name && b.directory == s.builders[p].directory
    requires b.home == s.builders[p].home && b.holdsLock == s.builders[p].holdsLock
    requires b.identity.Some? ==> b.identity.value == b.directory
    requires HomeFacts(s.content, total, b) && LockFacts(Lookup(s, LockFile), b)
    ensures Inv(s.(builders := s.builders[p := b]), total)
  {
    hide EntryOwned, Placed, HomeFacts, LockFacts;
    var t := s.(builders := s.builders[p := b]);
    forall path | path in t.fs ensures EntryOwned(t, path) { LocalKeepsEntries(s, p, b, path); }
    forall q | q in t.builders ensures BuilderOk(t, total, q) {
      assert BuilderOk(s, total, p);
      if q == p { PlacedStays(s, total, p, s.builders[p], b); } else { assert BuilderOk(s, total, q); }
    }
  }

  /** A new entry has an inode of its own. */
  lemma {:induction false} CreationKeepsInodes(s: State, total: nat, p: Pid, a: Action)
    requires (a.MakeStaging? || a.OpenLock?) && OneInodePerPath(s) && Enabled(s, total, p, a)
    ensures OneInodePerPath(Next(s, total, p, a))
  {
    assert forall path | path in s.fs :: s.fs[path] in s.fs.Values;
  }

  lemma {:induction false} CreationKeepsEntry(s: State, total: nat, p: Pid, a: Action, path: Path)
    requires (a.MakeStaging? || a.OpenLock?) && Enabled(s, total, p, a)
    requires p in s.builders ==> !s.builders[p].holdsLock
    requires path in Next(s, total, p, a).fs && (path in s.fs ==> EntryOwned(s, path))
    ensures EntryOwned(Next(s, total, p, a), path)
  {
    if path in s.fs { assert s.fs[path] in s.fs.Values; }
  }

  lemma {:induction false} CreationKeepsEntries(s: State, total: nat, p: Pid, a: Action)
    requires (a.MakeStaging? || a.OpenLock?) && Inv(s, total) && Enabled(s, total, p, a)
    ensures var t := Next(s, total, p, a); OneInodePerPath(t) && forall path | path in t.fs :: EntryOwned(t, path)
  {
    hide EntryOwned, OneInodePerPath, Placed, HomeFacts, Next;
    if p in s.builders { assert BuilderOk(s, total, p); }
    CreationKeepsInodes(s, total, p, a);
    var t := Next(s, total, p, a);
    forall path | path in t.fs ensures EntryOwned(t, path) { CreationKeepsEntry(s, total, p, a, path); }
  }

  lemma {:induction false} MakeStagingKeepsInv(s: State, total: nat, p: Pid, a: Action)
    requires a.MakeStaging? && Inv(s, total) && Enabled(s, total, p, a)
    ensures Inv(Next(s, total, p, a), total)
  {
    CreationKeepsEntries(s, total, p, a);
    hide EntryOwned, OneInodePerPath, LockFacts;
    var t := Next(s, total, p, a);
    assert Lookup(t, LockFile) == Lookup(s, LockFile);
    forall q | q in t.builders ensures BuilderOk(t, total, q) {
      if q != p { OthersKeepPlace(s, total, p, a, q); } else { NewBuilderOk(s, total, p, a); }
    }
  }

  lemma {:induction false} NewBuilderOk(s: State, total: nat, p: Pid, a: Action)
    requires a.MakeStaging? && Enabled(s, total, p, a)
    ensures BuilderOk(Next(s, total, p, a), total, p)
  {
  }

  lemma {:induction false} OthersKeepPlace(s: State, total: nat, p: Pid, a: Action, q: Pid)
    requires (a.MakeStaging? || a.OpenLock?) && Enabled(s, total, p, a) && q in s.builders && q != p
    requires BuilderOk(s, total, q) && (a.OpenLock? ==> !s.builders[q].holdsLock)
    ensures BuilderOk(Next(s, total, p, a), total, q)
  {
    var t, b := Next(s, total, p, a), s.builders[q];
    assert b.home.InStaging? ==> b.directory in s.fs.Values;
    assert b.home.Published? ==> b.directory in s.fs.Values;
    assert b.holdsLock ==> s.fs[LockFile] in s.fs.Values;
  }

  lemma {:induction false} OpenLockKeepsInv(s: State, total: nat, p: Pid, a: Action)
    requires a.OpenLock? && Inv(s, total) && Enabled(s, total, p, a)
    ensures Inv(Next(s, total, p, a), total)
  {
    CreationKeepsEntries(s, total, p, a);
    hide EntryOwned, OneInodePerPath;
    var t := Next(s, total, p, a);
    forall q | q in t.builders ensures BuilderOk(t, total, q) {
      assert BuilderOk(s, total, q);
      if q != p { OthersKeepPlace(s, total, p, a, q); } else { OwnLockOk(s, total, p, a); }
    }
  }

  lemma {:induction false} OwnLockOk(s: State, total: nat, p: Pid, a: Action)
    requires a.OpenLock? && Enabled(s, total, p, a) && BuilderOk(s, total, p)
    ensures BuilderOk(Next(s, total, p, a), total, p)
  {
    var b := s.builders[p];
    assert b.home.InStaging? ==> b.directory in s.fs.Values;
  }

  /** An action that takes an entry away or moves it. */
  predicate Removes(a: Action) {
    a.Rename? || a.UnlinkLock? || a.RemoveDirectory?
  }

  lemma {:induction false} RemovalKeepsInodes(s: State, total: nat, p: Pid, a: Action)
    requires Removes(a) && OneInodePerPath(s) && Enabled(s, total, p, a)
    ensures OneInodePerPath(Next(s, total, p, a))
  {
    hide Free;
  }

  lemma {:induction false} RenameKeepsEntry(s: State, total: nat, p: Pid, path: Path)
    requires Enabled(s, total, p, Rename) && BuilderOk(s, total, p)
    requires path in Next(s, total, p, Rename).fs && (path in s.fs ==> EntryOwned(s, path))
    ensures EntryOwned(Next(s, total, p, Rename), path)
  {
    hide Free, LockFacts;
    var t, b := Next(s, total, p, Rename), s.builders[p];
    assert b.home.InStaging?;
    if path != Destination {
      assert t.fs[path] == s.fs[path] && path != Staging(b.name);
      assert path.LockFile? || s.creator[s.fs[path]] != p;
    }
  }

  lemma {:induction false} UnlinkKeepsEntry(s: State, total: nat, p: Pid, path: Path)
    requires Enabled(s, total, p, UnlinkLock)
    requires path in Next(s, total, p, UnlinkLock).fs && path in s.fs && EntryOwned(s, path)
    ensures EntryOwned(Next(s, total, p, UnlinkLock), path)
  {
    hide Free;
  }

  lemma {:induction false} RemoveKeepsEntry(s: State, total: nat, p: Pid, path: Path)
    requires Enabled(s, total, p, RemoveDirectory) && BuilderOk(s, total, p)
    requires path in Next(s, total, p, RemoveDirectory).fs && path in s.fs && EntryOwned(s, path)
    ensures EntryOwned(Next(s, total, p, RemoveDirectory), path)
  {
    hide Free, LockFacts;
    var b := s.builders[p];
    assert b.home.InStaging? && path != Staging(b.name);
  }

  lemma {:induction false} RemovalAddsNothing(s: State, total: nat, p: Pid, a: Action, path: Path)
    requires (a.UnlinkLock? || a.RemoveDirectory?) && Enabled(s, total, p, a) && path in Next(s, total, p, a).fs
    ensures path in s.fs
  {
    hide Free;
  }

  lemma {:induction false} RemovalKeepsEntries(s: State, total: nat, p: Pid, a: Action)
    requires Removes(a) && Inv(s, total) && Enabled(s, total, p, a)
    ensures var t := Next(s, total, p, a); OneInodePerPath(t) && forall path | path in t.fs :: EntryOwned(t, path)
  {
    hide EntryOwned, OneInodePerPath, BuilderOk, Next;
    RemovalKeepsInodes(s, total, p, a);
    assert BuilderOk(s, total, p);
    var t := Next(s, total, p, a);
    forall path | path in t.fs ensures EntryOwned(t, path) {
      if a.Rename? {
        RenameKeepsEntry(s, total, p, path);
      } else {
        RemovalAddsNothing(s, total, p, a, path);
        if a.UnlinkLock? { UnlinkKeepsEntry(s, total, p, path); } else { RemoveKeepsEntry(s, total, p, path); }
      }
    }
  }

  /** It finds its builder in charge of the entry, so no other builder's things are there. */
  lemma {:induction false} RemovalKeepsOthers(s: State, total: nat, p: Pid, a: Action, q: Pid)
    requires Removes(a) && Enabled(s, total, p, a)
    requires BuilderOk(s, total, p) && q in s.builders && q != p && BuilderOk(s, total, q)
    ensures BuilderOk(Next(s, total, p, a), total, q)
  {
    hide Free;
  }

  lemma {:induction false} RenameKeepsOwn(s: State, total: nat, p: Pid)
    requires Enabled(s, total, p, Rename) && BuilderOk(s, total, p)
    ensures BuilderOk(Next(s, total, p, Rename), total, p)
  {
    hide Free;
  }

  lemma {:induction false} UnlinkKeepsOwn(s: State, total: nat, p: Pid)
    requires Enabled(s, total, p, UnlinkLock) && BuilderOk(s, total, p)
    ensures BuilderOk(Next(s, total, p, UnlinkLock), total, p)
  {
    hide Free;
  }

  lemma {:induction false} RemoveKeepsOwn(s: State, total: nat, p: Pid)
    requires Enabled(s, total, p, RemoveDirectory) && BuilderOk(s, total, p)
    ensures BuilderOk(Next(s, total, p, RemoveDirectory), total, p)
  {
    hide Free;
  }

  lemma {:induction false} RemovalKeepsInv(s: State, total: nat, p: Pid, a: Action)
    requires Removes(a) && Inv(s, total) && Enabled(s, total, p, a)
    ensures Inv(Next(s, total, p, a), total)
  {
    RemovalKeepsEntries(s, total, p, a);
    hide EntryOwned, OneInodePerPath, BuilderOk, Free;
    var t := Next(s, total, p, a);
    forall q | q in t.builders ensures BuilderOk(t, total, q) {
      assert BuilderOk(s, total, p) && BuilderOk(s, total, q);
      if q != p {
        RemovalKeepsOthers(s, total, p, a, q);
      } else {
        match a
        case Rename => RenameKeepsOwn(s, total, p);
        case UnlinkLock => UnlinkKeepsOwn(s, total, p);
        case RemoveDirectory => RemoveKeepsOwn(s, total, p);
      }
    }
  }

  /** Writing or removing one file of a staging directory. */
  lemma {:induction false} ContentKeepsBuilder(s: State, total: nat, p: Pid, a: Action, q: Pid)
    requires (a.WriteFile? || a.RemoveSome?) && Enabled(s, total, p, a)
    requires BuilderOk(s, total, p) && q in s.builders && BuilderOk(s, total, q)
    ensures BuilderOk(Next(s, total, p, a), total, q)
  {
    hide Free, LockFacts;
  }

  lemma {:induction false} ContentKeepsInv(s: State, total: nat, p: Pid, a: Action)
    requires (a.WriteFile? || a.RemoveSome?) && Inv(s, total) && Enabled(s, total, p, a)
    ensures Inv(Next(s, total, p, a), total)
  {
    hide BuilderOk;
    var t := Next(s, total, p, a);
    assert t.fs == s.fs && t.creator == s.creator && t.builders == s.builders;
    forall path | path in t.fs ensures EntryOwned(t, path) { assert EntryOwned(s, path); }
    forall q | q in t.builders ensures BuilderOk(t, total, q) {
      assert BuilderOk(s, total, p) && BuilderOk(s, total, q);
      ContentKeepsBuilder(s, total, p, a, q);
    }
  }

  /** The other actions change only the builder's own record. */
  predicate IsLocal(a: Action) {
    && !a.MakeStaging? && !a.OpenLock? && !a.Rename? && !a.UnlinkLock? && !a.RemoveDirectory?
    && !a.WriteFile? && !a.RemoveSome?
  }

  ghost predicate OwnFacts(s: State, total: nat, b: Builder) {
    HomeFacts(s.content, total, b) && LockFacts(Lookup(s, LockFile), b)
  }

  /** Reading an identity, finishing the build, looking at a path. */
  lemma {:induction false} LookFacts(s: State, total: nat, p: Pid, a: Action)
    requires Enabled(s, total, p, a) && p in s.builders && BuilderOk(s, total, p)
    requires a.CaptureIdentity? || a.FinishBuild? || a.CaptureLock? || a.CheckDestination?
    ensures OwnFacts(s, total, Next(s, total, p, a).builders[p])
  {
    hide Free;
  }

  /** Giving the lock up, or never having got it. */
  lemma {:induction false} ReleaseFacts(s: State, total: nat, p: Pid, a: Action)
    requires Enabled(s, total, p, a) && p in s.builders && BuilderOk(s, total, p)
    requires a.OpenLockFails? || a.Close? || a.CloseFails? || a.LookAtLock?
    ensures OwnFacts(s, total, Next(s, total, p, a).builders[p])
  {
    hide Free, Placed;
  }

  lemma {:induction false} LookAtStagingFacts(s: State, total: nat, p: Pid, a: Action)
    requires Enabled(s, total, p, a) && p in s.builders && BuilderOk(s, total, p) && a.LookAtStaging?
    requires OneInodePerPath(s)
    ensures OwnFacts(s, total, Next(s, total, p, a).builders[p])
  {
    hide Free;
    var b := s.builders[p];
    if b.home.Published? && Staging(b.name) in s.fs {
      assert s.fs[Staging(b.name)] != s.fs[Destination];
    }
  }

  lemma {:induction false} FailureFacts(s: State, total: nat, p: Pid, a: Action)
    requires Enabled(s, total, p, a) && p in s.builders && BuilderOk(s, total, p) && (a.CallFails? || a.Crash?)
    ensures OwnFacts(s, total, Next(s, total, p, a).builders[p])
  {
    hide Free, Placed;
  }

  lemma {:induction false} LocalStepFacts(s: State, total: nat, p: Pid, a: Action)
    requires Enabled(s, total, p, a) && p in s.builders && BuilderOk(s, total, p) && OneInodePerPath(s) && IsLocal(a)
    ensures OwnFacts(s, total, Next(s, total, p, a).builders[p])
  {
    hide Free, BuilderOk, OwnFacts, OneInodePerPath, Next, Enabled;
    match a
    case LookAtStaging => LookAtStagingFacts(s, total, p, a);
    case CallFails => FailureFacts(s, total, p, a);
    case Crash => FailureFacts(s, total, p, a);
    case OpenLockFails => ReleaseFacts(s, total, p, a);
    case Close => ReleaseFacts(s, total, p, a);
    case CloseFails => ReleaseFacts(s, total, p, a);
    case LookAtLock => ReleaseFacts(s, total, p, a);
    case _ => LookFacts(s, total, p, a);
  }

  lemma {:induction false} LocalStepKeepsHome(s: State, total: nat, p: Pid, a: Action)
    requires Enabled(s, total, p, a) && p in s.builders && BuilderOk(s, total, p) && IsLocal(a)
    ensures var t, b := Next(s, total, p, a), s.builders[p];
            && p in t.builders && t == s.(builders := s.builders[p := t.builders[p]])
            && var b' := t.builders[p];
            && b'.name == b.name && b'.directory == b.directory && b'.home == b.home && b'.holdsLock == b.holdsLock
            && (b'.identity.Some? ==> b'.identity.value == b'.directory)
  {
    hide Free, LockFacts;
  }

  lemma {:induction false} LocalStepKeepsInv(s: State, total: nat, p: Pid, a: Action)
    requires Inv(s, total) && Enabled(s, total, p, a) && IsLocal(a)
    ensures Inv(Next(s, total, p, a), total)
  {
    hide Next, Placed, HomeFacts, LockFacts, EntryOwned, OneInodePerPath;
    assert BuilderOk(s, total, p);
    LocalStepFacts(s, total, p, a);
    LocalStepKeepsHome(s, total, p, a);
    LocalKeepsInv(s, total, p, Next(s, total, p, a).builders[p]);
  }

  lemma {:induction false} StepKeepsInv(s: State, total: nat, p: Pid, a: Action)
    requires Inv(s, total) && Enabled(s, total, p, a)
    ensures Inv(Next(s, total, p, a), total)
  {
    hide Inv, Next, Enabled;
    match a
    case MakeStaging(_, _) => MakeStagingKeepsInv(s, total, p, a);
    case OpenLock(_) => OpenLockKeepsInv(s, total, p, a);
    case Rename => RemovalKeepsInv(s, total, p, a);
    case UnlinkLock => RemovalKeepsInv(s, total, p, a);
    case RemoveDirectory => RemovalKeepsInv(s, total, p, a);
    case WriteFile => ContentKeepsInv(s, total, p, a);
    case RemoveSome => ContentKeepsInv(s, total, p, a);
    case _ => LocalStepKeepsInv(s, total, p, a);
  }

  // ---------------------------------------------------------------------------------------
  // What holds over whole runs

  type Event = (Pid, Action)

  ghost predicate ValidRun(s: State, total: nat, events: seq<Event>)
    decreases |events|
  {
    |events| > 0 ==>
      && Enabled(s, total, events[0].0, events[0].1)
      && ValidRun(Next(s, total, events[0].0, events[0].1), total, events[1..])
  }

  ghost function After(s: State, total: nat, events: seq<Event>): State
    requires ValidRun(s, total, events)
    decreases |events|
  {
    if |events| == 0 then s
    else After(Next(s, total, events[0].0, events[0].1), total, events[1..])
  }

  lemma {:induction false} RunKeepsInv(s: State, total: nat, events: seq<Event>)
    requires Inv(s, total) && ValidRun(s, total, events)
    ensures Inv(After(s, total, events), total)
    decreases |events|
  {
    hide Inv, Next, Enabled;
    if |events| > 0 {
      StepKeepsInv(s, total, events[0].0, events[0].1);
      RunKeepsInv(Next(s, total, events[0].0, events[0].1), total, events[1..]);
    }
  }

  /**
   At most one builder has put its directory at the destination, whoever reports success is that one, and it
   reports failure exactly when closing its lock failed.
   */
  ghost predicate OneOutcome(s: State, total: nat) {
    && (forall p, q | p in s.builders && q in s.builders
          && s.builders[p].home.Published? && s.builders[q].home.Published? :: p == q)
    && (forall p | p in s.builders && s.builders[p].phase.Succeeded? :: s.builders[p].home.Published?)
    && (forall p | p in s.builders && s.builders[p].home.Published?
                   && (s.builders[p].phase.Succeeded? || s.builders[p].phase.Failed?) ::
          s.builders[p].phase.Failed? <==> s.builders[p].closeFailed)
  }

  /** The destination is absent, or it is the complete directory that one builder staged. */
  ghost predicate AbsentOrComplete(s: State, total: nat) {
    Destination in s.fs ==>
      && s.fs[Destination] in s.content && s.content[s.fs[Destination]] == total
      && exists p | p in s.builders :: s.builders[p].home.Published? && s.builders[p].directory == s.fs[Destination]
  }

  /** At most one builder holds the lock, and whoever is in the critical section holds it. */
  ghost predicate MutuallyExclusive(s: State) {
    && (forall p, q | p in s.builders && q in s.builders
                      && s.builders[p].holdsLock && s.builders[q].holdsLock :: p == q)
    && (forall p | p in s.builders && InCriticalSection(s.builders[p]) :: s.builders[p].holdsLock)
  }

  lemma InvImpliesSafety(s: State, total: nat)
    requires Inv(s, total)
    ensures OneOutcome(s, total) && AbsentOrComplete(s, total) && MutuallyExclusive(s)
  {
    forall p | p in s.builders
      ensures s.builders[p].home.Published? ==> Destination in s.fs && s.creator[s.fs[Destination]] == p
      ensures s.builders[p].holdsLock ==> LockFile in s.fs && s.creator[s.fs[LockFile]] == p
      ensures InCriticalSection(s.builders[p]) ==> s.builders[p].holdsLock
    {
      assert BuilderOk(s, total, p);
    }
    if Destination in s.fs {
      assert EntryOwned(s, Destination);
      assert BuilderOk(s, total, s.creator[s.fs[Destination]]);
    }
  }

  /** Every interleaving of any number of builders, with failures and crashes anywhere. */
  lemma {:induction false} EveryRunIsSafe(total: nat, events: seq<Event>)
    requires ValidRun(INITIAL, total, events)
    ensures var s := After(INITIAL, total, events);
            OneOutcome(s, total) && AbsentOrComplete(s, total) && MutuallyExclusive(s)
  {
    InitialInv(total);
    RunKeepsInv(INITIAL, total, events);
    InvImpliesSafety(After(INITIAL, total, events), total);
  }

  /** Directory entries that an action takes away or repoints. */
  ghost predicate EntriesTouchedOwn(s: State, t: State, p: Pid) {
    forall path | path in s.fs && Lookup(t, path) != Some(s.fs[path]) ::
      path != Destination && s.fs[path] in s.creator && s.creator[s.fs[path]] == p
  }

  /** Directories whose contents an action changes. */
  ghost predicate ContentsTouchedOwn(s: State, t: State, p: Pid) {
    forall path | path in s.fs && s.fs[path] in s.content
                  && (s.fs[path] !in t.content || t.content[s.fs[path]] != s.content[s.fs[path]]) ::
      path != Destination && s.fs[path] in s.creator && s.creator[s.fs[path]] == p
  }

  /** The entry that an action removes or moves, if any. */
  function RemovedPath(b: Builder, a: Action): Option<Path> {
    match a
    case UnlinkLock => Some(LockFile)
    case Rename => Some(Staging(b.name))
    case RemoveDirectory => Some(Staging(b.name))
    case _ => None
  }

  lemma RemovedPathIsOwn(s: State, total: nat, p: Pid, a: Action)
    requires Inv(s, total) && Enabled(s, total, p, a) && p in s.builders && RemovedPath(s.builders[p], a).Some?
    ensures var path := RemovedPath(s.builders[p], a).value;
            path in s.fs && s.fs[path] in s.creator && s.creator[s.fs[path]] == p
  {
    hide EntryOwned, OneInodePerPath;
    assert BuilderOk(s, total, p);
  }

  /** An action changes no entry but the one it removes. */
  lemma {:induction false} EntryFrame(s: State, total: nat, p: Pid, a: Action, path: Path)
    requires Enabled(s, total, p, a) && path in s.fs && Lookup(Next(s, total, p, a), path) != Some(s.fs[path])
    ensures p in s.builders && RemovedPath(s.builders[p], a) == Some(path)
  {
    hide Free;
  }

  /** It changes no record but its builder's own. */
  lemma {:induction false} RecordFrame(s: State, total: nat, p: Pid, a: Action, q: Pid)
    requires Enabled(s, total, p, a) && q in s.builders && q != p
    ensures var t := Next(s, total, p, a); q in t.builders && t.builders[q] == s.builders[q]
  {
    hide Free;
  }

  lemma {:induction false} StepFrame(s: State, total: nat, p: Pid, a: Action)
    requires Enabled(s, total, p, a)
    ensures var t := Next(s, total, p, a);
            && (forall path | path in s.fs && Lookup(t, path) != Some(s.fs[path]) ::
                  p in s.builders && RemovedPath(s.builders[p], a) == Some(path))
            && (forall q | q in s.builders && q != p :: q in t.builders && t.builders[q] == s.builders[q])
  {
    hide Next, Enabled, Lookup;
    forall path | path in s.fs && Lookup(Next(s, total, p, a), path) != Some(s.fs[path])
      ensures p in s.builders && RemovedPath(s.builders[p], a) == Some(path)
    {
      EntryFrame(s, total, p, a, path);
    }
    forall q | q in s.builders && q != p
      ensures q in Next(s, total, p, a).builders && Next(s, total, p, a).builders[q] == s.builders[q]
    {
      RecordFrame(s, total, p, a, q);
    }
  }

  lemma EntriesStayOwn(s: State, total: nat, p: Pid, a: Action)
    requires Inv(s, total) && Enabled(s, total, p, a)
    ensures EntriesTouchedOwn(s, Next(s, total, p, a), p)
  {
    hide Inv, Next, Enabled, Lookup;
    StepFrame(s, total, p, a);
    if p in s.builders && RemovedPath(s.builders[p], a).Some? {
      RemovedPathIsOwn(s, total, p, a);
    }
  }

  /** A builder takes away, moves or rewrites only what it created itself, and never the destination. */
  lemma StepsTouchOnlyOwnThings(s: State, total: nat, p: Pid, a: Action)
    requires Inv(s, total) && Enabled(s, total, p, a)
    ensures var t := Next(s, total, p, a);
            && EntriesTouchedOwn(s, t, p) && ContentsTouchedOwn(s, t, p)
            && (forall q | q in s.builders && q != p :: q in t.builders && t.builders[q] == s.builders[q])
  {
    hide Inv, Next, Enabled, EntriesTouchedOwn, ContentsTouchedOwn;
    EntriesStayOwn(s, total, p, a);
    ContentStaysOwn(s, total, p, a);
    StepFrame(s, total, p, a);
  }

  lemma {:induction false} ContentStaysOwn(s: State, total: nat, p: Pid, a: Action)
    requires Inv(s, total) && Enabled(s, total, p, a)
    ensures ContentsTouchedOwn(s, Next(s, total, p, a), p)
  {
    hide Next, Enabled, EntryOwned, BuilderOk;
    if p in s.builders { assert BuilderOk(s, total, p); }
    forall path | path in s.fs && s.fs[path] in s.content
                  && (s.fs[path] !in Next(s, total, p, a).content
                      || Next(s, total, p, a).content[s.fs[path]] != s.content[s.fs[path]])
      ensures path != Destination && s.fs[path] in s.creator && s.creator[s.fs[path]] == p
    {
      ContentFrame(s, total, p, a, path);
    }
  }

  /** Only the files of a builder's own staging directory come and go. */
  lemma {:induction false} ContentFrame(s: State, total: nat, p: Pid, a: Action, path: Path)
    requires Enabled(s, total, p, a) && OneInodePerPath(s) && (p in s.builders ==> BuilderOk(s, total, p))
    requires path in s.fs && s.fs[path] in s.content
    requires s.fs[path] !in Next(s, total, p, a).content
             || Next(s, total, p, a).content[s.fs[path]] != s.content[s.fs[path]]
    ensures path != Destination && s.fs[path] in s.creator && s.creator[s.fs[path]] == p
  {
    hide LockFacts;
    assert s.fs[path] in s.fs.Values;
  }

  /** Once something is at the destination, nothing that happens later replaces or alters it. */
  lemma {:induction false} DestinationIsFinal(s: State, total: nat, events: seq<Event>)
    requires Inv(s, total) && ValidRun(s, total, events)
    requires Destination in s.fs
    ensures var t := After(s, total, events);
            && Destination in t.fs && t.fs[Destination] == s.fs[Destination]
            && s.fs[Destination] in t.content && t.content[s.fs[Destination]] == total
    decreases |events|
  {
    hide Inv, Next, Enabled;
    InvImpliesSafety(s, total);
    if |events| > 0 {
      var (p, a) := events[0];
      StepsTouchOnlyOwnThings(s, total, p, a);
      StepKeepsInv(s, total, p, a);
      DestinationIsFinal(Next(s, total, p, a), total, events[1..]);
    }
  }

  predicate Terminated(b: Builder) {
    b.phase.Succeeded? || b.phase.Failed? || b.phase.Crashed?
  }

  /** The lock was left behind by a builder that will do nothing more. */
  ghost predicate Orphaned(s: State, p: Pid) {
    p in s.builders && Terminated(s.builders[p]) && s.builders[p].holdsLock
  }

  lemma {:induction false} EndedDoesNothing(s: State, total: nat, p: Pid, a: Action)
    requires Enabled(s, total, p, a) && p in s.builders
    ensures !Terminated(s.builders[p])
  {
    hide Free;
  }

  /** Whatever appears at the destination is put there by a holder of the lock. */
  lemma {:induction false} PublisherHoldsLock(s: State, total: nat, p: Pid, a: Action)
    requires Inv(s, total) && Enabled(s, total, p, a) && Destination !in s.fs && Destination in Next(s, total, p, a).fs
    ensures p in s.builders && LockFile in s.fs && s.fs[LockFile] in s.creator && s.creator[s.fs[LockFile]] == p
  {
    hide Free, EntryOwned, OneInodePerPath, HomeFacts;
    assert BuilderOk(s, total, p);
  }

  lemma {:induction false} OrphanHoldsLock(s: State, total: nat, p: Pid)
    requires Inv(s, total) && Orphaned(s, p)
    ensures LockFile in s.fs && s.fs[LockFile] in s.creator && s.creator[s.fs[LockFile]] == p
  {
    hide EntryOwned, OneInodePerPath, HomeFacts, LockFacts;
    assert BuilderOk(s, total, p);
  }

  lemma {:induction false} OrphanedStep(s: State, total: nat, p: Pid, q: Pid, a: Action)
    requires Inv(s, total) && Enabled(s, total, q, a) && Orphaned(s, p)
    ensures var t := Next(s, total, q, a);
            && Orphaned(t, p) && Lookup(t, LockFile) == Lookup(s, LockFile)
            && Lookup(t, Destination) == Lookup(s, Destination)
  {
    hide Inv, Next, Enabled;
    OrphanHoldsLock(s, total, p);
    if q in s.builders {
      EndedDoesNothing(s, total, q, a);
      if RemovedPath(s.builders[q], a).Some? { RemovedPathIsOwn(s, total, q, a); }
    }
    StepFrame(s, total, q, a);
    if Destination !in s.fs && Destination in Next(s, total, q, a).fs { PublisherHoldsLock(s, total, q, a); }
  }

  /** A lock whose holder is gone keeps every other builder from publishing, for ever. */
  lemma {:induction false} OrphanedLockBlocks(s: State, total: nat, p: Pid, events: seq<Event>)
    requires Inv(s, total) && ValidRun(s, total, events) && Orphaned(s, p)
    ensures var t := After(s, total, events);
            && Orphaned(t, p) && Lookup(t, LockFile) == Lookup(s, LockFile)
            && Lookup(t, Destination) == Lookup(s, Destination)
    decreases |events|
  {
    hide Inv, Next, Enabled, Orphaned;
    if |events| > 0 {
      var (q, a) := events[0];
      OrphanedStep(s, total, p, q, a);
      StepKeepsInv(s, total, q, a);
      OrphanedLockBlocks(Next(s, total, q, a), total, p, events[1..]);
    }
  }
}
