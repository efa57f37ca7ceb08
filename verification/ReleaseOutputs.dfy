/**
 The release writer's two outputs: an archive and its sidecar, each created exclusively, with
 rollback guarded by the identity of the file that was created. Other programs may create,
 delete, overwrite or move files between any two of the writer's calls.
 */
module ReleaseOutputs {
  import opened Common

  type Path = string
  type Bytes = seq<nat>
  type Identity = nat        // device and inode number

  datatype Entry = Entry(id: Identity, data: Bytes, regular: bool, ours: bool)

  datatype Foreign =
    | Create(path: Path, id: Identity, data: Bytes, regular: bool)   // also replaces what was there
    | Delete(path: Path)
    | Overwrite(path: Path, data: Bytes)
    | Move(from: Path, to: Path)

  /** Which of the writer's calls raise. */
  datatype Faults = Faults(open: bool, identify: bool, write: bool, unlink: bool)

  /** What others do before the open, before the identity is read, and before the data is written. */
  datatype Gaps = Gaps(beforeOpen: seq<Foreign>, beforeIdentify: seq<Foreign>, beforeWrite: seq<Foreign>)

  predicate Quiet(g: Gaps) {
    g.beforeOpen == [] && g.beforeIdentify == [] && g.beforeWrite == []
  }

  /** Data written through an open file shows under whatever names that file has by now. */
  function Written(files: map<Path, Entry>, id: Identity, data: Bytes): map<Path, Entry> {
    map p | p in files :: if files[p].id == id then files[p].(data := data) else files[p]
  }

  lemma WrittenOnce(files: map<Path, Entry>, path: Path, e: Entry, data: Bytes)
    requires forall p | p in files :: files[p].id != e.id
    ensures Written(files[path := e], e.id, data) == files[path := e.(data := data)]
  {
  }

  /** The identity that a new file gets: the wished one if it may be recycled, an unused one otherwise. */
  function Granted(files: map<Path, Entry>, next: Identity, open: Option<Identity>, recycles: bool,
                   wish: Identity): Identity {
    if recycles && wish < next && open != Some(wish) && (forall p | p in files :: files[p].id != wish) then wish
    else next
  }

  /** One action of another program on the directory and on the supply of identities. */
  function Effect(files: map<Path, Entry>, next: Identity, open: Option<Identity>, recycles: bool, a: Foreign)
    : (map<Path, Entry>, Identity)
  {
    match a
    case Create(path, wish, data, regular) =>
      var id := Granted(files, next, open, recycles, wish);
      (files[path := Entry(id, data, regular, false)], if id == next then next + 1 else next)
    case Delete(path) => (files - {path}, next)
    case Overwrite(path, data) => (if path in files then files[path := files[path].(data := data)] else files, next)
    case Move(from, to) => (if from in files then (files - {from})[to := files[from]] else files, next)
  }

  function Interfered(files: map<Path, Entry>, next: Identity, open: Option<Identity>, recycles: bool,
                      actions: seq<Foreign>)
    : (map<Path, Entry>, Identity)
    decreases |actions|
  {
    if |actions| == 0 then (files, next)
    else
      var (files', next') := Effect(files, next, open, recycles, actions[0]);
      Interfered(files', next', open, recycles, actions[1..])
  }

  /** Whether the rollback would unlink the path: it names a regular file with the captured identity. */
  predicate Matching(files: map<Path, Entry>, path: Path, identity: Option<Identity>) {
    identity.Some? && path in files && files[path].regular && files[path].id == identity.value
  }

  /** Creating and writing one output goes through. */
  predicate Writes(taken: bool, faults: Faults) {
    !taken && !faults.open && !faults.identify && !faults.write
  }

  /** It fails and leaves a file behind: the identity was never captured, or a failed write could not be undone. */
  predicate Litters(taken: bool, faults: Faults) {
    !taken && !faults.open && (faults.identify || (faults.write && faults.unlink))
  }

  class Disk {
    var files: map<Path, Entry>
    var next: Identity               // identities from here on have never been given out
    var open: Option<Identity>       // the file the writer holds open
    var made: set<Identity>          // identities of the files the writer created
    var removed: seq<Entry>          // what the writer's rollback has unlinked
    const recycles: bool             // identities of vanished files may be given out again

    /** Live identities were given out; one that the writer made still marks the writer's file. */
    ghost predicate Valid()
      reads this
    {
      && (forall id | id in made :: id < next)
      && (forall p | p in files :: files[p].id < next)
      && (!recycles ==> forall p | p in files && files[p].id in made :: files[p].ours)
    }

    constructor (recycles: bool, next: Identity)
      ensures Valid() && this.recycles == recycles && files == map[] && made == {} && removed == [] && open == None
      ensures this.next == next
    {
      this.recycles := recycles;
      this.files := map[];
      this.next := next;
      open := None;
      made := {};
      removed := [];
    }

    /** One action of another program. */
    method Act(a: Foreign)
      requires Valid()
      modifies `files, `next
      ensures Valid() && old(next) <= next
      ensures (files, next) == Effect(old(files), old(next), open, recycles, a)
    {
      match a {
        case Create(path, wish, data, regular) =>
          var id := Granted(files, next, open, recycles, wish);
          files := files[path := Entry(id, data, regular, false)];
          next := if id == next then next + 1 else next;
        case Delete(path) => files := files - {path};
        case Overwrite(path, data) =>
          if path in files { files := files[path := files[path].(data := data)]; }
        case Move(from, to) =>
          if from in files { files := (files - {from})[to := files[from]]; }
      }
    }

    /** Everybody else's turn. */
    method Interfere(actions: seq<Foreign>)
      requires Valid()
      modifies `files, `next
      ensures Valid() && old(next) <= next
      ensures (files, next) == Interfered(old(files), old(next), open, recycles, actions)
    {
      for k := 0 to |actions|
        invariant Valid() && old(next) <= next
        invariant Interfered(files, next, open, recycles, actions[k..])
                  == Interfered(old(files), old(next), open, recycles, actions)
        invariant unchanged(`made) && unchanged(`removed) && unchanged(`open)
      {
        assert actions[k..][0] == actions[k] && actions[k..][1..] == actions[k + 1..];
        Act(actions[k]);
      }
    }

    predicate Matches(path: Path, identity: Option<Identity>)
      reads this
    {
      Matching(files, path, identity)
    }

    method RemoveCreatedOutput(path: Path, identity: Option<Identity>, unlinkFails: bool)
      requires Valid()
      modifies `files, `removed
      ensures Valid()
      ensures if path in old(files) && old(files[path]).regular && identity == Some(old(files[path]).id) && !unlinkFails
              then files == old(files) - {path} && removed == old(removed) + [old(files[path])]
              else files == old(files) && removed == old(removed)
    {
      if identity.None? || path !in files { return; }
      var observed := files[path];
      if !observed.regular || observed.id != identity.value { return; }
      if !unlinkFails {
        files := files - {path};
        removed := removed + [observed];
      }
    }

    /** Everything the rollback has unlinked since `before` was one of the writer's own files. */
    ghost predicate RemovedOnlyOurs(before: seq<Entry>)
      reads this
    {
      && before <= removed
      && forall k | |before| <= k < |removed| :: removed[k].ours
    }

    /** Create-exclusive open: fails on an existing path and on a fault, changing nothing. */
    method OpenExclusive(path: Path, fails: bool) returns (id: Option<Identity>)
      requires Valid()
      modifies `files, `next, `made, `open
      ensures Valid()
      ensures id.Some? <==> path !in old(files) && !fails
      ensures id.Some? ==>
                && id.value == old(next) && next == old(next) + 1 && made == old(made) + {id.value} && open == id
                && files == old(files)[path := Entry(id.value, [], true, true)]
      ensures id.None? ==> unchanged(this)
    {
      if path in files || fails { return None; }
      id := Some(next);
      files := files[path := Entry(next, [], true, true)];
      made := made + {next};
      open := id;
      next := next + 1;
    }

    /** Identity capture, then the data; a write that raises unlinks the file just created. */
    method WriteThrough(path: Path, id: Identity, data: Bytes, faults: Faults, gaps: Gaps)
      returns (ok: bool)
      requires Valid() && id in made
      modifies `files, `next, `open, `removed
      ensures Valid() && old(next) <= next && open == None
      ensures !recycles ==> RemovedOnlyOurs(old(removed))
      ensures ok <==> !faults.identify && !faults.write
      ensures gaps.beforeIdentify == [] && gaps.beforeWrite == [] ==>
                && (ok ==> files == Written(old(files), id, data))
                && (!ok && old(Matches(path, Some(id))) ==>
                      files == if faults.identify || faults.unlink then old(files) else old(files) - {path})
    {
      Interfere(gaps.beforeIdentify);
      if faults.identify {
        open := None;
        return false;
      }
      Interfere(gaps.beforeWrite);
      open := None;
      if faults.write {
        RemoveCreatedOutput(path, Some(id), faults.unlink);
        return false;
      }
      files := Written(files, id, data);
      return true;
    }

    method WriteExclusive(path: Path, data: Bytes, faults: Faults, gaps: Gaps)
      returns (identity: Option<Identity>)
      requires Valid()
      modifies this
      ensures Valid() && old(next) <= next && old(made) <= made
      ensures identity.Some? ==> identity.value in made && open == None
      ensures !recycles ==> RemovedOnlyOurs(old(removed))
      ensures Quiet(gaps) ==> (identity.Some? <==> Writes(path in old(files), faults))
      ensures Quiet(gaps) && identity.Some? ==>
                identity.value == old(next) && files == old(files)[path := Entry(old(next), data, true, true)]
      ensures Quiet(gaps) && identity.None? && !Litters(path in old(files), faults) ==> files == old(files)
      ensures Quiet(gaps) && identity.None? && Litters(path in old(files), faults) ==>
                path in files && files.Keys == old(files.Keys) + {path}
    {
      Interfere(gaps.beforeOpen);
      ghost var before := files;
      var created := OpenExclusive(path, faults.open);
      if created.None? { return None; }
      ghost var e := Entry(created.value, [], true, true);
      WrittenOnce(before, path, e, data);
      assert path !in before ==> before[path := e] - {path} == before;
      var ok := WriteThrough(path, created.value, data, faults, gaps);
      return if ok then created else None;
    }

    /** Unlinks whichever of the two outputs were created, the archive first. */
    method Rollback(output: Path, first: Option<Identity>, sidecar: Path, second: Option<Identity>, plan: Plan)
      requires Valid() && output != sidecar
      requires first.Some? ==> first.value in made
      requires second.Some? ==> second.value in made
      modifies `files, `next, `removed
      ensures Valid()
      ensures !recycles ==> RemovedOnlyOurs(old(removed))
      ensures Undisturbed(plan) && !plan.rollbackFails ==>
                files == old(files) - (if old(Matches(output, first)) then {output} else {})
                                    - (if old(Matches(sidecar, second)) then {sidecar} else {})
      ensures Undisturbed(plan) && plan.rollbackFails ==> files == old(files)
    {
      Interfere(plan.beforeRollback);
      RemoveCreatedOutput(output, first, plan.rollbackFails);
      if second.Some? {
        Interfere(plan.betweenRollbacks);
        RemoveCreatedOutput(sidecar, second, plan.rollbackFails);
      }
    }

    /** The sidecar, then the check that the sources did not change; a failure takes both outputs away. */
    method FinishRelease(output: Path, first: Identity, sidecar: Path, manifest: Bytes, sourceChanged: bool, plan: Plan)
      returns (ok: bool)
      requires Valid() && output != sidecar && first in made
      modifies this
      ensures Valid()
      ensures !recycles ==> RemovedOnlyOurs(old(removed))
      ensures Undisturbed(plan) ==> (ok <==> Writes(sidecar in old(files), plan.sidecar) && !sourceChanged)
      ensures Undisturbed(plan) && ok ==> files == old(files)[sidecar := Entry(old(next), manifest, true, true)]
      ensures Undisturbed(plan) && !ok && !plan.rollbackFails && !Litters(sidecar in old(files), plan.sidecar) ==>
                files == old(files) - (if old(Matches(output, Some(first))) then {output} else {})
      ensures Undisturbed(plan) && !ok && (plan.rollbackFails || Litters(sidecar in old(files), plan.sidecar)) ==>
                (output in old(files) && plan.rollbackFails ==> output in files)
                && (Litters(sidecar in old(files), plan.sidecar) ==> sidecar in files && sidecar !in old(files))
    {
      ghost var before := files;
      var second := WriteExclusive(sidecar, manifest, plan.sidecar, plan.sidecarGaps);
      if second.None? || sourceChanged {
        assert sidecar !in before ==> before[sidecar := Entry(old(next), manifest, true, true)] - {sidecar} == before;
        Rollback(output, Some(first), sidecar, second, plan);
        return false;
      }
      Interfere(plan.beforeRollback);
      return true;
    }

    /** Both outputs, then the check that the sources did not change meanwhile; any failure rolls back. */
    method BuildRelease(output: Path, sidecar: Path, archive: Bytes, manifest: Bytes, sourceChanged: bool, plan: Plan)
      returns (ok: bool)
      requires Valid()
      modifies this
      ensures Valid()
      ensures !recycles ==> RemovedOnlyOurs(old(removed))
      ensures Undisturbed(plan) ==>
                (ok <==> && output != sidecar && !sourceChanged
                         && Writes(output in old(files), plan.archive) && Writes(sidecar in old(files), plan.sidecar))
      ensures Undisturbed(plan) && ok ==>
                && files.Keys == old(files.Keys) + {output, sidecar}
                && files[output].data == archive && files[sidecar].data == manifest
                && files[output].ours && files[sidecar].ours
                && (forall p | p in old(files) :: files[p] == old(files[p]))
      ensures Undisturbed(plan) && !ok && output != sidecar ==>
                (files == old(files) <==> !LeavesFiles(output in old(files), sidecar in old(files), plan))
      ensures output == sidecar ==> files == old(files)
    {
      if output == sidecar { return false; }
      var first := WriteExclusive(output, archive, plan.archive, plan.archiveGaps);
      if first.None? { return false; }
      ok := FinishRelease(output, first.value, sidecar, manifest, sourceChanged, plan);
      assert Undisturbed(plan) ==>
             old(files)[output := Entry(first.value, archive, true, true)] - {output} == old(files) - {output};
    }
  }

  /** Faults and interference over one whole build. */
  datatype Plan = Plan(
    archive: Faults, archiveGaps: Gaps,
    sidecar: Faults, sidecarGaps: Gaps,
    beforeRollback: seq<Foreign>, betweenRollbacks: seq<Foreign>, rollbackFails: bool)

  predicate Undisturbed(plan: Plan) {
    Quiet(plan.archiveGaps) && Quiet(plan.sidecarGaps) && plan.beforeRollback == [] && plan.betweenRollbacks == []
  }

  /** A failing build leaves a file: an output was littered, or the archive was written and the rollback failed. */
  predicate LeavesFiles(outputTaken: bool, sidecarTaken: bool, plan: Plan) {
    || Litters(outputTaken, plan.archive)
    || (Writes(outputTaken, plan.archive) && (plan.rollbackFails || Litters(sidecarTaken, plan.sidecar)))
  }

  /** Files that carry the captured identity are the writer's own. */
  ghost predicate MarksOurs(files: map<Path, Entry>, id: Identity) {
    forall p | p in files && files[p].id == id :: files[p].ours
  }

  lemma {:induction false} UniqueIdentitiesMarkOurs(files: map<Path, Entry>, next: Identity, id: Identity,
                                                    actions: seq<Foreign>)
    requires id < next && MarksOurs(files, id)
    ensures MarksOurs(Interfered(files, next, None, false, actions).0, id)
    decreases |actions|
  {
    if |actions| > 0 {
      var (files', next') := Effect(files, next, None, false, actions[0]);
      UniqueIdentitiesMarkOurs(files', next', id, actions[1..]);
    }
  }

  /** What the rollback of `path` would find after other programs have acted. */
  ghost predicate RollbackHitsOurs(files: map<Path, Entry>, next: Identity, recycles: bool, path: Path, id: Identity,
                                   actions: seq<Foreign>) {
    var f := Interfered(files, next, None, recycles, actions).0;
    Matching(f, path, Some(id)) ==> f[path].ours
  }

  /**
   The identity check protects other programs' files whatever they do exactly when the identity of
   a vanished file is never given out again.
   */
  lemma IdentityCheckIsExact(files: map<Path, Entry>, next: Identity, recycles: bool, path: Path, id: Identity)
    requires path in files && files[path].id == id && id < next
    requires forall p | p in files && files[p].id == id :: p == path && files[p].ours
    ensures (forall actions :: RollbackHitsOurs(files, next, recycles, path, id, actions)) <==> !recycles
  {
    if recycles {
      var actions := [Delete(path), Create(path, id, [], true)];
      var gone := files - {path};
      var taken := gone[path := Entry(id, [], true, false)];
      assert Effect(files, next, None, true, actions[0]) == (gone, next);
      assert Effect(gone, next, None, true, actions[1]) == (taken, next);
      assert actions[1..] == [actions[1]] && actions[1..][1..] == [];
      assert Interfered(taken, next, None, true, []) == (taken, next);
      assert Interfered(gone, next, None, true, actions[1..]) == (taken, next);
      assert !RollbackHitsOurs(files, next, true, path, id, actions);
    } else {
      forall actions ensures RollbackHitsOurs(files, next, false, path, id, actions) {
        UniqueIdentitiesMarkOurs(files, next, id, actions);
      }
    }
  }
}
