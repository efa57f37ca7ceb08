/** Every manifest that is built passes the SBOM's wheel-binding checks, exactly when the lock is presentable. */
module BindingAgreement {
  import opened Common
  import opened PackageNames
  import opened WheelBinding

  /** What the hash and archive libraries give: lower-case hexadecimal, and no archive of fewer than two bytes. */
  ghost predicate WellBehaved(w: World) {
    (forall raw :: IsHex64(w.hash(raw))) && (forall raw :: w.installs(raw).Some? ==> |raw| >= 2)
  }

  /** For every package the two selectors pick the same wheel. */
  ghost predicate SelectionsAgree(ps: seq<Package>, w: World) {
    forall i | 0 <= i < |ps| :: SelectAlike(ps[i].wheels, w)
  }

  /** No two packages have the same normalised name. */
  ghost predicate Distinct(ps: seq<Package>) {
    forall i, j | 0 <= i < j < |ps| :: ManifestNameOf(ps[i].name) != ManifestNameOf(ps[j].name)
  }

  /** What the SBOM builder demands of a lock beyond what the manifest builder does. */
  ghost predicate Presentable(lock: Lock) {
    && lock.target == SBOM_TARGET && |lock.packages| > 0 && |lock.bootstrap| > 0
    && (forall i | 0 <= i < |lock.packages| :: lock.packages[i].name.PyStr? && VersionGiven(lock.packages[i].version))
    && (forall i | 0 <= i < |lock.bootstrap| ::
          lock.bootstrap[i].name.PyStr? && VersionGiven(lock.bootstrap[i].version))
    && Distinct(lock.packages)
  }

  // ---------------------------------------------------------------------------------------
  // The locked wheels

  ghost function NamesOf(ps: seq<Package>): set<string> {
    if |ps| == 0 then {}
    else
      var name := ManifestNameOf(ps[|ps| - 1].name);
      NamesOf(ps[..|ps| - 1]) + (if name.Some? then {name.value} else {})
  }

  ghost function BootstrapNamesOf(bs: seq<Bootstrap>): set<string> {
    if |bs| == 0 then {}
    else
      var name := ManifestNameOf(bs[|bs| - 1].name);
      BootstrapNamesOf(bs[..|bs| - 1]) + (if name.Some? then {name.value} else {})
  }

  lemma {:induction false} NameIsListed(ps: seq<Package>, i: int)
    requires 0 <= i < |ps| && ManifestNameOf(ps[i].name).Some?
    ensures ManifestNameOf(ps[i].name).value in NamesOf(ps)
    decreases |ps|
  {
    if i < |ps| - 1 { NameIsListed(ps[..|ps| - 1], i); }
  }

  lemma {:induction false} ListedNameHasIndex(ps: seq<Package>, name: string) returns (i: int)
    requires name in NamesOf(ps)
    ensures 0 <= i < |ps| && ManifestNameOf(ps[i].name) == Some(name)
    decreases |ps|
  {
    if ManifestNameOf(ps[|ps| - 1].name) == Some(name) {
      i := |ps| - 1;
    } else {
      i := ListedNameHasIndex(ps[..|ps| - 1], name);
    }
  }

  lemma {:induction false} LockKeys(ps: seq<Package>, w: World)
    requires LockPackages(ps, w).Some?
    ensures LockPackages(ps, w).value.Keys == NamesOf(ps)
    ensures forall i | 0 <= i < |ps| :: ManifestNameOf(ps[i].name).Some? && SelectWheel(ps[i].wheels, w.lower).Some?
    decreases |ps|
  {
    hide ManifestNameOf, SelectWheel;
    if |ps| > 0 { LockKeys(ps[..|ps| - 1], w); }
  }

  /** A package that no later one of the same name replaces is locked with its own version and wheel. */
  lemma {:induction false} LastPackageIsLocked(ps: seq<Package>, w: World, i: int)
    requires LockPackages(ps, w).Some? && 0 <= i < |ps|
    requires forall j | i < j < |ps| :: ManifestNameOf(ps[j].name) != ManifestNameOf(ps[i].name)
    ensures var name, wheel := ManifestNameOf(ps[i].name), SelectWheel(ps[i].wheels, w.lower);
            && name.Some? && wheel.Some? && name.value in LockPackages(ps, w).value
            && var locked := LockPackages(ps, w).value[name.value];
            && locked.artifact == wheel.value
            && locked.version == if ps[i].version.PyStr? then ps[i].version.text else ps[i].version.shown
    decreases |ps|
  {
    hide ManifestNameOf, SelectWheel;
    if i < |ps| - 1 {
      assert ps[..|ps| - 1][i] == ps[i];
      LastPackageIsLocked(ps[..|ps| - 1], w, i);
    }
  }

  /** With distinct names each package keeps its own version and wheel. */
  lemma {:induction false} LockedAt(ps: seq<Package>, w: World, i: int)
    requires LockPackages(ps, w).Some? && Distinct(ps) && 0 <= i < |ps|
    ensures var name, wheel := ManifestNameOf(ps[i].name), SelectWheel(ps[i].wheels, w.lower);
            && name.Some? && wheel.Some? && name.value in LockPackages(ps, w).value
            && LockPackages(ps, w).value[name.value] == Locked(Rendered(ps[i].version), wheel.value)
  {
    hide ManifestNameOf, SelectWheel, LockPackages;
    LastPackageIsLocked(ps, w, i);
  }

  lemma {:induction false} BootstrapKeepsAll(m: map<string, Locked>, bs: seq<Bootstrap>)
    requires LockBootstrap(m, bs).Some?
    ensures var r := LockBootstrap(m, bs).value;
            && (forall name | name in m :: name in r && r[name] == m[name])
            && r.Keys == m.Keys + BootstrapNamesOf(bs)
    decreases |bs|
  {
    hide ManifestNameOf;
    if |bs| > 0 { BootstrapKeepsAll(m, bs[..|bs| - 1]); }
  }

  lemma {:induction false} BootstrapAt(m: map<string, Locked>, bs: seq<Bootstrap>, i: int)
    requires LockBootstrap(m, bs).Some? && 0 <= i < |bs|
    ensures var name, r := ManifestNameOf(bs[i].name), LockBootstrap(m, bs).value;
            && name.Some? && name.value in r && r[name.value] == Locked(Rendered(bs[i].version), bs[i].artifact)
            && name.value !in m && name.value !in BootstrapNamesOf(bs[..i])
    decreases |bs|
  {
    hide ManifestNameOf;
    var before := bs[..|bs| - 1];
    BootstrapKeepsAll(m, before);
    if i < |bs| - 1 {
      assert before[i] == bs[i] && before[..i] == bs[..i];
      BootstrapAt(m, before, i);
    }
  }

  // ---------------------------------------------------------------------------------------
  // Presentable locks pass

  lemma {:induction false} MaterializedIsBindable(a: Artifact, w: World)
    requires WellBehaved(w) && Materializes(a, w)
    ensures Bindable(a) && a.size.n == |w.raw(a)|
  {
    assert IsHex64(w.hash(w.raw(a)));
  }

  /** The manifest and the locked wheels it was built from. */
  ghost predicate BuiltFrom(manifest: map<string, Entry>, locked: map<string, Locked>, w: World) {
    && manifest.Keys == locked.Keys
    && forall n | n in locked :: Materializes(locked[n].artifact, w) && manifest[n] == EntryFor(locked[n], w)
  }

  lemma {:induction false} PackagePasses(seen: set<string>, p: Package, manifest: map<string, Entry>,
                                         locked: map<string, Locked>, name: string, w: World)
    requires WellBehaved(w) && SelectAlike(p.wheels, w) && BuiltFrom(manifest, locked, w)
    requires p.name.PyStr? && VersionGiven(p.version) && ManifestNameOf(p.name) == Some(name) && name !in seen
    requires SelectWheel(p.wheels, w.lower).Some? && name in locked
    requires locked[name] == Locked(Rendered(p.version), SelectWheel(p.wheels, w.lower).value)
    ensures NewPackageName(seen, p, manifest, w) == Some(name)
  {
    hide ManifestNameOf, SelectWheel, SbomName;
    NormalisersAgree(p.name);
    MaterializedIsBindable(locked[name].artifact, w);
  }

  lemma {:induction false} BootstrapPasses(seen: set<string>, b: Bootstrap, manifest: map<string, Entry>,
                                           locked: map<string, Locked>, name: string, w: World)
    requires WellBehaved(w) && BuiltFrom(manifest, locked, w)
    requires b.name.PyStr? && VersionGiven(b.version) && ManifestNameOf(b.name) == Some(name) && name !in seen
    requires name in locked && locked[name] == Locked(Rendered(b.version), b.artifact)
    ensures NewBootstrapName(seen, b, manifest) == Some(name)
  {
    hide ManifestNameOf, SbomName;
    NormalisersAgree(b.name);
    MaterializedIsBindable(b.artifact, w);
  }

  lemma {:induction false} NameIsNew(ps: seq<Package>, k: int)
    requires Distinct(ps) && 0 <= k < |ps| && ManifestNameOf(ps[k].name).Some?
    ensures ManifestNameOf(ps[k].name).value !in NamesOf(ps[..k])
  {
    hide ManifestNameOf;
    var name := ManifestNameOf(ps[k].name).value;
    if name in NamesOf(ps[..k]) {
      var i := ListedNameHasIndex(ps[..k], name);
    }
  }

  lemma {:induction false} PackagesPass(lock: Lock, k: int, manifest: map<string, Entry>, locked: map<string, Locked>,
                                        w: World)
    requires WellBehaved(w) && SelectionsAgree(lock.packages, w) && Presentable(lock) && BuiltFrom(manifest, locked, w)
    requires LockPackages(lock.packages, w).Some? && 0 <= k <= |lock.packages|
    requires forall name | name in LockPackages(lock.packages, w).value ::
               name in locked && locked[name] == LockPackages(lock.packages, w).value[name]
    ensures SeenPackages(lock.packages[..k], manifest, w) == Some(NamesOf(lock.packages[..k]))
    decreases k
  {
    hide ManifestNameOf, SelectWheel, NewPackageName, BuiltFrom, SelectAlike, WellBehaved, Rendered, LockPackages;
    var ps := lock.packages;
    if k > 0 {
      PackagesPass(lock, k - 1, manifest, locked, w);
      LockedAt(ps, w, k - 1);
      NameIsNew(ps, k - 1);
      PackagePasses(NamesOf(ps[..k - 1]), ps[k - 1], manifest, locked, ManifestNameOf(ps[k - 1].name).value, w);
      assert ps[..k][..k - 1] == ps[..k - 1];
    }
  }

  lemma {:induction false} BootstrapsPass(lock: Lock, k: int, m: map<string, Locked>, manifest: map<string, Entry>,
                                          locked: map<string, Locked>, w: World)
    requires WellBehaved(w) && Presentable(lock) && BuiltFrom(manifest, locked, w)
    requires LockBootstrap(m, lock.bootstrap) == Some(locked) && 0 <= k <= |lock.bootstrap|
    ensures SeenBootstrap(m.Keys, lock.bootstrap[..k], manifest) == Some(m.Keys + BootstrapNamesOf(lock.bootstrap[..k]))
    decreases k
  {
    hide ManifestNameOf, NewBootstrapName, BuiltFrom, WellBehaved, Rendered, LockBootstrap;
    var bs := lock.bootstrap;
    if k > 0 {
      BootstrapsPass(lock, k - 1, m, manifest, locked, w);
      BootstrapAt(m, bs, k - 1);
      BootstrapPasses(m.Keys + BootstrapNamesOf(bs[..k - 1]), bs[k - 1], manifest, locked,
          ManifestNameOf(bs[k - 1].name).value, w);
      assert bs[..k][..k - 1] == bs[..k - 1];
      assert m.Keys + BootstrapNamesOf(bs[..k - 1]) + {ManifestNameOf(bs[k - 1].name).value}
             == m.Keys + BootstrapNamesOf(bs[..k]);
    } else {
      assert m.Keys + BootstrapNamesOf(bs[..0]) == m.Keys;
    }
  }

  // ---------------------------------------------------------------------------------------
  // Locks that pass are presentable

  /** The package's selected wheel is bound to the manifest's entry of its name. */
  predicate PackageBound(p: Package, manifest: map<string, Entry>, w: World) {
    var name, wheel := SbomName(p.name), SelectWheel(p.wheels, w.casefold);
    && name.Some? && wheel.Some? && p.name.PyStr? && VersionGiven(p.version)
    && Bindable(wheel.value) && BoundTo(manifest, name.value, p.version.text, wheel.value)
  }

  lemma {:induction false} NewPackageIsBound(seen: set<string>, p: Package, manifest: map<string, Entry>, w: World)
    requires NewPackageName(seen, p, manifest, w).Some?
    ensures PackageBound(p, manifest, w)
    ensures ManifestNameOf(p.name) == NewPackageName(seen, p, manifest, w)
    ensures NewPackageName(seen, p, manifest, w).value !in seen
  {
    hide ManifestNameOf, SelectWheel;
    NormalisersAgree(p.name);
  }

  lemma {:induction false} SeenPackagesPresentable(ps: seq<Package>, manifest: map<string, Entry>, w: World)
    requires SeenPackages(ps, manifest, w).Some?
    ensures SeenPackages(ps, manifest, w).value == NamesOf(ps)
    ensures forall i | 0 <= i < |ps| :: PackageBound(ps[i], manifest, w)
    ensures Distinct(ps)
    decreases |ps|
  {
    hide ManifestNameOf, NewPackageName, PackageBound, Distinct;
    if |ps| > 0 {
      var before, p := ps[..|ps| - 1], ps[|ps| - 1];
      hide SeenPackages;
      var name := SeenLast(ps, manifest, w);
      SeenPackagesPresentable(before, manifest, w);
      NewPackageIsBound(NamesOf(before), p, manifest, w);
      DistinctGrows(ps);
      assert ps == before + [p];
    } else {
      NoneIsDistinct();
    }
  }

  lemma {:induction false} SeenLast(ps: seq<Package>, manifest: map<string, Entry>, w: World) returns (name: string)
    requires |ps| > 0 && SeenPackages(ps, manifest, w).Some?
    ensures var before := SeenPackages(ps[..|ps| - 1], manifest, w);
            && before.Some? && NewPackageName(before.value, ps[|ps| - 1], manifest, w) == Some(name)
            && SeenPackages(ps, manifest, w).value == before.value + {name}
  {
    hide NewPackageName;
    name := NewPackageName(SeenPackages(ps[..|ps| - 1], manifest, w).value, ps[|ps| - 1], manifest, w).value;
  }

  lemma {:induction false} NoneIsDistinct()
    ensures Distinct([])
  {
  }

  lemma {:induction false} DistinctGrows(ps: seq<Package>)
    requires |ps| > 0 && Distinct(ps[..|ps| - 1])
    requires var name := ManifestNameOf(ps[|ps| - 1].name); name.Some? && name.value !in NamesOf(ps[..|ps| - 1])
    ensures Distinct(ps)
  {
    hide ManifestNameOf;
    var before := ps[..|ps| - 1];
    forall i | 0 <= i < |before| ensures ManifestNameOf(ps[i].name) != ManifestNameOf(ps[|ps| - 1].name) {
      if ManifestNameOf(before[i].name).Some? { NameIsListed(before, i); }
    }
  }

  /** A wheel bound to the entry of a materialised one is that wheel. */
  lemma {:induction false} BoundIsSame(a: Artifact, b: Artifact, version: string, e: Entry, w: World)
    requires WellBehaved(w) && Materializes(a, w) && Bindable(b)
    requires e == EntryFor(Locked(version, a), w)
    requires e.filename == b.filename.value && e.size == b.size.n && e.sha256 == b.sha256.value
    ensures a == b
  {
    MaterializedIsBindable(a, w);
  }

  lemma {:induction false} BoundSelectionsAgree(ps: seq<Package>, manifest: map<string, Entry>,
                                                locked: map<string, Locked>, w: World)
    requires WellBehaved(w) && Distinct(ps) && BuiltFrom(manifest, locked, w) && LockPackages(ps, w).Some?
    requires forall name | name in LockPackages(ps, w).value ::
               name in locked && locked[name] == LockPackages(ps, w).value[name]
    requires forall i | 0 <= i < |ps| :: PackageBound(ps[i], manifest, w)
    ensures SelectionsAgree(ps, w)
  {
    hide ManifestNameOf, SbomName, SelectWheel, LockPackages, Materializes, Bindable, WellBehaved, Rendered;
    forall i | 0 <= i < |ps| ensures SelectAlike(ps[i].wheels, w) {
      LockedAt(ps, w, i);
      assert PackageBound(ps[i], manifest, w);
      NormalisersAgree(ps[i].name);
      var name := ManifestNameOf(ps[i].name).value;
      BoundIsSame(locked[name].artifact, SelectWheel(ps[i].wheels, w.casefold).value, locked[name].version,
          manifest[name], w);
    }
  }

  lemma {:induction false} SeenBootstrapPresentable(seen0: set<string>, bs: seq<Bootstrap>,
                                                    manifest: map<string, Entry>)
    requires SeenBootstrap(seen0, bs, manifest).Some?
    ensures forall i | 0 <= i < |bs| :: bs[i].name.PyStr? && VersionGiven(bs[i].version)
    decreases |bs|
  {
    hide ManifestNameOf, SbomName;
    if |bs| > 0 {
      NormalisersAgree(bs[|bs| - 1].name);
      SeenBootstrapPresentable(seen0, bs[..|bs| - 1], manifest);
    }
  }

  /**
   A manifest that was built passes every header and wheel-binding check of the SBOM builder, with the same
   package set, if and only if the two selectors agree on its packages and the lock is presentable: the right
   target, both lists non-empty, names and versions proper strings, and no normalised name twice among the packages.
   */
  lemma {:induction false} ManifestPassesIffPresentable(lock: Lock, manifest: Manifest, w: World)
    requires BuildManifest(lock, w) == Some(manifest) && WellBehaved(w)
    ensures SbomAccepts(lock, manifest, w) <==> Presentable(lock) && SelectionsAgree(lock.packages, w)
  {
    if SbomAccepts(lock, manifest, w) { PassingIsPresentable(lock, manifest, w); }
    if Presentable(lock) && SelectionsAgree(lock.packages, w) { PresentablePasses(lock, manifest, w); }
  }

  lemma {:induction false} ManifestIsBuilt(lock: Lock, manifest: Manifest, w: World)
    returns (m: map<string, Locked>, locked: map<string, Locked>)
    requires BuildManifest(lock, w) == Some(manifest)
    ensures LockPackages(lock.packages, w) == Some(m) && LockBootstrap(m, lock.bootstrap) == Some(locked)
    ensures BuiltFrom(manifest.packages, locked, w) && manifest.packages.Keys == locked.Keys
    ensures lock.target == SBOM_TARGET <==> HeaderPasses(lock, manifest, w)
  {
    hide LockPackages, LockBootstrap, Materializes;
    m := LockPackages(lock.packages, w).value;
    locked := LockBootstrap(m, lock.bootstrap).value;
  }

  lemma {:induction false} PassingIsPresentable(lock: Lock, manifest: Manifest, w: World)
    requires BuildManifest(lock, w) == Some(manifest) && WellBehaved(w) && SbomAccepts(lock, manifest, w)
    ensures Presentable(lock) && SelectionsAgree(lock.packages, w)
  {
    hide SeenPackages, SeenBootstrap, LockPackages, LockBootstrap, BuildManifest, WellBehaved, BuiltFrom, Distinct,
         SelectionsAgree, SbomName, SelectWheel, Bindable, VersionGiven, BoundTo;
    var m, locked := ManifestIsBuilt(lock, manifest, w);
    SeenPackagesPresentable(lock.packages, manifest.packages, w);
    SeenBootstrapPresentable(SeenPackages(lock.packages, manifest.packages, w).value, lock.bootstrap,
        manifest.packages);
    BootstrapKeepsAll(m, lock.bootstrap);
    BoundSelectionsAgree(lock.packages, manifest.packages, locked, w);
  }

  lemma {:induction false} PresentableParts(lock: Lock)
    requires Presentable(lock)
    ensures lock.target == SBOM_TARGET && |lock.packages| > 0 && |lock.bootstrap| > 0
  {
  }

  lemma {:induction false} PresentablePasses(lock: Lock, manifest: Manifest, w: World)
    requires BuildManifest(lock, w) == Some(manifest) && WellBehaved(w)
    requires Presentable(lock) && SelectionsAgree(lock.packages, w)
    ensures SbomAccepts(lock, manifest, w)
  {
    hide SeenPackages, SeenBootstrap, LockPackages, LockBootstrap, BuildManifest, Presentable, BuiltFrom, WellBehaved,
         SelectionsAgree, HeaderPasses;
    var m, locked := ManifestIsBuilt(lock, manifest, w);
    BootstrapKeepsAll(m, lock.bootstrap);
    LockKeys(lock.packages, w);
    PackagesPass(lock, |lock.packages|, manifest.packages, locked, w);
    BootstrapsPass(lock, |lock.bootstrap|, m, manifest.packages, locked, w);
    PresentableParts(lock);
    assert lock.packages[..|lock.packages|] == lock.packages && lock.bootstrap[..|lock.bootstrap|] == lock.bootstrap;
  }

  /** The wheel file names of the lock have the same lower-case and case-folded form, as ASCII names do. */
  ghost predicate CaseFormsAgree(lock: Lock, w: World) {
    forall i, a | 0 <= i < |lock.packages| && a in lock.packages[i].wheels && a.filename.Some? ::
      w.lower(a.filename.value) == w.casefold(a.filename.value)
  }

  /** So a presentable lock with such file names always passes. */
  lemma {:induction false} PresentableWithPlainNamesPasses(lock: Lock, manifest: Manifest, w: World)
    requires BuildManifest(lock, w) == Some(manifest) && WellBehaved(w)
    requires Presentable(lock) && CaseFormsAgree(lock, w)
    ensures SbomAccepts(lock, manifest, w)
  {
    hide Presentable, BuildManifest, SbomAccepts, WellBehaved;
    forall i | 0 <= i < |lock.packages| ensures SelectAlike(lock.packages[i].wheels, w) {
      var wheels := lock.packages[i].wheels;
      var pool := set a | a in wheels;
      assert AllJudgedAlike(pool, w);
      SelectorsAgreeIff(pool, w);
      assert DrawnFrom(wheels, pool);
    }
    ManifestPassesIffPresentable(lock, manifest, w);
  }

  /** What a manifest says of the last package of a name: its version, and the file, size and hash of its wheel. */
  lemma {:induction false} BuiltEntry(lock: Lock, manifest: Manifest, w: World, i: int)
    requires BuildManifest(lock, w) == Some(manifest) && 0 <= i < |lock.packages|
    requires forall j | i < j < |lock.packages| ::
               ManifestNameOf(lock.packages[j].name) != ManifestNameOf(lock.packages[i].name)
    ensures var p := lock.packages[i];
            var name, wheel := ManifestNameOf(p.name), SelectWheel(p.wheels, w.lower);
            && name.Some? && wheel.Some? && wheel.value.filename.Some? && name.value in manifest.packages
            && var raw := w.raw(wheel.value);
            && wheel.value.sha256 == Some(w.hash(raw))
            && manifest.packages[name.value]
               == Entry(if p.version.PyStr? then p.version.text else p.version.shown, wheel.value.filename.value, |raw|,
                        w.hash(raw))
  {
    hide BuildManifest, LockPackages, LockBootstrap, ManifestNameOf, SelectWheel;
    var m, locked := ManifestIsBuilt(lock, manifest, w);
    LastPackageIsLocked(lock.packages, w, i);
    BootstrapKeepsAll(m, lock.bootstrap);
  }

  /** And of a bootstrap wheel. */
  lemma {:induction false} BuiltBootstrapEntry(lock: Lock, manifest: Manifest, w: World, i: int)
    requires BuildManifest(lock, w) == Some(manifest) && 0 <= i < |lock.bootstrap|
    ensures var b := lock.bootstrap[i];
            && var name := ManifestNameOf(b.name);
            && name.Some? && b.artifact.filename.Some? && name.value in manifest.packages
            && var raw := w.raw(b.artifact);
            && b.artifact.sha256 == Some(w.hash(raw))
            && manifest.packages[name.value]
               == Entry(if b.version.PyStr? then b.version.text else b.version.shown, b.artifact.filename.value, |raw|,
                        w.hash(raw))
  {
    hide BuildManifest, LockPackages, LockBootstrap, ManifestNameOf;
    var m, locked := ManifestIsBuilt(lock, manifest, w);
    BootstrapAt(m, lock.bootstrap, i);
  }
}
