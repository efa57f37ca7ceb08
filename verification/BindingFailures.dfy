/** Locks whose manifest is built and then rejected by the SBOM builder, and one whose manifest passes. */
module BindingFailures {
  import opened Common
  import opened PackageNames
  import opened WheelBinding
  import opened BindingAgreement

  /** A wheel that both selectors take and that is there as locked. */
  ghost predicate Sound(a: Artifact, w: World) {
    a.filename.Some? && Compatible(a, w.lower) && Compatible(a, w.casefold) && Materializes(a, w)
  }

  function Listed(name: PyValue, version: PyValue, wheel: Artifact): Package {
    Package(name, version, [wheel])
  }

  function Pip(wheel: Artifact): Bootstrap {
    Bootstrap(PyStr("pip"), PyStr("1"), wheel)
  }

  /** Each package has one sound wheel of its own and a name other than `pip`; so has the bootstrap wheel `z`. */
  ghost predicate Plain(ps: seq<Package>, z: Artifact, w: World) {
    && Sound(z, w)
    && (forall i | 0 <= i < |ps| ::
          && |ps[i].wheels| == 1 && Sound(ps[i].wheels[0], w) && Apart(ps[i].wheels[0], z, w)
          && ManifestNameOf(ps[i].name).Some? && ManifestNameOf(ps[i].name) != Some("pip"))
    && (forall i, j | 0 <= i < j < |ps| :: Apart(ps[i].wheels[0], ps[j].wheels[0], w))
  }

  lemma {:induction false} SoundIsSelected(a: Artifact, w: World)
    requires Sound(a, w)
    ensures SelectWheel([a], w.lower) == SelectWheel([a], w.casefold) == Some(a)
  {
    BestOfOne(a, w.lower);
    BestOfOne(a, w.casefold);
  }

  /** The package that a locked name comes from. */
  ghost predicate ComesFrom(ps: seq<Package>, name: string, l: Locked, i: int) {
    0 <= i < |ps| && ManifestNameOf(ps[i].name) == Some(name) && ps[i].wheels == [l.artifact]
  }

  ghost predicate Originates(ps: seq<Package>, name: string, l: Locked) {
    exists i :: ComesFrom(ps, name, l, i)
  }

  lemma {:induction false} PlainPackagesLock(ps: seq<Package>, z: Artifact, w: World)
    requires Plain(ps, z, w)
    ensures LockPackages(ps, w).Some?
    ensures var m := LockPackages(ps, w).value; forall name | name in m :: Originates(ps, name, m[name])
    decreases |ps|
  {
    hide SelectWheel, ManifestNameOf, Materializes, Apart, Compatible;
    if |ps| > 0 {
      var before, p := ps[..|ps| - 1], ps[|ps| - 1];
      PlainPackagesLock(before, z, w);
      assert p.wheels == [p.wheels[0]];
      SoundIsSelected(p.wheels[0], w);
      var m := LockPackages(ps, w).value;
      forall name | name in m ensures Originates(ps, name, m[name]) {
        if name == ManifestNameOf(p.name).value {
          assert ComesFrom(ps, name, m[name], |ps| - 1);
        } else {
          assert Originates(before, name, m[name]);
          var i :| ComesFrom(before, name, m[name], i);
          assert ComesFrom(ps, name, m[name], i);
        }
      }
    }
  }

  /** Locked wheels of different names are wheels of different packages. */
  lemma {:induction false} PlainPackagesApart(ps: seq<Package>, z: Artifact, m: map<string, Locked>, w: World)
    requires Plain(ps, z, w) && forall name | name in m :: Originates(ps, name, m[name])
    ensures AllMaterialize(m, w) && "pip" !in m && forall name | name in m :: Apart(m[name].artifact, z, w)
  {
    hide ManifestNameOf, Materializes, Apart, Compatible;
    forall name | name in m
      ensures Materializes(m[name].artifact, w) && name != "pip" && Apart(m[name].artifact, z, w)
    {
      assert Originates(ps, name, m[name]);
      var i :| ComesFrom(ps, name, m[name], i);
      assert ps[i].wheels[0] == m[name].artifact;
    }
    forall a, b | a in m && b in m && a != b ensures Apart(m[a].artifact, m[b].artifact, w) {
      assert Originates(ps, a, m[a]) && Originates(ps, b, m[b]);
      var i :| ComesFrom(ps, a, m[a], i);
      var j :| ComesFrom(ps, b, m[b], j);
      assert ps[i].wheels[0] == m[a].artifact && ps[j].wheels[0] == m[b].artifact;
      ApartBothWays(m[a].artifact, m[b].artifact, w);
    }
  }

  lemma {:induction false} ApartBothWays(a: Artifact, b: Artifact, w: World)
    ensures Apart(a, b, w) <==> Apart(b, a, w)
  {
  }

  lemma {:induction false} OneMoreMaterializes(m: map<string, Locked>, name: string, l: Locked, w: World)
    requires AllMaterialize(m, w) && name !in m && Materializes(l.artifact, w)
    requires forall n | n in m :: Apart(m[n].artifact, l.artifact, w)
    ensures AllMaterialize(m[name := l], w)
  {
    hide Materializes, Apart;
    forall n | n in m ensures Apart(l.artifact, m[n].artifact, w) { ApartBothWays(m[n].artifact, l.artifact, w); }
  }

  /** Every such lock has its manifest built. */
  lemma {:induction false} PlainLockBuilds(ps: seq<Package>, bs: seq<Bootstrap>, z: Artifact, w: World)
    requires Plain(ps, z, w) && (bs == [] || bs == [Pip(z)])
    ensures BuildManifest(Lock(SBOM_TARGET, ps, bs), w).Some?
  {
    hide Plain, LockPackages, LockBootstrap, AllMaterialize, Apart, Materializes, Pip;
    PlainPackagesLock(ps, z, w);
    var m := LockPackages(ps, w).value;
    PlainPackagesApart(ps, z, m, w);
    BootstrapIsSound(ps, z, w);
    OneMoreMaterializes(m, "pip", Locked("1", z), w);
    PipLocks(m, z);
    NothingLocks(m);
  }

  lemma {:induction false} BootstrapIsSound(ps: seq<Package>, z: Artifact, w: World)
    requires Plain(ps, z, w)
    ensures Materializes(z, w)
  {
  }

  lemma {:induction false} PipLocks(m: map<string, Locked>, z: Artifact)
    requires "pip" !in m
    ensures LockBootstrap(m, [Pip(z)]) == Some(m["pip" := Locked("1", z)])
  {
    hide ManifestNameOf;
    PipName();
    assert [Pip(z)][..0] == [];
  }

  lemma {:induction false} NothingLocks(m: map<string, Locked>)
    ensures LockBootstrap(m, []) == Some(m)
  {
  }

  /** Names that only need lower case and hyphens. */
  lemma {:induction false} PlainName(text: string, name: string)
    requires |text| > 0 && Trim(text) && Hyphenated(Lower(text)) == name && Collapsed(name)
    ensures ManifestNameOf(PyStr(text)) == ManifestNameOf(PyOther(text)) == Some(name)
  {
    hide CollapseRuns, Strip, Collapsed, Lower, Hyphenated;
    TrimIsFixed(text);
    HyphenatingKeepsCollapse(Lower(text));
    CollapsedIsFixed(name);
  }

  lemma {:induction false} PipName()
    ensures ManifestNameOf(PyStr("pip")) == Some("pip")
  {
    hide ManifestNameOf;
    assert Hyphenated(Lower("pip")) == "pip";
    PlainName("pip", "pip");
  }

  lemma {:induction false} SomeNames()
    ensures ManifestNameOf(PyStr("a_b")) == ManifestNameOf(PyStr("A-B")) == Some("a-b")
    ensures ManifestNameOf(PyOther("7")) == Some("7")
  {
    hide ManifestNameOf;
    assert Hyphenated(Lower("a_b")) == "a-b" && Hyphenated(Lower("A-B")) == "a-b" && Hyphenated(Lower("7")) == "7";
    PlainName("a_b", "a-b");
    PlainName("A-B", "a-b");
    PlainName("7", "7");
  }

  ghost predicate BuiltThenRejected(ps: seq<Package>, bs: seq<Bootstrap>, w: World) {
    var lock := Lock(SBOM_TARGET, ps, bs);
    BuildManifest(lock, w).Some? && !SbomAccepts(lock, BuildManifest(lock, w).value, w)
  }

  const ONE := PyStr("1")

  /** Three sound wheels that install different files. */
  ghost predicate Ready(x: Artifact, y: Artifact, z: Artifact, w: World) {
    && WellBehaved(w) && Sound(x, w) && Sound(y, w) && Sound(z, w)
    && Apart(x, y, w) && Apart(x, z, w) && Apart(y, z, w)
  }

  /**
   Whatever the three wheels: two spellings of one name, a version or a name that is no string, an empty version, or
   an empty list lets the manifest be built and rejected.
   */
  lemma {:induction false} BuiltManifestsCanFail(x: Artifact, y: Artifact, z: Artifact, w: World)
    requires Ready(x, y, z, w)
    ensures BuiltThenRejected([Listed(PyStr("a_b"), ONE, x), Listed(PyStr("A-B"), ONE, y)], [Pip(z)], w)
    ensures BuiltThenRejected([Listed(PyStr("a_b"), PyOther("1"), x)], [Pip(z)], w)
    ensures BuiltThenRejected([Listed(PyStr("a_b"), PyStr(""), x)], [Pip(z)], w)
    ensures BuiltThenRejected([Listed(PyOther("7"), ONE, x)], [Pip(z)], w)
    ensures BuiltThenRejected([Listed(PyStr("a_b"), ONE, x)], [], w)
    ensures BuiltThenRejected([], [], w)
  {
    hide ManifestNameOf, BuiltThenRejected, WellBehaved, Sound, Apart;
    SomeNames();
    SameNameTwice(PyStr("a_b"), PyStr("A-B"), x, y, z, w);
    SinglePackage(PyStr("a_b"), PyOther("1"), [Pip(z)], x, z, w);
    SinglePackage(PyStr("a_b"), PyStr(""), [Pip(z)], x, z, w);
    SinglePackage(PyOther("7"), ONE, [Pip(z)], x, z, w);
    SinglePackage(PyStr("a_b"), ONE, [], x, z, w);
    UnpresentableIsRejected([], [], z, w);
  }

  lemma {:induction false} SameNameTwice(m: PyValue, n: PyValue, x: Artifact, y: Artifact, z: Artifact, w: World)
    requires ManifestNameOf(m).Some? && ManifestNameOf(m) == ManifestNameOf(n) && ManifestNameOf(m) != Some("pip")
    requires Ready(x, y, z, w)
    ensures BuiltThenRejected([Listed(m, ONE, x), Listed(n, ONE, y)], [Pip(z)], w)
  {
    hide ManifestNameOf, BuiltThenRejected, WellBehaved, Sound, Apart;
    var ps := [Listed(m, ONE, x), Listed(n, ONE, y)];
    assert ManifestNameOf(ps[0].name) == ManifestNameOf(ps[1].name);
    UnpresentableIsRejected(ps, [Pip(z)], z, w);
  }

  lemma {:induction false} SinglePackage(name: PyValue, version: PyValue, bs: seq<Bootstrap>, x: Artifact, z: Artifact,
                                         w: World)
    requires ManifestNameOf(name).Some? && ManifestNameOf(name) != Some("pip") && (bs == [] || bs == [Pip(z)])
    requires !name.PyStr? || !VersionGiven(version) || bs == []
    requires WellBehaved(w) && Sound(x, w) && Sound(z, w) && Apart(x, z, w)
    ensures BuiltThenRejected([Listed(name, version, x)], bs, w)
  {
    hide ManifestNameOf, BuiltThenRejected, WellBehaved, Sound, Apart;
    var ps := [Listed(name, version, x)];
    assert ps[0].name == name && ps[0].version == version;
    UnpresentableIsRejected(ps, bs, z, w);
  }

  lemma {:induction false} UnpresentableIsRejected(ps: seq<Package>, bs: seq<Bootstrap>, z: Artifact, w: World)
    requires WellBehaved(w) && Plain(ps, z, w) && (bs == [] || bs == [Pip(z)])
    requires !Presentable(Lock(SBOM_TARGET, ps, bs))
    ensures BuiltThenRejected(ps, bs, w)
  {
    hide BuildManifest, SbomAccepts, Presentable, WellBehaved, Plain;
    var lock := Lock(SBOM_TARGET, ps, bs);
    PlainLockBuilds(ps, bs, z, w);
    ManifestPassesIffPresentable(lock, BuildManifest(lock, w).value, w);
  }

  /** And one that passes, whatever the wheels. */
  lemma {:induction false} BuiltManifestCanPass(x: Artifact, z: Artifact, w: World)
    requires WellBehaved(w) && Sound(x, w) && Sound(z, w) && Apart(x, z, w)
    ensures var lock := Lock(SBOM_TARGET, [Listed(PyStr("a_b"), ONE, x)], [Pip(z)]);
            BuildManifest(lock, w).Some? && SbomAccepts(lock, BuildManifest(lock, w).value, w)
  {
    hide ManifestNameOf, BuildManifest, SbomAccepts, WellBehaved, SelectWheel, Sound, Apart;
    var lock := Lock(SBOM_TARGET, [Listed(PyStr("a_b"), ONE, x)], [Pip(z)]);
    SomeNames();
    PlainLockBuilds(lock.packages, lock.bootstrap, z, w);
    SoundIsSelected(x, w);
    ManifestPassesIffPresentable(lock, BuildManifest(lock, w).value, w);
  }
}
