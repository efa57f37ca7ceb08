/** What the SBOM builder accepts, stated entry by entry on the lock and the manifest. */
module SbomLaw {
  import opened PackageNames
  import opened WheelBinding

  /** The manifest has, under this name, exactly this version and this properly locked wheel. */
  ghost predicate EntryIs(entries: map<string, Entry>, name: string, version: PyValue, a: Artifact) {
    && version.PyStr? && version.text != ""
    && a.filename.Some? && a.size.IntSize? && a.size.n > 0 && a.sha256.Some?
    && |a.sha256.value| == 64
    && (forall c | c in a.sha256.value :: '0' <= c <= '9' || 'a' <= c <= 'f')
    && name in entries
    && entries[name] == Entry(version.text, a.filename.value, a.size.n, a.sha256.value)
  }

  ghost predicate PackageFits(p: Package, entries: map<string, Entry>, w: World) {
    && SbomName(p.name).Some? && SelectWheel(p.wheels, w.casefold).Some?
    && EntryIs(entries, SbomName(p.name).value, p.version, SelectWheel(p.wheels, w.casefold).value)
  }

  ghost predicate BootstrapFits(b: Bootstrap, entries: map<string, Entry>) {
    SbomName(b.name).Some? && EntryIs(entries, SbomName(b.name).value, b.version, b.artifact)
  }

  ghost predicate PackagesFit(ps: seq<Package>, entries: map<string, Entry>, w: World) {
    forall i | 0 <= i < |ps| :: PackageFits(ps[i], entries, w)
  }

  ghost predicate BootstrapsFit(bs: seq<Bootstrap>, entries: map<string, Entry>) {
    forall i | 0 <= i < |bs| :: BootstrapFits(bs[i], entries)
  }

  ghost predicate AllNamed(names: seq<PyValue>) {
    forall n | n in names :: SbomName(n).Some?
  }

  function NameSet(names: seq<PyValue>): set<string> {
    set n | n in names && SbomName(n).Some? :: SbomName(n).value
  }

  function PackageNamesOf(ps: seq<Package>): (r: seq<PyValue>)
    ensures |r| == |ps| && forall i | 0 <= i < |ps| :: r[i] == ps[i].name
  {
    seq(|ps|, i requires 0 <= i < |ps| => ps[i].name)
  }

  function BootstrapNamesOf(bs: seq<Bootstrap>): (r: seq<PyValue>)
    ensures |r| == |bs| && forall i | 0 <= i < |bs| :: r[i] == bs[i].name
  {
    seq(|bs|, i requires 0 <= i < |bs| => bs[i].name)
  }

  ghost predicate AllDifferent(names: seq<PyValue>) {
    forall i, j | 0 <= i < j < |names| :: SbomName(names[i]) != SbomName(names[j])
  }

  /** Everything that is asked of the lock and the manifest. */
  ghost predicate Matches(lock: Lock, m: Manifest, w: World) {
    && lock.target == m.target == Target("3.12", "CPython", "win_amd64", "x86_64")
    && m.schema == "windows-wheel-tree-v1" && m.payload == w.digest(m.schema, m.target, m.packages)
    && lock.packages != [] && lock.bootstrap != []
    && PackagesFit(lock.packages, m.packages, w) && BootstrapsFit(lock.bootstrap, m.packages)
    && var names := PackageNamesOf(lock.packages) + BootstrapNamesOf(lock.bootstrap);
    && AllDifferent(names) && m.packages.Keys == NameSet(names)
  }

  lemma {:induction false} HexIff(s: string)
    ensures IsHex64(s) <==> |s| == 64 && forall c | c in s :: '0' <= c <= '9' || 'a' <= c <= 'f'
  {
    if IsHex64(s) {
      forall c | c in s ensures '0' <= c <= '9' || 'a' <= c <= 'f' { var i :| 0 <= i < |s| && s[i] == c; }
    }
    if |s| == 64 && forall c | c in s :: '0' <= c <= '9' || 'a' <= c <= 'f' {
      forall i | 0 <= i < 64 ensures '0' <= s[i] <= '9' || 'a' <= s[i] <= 'f' { assert s[i] in s; }
    }
  }

  lemma {:induction false} NewPackageIff(seen: set<string>, p: Package, entries: map<string, Entry>, w: World)
    ensures NewPackageName(seen, p, entries, w).Some? <==> PackageFits(p, entries, w) && SbomName(p.name).value !in seen
    ensures NewPackageName(seen, p, entries, w).Some? ==> NewPackageName(seen, p, entries, w) == SbomName(p.name)
  {
    hide SbomName, SelectWheel, IsHex64;
    var wheel := SelectWheel(p.wheels, w.casefold);
    if wheel.Some? && wheel.value.sha256.Some? { HexIff(wheel.value.sha256.value); }
  }

  lemma {:induction false} NewBootstrapIff(seen: set<string>, b: Bootstrap, entries: map<string, Entry>)
    ensures NewBootstrapName(seen, b, entries).Some? <==> BootstrapFits(b, entries) && SbomName(b.name).value !in seen
    ensures NewBootstrapName(seen, b, entries).Some? ==> NewBootstrapName(seen, b, entries) == SbomName(b.name)
  {
    hide SbomName, IsHex64;
    if b.artifact.sha256.Some? { HexIff(b.artifact.sha256.value); }
  }

  /** One more name at the end. */
  lemma {:induction false} NamesSnoc(names: seq<PyValue>, n: PyValue)
    requires SbomName(n).Some? && AllNamed(names)
    ensures NameSet(names + [n]) == NameSet(names) + {SbomName(n).value}
    ensures AllDifferent(names + [n]) <==> AllDifferent(names) && SbomName(n).value !in NameSet(names)
  {
    hide SbomName;
    var longer := names + [n];
    if AllDifferent(longer) {
      forall i, j | 0 <= i < j < |names| ensures SbomName(names[i]) != SbomName(names[j]) {
        assert longer[i] == names[i] && longer[j] == names[j];
      }
      forall x | x in names ensures SbomName(x) != SbomName(n) {
        var i :| 0 <= i < |names| && names[i] == x;
        assert longer[i] == x && longer[|names|] == n;
      }
    }
    if AllDifferent(names) && SbomName(n).value !in NameSet(names) {
      forall i, j | 0 <= i < j < |longer| ensures SbomName(longer[i]) != SbomName(longer[j]) {
        assert longer[i] == names[i] && names[i] in names;
      }
    }
  }

  lemma {:induction false} PackagesSnoc(ps: seq<Package>, entries: map<string, Entry>, w: World)
    requires |ps| > 0
    ensures var before, p := ps[..|ps| - 1], ps[|ps| - 1];
            && (PackagesFit(ps, entries, w) <==> PackagesFit(before, entries, w) && PackageFits(p, entries, w))
            && PackageNamesOf(ps) == PackageNamesOf(before) + [p.name]
            && (PackagesFit(before, entries, w) ==> AllNamed(PackageNamesOf(before)))
  {
    hide EntryIs, SelectWheel, SbomName;
    var before := ps[..|ps| - 1];
    assert forall i | 0 <= i < |before| :: before[i] == ps[i];
    if PackagesFit(before, entries, w) {
      forall n | n in PackageNamesOf(before) ensures SbomName(n).Some? {
        var i :| 0 <= i < |before| && PackageNamesOf(before)[i] == n;
        assert PackageFits(before[i], entries, w);
      }
    }
  }

  lemma {:induction false} FitIsNamed(p: Package, entries: map<string, Entry>, w: World)
    requires PackageFits(p, entries, w)
    ensures SbomName(p.name).Some?
  {
  }

  lemma {:induction false} SeenPackagesIff(ps: seq<Package>, entries: map<string, Entry>, w: World)
    ensures SeenPackages(ps, entries, w).Some? <==> PackagesFit(ps, entries, w) && AllDifferent(PackageNamesOf(ps))
    ensures SeenPackages(ps, entries, w).Some? ==> SeenPackages(ps, entries, w).value == NameSet(PackageNamesOf(ps))
    decreases |ps|
  {
    hide SbomName, NewPackageName, PackageFits, PackagesFit, AllDifferent, NameSet, AllNamed, PackageNamesOf;
    if |ps| > 0 {
      var before, p := ps[..|ps| - 1], ps[|ps| - 1];
      SeenPackagesIff(before, entries, w);
      PackagesSnoc(ps, entries, w);
      NewPackageIff(NameSet(PackageNamesOf(before)), p, entries, w);
      if PackagesFit(ps, entries, w) {
        FitIsNamed(p, entries, w);
        NamesSnoc(PackageNamesOf(before), p.name);
      }
    } else {
      NothingFits(entries, w);
    }
  }

  lemma {:induction false} NothingFits(entries: map<string, Entry>, w: World)
    ensures PackagesFit([], entries, w) && BootstrapsFit([], entries)
    ensures PackageNamesOf([]) == [] && BootstrapNamesOf([]) == [] && AllDifferent([]) && NameSet([]) == {}
  {
  }

  lemma {:induction false} BootstrapsSnoc(names: seq<PyValue>, bs: seq<Bootstrap>, entries: map<string, Entry>)
    requires |bs| > 0 && AllNamed(names)
    ensures var before, b := bs[..|bs| - 1], bs[|bs| - 1];
            && (BootstrapsFit(bs, entries) <==> BootstrapsFit(before, entries) && BootstrapFits(b, entries))
            && names + BootstrapNamesOf(bs) == names + BootstrapNamesOf(before) + [b.name]
            && (BootstrapsFit(before, entries) ==> AllNamed(names + BootstrapNamesOf(before)))
            && (BootstrapFits(b, entries) ==> SbomName(b.name).Some?)
  {
    hide EntryIs, SbomName;
    var before := bs[..|bs| - 1];
    assert forall i | 0 <= i < |before| :: before[i] == bs[i];
    if BootstrapsFit(before, entries) {
      forall n | n in names + BootstrapNamesOf(before) ensures SbomName(n).Some? {
        if n !in names {
          var i :| 0 <= i < |before| && BootstrapNamesOf(before)[i] == n;
          assert BootstrapFits(before[i], entries);
        }
      }
    }
  }

  lemma {:induction false} SeenBootstrapIff(names: seq<PyValue>, bs: seq<Bootstrap>, entries: map<string, Entry>)
    requires AllNamed(names) && AllDifferent(names)
    ensures var seen := SeenBootstrap(NameSet(names), bs, entries);
            && (seen.Some? <==> BootstrapsFit(bs, entries) && AllDifferent(names + BootstrapNamesOf(bs)))
            && (seen.Some? ==> seen.value == NameSet(names + BootstrapNamesOf(bs)))
    decreases |bs|
  {
    hide SbomName, NewBootstrapName, BootstrapFits, BootstrapsFit, AllDifferent, NameSet, AllNamed, BootstrapNamesOf;
    if |bs| > 0 {
      var before, b := bs[..|bs| - 1], bs[|bs| - 1];
      SeenBootstrapIff(names, before, entries);
      BootstrapsSnoc(names, bs, entries);
      NewBootstrapIff(NameSet(names + BootstrapNamesOf(before)), b, entries);
      if BootstrapsFit(bs, entries) { NamesSnoc(names + BootstrapNamesOf(before), b.name); }
    } else {
      NoBootstrap(entries);
      assert names + [] == names;
    }
  }

  lemma {:induction false} NoBootstrap(entries: map<string, Entry>)
    ensures BootstrapsFit([], entries) && BootstrapNamesOf([]) == []
  {
  }

  lemma {:induction false} PrefixDiffers(names: seq<PyValue>, more: seq<PyValue>)
    requires AllDifferent(names + more)
    ensures AllDifferent(names)
  {
    hide SbomName;
    forall i, j | 0 <= i < j < |names| ensures SbomName(names[i]) != SbomName(names[j]) {
      assert (names + more)[i] == names[i] && (names + more)[j] == names[j];
    }
  }

  /** The builder accepts a lock and a manifest exactly when they match entry by entry. */
  lemma {:induction false} SbomAcceptsIff(lock: Lock, m: Manifest, w: World)
    ensures SbomAccepts(lock, m, w) <==> Matches(lock, m, w)
  {
    hide SeenPackages, SeenBootstrap, PackagesFit, BootstrapsFit, AllDifferent, NameSet;
    var names := PackageNamesOf(lock.packages);
    SeenPackagesIff(lock.packages, m.packages, w);
    var more := BootstrapNamesOf(lock.bootstrap);
    if AllDifferent(names + more) { PrefixDiffers(names, more); }
    if PackagesFit(lock.packages, m.packages, w) && AllDifferent(names) {
      PackagesAreNamed(lock.packages, m.packages, w);
      SeenBootstrapIff(names, lock.bootstrap, m.packages);
    }
  }

  lemma {:induction false} PackagesAreNamed(ps: seq<Package>, entries: map<string, Entry>, w: World)
    requires PackagesFit(ps, entries, w)
    ensures AllNamed(PackageNamesOf(ps))
  {
    hide EntryIs, SelectWheel, SbomName;
    forall n | n in PackageNamesOf(ps) ensures SbomName(n).Some? {
      var i :| 0 <= i < |ps| && PackageNamesOf(ps)[i] == n;
      assert PackageFits(ps[i], entries, w);
    }
  }
}
