/**
 From the dependency lock to the wheel manifest, and from lock and manifest to the SBOM. The two builders
 normalise names and select wheels independently; here is exactly when every manifest that the one builds
 passes all wheel-binding checks of the other.
 */
module WheelBinding {
  import opened Common
  import opened PackageNames

  type Bytes = seq<nat>

  datatype Size = IntSize(n: int) | BoolSize(b: bool) | OtherSize

  /** `filename` is absent when the location is no string or names no wheel. */
  datatype Artifact = Artifact(filename: Option<string>, size: Size, sha256: Option<string>)
  datatype Package = Package(name: PyValue, version: PyValue, wheels: seq<Artifact>)
  datatype Bootstrap = Bootstrap(name: PyValue, version: PyValue, artifact: Artifact)
  datatype Target = Target(python: string, implementation: string, platform: string, architecture: string)
  datatype Lock = Lock(target: Target, packages: seq<Package>, bootstrap: seq<Bootstrap>)

  /**
   The surroundings: case mappings, the wheel files, their hash, the keys of the files that a wheel installs if its
   contents verify, and the payload hash.
   */
  datatype World = World(
    lower: string -> string, casefold: string -> string,
    raw: Artifact -> Bytes, hash: Bytes -> string, installs: Bytes -> Option<set<string>>,
    digest: (string, Target, map<string, Entry>) -> string)

  // ---------------------------------------------------------------------------------------
  // Wheel selection

  predicate EndsWith(s: string, suffix: string) {
    |suffix| <= |s| && s[|s| - |suffix|..] == suffix
  }

  predicate Contains(s: string, part: string) {
    part <= s || (|s| > 0 && Contains(s[1..], part))
  }

  const INCOMPATIBLE: nat := 100

  function Priority(lower: string): nat {
    if EndsWith(lower, "-cp312-cp312-win_amd64.whl") then 0
    else if Contains(lower, "-abi3-win_amd64.whl") then 1
    else if EndsWith(lower, "-py3-none-any.whl") || EndsWith(lower, "-py2.py3-none-any.whl") then 2
    else INCOMPATIBLE
  }

  /** Order of strings by code points. */
  predicate TextLess(a: string, b: string) {
    |b| > 0 && (|a| == 0 || a[0] < b[0] || (a[0] == b[0] && TextLess(a[1..], b[1..])))
  }

  predicate KeyLess(a: string, b: string) {
    Priority(a) < Priority(b) || (Priority(a) == Priority(b) && TextLess(a, b))
  }

  function KeyOf(a: Artifact, fold: string -> string): string
    requires a.filename.Some?
  {
    fold(a.filename.value)
  }

  predicate Compatible(a: Artifact, fold: string -> string) {
    a.filename.Some? && Priority(fold(a.filename.value)) < INCOMPATIBLE
  }

  /** The first of the compatible wheels with the smallest key. */
  function Best(wheels: seq<Artifact>, fold: string -> string): (r: Option<Artifact>)
    ensures r.Some? ==> r.value in wheels && Compatible(r.value, fold)
  {
    if |wheels| == 0 then None
    else
      var a, earlier := wheels[|wheels| - 1], Best(wheels[..|wheels| - 1], fold);
      if !Compatible(a, fold) then earlier
      else if earlier.None? || KeyLess(KeyOf(a, fold), KeyOf(earlier.value, fold)) then Some(a)
      else earlier
  }

  /** A wheel whose file name cannot be read is an error, not a wheel to pass over. */
  function SelectWheel(wheels: seq<Artifact>, fold: string -> string): Option<Artifact> {
    if exists a | a in wheels :: a.filename.None? then None else Best(wheels, fold)
  }

  lemma {:induction false} TextLessTransitive(a: string, b: string, c: string)
    requires TextLess(a, b) && TextLess(b, c)
    ensures TextLess(a, c)
  {
    if |a| > 0 && a[0] == b[0] && b[0] == c[0] { TextLessTransitive(a[1..], b[1..], c[1..]); }
  }

  lemma {:induction false} TextLessTotal(a: string, b: string)
    ensures a == b || TextLess(a, b) || TextLess(b, a)
    ensures !(TextLess(a, b) && TextLess(b, a))
  {
    if |a| > 0 && |b| > 0 && a[0] == b[0] {
      TextLessTotal(a[1..], b[1..]);
      assert a == [a[0]] + a[1..] && b == [b[0]] + b[1..];
    }
  }

  lemma {:induction false} KeyLessTransitive(a: string, b: string, c: string)
    requires KeyLess(a, b) && KeyLess(b, c)
    ensures KeyLess(a, c)
  {
    if Priority(a) == Priority(b) == Priority(c) { TextLessTransitive(a, b, c); }
  }

  /** Selection finds a compatible wheel if there is one, and no compatible wheel has a smaller key. */
  lemma {:induction false} BestIsLeast(wheels: seq<Artifact>, fold: string -> string)
    ensures Best(wheels, fold).None? <==> forall a | a in wheels :: !Compatible(a, fold)
    ensures Best(wheels, fold).Some? ==>
              forall a | a in wheels && Compatible(a, fold) ::
                !KeyLess(KeyOf(a, fold), KeyOf(Best(wheels, fold).value, fold))
    decreases |wheels|
  {
    if |wheels| > 0 {
      var a, before := wheels[|wheels| - 1], wheels[..|wheels| - 1];
      BestIsLeast(before, fold);
      assert wheels == before + [a];
      var earlier, now := Best(before, fold), Best(wheels, fold);
      if now.Some? {
        forall x | x in wheels && Compatible(x, fold) ensures !KeyLess(KeyOf(x, fold), KeyOf(now.value, fold)) {
          if earlier.Some? && now == Some(a) && KeyLess(KeyOf(x, fold), KeyOf(a, fold)) {
            if x in before { KeyLessTransitive(KeyOf(x, fold), KeyOf(a, fold), KeyOf(earlier.value, fold)); }
            TextLessTotal(KeyOf(a, fold), KeyOf(a, fold));
          }
          TextLessTotal(KeyOf(x, fold), KeyOf(x, fold));
        }
      }
    }
  }

  /** The first wheel with the smallest key has it strictly smaller than all earlier ones. */
  lemma {:induction false} BestIsFirstLeast(wheels: seq<Artifact>, fold: string -> string) returns (i: int)
    requires Best(wheels, fold).Some?
    ensures 0 <= i < |wheels| && wheels[i] == Best(wheels, fold).value
    ensures forall j | 0 <= j < |wheels| && Compatible(wheels[j], fold) ::
              && !KeyLess(KeyOf(wheels[j], fold), KeyOf(wheels[i], fold))
              && (j < i ==> KeyOf(wheels[j], fold) != KeyOf(wheels[i], fold))
    decreases |wheels|
  {
    BestIsLeast(wheels, fold);
    var a, before := wheels[|wheels| - 1], wheels[..|wheels| - 1];
    if Best(before, fold) == Best(wheels, fold) {
      i := BestIsFirstLeast(before, fold);
    } else {
      i := |wheels| - 1;
      BestIsLeast(before, fold);
      forall j | 0 <= j < i && Compatible(wheels[j], fold) ensures KeyOf(wheels[j], fold) != KeyOf(a, fold) {
        assert wheels[j] == before[j] && before[j] in before;
      }
    }
    forall j | 0 <= j < |wheels| && Compatible(wheels[j], fold)
      ensures !KeyLess(KeyOf(wheels[j], fold), KeyOf(wheels[i], fold))
    {
      assert wheels[j] in wheels;
    }
  }

  predicate IsExact(name: string) { EndsWith(name, "-cp312-cp312-win_amd64.whl") }
  predicate IsStable(name: string) { Contains(name, "-abi3-win_amd64.whl") }
  predicate IsPure(name: string) { EndsWith(name, "-py3-none-any.whl") || EndsWith(name, "-py2.py3-none-any.whl") }

  ghost predicate SomeName(wheels: seq<Artifact>, fold: string -> string, kind: string -> bool) {
    exists a | a in wheels :: a.filename.Some? && kind(fold(a.filename.value))
  }

  /** The kind of wheel to take: built for the interpreter if there is one, else stable-ABI, else pure. */
  ghost predicate Wanted(wheels: seq<Artifact>, fold: string -> string, name: string) {
    if SomeName(wheels, fold, IsExact) then IsExact(name)
    else if SomeName(wheels, fold, IsStable) then IsStable(name)
    else IsPure(name)
  }

  /**
   Selection on file names alone: it fails exactly when some name is unreadable or no name is of the three kinds;
   otherwise it takes the first of the smallest names of the wanted kind.
   */
  lemma {:induction false} SelectionLaw(wheels: seq<Artifact>, fold: string -> string)
    ensures SelectWheel(wheels, fold).None? <==>
              || (exists a | a in wheels :: a.filename.None?)
              || (!SomeName(wheels, fold, IsExact) && !SomeName(wheels, fold, IsStable)
                  && !SomeName(wheels, fold, IsPure))
    ensures SelectWheel(wheels, fold).Some? ==>
              exists i | 0 <= i < |wheels| ::
                wheels[i] == SelectWheel(wheels, fold).value && FirstWanted(wheels, fold, i)
  {
    BestIsLeast(wheels, fold);
    if SelectWheel(wheels, fold).Some? {
      var i := BestIsFirstLeast(wheels, fold);
      LeastIsWanted(wheels, fold, i);
    }
  }

  ghost predicate FirstWanted(wheels: seq<Artifact>, fold: string -> string, i: int)
    requires 0 <= i < |wheels|
  {
    && wheels[i].filename.Some? && Wanted(wheels, fold, fold(wheels[i].filename.value))
    && forall j | 0 <= j < |wheels| && wheels[j].filename.Some?
         && Wanted(wheels, fold, fold(wheels[j].filename.value)) ::
         var name, other := fold(wheels[i].filename.value), fold(wheels[j].filename.value);
         TextLess(name, other) || (name == other && i <= j)
  }

  lemma {:induction false} LeastIsWanted(wheels: seq<Artifact>, fold: string -> string, i: int)
    requires 0 <= i < |wheels| && Compatible(wheels[i], fold)
    requires forall j | 0 <= j < |wheels| && Compatible(wheels[j], fold) ::
               && !KeyLess(KeyOf(wheels[j], fold), KeyOf(wheels[i], fold))
               && (j < i ==> KeyOf(wheels[j], fold) != KeyOf(wheels[i], fold))
    ensures FirstWanted(wheels, fold, i)
  {
    hide EndsWith, Contains, TextLess;
    var name := fold(wheels[i].filename.value);
    assert wheels[i] in wheels;
    forall a | a in wheels && Compatible(a, fold) ensures Priority(name) <= Priority(fold(a.filename.value)) {
      var j :| 0 <= j < |wheels| && wheels[j] == a;
    }
    forall j | 0 <= j < |wheels| && wheels[j].filename.Some? && Wanted(wheels, fold, fold(wheels[j].filename.value))
      ensures var other := fold(wheels[j].filename.value); TextLess(name, other) || (name == other && i <= j)
    {
      assert wheels[j] in wheels;
      var other := fold(wheels[j].filename.value);
      assert Priority(other) == Priority(name);
      TextLessTotal(name, other);
    }
  }

  predicate StandsAt(s: string, part: string, i: int) {
    0 <= i && i + |part| <= |s| && s[i..i + |part|] == part
  }

  lemma {:induction false} ContainsIff(s: string, part: string)
    ensures Contains(s, part) <==> exists i :: StandsAt(s, part, i)
    decreases |s|
  {
    if part <= s { assert StandsAt(s, part, 0); }
    if |s| > 0 {
      ContainsIff(s[1..], part);
      forall i ensures StandsAt(s[1..], part, i) ==> StandsAt(s, part, i + 1) { StandsLater(s, part, i); }
      forall i | i != 0 ensures StandsAt(s, part, i) ==> StandsAt(s[1..], part, i - 1) { StandsLater(s, part, i - 1); }
    }
  }

  lemma {:induction false} StandsLater(s: string, part: string, i: int)
    requires |s| > 0
    ensures i >= 0 ==> (StandsAt(s[1..], part, i) <==> StandsAt(s, part, i + 1))
  {
    if 0 <= i && i + 1 + |part| <= |s| { assert s[1..][i..i + |part|] == s[i + 1..i + 1 + |part|]; }
  }

  /** The texts agree before `k`, and there the first one has ended or has the smaller character. */
  predicate SmallerAt(a: string, b: string, k: int) {
    0 <= k <= |a| && k < |b| && a[..k] == b[..k] && (k == |a| || a[k] < b[k])
  }

  /** Texts are ordered by the first place where they differ; a proper prefix comes first. */
  lemma {:induction false} TextLessIff(a: string, b: string)
    ensures TextLess(a, b) <==> exists k :: SmallerAt(a, b, k)
  {
    if |b| > 0 && (|a| == 0 || a[0] < b[0]) { assert SmallerAt(a, b, 0); }
    forall k ensures SmallerAt(a, b, k) && k > 0 ==> a[0] == b[0] && SmallerAt(a[1..], b[1..], k - 1) {
      SmallerLater(a, b, k - 1);
    }
    if |a| > 0 && |b| > 0 && a[0] == b[0] {
      TextLessIff(a[1..], b[1..]);
      forall k ensures SmallerAt(a[1..], b[1..], k) ==> SmallerAt(a, b, k + 1) { SmallerLater(a, b, k); }
    }
  }

  lemma {:induction false} SmallerLater(a: string, b: string, k: int)
    ensures k >= 0 && SmallerAt(a, b, k + 1) ==> |a| > 0 && |b| > 0 && a[0] == b[0] && SmallerAt(a[1..], b[1..], k)
    ensures |a| > 0 && |b| > 0 && a[0] == b[0] && SmallerAt(a[1..], b[1..], k) ==> SmallerAt(a, b, k + 1)
  {
    if 0 <= k < |a| && k + 1 < |b| {
      assert a[..k + 1][0] == a[0] && b[..k + 1][0] == b[0];
      assert a[..k + 1][1..] == a[1..][..k] && b[..k + 1][1..] == b[1..][..k];
      assert a[..k + 1] == [a[0]] + a[1..][..k] && b[..k + 1] == [b[0]] + b[1..][..k];
    }
  }

  // ---------------------------------------------------------------------------------------
  // The two selectors

  ghost predicate SelectAlike(wheels: seq<Artifact>, w: World) {
    SelectWheel(wheels, w.lower) == SelectWheel(wheels, w.casefold)
  }

  /** The two case mappings agree on whether the first wheel is compatible and on whether it precedes the second. */
  predicate JudgedAlike(a: Artifact, b: Artifact, w: World) {
    && (Compatible(a, w.lower) <==> Compatible(a, w.casefold))
    && (Compatible(a, w.lower) && Compatible(b, w.lower) && Compatible(b, w.casefold) ==>
          (KeyLess(KeyOf(a, w.lower), KeyOf(b, w.lower)) <==> KeyLess(KeyOf(a, w.casefold), KeyOf(b, w.casefold))))
  }

  ghost predicate AllJudgedAlike(pool: set<Artifact>, w: World) {
    forall a, b | a in pool && b in pool && a.filename.Some? && b.filename.Some? :: JudgedAlike(a, b, w)
  }

  ghost predicate DrawnFrom(wheels: seq<Artifact>, pool: set<Artifact>) {
    forall a | a in wheels :: a in pool
  }

  /** The two selectors pick the same wheel from every list exactly when the case mappings judge every pair alike. */
  lemma {:induction false} SelectorsAgreeIff(pool: set<Artifact>, w: World)
    ensures (forall wheels | DrawnFrom(wheels, pool) :: SelectAlike(wheels, w)) <==> AllJudgedAlike(pool, w)
  {
    if AllJudgedAlike(pool, w) {
      forall wheels | DrawnFrom(wheels, pool) ensures SelectAlike(wheels, w) {
        if forall a: Artifact | a in wheels :: a.filename.Some? { BestAgrees(wheels, pool, w); }
      }
    }
    if forall wheels | DrawnFrom(wheels, pool) :: SelectAlike(wheels, w) {
      forall a, b | a in pool && b in pool && a.filename.Some? && b.filename.Some? ensures JudgedAlike(a, b, w) {
        assert DrawnFrom([a], pool) && DrawnFrom([b, a], pool);
        BestOfOne(a, w.lower);
        BestOfOne(a, w.casefold);
        BestOfTwo(b, a, w.lower);
        BestOfTwo(b, a, w.casefold);
      }
    }
  }

  lemma {:induction false} BestOfOne(a: Artifact, fold: string -> string)
    requires a.filename.Some?
    ensures SelectWheel([a], fold) == if Compatible(a, fold) then Some(a) else None
  {
    hide Priority;
    assert [a][..0] == [];
  }

  lemma {:induction false} BestOfTwo(a: Artifact, b: Artifact, fold: string -> string)
    requires a.filename.Some? && b.filename.Some?
    ensures Compatible(a, fold) && Compatible(b, fold) ==>
              SelectWheel([a, b], fold) == Some(if KeyLess(KeyOf(b, fold), KeyOf(a, fold)) then b else a)
    ensures KeyLess(KeyOf(a, fold), KeyOf(a, fold)) == false
  {
    hide KeyLess, Priority;
    KeyIsNotLess(KeyOf(a, fold));
    BestOfOne(a, fold);
    var wheels := [a, b];
    assert wheels[..|wheels| - 1] == [a];
    assert Best(wheels, fold) == SelectWheel(wheels, fold) && Best([a], fold) == SelectWheel([a], fold);
  }

  lemma {:induction false} KeyIsNotLess(key: string)
    ensures !KeyLess(key, key)
  {
    hide TextLess, Priority;
    TextLessTotal(key, key);
  }

  lemma {:induction false} BestAgrees(wheels: seq<Artifact>, pool: set<Artifact>, w: World)
    requires AllJudgedAlike(pool, w) && DrawnFrom(wheels, pool) && forall a | a in wheels :: a.filename.Some?
    ensures Best(wheels, w.lower) == Best(wheels, w.casefold)
    decreases |wheels|
  {
    if |wheels| > 0 {
      var before, a := wheels[..|wheels| - 1], wheels[|wheels| - 1];
      BestAgrees(before, pool, w);
      assert JudgedAlike(a, a, w);
      var earlier := Best(before, w.lower);
      if earlier.Some? { assert JudgedAlike(a, earlier.value, w); }
    }
  }

  const EXACT := "-cp312-cp312-win_amd64.whl"
  const SHARP_S: Artifact := Artifact(Some("\U{00DF}" + EXACT), IntSize(2), None)
  const LETTER_T: Artifact := Artifact(Some("t" + EXACT), IntSize(2), None)

  /** Outside ASCII they can differ: a sharp s sorts after `t` in lower case, and folds to two letters before it. */
  lemma {:induction false} SelectorsCanDiffer(w: World)
    requires w.lower("\U{00DF}" + EXACT) == "\U{00DF}" + EXACT && w.casefold("\U{00DF}" + EXACT) == "ss" + EXACT
    requires w.lower("t" + EXACT) == w.casefold("t" + EXACT) == "t" + EXACT
    ensures SelectWheel([SHARP_S, LETTER_T], w.lower) == Some(LETTER_T)
    ensures SelectWheel([SHARP_S, LETTER_T], w.casefold) == Some(SHARP_S)
  {
    BestOfTwo(SHARP_S, LETTER_T, w.lower);
    BestOfTwo(SHARP_S, LETTER_T, w.casefold);
  }

  // ---------------------------------------------------------------------------------------
  // The manifest builder

  datatype Locked = Locked(version: string, artifact: Artifact)
  datatype Entry = Entry(version: string, filename: string, size: nat, sha256: string)

  function Rendered(v: PyValue): string {
    if v.PyStr? then v.text else v.shown
  }

  /** A later package replaces an earlier one of the same normalised name. */
  function LockPackages(ps: seq<Package>, w: World): Option<map<string, Locked>> {
    if |ps| == 0 then Some(map[])
    else
      var p := ps[|ps| - 1];
      match (LockPackages(ps[..|ps| - 1], w), ManifestNameOf(p.name), SelectWheel(p.wheels, w.lower))
      case (Some(m), Some(name), Some(wheel)) => Some(m[name := Locked(Rendered(p.version), wheel)])
      case _ => None
  }

  /** A bootstrap wheel of a name already present is an error. */
  function LockBootstrap(m: map<string, Locked>, bs: seq<Bootstrap>): Option<map<string, Locked>> {
    if |bs| == 0 then Some(m)
    else
      var b := bs[|bs| - 1];
      match (LockBootstrap(m, bs[..|bs| - 1]), ManifestNameOf(b.name))
      case (Some(m'), Some(name)) =>
        if name in m' then None else Some(m'[name := Locked(Rendered(b.version), b.artifact)])
      case _ => None
  }

  function LockedWheels(lock: Lock, w: World): Option<map<string, Locked>> {
    match LockPackages(lock.packages, w)
    case None => None
    case Some(m) => LockBootstrap(m, lock.bootstrap)
  }

  /** The two loops that fill the selection; the first error ends them. */
  method SelectLocked(lock: Lock, w: World) returns (selected: Option<map<string, Locked>>)
    ensures selected == LockedWheels(lock, w)
  {
    hide SelectWheel, ManifestNameOf, Rendered;
    var ps, bs := lock.packages, lock.bootstrap;
    selected := Some(map[]);
    for k := 0 to |ps|
      invariant selected == LockPackages(ps[..k], w)
    {
      assert ps[..k + 1][..k] == ps[..k];
      var name, wheel := ManifestNameOf(ps[k].name), SelectWheel(ps[k].wheels, w.lower);
      if selected.None? || name.None? || wheel.None? {
        selected := None;
      } else {
        selected := Some(selected.value[name.value := Locked(Rendered(ps[k].version), wheel.value)]);
      }
    }
    assert ps[..|ps|] == ps;
    if selected.None? { return; }
    ghost var runtime := selected.value;
    for k := 0 to |bs|
      invariant selected == LockBootstrap(runtime, bs[..k])
    {
      assert bs[..k + 1][..k] == bs[..k];
      var name := ManifestNameOf(bs[k].name);
      if selected.None? || name.None? || name.value in selected.value {
        selected := None;
      } else {
        selected := Some(selected.value[name.value := Locked(Rendered(bs[k].version), bs[k].artifact)]);
      }
    }
    assert bs[..|bs|] == bs;
  }

  function SizeValue(s: Size): Option<int> {
    match s
    case IntSize(n) => Some(n)
    case BoolSize(b) => Some(if b then 1 else 0)
    case OtherSize => None
  }

  /** The wheel file is there, has the locked size and hash, and its contents verify. */
  predicate Materializes(a: Artifact, w: World) {
    && a.filename.Some?
    && SizeValue(a.size) == Some(|w.raw(a)|)
    && a.sha256.Some? && |a.sha256.value| == 64 && w.hash(w.raw(a)) == a.sha256.value
    && w.installs(w.raw(a)).Some?
  }

  function EntryFor(l: Locked, w: World): Entry
    requires Materializes(l.artifact, w)
  {
    var raw := w.raw(l.artifact);
    Entry(l.version, l.artifact.filename.value, |raw|, w.hash(raw))
  }

  datatype Manifest = Manifest(schema: string, target: Target, packages: map<string, Entry>, payload: string)

  const MANIFEST_SCHEMA := "windows-wheel-tree-v1"
  const MANIFEST_TARGET := Target("3.12", "CPython", "win_amd64", "x86_64")

  /** The two wheels install no file under the same key. */
  predicate Apart(a: Artifact, b: Artifact, w: World) {
    var x, y := w.installs(w.raw(a)), w.installs(w.raw(b));
    x.Some? && y.Some? ==> x.value !! y.value
  }

  /** Every wheel is there and verifies, and no installed path has two owners. */
  predicate AllMaterialize(locked: map<string, Locked>, w: World) {
    && (forall name | name in locked :: Materializes(locked[name].artifact, w))
    && (forall m, n | m in locked && n in locked && m != n :: Apart(locked[m].artifact, locked[n].artifact, w))
  }

  function PackageEntries(lock: Lock, w: World): Option<map<string, Entry>> {
    match LockedWheels(lock, w)
    case None => None
    case Some(locked) =>
      if AllMaterialize(locked, w) then Some(map name | name in locked :: EntryFor(locked[name], w)) else None
  }

  function BuildManifest(lock: Lock, w: World): Option<Manifest> {
    match PackageEntries(lock, w)
    case None => None
    case Some(entries) =>
      Some(Manifest(MANIFEST_SCHEMA, MANIFEST_TARGET, entries, w.digest(MANIFEST_SCHEMA, MANIFEST_TARGET, entries)))
  }

  // ---------------------------------------------------------------------------------------
  // The SBOM builder

  predicate IsHex64(s: string) {
    |s| == 64 && forall i | 0 <= i < 64 :: '0' <= s[i] <= '9' || 'a' <= s[i] <= 'f'
  }

  const SBOM_SCHEMA := "windows-wheel-tree-v1"
  const SBOM_TARGET := Target("3.12", "CPython", "win_amd64", "x86_64")

  /** The lock is for the target, and the manifest's schema, target and payload hash are as expected. */
  predicate HeaderPasses(lock: Lock, m: Manifest, w: World) {
    && lock.target == SBOM_TARGET
    && m.schema == SBOM_SCHEMA && m.target == SBOM_TARGET
    && m.payload == w.digest(m.schema, m.target, m.packages)
  }

  /** A plain positive size and a lower-case hexadecimal hash. */
  predicate Bindable(a: Artifact) {
    a.filename.Some? && a.size.IntSize? && a.size.n > 0 && a.sha256.Some? && IsHex64(a.sha256.value)
  }

  /** The manifest has an entry of this name that is bound to this version and this wheel. */
  predicate BoundTo(manifest: map<string, Entry>, name: string, version: string, a: Artifact)
    requires Bindable(a)
  {
    && name in manifest
    && manifest[name].version == version
    && manifest[name].filename == a.filename.value
    && manifest[name].size == a.size.n
    && manifest[name].sha256 == a.sha256.value
  }

  predicate VersionGiven(v: PyValue) {
    v.PyStr? && |v.text| > 0
  }

  function NewPackageName(seen: set<string>, p: Package, manifest: map<string, Entry>, w: World): (r: Option<string>)
    ensures r.Some? ==> SbomName(p.name) == r && p.version.PyStr? && SelectWheel(p.wheels, w.casefold).Some?
  {
    var name, wheel := SbomName(p.name), SelectWheel(p.wheels, w.casefold);
    if name.None? || name.value in seen || !VersionGiven(p.version) || wheel.None? || !Bindable(wheel.value) then None
    else if !BoundTo(manifest, name.value, p.version.text, wheel.value) then None
    else name
  }

  function NewBootstrapName(seen: set<string>, b: Bootstrap, manifest: map<string, Entry>): (r: Option<string>)
    ensures r.Some? ==> SbomName(b.name) == r && b.version.PyStr?
  {
    var name := SbomName(b.name);
    if name.None? || name.value in seen || !VersionGiven(b.version) || !Bindable(b.artifact) then None
    else if !BoundTo(manifest, name.value, b.version.text, b.artifact) then None
    else name
  }

  datatype Component = Component(name: string, version: string, artifact: Artifact, bootstrap: bool)

  ghost predicate ListsPackages(ps: seq<Package>, listed: seq<Component>, w: World) {
    |listed| == |ps| &&
    forall i | 0 <= i < |ps| ::
      && SbomName(ps[i].name) == Some(listed[i].name) && ps[i].version == PyStr(listed[i].version)
      && !listed[i].bootstrap
      && SelectWheel(ps[i].wheels, w.casefold) == Some(listed[i].artifact)
  }

  ghost predicate ListsBootstrap(bs: seq<Bootstrap>, listed: seq<Component>) {
    |listed| == |bs| &&
    forall i | 0 <= i < |bs| ::
      && SbomName(bs[i].name) == Some(listed[i].name) && bs[i].version == PyStr(listed[i].version)
      && listed[i].bootstrap
      && listed[i].artifact == bs[i].artifact
  }

  /** The loop over the runtime packages. */
  method ListPackages(ps: seq<Package>, manifest: map<string, Entry>, w: World)
    returns (seen: Option<set<string>>, listed: seq<Component>)
    ensures seen == SeenPackages(ps, manifest, w)
    ensures seen.Some? ==> |listed| == |ps| && ListsPackages(ps, listed, w)
  {
    hide NewPackageName, SelectWheel, SbomName;
    var names: set<string> := {};
    listed := [];
    for k := 0 to |ps|
      invariant SeenPackages(ps[..k], manifest, w) == Some(names)
      invariant ListsPackages(ps[..k], listed, w)
    {
      assert ps[..k + 1][..k] == ps[..k];
      var name := NewPackageName(names, ps[k], manifest, w);
      if name.None? {
        FailureStays(ps, k + 1, manifest, w);
        return None, [];
      }
      names := names + {name.value};
      var wheel := SelectWheel(ps[k].wheels, w.casefold).value;
      listed := listed + [Component(name.value, ps[k].version.text, wheel, false)];
    }
    assert ps[..|ps|] == ps;
    seen := Some(names);
  }

  /** The loop over the bootstrap wheels, which shares the set of names seen. */
  method ListBootstrap(seen0: set<string>, bs: seq<Bootstrap>, manifest: map<string, Entry>)
    returns (seen: Option<set<string>>, listed: seq<Component>)
    ensures seen == SeenBootstrap(seen0, bs, manifest)
    ensures seen.Some? ==> |listed| == |bs| && ListsBootstrap(bs, listed)
  {
    hide NewBootstrapName, SbomName;
    var names := seen0;
    listed := [];
    for k := 0 to |bs|
      invariant SeenBootstrap(seen0, bs[..k], manifest) == Some(names)
      invariant ListsBootstrap(bs[..k], listed)
    {
      assert bs[..k + 1][..k] == bs[..k];
      var name := NewBootstrapName(names, bs[k], manifest);
      if name.None? {
        BootstrapFailureStays(seen0, bs, k + 1, manifest);
        return None, [];
      }
      names := names + {name.value};
      listed := listed + [Component(name.value, bs[k].version.text, bs[k].artifact, true)];
    }
    assert bs[..|bs|] == bs;
    seen := Some(names);
  }

  ghost predicate SortedByName(cs: seq<Component>) {
    forall i, j | 0 <= i < j < |cs| :: !TextLess(cs[j].name, cs[i].name)
  }

  function InsertByName(c: Component, cs: seq<Component>): (r: seq<Component>)
    ensures multiset(r) == multiset{c} + multiset(cs)
  {
    if |cs| == 0 || TextLess(c.name, cs[0].name) then [c] + cs
    else
      assert cs == [cs[0]] + cs[1..];
      [cs[0]] + InsertByName(c, cs[1..])
  }

  function SortByName(cs: seq<Component>): (r: seq<Component>)
    ensures multiset(r) == multiset(cs)
  {
    if |cs| == 0 then []
    else
      assert cs == [cs[0]] + cs[1..];
      InsertByName(cs[0], SortByName(cs[1..]))
  }

  lemma {:induction false} InsertKeepsOrder(c: Component, cs: seq<Component>)
    requires SortedByName(cs)
    ensures SortedByName(InsertByName(c, cs))
  {
    if |cs| > 0 && !TextLess(c.name, cs[0].name) {
      InsertKeepsOrder(c, cs[1..]);
      PrependFirst(cs[0], InsertByName(c, cs[1..]), c, cs[1..]);
    } else {
      forall i | 0 <= i < |cs| ensures !TextLess(cs[i].name, c.name) {
        if i == 0 { TextLessTotal(cs[0].name, cs[0].name); }
        PrecedesAll(c.name, cs[0].name, cs[i].name);
      }
    }
  }

  /** What precedes the first of two ordered texts does not follow the second. */
  lemma {:induction false} PrecedesAll(a: string, b: string, c: string)
    requires TextLess(a, b) && !TextLess(c, b)
    ensures !TextLess(c, a)
  {
    if TextLess(c, a) { TextLessTransitive(c, a, b); }
  }

  lemma {:induction false} PrependFirst(x: Component, r: seq<Component>, c: Component, rest: seq<Component>)
    requires SortedByName(r) && multiset(r) == multiset{c} + multiset(rest) && !TextLess(c.name, x.name)
    requires forall i | 0 <= i < |rest| :: !TextLess(rest[i].name, x.name)
    ensures SortedByName([x] + r)
  {
    forall i | 0 <= i < |r| ensures !TextLess(r[i].name, x.name) {
      assert r[i] in multiset(r);
      assert r[i] == c || r[i] in rest;
    }
  }

  lemma {:induction false} SortSorts(cs: seq<Component>)
    ensures SortedByName(SortByName(cs))
  {
    if |cs| > 0 {
      SortSorts(cs[1..]);
      InsertKeepsOrder(cs[0], SortByName(cs[1..]));
    }
  }

  /** The header checks, both loops, the sort and the final comparison of the package sets. */
  method BuildSbom(lock: Lock, manifest: Manifest, w: World)
    returns (components: Option<seq<Component>>, ghost listed: seq<Component>)
    ensures components.Some? <==> SbomAccepts(lock, manifest, w)
    ensures components.Some? ==>
              && SortedByName(components.value) && multiset(components.value) == multiset(listed)
              && |listed| == |lock.packages| + |lock.bootstrap|
              && ListsPackages(lock.packages, listed[..|lock.packages|], w)
              && ListsBootstrap(lock.bootstrap, listed[|lock.packages|..])
  {
    hide ListsPackages, ListsBootstrap, SortedByName;
    listed := [];
    if !HeaderPasses(lock, manifest, w) || |lock.packages| == 0 || |lock.bootstrap| == 0 { return None, []; }
    var runtime, first := ListPackages(lock.packages, manifest.packages, w);
    if runtime.None? { return None, []; }
    var all, second := ListBootstrap(runtime.value, lock.bootstrap, manifest.packages);
    if all.None? || manifest.packages.Keys != all.value { return None, []; }
    listed := first + second;
    SortSorts(first + second);
    components := Some(SortByName(first + second));
    assert listed[..|first|] == first && listed[|first|..] == second;
  }

  function SeenPackages(ps: seq<Package>, manifest: map<string, Entry>, w: World): Option<set<string>> {
    if |ps| == 0 then Some({})
    else
      match SeenPackages(ps[..|ps| - 1], manifest, w)
      case None => None
      case Some(seen) =>
        match NewPackageName(seen, ps[|ps| - 1], manifest, w)
        case None => None
        case Some(name) => Some(seen + {name})
  }

  function SeenBootstrap(seen0: set<string>, bs: seq<Bootstrap>, manifest: map<string, Entry>): Option<set<string>> {
    if |bs| == 0 then Some(seen0)
    else
      match SeenBootstrap(seen0, bs[..|bs| - 1], manifest)
      case None => None
      case Some(seen) =>
        match NewBootstrapName(seen, bs[|bs| - 1], manifest)
        case None => None
        case Some(name) => Some(seen + {name})
  }

  predicate SbomAccepts(lock: Lock, manifest: Manifest, w: World) {
    && HeaderPasses(lock, manifest, w)
    && |lock.packages| > 0 && |lock.bootstrap| > 0
    && var runtime := SeenPackages(lock.packages, manifest.packages, w);
    && runtime.Some?
    && SeenBootstrap(runtime.value, lock.bootstrap, manifest.packages) == Some(manifest.packages.Keys)
  }

  lemma {:induction false} FailureStays(ps: seq<Package>, k: nat, manifest: map<string, Entry>, w: World)
    requires k <= |ps| && SeenPackages(ps[..k], manifest, w).None?
    ensures SeenPackages(ps, manifest, w).None?
    decreases |ps|
  {
    if k == |ps| {
      assert ps[..k] == ps;
    } else {
      assert ps[..|ps| - 1][..k] == ps[..k];
      FailureStays(ps[..|ps| - 1], k, manifest, w);
    }
  }

  lemma {:induction false} BootstrapFailureStays(seen0: set<string>, bs: seq<Bootstrap>, k: nat,
                                                 manifest: map<string, Entry>)
    requires k <= |bs| && SeenBootstrap(seen0, bs[..k], manifest).None?
    ensures SeenBootstrap(seen0, bs, manifest).None?
    decreases |bs|
  {
    if k == |bs| {
      assert bs[..k] == bs;
    } else {
      assert bs[..|bs| - 1][..k] == bs[..k];
      BootstrapFailureStays(seen0, bs[..|bs| - 1], k, manifest);
    }
  }
}
