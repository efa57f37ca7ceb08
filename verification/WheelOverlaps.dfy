/** Accepted wheels that overwrite or obstruct each other: what the ownership check does not look at. */
module WheelOverlaps {
  import opened Common
  import opened RecordHash
  import opened WheelRecord
  import opened WheelInstall

  /** The rows that list a RECORD and one more member. */
  function SingleRows(record: Path, member: Path, content: Bytes, env: Env): seq<Row> {
    [Row(record, "", Blank), Row(member, ALGORITHM + Encode(env.sha(content)), Decimal(|content|))]
  }

  /** A wheel with its RECORD, of the given bytes, and one more member. */
  function SingleWheel(record: Path, bytes: Bytes, member: Path, content: Bytes, env: Env): Wheel {
    Wheel([File(record, bytes, false), File(member, content, false)], record, SingleRows(record, member, content, env))
  }

  /** The member is a library file that the path policies let through beside its RECORD. */
  ghost predicate Allowed(record: Path, member: Path, env: Env) {
    && IsRecordPath(record) && member != [] && !IsRecordPath(member) && member != [record[0], "entry_points.txt"]
    && env.safe(record) && env.safe(member) && env.key(member) != env.key(record)
    && var target := SitePath(member, DataPrefix(record));
    target.Library? && !env.forbidden(record[0], target.path)
  }

  lemma {:induction false} SingleItems(record: Path, bytes: Bytes, member: Path, content: Bytes, env: Env)
    requires IsRecordPath(record) && member != record && SitePath(member, DataPrefix(record)).Library?
    ensures var w := SingleWheel(record, bytes, member, content, env);
            var p := SitePath(member, DataPrefix(record)).path;
            && Items(w.files, record, w.rows[..0], env) == Items(w.files, record, w.rows[..1], env) == []
            && Items(w.files, record, w.rows, env) == [Item(env.key(p), p, content)]
  {
    hide SitePath, DataPrefix;
    var w := SingleWheel(record, bytes, member, content, env);
    assert w.rows[..0] == [] && w.rows[..1][..0] == [] && w.rows[..1][0] == w.rows[0];
    assert w.rows[..|w.rows| - 1] == w.rows[..1];
    assert w.files[1..][0] == w.files[1];
    assert Find(w.files, member) == Find(w.files[1..], member) == Some(content);
  }

  lemma {:induction false} SingleScripts(record: Path, bytes: Bytes, member: Path, content: Bytes, env: Env)
    requires Allowed(record, member, env)
    ensures ScriptsFine(SingleWheel(record, bytes, member, content, env).files, record, env)
  {
    hide SitePath, DataPrefix;
    var files := SingleWheel(record, bytes, member, content, env).files;
    var entryPoints: Path := [record[0], "entry_points.txt"];
    assert record[1] == "RECORD" && entryPoints[1] == "entry_points.txt" && "RECORD"[0] != "entry_points.txt"[0];
    assert Find(files[1..][1..], entryPoints) == None;
    assert Find(files, entryPoints) == Find(files[1..], entryPoints) == None;
  }

  lemma {:induction false} SingleIsAccepted(record: Path, bytes: Bytes, member: Path, content: Bytes, env: Env)
    requires Allowed(record, member, env) && Digests(env)
    ensures AcceptedWheel(SingleWheel(record, bytes, member, content, env), env)
  {
    hide SitePath, DataPrefix, DecodeRecordHash, Encode, ScriptsFine;
    SingleScripts(record, bytes, member, content, env);
    var w := SingleWheel(record, bytes, member, content, env);
    SingleItems(record, bytes, member, content, env);
    AcceptsExactlyCanonical(w.rows[1].hash, env.sha(content));
    assert w.files[1..][0] == w.files[1];
    assert Find(w.files, member) == Find(w.files[1..], member) == Some(content);
    assert w.rows[..0] == [] && w.rows[..1] == [w.rows[0]];
    assert RowFine(w.files, record, w.rows, 0, env) && RowFine(w.files, record, w.rows, 1, env);
    assert RowIsSelf(record, w.rows[0]);
    assert RowPaths(w.rows) == FilePaths(w.files) by {
      assert w.rows[0] in w.rows && w.rows[1] in w.rows && w.files[0] in w.files && w.files[1] in w.files;
    }
  }

  /** Its RECORD is the only one, and if the bytes of it parse to these rows, the archive passes inspection. */
  lemma {:induction false} SingleInspects(record: Path, bytes: Bytes, member: Path, content: Bytes,
                                          parse: Bytes -> seq<Row>, env: Env)
    requires Allowed(record, member, env) && Digests(env) && parse(bytes) == SingleRows(record, member, content, env)
    ensures Inspects(SingleWheel(record, bytes, member, content, env).files, parse, env)
  {
    hide SitePath, DataPrefix, Accepted, SingleRows;
    SingleIsAccepted(record, bytes, member, content, env);
    var files := SingleWheel(record, bytes, member, content, env).files;
    assert files[1..][0] == files[1] && files[1..][1..] == [];
    assert RecordCandidates(files[1..][1..]) == [] && RecordCandidates(files[1..]) == [];
    assert RecordCandidates(files) == [record];
  }

  const RECORD_PATH: Path := ["f.dist-info", "RECORD"]
  const OTHER_RECORD: Path := ["g.dist-info", "RECORD"]
  const SHADOW_PATH: Path := ["f.data", "purelib", "f.dist-info", "RECORD"]

  lemma {:induction false} ShadowTarget()
    ensures IsRecordPath(RECORD_PATH) && IsRecordPath(OTHER_RECORD)
    ensures DataPrefix(RECORD_PATH) == "f.data" && DataPrefix(OTHER_RECORD) == "g.data"
    ensures SitePath(SHADOW_PATH, DataPrefix(RECORD_PATH)) == Library(RECORD_PATH)
  {
    assert RECORD_PATH[0][|RECORD_PATH[0]| - |DIST_INFO|..] == DIST_INFO;
    assert "g.dist-info"[|"g.dist-info"| - |DIST_INFO|..] == DIST_INFO;
    assert "f.dist-info"[..1] == "f" && "g.dist-info"[..1] == "g";
    assert SHADOW_PATH[2..] == RECORD_PATH;
  }

  /**
   A wheel that passes inspection may install a library file over its own RECORD, whose path has no recorded owner;
   which of the two is left then depends on the order of unpacking.
   */
  lemma {:induction false} RecordCanBeOverwritten(bytes: Bytes, content: Bytes, parse: Bytes -> seq<Row>, env: Env)
    requires Allowed(RECORD_PATH, SHADOW_PATH, env) && Digests(env) && content != bytes
    requires parse(bytes) == SingleRows(RECORD_PATH, SHADOW_PATH, content, env)
    ensures var wheels := [SingleWheel(RECORD_PATH, bytes, SHADOW_PATH, content, env)];
            var shadow := Item(env.key(RECORD_PATH), RECORD_PATH, content);
            var record := Item(env.key(RECORD_PATH), RECORD_PATH, bytes);
            && Inspects(wheels[0].files, parse, env)
            && AllAccepted(wheels, env) && DistinctKeys(AllItems(ItemsOf(wheels, env)))
            && Arranges([shadow, record], AllFiles(wheels, env)) && Arranges([record, shadow], AllFiles(wheels, env))
            && Unpack([shadow, record]) != Unpack([record, shadow])
            && !RecordsApart(wheels, env)
  {
    hide AcceptedWheel, Items, SitePath, DataPrefix, Inspects, SingleRows;
    ShadowTarget();
    SingleInspects(RECORD_PATH, bytes, SHADOW_PATH, content, parse, env);
    SingleIsAccepted(RECORD_PATH, bytes, SHADOW_PATH, content, env);
    SingleItems(RECORD_PATH, bytes, SHADOW_PATH, content, env);
    var wheels := [SingleWheel(RECORD_PATH, bytes, SHADOW_PATH, content, env)];
    var shadow := Item(env.key(RECORD_PATH), RECORD_PATH, content);
    var record := Item(env.key(RECORD_PATH), RECORD_PATH, bytes);
    assert ItemsOf(wheels, env) == [[shadow]];
    assert AllItems([[shadow]]) == [shadow] by { assert [[shadow]][..0] == [] && AllItems([]) == []; }
    assert RecordItems(wheels, env) == [record];
    assert AllFiles(wheels, env) == [shadow, record];
    TwoOrders(shadow, record);
    assert shadow in [shadow];
  }

  lemma {:induction false} TwoOrders(x: Item, y: Item)
    requires x.key == y.key && x.content != y.content
    ensures Unpack([x, y])[x.key] == y.content && Unpack([y, x])[x.key] == x.content
  {
    assert [x, y][..1] == [x] && [y, x][..1] == [y];
  }

  /** A pair of wheels, each with one member. */
  function Pair(b: Bytes, c: Bytes, b': Bytes, c': Bytes, env: Env): seq<Wheel> {
    [SingleWheel(RECORD_PATH, b, ["a"], c, env), SingleWheel(OTHER_RECORD, b', ["a", "b"], c', env)]
  }

  /** Two wheels that pass inspection and of which one installs a file where the other needs a directory. */
  lemma {:induction false} FileCanLieBelowFile(b: Bytes, c: Bytes, b': Bytes, c': Bytes, parse: Bytes -> seq<Row>,
                                               env: Env)
    requires Allowed(RECORD_PATH, ["a"], env) && Allowed(OTHER_RECORD, ["a", "b"], env) && Digests(env)
    requires parse(b) == SingleRows(RECORD_PATH, ["a"], c, env)
    requires parse(b') == SingleRows(OTHER_RECORD, ["a", "b"], c', env)
    requires KeysDiffer(env)
    ensures var wheels := Pair(b, c, b', c', env);
            && Inspects(wheels[0].files, parse, env) && Inspects(wheels[1].files, parse, env)
            && AllAccepted(wheels, env) && DistinctKeys(AllItems(ItemsOf(wheels, env)))
            && RecordsApart(wheels, env) && !NoClash(AllFiles(wheels, env), env)
  {
    hide AcceptedWheel, Items, DataPrefix, SitePath, AllItems, NoClash, SingleWheel, Find, Allowed, Inspects,
         SingleRows, KeysDiffer;
    var wheels := Pair(b, c, b', c', env);
    var x, y := Item(env.key(["a"]), ["a"], c), Item(env.key(["a", "b"]), ["a", "b"], c');
    SingleInspects(RECORD_PATH, b, ["a"], c, parse, env);
    SingleInspects(OTHER_RECORD, b', ["a", "b"], c', parse, env);
    SingleIsAccepted(RECORD_PATH, b, ["a"], c, env);
    SingleIsAccepted(OTHER_RECORD, b', ["a", "b"], c', env);
    PlainItems(RECORD_PATH, b, ["a"], c, env);
    PlainItems(OTHER_RECORD, b', ["a", "b"], c', env);
    assert ItemsOf(wheels, env) == [[x], [y]];
    AllOfTwo(x, y);
    BelowClashes(AllFiles(wheels, env), x, y, env);
    KeysApart(x, y, env);
  }

  /** The four paths have different keys. */
  ghost predicate KeysDiffer(env: Env) {
    var p, q, r, s := env.key(["a"]), env.key(["a", "b"]), env.key(RECORD_PATH), env.key(OTHER_RECORD);
    p != q && p != r && p != s && q != r && q != s && r != s
  }

  /** A member outside the data directory is installed where it is. */
  lemma {:induction false} PlainItems(record: Path, bytes: Bytes, member: Path, content: Bytes, env: Env)
    requires Allowed(record, member, env) && member[0] == "a" && (record == RECORD_PATH || record == OTHER_RECORD)
    ensures var w := SingleWheel(record, bytes, member, content, env);
            && w.record == record
            && Items(w.files, w.record, w.rows, env) == [Item(env.key(member), member, content)]
  {
    hide Items;
    ShadowTarget();
    SingleItems(record, bytes, member, content, env);
  }

  lemma {:induction false} KeysApart(x: Item, y: Item, env: Env)
    requires KeysDiffer(env) && x.key == env.key(["a"]) && y.key == env.key(["a", "b"])
    ensures DistinctKeys([x, y]) && env.key(RECORD_PATH) != env.key(OTHER_RECORD)
    ensures env.key(RECORD_PATH) !in Keys([x, y]) && env.key(OTHER_RECORD) !in Keys([x, y])
  {
  }

  lemma {:induction false} AllOfTwo(x: Item, y: Item)
    ensures AllItems([[x], [y]]) == [x, y]
  {
    assert [[x], [y]][..1] == [[x]] && [[x]][..0] == [];
    assert AllItems([[x]]) == [x];
  }

  lemma {:induction false} BelowClashes(files: seq<Item>, x: Item, y: Item, env: Env)
    requires |files| >= 2 && files[0] == x && files[1] == y && x.path == ["a"] && y.path == ["a", "b"]
    ensures !NoClash(files, env)
  {
    assert ["a", "b"][..1] == ["a"];
    assert Below(y.path, x.path, env);
    assert Clash(files[0], files[1], env);
  }
}
