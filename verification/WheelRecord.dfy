/**
 Verification of a wheel against its RECORD (PEP 427) and ownership of the installed paths, within one wheel
 and across wheels. Accepted wheels can be unpacked in any order.
 */
module WheelRecord {
  import opened Common
  import opened RecordHash

  type Bytes = seq<Byte>
  type Path = seq<string>          // the parts of a relative path

  datatype File = File(path: Path, content: Bytes, symlink: bool)

  datatype SizeField = Blank | Decimal(n: nat) | NotDecimal

  /** A RECORD line; a malformed one does not have three fields. */
  datatype Row = Row(path: Path, hash: string, size: SizeField) | Malformed

  /** Path and hash primitives, kept abstract. */
  datatype Env = Env(
    key: Path -> string,           // the form under which Windows compares paths
    sha: Bytes -> Bytes,
    safe: Path -> bool,            // passes the archive path policy
    scripts: Bytes -> bool,        // entry points whose console script names are valid
    forbidden: (string, Path) -> bool)

  ghost predicate Digests(env: Env) {
    forall content :: |env.sha(content)| == DIGEST_SIZE
  }

  const DIST_INFO := ".dist-info"

  predicate IsRecordPath(p: Path) {
    |p| == 2 && p[1] == "RECORD" && |p[0]| >= |DIST_INFO| && p[0][|p[0]| - |DIST_INFO|..] == DIST_INFO
  }

  function DataPrefix(record: Path): string
    requires IsRecordPath(record)
  {
    record[0][..|record[0]| - |DIST_INFO|] + ".data"
  }

  datatype Target = Library(path: Path) | Script | Unsupported

  /** Where an archive member is installed. */
  function SitePath(p: Path, dataPrefix: string): Target {
    if |p| == 0 || p[0] != dataPrefix then Library(p)
    else if |p| < 3 then Unsupported
    else if p[1] == "scripts" then Script
    else if p[1] == "purelib" || p[1] == "platlib" then Library(p[2..])
    else Unsupported
  }

  function Find(files: seq<File>, p: Path): Option<Bytes> {
    if |files| == 0 then None
    else if files[0].path == p then Some(files[0].content)
    else Find(files[1..], p)
  }

  /** Size and hash of a listed member agree with its content, and it may be installed. */
  predicate RowVerifies(files: seq<File>, record: Path, row: Row, env: Env)
    requires IsRecordPath(record)
  {
    && row.Row? && row.path != record
    && row.size.Decimal?
    && var content := Find(files, row.path);
    && content.Some?
    && DecodeRecordHash(row.hash) == Some(Hex(env.sha(content.value)))
    && row.size.n == |content.value|
    && var target := SitePath(row.path, DataPrefix(record));
    !target.Unsupported? && (target.Library? ==> !env.forbidden(record[0], target.path))
  }

  predicate RowIsSelf(record: Path, row: Row) {
    row.Row? && row.path == record && row.hash == "" && row.size.Blank?
  }

  /** A library file as it ends up on disk. */
  datatype Item = Item(key: string, path: Path, content: Bytes)

  function ItemOf(files: seq<File>, record: Path, row: Row, env: Env): Option<Item>
    requires IsRecordPath(record)
  {
    if !row.Row? || row.path == record then None
    else
      match (SitePath(row.path, DataPrefix(record)), Find(files, row.path))
      case (Library(p), Some(content)) => Some(Item(env.key(p), p, content))
      case _ => None
  }

  function Items(files: seq<File>, record: Path, rows: seq<Row>, env: Env): seq<Item>
    requires IsRecordPath(record)
  {
    if |rows| == 0 then []
    else
      var item := ItemOf(files, record, rows[|rows| - 1], env);
      Items(files, record, rows[..|rows| - 1], env) + (if item.Some? then [item.value] else [])
  }

  function Keys(items: seq<Item>): set<string> {
    set x | x in items :: x.key
  }

  function RowPaths(rows: seq<Row>): set<Path> {
    set r | r in rows && r.Row? :: r.path
  }

  function FilePaths(files: seq<File>): set<Path> {
    set f | f in files :: f.path
  }

  predicate DistinctKeys(items: seq<Item>) {
    forall i, j | 0 <= i < j < |items| :: items[i].key != items[j].key
  }

  // ---------------------------------------------------------------------------------------
  // One wheel

  /** The row is new, names a safe path and is either the blank self-row or verified without a path collision. */
  predicate RowChecks(files: seq<File>, record: Path, row: Row, seen: set<Path>, owners: set<string>, env: Env)
    requires IsRecordPath(record)
  {
    && row.Row? && row.path != [] && row.path !in seen && env.safe(row.path)
    && if row.path == record then RowIsSelf(record, row)
       else
         && RowVerifies(files, record, row, env)
         && var item := ItemOf(files, record, row, env);
         item.Some? ==> item.value.key !in owners
  }

  /** The same for the i-th row, after the rows before it. */
  predicate RowFine(files: seq<File>, record: Path, rows: seq<Row>, i: int, env: Env)
    requires IsRecordPath(record) && 0 <= i < |rows|
  {
    RowChecks(files, record, rows[i], RowPaths(rows[..i]), Keys(Items(files, record, rows[..i], env)), env)
  }

  predicate ArchiveFine(files: seq<File>, env: Env) {
    && (forall i, j | 0 <= i < j < |files| :: env.key(files[i].path) != env.key(files[j].path))
    && (forall i | 0 <= i < |files| :: env.safe(files[i].path) && !files[i].symlink)
  }

  /** The wheel's entry points, if it has any, name valid console scripts. */
  predicate ScriptsFine(files: seq<File>, record: Path, env: Env)
    requires IsRecordPath(record)
  {
    var entryPoints := Find(files, [record[0], "entry_points.txt"]);
    entryPoints.Some? ==> env.scripts(entryPoints.value)
  }

  /** What an accepted wheel satisfies. */
  predicate Accepted(files: seq<File>, record: Path, rows: seq<Row>, env: Env)
    requires IsRecordPath(record)
  {
    && ArchiveFine(files, env)
    && (forall i | 0 <= i < |rows| :: RowFine(files, record, rows, i, env))
    && (exists i | 0 <= i < |rows| :: RowIsSelf(record, rows[i]))
    && RowPaths(rows) == FilePaths(files)
    && ScriptsFine(files, record, env)
  }

  /** What the pass over the RECORD rows has collected. */
  datatype Scan = Scan(seen: set<Path>, owners: set<string>, site: seq<Item>, recordSeen: bool)

  ghost predicate Scanned(files: seq<File>, record: Path, rows: seq<Row>, s: Scan, env: Env)
    requires IsRecordPath(record)
  {
    && s.seen == RowPaths(rows)
    && s.site == Items(files, record, rows, env)
    && s.owners == Keys(s.site) && DistinctKeys(s.site)
    && (s.recordSeen <==> exists i | 0 <= i < |rows| :: RowIsSelf(record, rows[i]))
  }

  /** One row: the new sets, or nothing when a check fails. */
  method ScanRow(files: seq<File>, record: Path, rows: seq<Row>, k: int, s: Scan, env: Env) returns (next: Option<Scan>)
    requires IsRecordPath(record) && 0 <= k < |rows| && Scanned(files, record, rows[..k], s, env)
    ensures next.Some? <==> RowFine(files, record, rows, k, env)
    ensures next.Some? ==> Scanned(files, record, rows[..k + 1], next.value, env)
  {
    hide RowVerifies, SitePath, Find, ItemOf, RowIsSelf;
    var row := rows[k];
    PrefixSteps(files, record, rows, k, env);
    if !RowChecks(files, record, row, s.seen, s.owners, env) { return None; }
    var item := ItemOf(files, record, row, env);
    SelfRowHasNoItem(files, record, row, env);
    var owners, site := s.owners, s.site;
    if item.Some? {
      AppendDistinct(site, item.value);
      owners := owners + {item.value.key};
      site := site + [item.value];
    }
    next := Some(Scan(s.seen + {row.path}, owners, site, s.recordSeen || RowIsSelf(record, row)));
  }

  /** The pass over all rows, then the completeness checks. */
  method VerifyWheel(files: seq<File>, record: Path, rows: seq<Row>, env: Env) returns (items: Option<seq<Item>>)
    requires IsRecordPath(record)
    ensures items.Some? <==> Accepted(files, record, rows, env)
    ensures items.Some? ==> items.value == Items(files, record, rows, env) && DistinctKeys(items.value)
  {
    hide RowChecks, Items, RowPaths, Keys, RowIsSelf, RowFine, ScriptsFine;
    if !ArchiveFine(files, env) { return None; }
    EmptyScan(files, record, rows, env);
    var s := Scan({}, {}, [], false);
    for k := 0 to |rows|
      invariant Scanned(files, record, rows[..k], s, env)
      invariant forall i | 0 <= i < k :: RowFine(files, record, rows, i, env)
    {
      var next := ScanRow(files, record, rows, k, s, env);
      if next.None? { return None; }
      s := next.value;
    }
    assert rows[..|rows|] == rows;
    if !s.recordSeen || s.seen != FilePaths(files) || !ScriptsFine(files, record, env) { return None; }
    return Some(s.site);
  }

  function RecordCandidates(files: seq<File>): (r: seq<Path>)
    ensures forall p | p in r :: IsRecordPath(p) && Find(files, p).Some?
  {
    if |files| == 0 then []
    else (if IsRecordPath(files[0].path) then [files[0].path] else []) + RecordCandidates(files[1..])
  }

  /** The archive has one RECORD, and is accepted with the rows read from it. */
  predicate Inspects(files: seq<File>, parse: Bytes -> seq<Row>, env: Env) {
    && |RecordCandidates(files)| == 1
    && var record := RecordCandidates(files)[0];
    Accepted(files, record, parse(Find(files, record).value), env)
  }

  /** The whole wheel: exactly one RECORD, whose parsed rows account for every member. */
  method InspectWheel(files: seq<File>, parse: Bytes -> seq<Row>, env: Env) returns (items: Option<seq<Item>>)
    ensures items.Some? <==> Inspects(files, parse, env)
    ensures items.Some? ==> DistinctKeys(items.value)
  {
    hide Accepted;
    var candidates := RecordCandidates(files);
    if |candidates| != 1 { return None; }
    items := VerifyWheel(files, candidates[0], parse(Find(files, candidates[0]).value), env);
  }

  lemma {:induction false} EmptyScan(files: seq<File>, record: Path, rows: seq<Row>, env: Env)
    requires IsRecordPath(record)
    ensures Scanned(files, record, rows[..0], Scan({}, {}, [], false), env)
  {
  }

  lemma {:induction false} SelfRowHasNoItem(files: seq<File>, record: Path, row: Row, env: Env)
    requires IsRecordPath(record)
    ensures row.Row? && row.path == record ==> ItemOf(files, record, row, env).None?
  {
  }

  lemma {:induction false} PrefixSteps(files: seq<File>, record: Path, rows: seq<Row>, k: int, env: Env)
    requires IsRecordPath(record) && 0 <= k < |rows|
    ensures rows[..k + 1] == rows[..k] + [rows[k]]
    ensures RowPaths(rows[..k + 1]) == RowPaths(rows[..k]) + (if rows[k].Row? then {rows[k].path} else {})
    ensures var item := ItemOf(files, record, rows[k], env);
            Items(files, record, rows[..k + 1], env)
            == Items(files, record, rows[..k], env) + (if item.Some? then [item.value] else [])
  {
    assert rows[..k + 1][..k] == rows[..k];
  }

  lemma {:induction false} AppendDistinct(items: seq<Item>, item: Item)
    requires DistinctKeys(items) && item.key !in Keys(items)
    ensures DistinctKeys(items + [item]) && Keys(items + [item]) == Keys(items) + {item.key}
  {
    forall i | 0 <= i < |items| ensures items[i].key != item.key {
      assert items[i] in items;
    }
  }

  /** Members and rows of an accepted wheel correspond one to one, with canonical hash and exact size. */
  lemma {:induction false} RowsMatchFiles(files: seq<File>, record: Path, rows: seq<Row>, env: Env)
    requires IsRecordPath(record) && Accepted(files, record, rows, env) && Digests(env)
    ensures forall i | 0 <= i < |rows| :: rows[i].Row? && rows[i].path in FilePaths(files)
    ensures forall i, j | 0 <= i < j < |rows| :: rows[i].path != rows[j].path
    ensures forall i, j | 0 <= i < j < |files| :: files[i].path != files[j].path
    ensures forall k | 0 <= k < |files| ::
              exists i | 0 <= i < |rows| ::
                rows[i].Row? && rows[i].path == files[k].path
                && (files[k].path != record ==>
                      && rows[i].hash == ALGORITHM + Encode(env.sha(files[k].content))
                      && rows[i].size == Decimal(|files[k].content|))
  {
    forall i | 0 <= i < |rows| ensures rows[i].Row? && rows[i].path in FilePaths(files) {
      assert RowFine(files, record, rows, i, env);
      assert rows[i] in rows;
      assert rows[i].path in RowPaths(rows);
    }
    forall i, j | 0 <= i < j < |rows| ensures rows[i].path != rows[j].path {
      assert RowFine(files, record, rows, i, env) && RowFine(files, record, rows, j, env);
      assert rows[i] in rows[..j];
    }
    forall k | 0 <= k < |files|
      ensures exists i | 0 <= i < |rows| ::
                rows[i].Row? && rows[i].path == files[k].path
                && (files[k].path != record ==>
                      && rows[i].hash == ALGORITHM + Encode(env.sha(files[k].content))
                      && rows[i].size == Decimal(|files[k].content|))
    {
      RowOfFile(files, record, rows, k, env);
    }
  }

  lemma {:induction false} FindAt(files: seq<File>, k: int)
    requires 0 <= k < |files| && forall i, j | 0 <= i < j < |files| :: files[i].path != files[j].path
    ensures Find(files, files[k].path) == Some(files[k].content)
    decreases |files|
  {
    if k > 0 { FindAt(files[1..], k - 1); }
  }

  lemma {:induction false} RowOfFile(files: seq<File>, record: Path, rows: seq<Row>, k: int, env: Env)
    requires IsRecordPath(record) && Accepted(files, record, rows, env) && Digests(env) && 0 <= k < |files|
    ensures exists i | 0 <= i < |rows| ::
              rows[i].Row? && rows[i].path == files[k].path
              && (files[k].path != record ==>
                    && rows[i].hash == ALGORITHM + Encode(env.sha(files[k].content))
                    && rows[i].size == Decimal(|files[k].content|))
  {
    hide DecodeRecordHash, SitePath;
    assert files[k] in files && files[k].path in FilePaths(files);
    var row :| row in rows && row.Row? && row.path == files[k].path;
    var i :| 0 <= i < |rows| && rows[i] == row;
    assert RowFine(files, record, rows, i, env);
    FindAt(files, k);
    if files[k].path != record {
      AcceptsExactlyCanonical(row.hash, env.sha(files[k].content));
    }
  }

  /**
   What acceptance means for one member: no symbolic link, a safe path, and, except for RECORD itself, a place: outside
   the wheel's data directory where it is, inside it below `purelib` or `platlib` without those two parts, or a script.
   No library file may be a forbidden one.
   */
  lemma {:induction false} AcceptedMember(files: seq<File>, record: Path, rows: seq<Row>, k: int, env: Env)
    requires IsRecordPath(record) && Accepted(files, record, rows, env) && 0 <= k < |files|
    ensures !files[k].symlink && env.safe(files[k].path)
    ensures files[k].path != record ==> Placed(files[k].path, record, env)
    ensures files[k].path == [record[0], "entry_points.txt"] ==> env.scripts(files[k].content)
  {
    hide DecodeRecordHash, SitePath, DataPrefix, Placed;
    FindAt(files, k);
    assert files[k] in files && files[k].path in FilePaths(files);
    var row :| row in rows && row.Row? && row.path == files[k].path;
    var i :| 0 <= i < |rows| && rows[i] == row;
    assert RowFine(files, record, rows, i, env);
    if files[k].path != record { PlacedByRow(files[k].path, record, env); }
  }

  ghost predicate Placed(p: Path, record: Path, env: Env)
    requires IsRecordPath(record)
  {
    var data := record[0][..|record[0]| - 10] + ".data";
    if |p| > 0 && p[0] == data then
      && |p| >= 3
      && (p[1] == "scripts" || ((p[1] == "purelib" || p[1] == "platlib") && !env.forbidden(record[0], p[2..])))
    else !env.forbidden(record[0], p)
  }

  lemma {:induction false} PlacedByRow(p: Path, record: Path, env: Env)
    requires IsRecordPath(record)
    requires var target := SitePath(p, DataPrefix(record));
             !target.Unsupported? && (target.Library? ==> !env.forbidden(record[0], target.path))
    ensures Placed(p, record, env)
  {
    assert |DIST_INFO| == 10;
  }

  /** And where an item ends up: the member's own path, or what is left of it below `purelib` or `platlib`. */
  lemma {:induction false} ItemPath(files: seq<File>, record: Path, row: Row, env: Env)
    requires IsRecordPath(record) && ItemOf(files, record, row, env).Some?
    ensures var item := ItemOf(files, record, row, env).value;
            && row.Row? && row.path != record
            && item.key == env.key(item.path) && Find(files, row.path) == Some(item.content)
            && (if |row.path| > 0 && row.path[0] == record[0][..|record[0]| - 10] + ".data"
                then |row.path| >= 3 && (row.path[1] == "purelib" || row.path[1] == "platlib")
                    && item.path == row.path[2..]
                else item.path == row.path)
  {
    assert |DIST_INFO| == 10;
  }
}
