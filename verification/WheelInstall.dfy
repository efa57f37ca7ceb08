/** Ownership of installed paths across wheels, and unpacking in any order. */
module WheelInstall {
  import opened Common
  import opened WheelRecord

  // ---------------------------------------------------------------------------------------
  // Ownership across packages

  datatype Owner = Owner(package: string, path: Path)

  function AllItems(packages: seq<seq<Item>>): seq<Item> {
    if |packages| == 0 then [] else AllItems(packages[..|packages| - 1]) + packages[|packages| - 1]
  }

  /** Records the owner of every installed path; a path that is already owned is an error. */
  method MergeOwners(names: seq<string>, packages: seq<seq<Item>>) returns (owners: Option<map<string, Owner>>)
    requires |names| == |packages|
    requires forall i | 0 <= i < |packages| :: DistinctKeys(packages[i])
    ensures owners.Some? <==> DistinctKeys(AllItems(packages))
    ensures owners.Some? ==> owners.value.Keys == Keys(AllItems(packages))
    ensures owners.Some? ==>
              forall i, k | 0 <= i < |packages| && 0 <= k < |packages[i]| ::
                && packages[i][k].key in owners.value
                && owners.value[packages[i][k].key] == Owner(names[i], packages[i][k].path)
  {
    var all: map<string, Owner> := map[];
    for i := 0 to |packages|
      invariant DistinctKeys(AllItems(packages[..i]))
      invariant all.Keys == Keys(AllItems(packages[..i]))
      invariant forall j, k | 0 <= j < i && 0 <= k < |packages[j]| ::
                  packages[j][k].key in all && all[packages[j][k].key] == Owner(names[j], packages[j][k].path)
    {
      assert packages[..i + 1][..i] == packages[..i];
      var next := AddOwners(names[i], AllItems(packages[..i]), packages[i], all);
      if next.None? {
        CollisionStays(packages, i + 1);
        return None;
      }
      forall j, k | 0 <= j < i && 0 <= k < |packages[j]|
        ensures packages[j][k].key in next.value
                && next.value[packages[j][k].key] == Owner(names[j], packages[j][k].path)
      {
        assert packages[j][k].key in all;
      }
      all := next.value;
    }
    assert packages[..|packages|] == packages;
    owners := Some(all);
  }

  /** The inner loop: the paths of one package. */
  method AddOwners(name: string, earlier: seq<Item>, items: seq<Item>, all: map<string, Owner>)
    returns (next: Option<map<string, Owner>>)
    requires DistinctKeys(earlier) && DistinctKeys(items) && all.Keys == Keys(earlier)
    ensures next.Some? <==> DistinctKeys(earlier + items)
    ensures next.Some? ==> next.value.Keys == Keys(earlier + items)
    ensures next.Some? ==> forall key | key in all :: key in next.value && next.value[key] == all[key]
    ensures next.Some? ==>
              forall k | 0 <= k < |items| ::
                items[k].key in next.value && next.value[items[k].key] == Owner(name, items[k].path)
  {
    hide DistinctKeys, Keys;
    var now := all;
    assert earlier + items[..0] == earlier;
    for k := 0 to |items|
      invariant DistinctKeys(earlier + items[..k])
      invariant now.Keys == Keys(earlier + items[..k])
      invariant forall key | key in all :: key in now && now[key] == all[key]
      invariant forall j | 0 <= j < k :: items[j].key in now && now[items[j].key] == Owner(name, items[j].path)
    {
      var item := items[k];
      assert earlier + items[..k + 1] == earlier + items[..k] + [item];
      if item.key in now {
        KeyTaken(earlier, items, k);
        return None;
      }
      AppendDistinct(earlier + items[..k], item);
      now := now[item.key := Owner(name, item.path)];
    }
    assert items[..|items|] == items;
    next := Some(now);
  }

  lemma {:induction false} KeyTaken(earlier: seq<Item>, items: seq<Item>, k: int)
    requires 0 <= k < |items| && items[k].key in Keys(earlier + items[..k])
    ensures !DistinctKeys(earlier + items)
  {
    var x :| x in earlier + items[..k] && x.key == items[k].key;
    var i :| 0 <= i < |earlier + items[..k]| && (earlier + items[..k])[i] == x;
    assert (earlier + items)[i] == x && (earlier + items)[|earlier| + k] == items[k];
  }

  lemma {:induction false} CollisionStays(packages: seq<seq<Item>>, n: int)
    requires 0 <= n <= |packages| && !DistinctKeys(AllItems(packages[..n]))
    ensures !DistinctKeys(AllItems(packages))
    decreases |packages|
  {
    if n == |packages| {
      assert packages[..n] == packages;
    } else {
      var before := packages[..|packages| - 1];
      assert before[..n] == packages[..n];
      CollisionStays(before, n);
      var i, j :| 0 <= i < j < |AllItems(before)| && AllItems(before)[i].key == AllItems(before)[j].key;
      assert AllItems(packages)[i] == AllItems(before)[i] && AllItems(packages)[j] == AllItems(before)[j];
    }
  }

  // ---------------------------------------------------------------------------------------
  // Unpacking

  type Tree = map<string, Bytes>

  /** Unpacks files one after the other; a file with the key of an earlier one would overwrite it. */
  function Unpack(items: seq<Item>): Tree {
    if |items| == 0 then map[]
    else Unpack(items[..|items| - 1])[items[|items| - 1].key := items[|items| - 1].content]
  }

  lemma {:induction false} UnpackKeys(items: seq<Item>)
    ensures Unpack(items).Keys == Keys(items)
    decreases |items|
  {
    if |items| > 0 {
      var before, x := items[..|items| - 1], items[|items| - 1];
      UnpackKeys(before);
      assert items == before + [x];
      assert Keys(items) == Keys(before) + {x.key};
    }
  }

  /** With distinct keys every file is still there at the end. */
  lemma {:induction false} UnpackHolds(items: seq<Item>, i: int)
    requires DistinctKeys(items) && 0 <= i < |items|
    ensures items[i].key in Unpack(items) && Unpack(items)[items[i].key] == items[i].content
    decreases |items|
  {
    if i < |items| - 1 {
      UnpackHolds(items[..|items| - 1], i);
    }
  }

  lemma {:induction false} TwiceCounts(items: seq<Item>, i: int, j: int)
    requires 0 <= i < j < |items| && items[i] == items[j]
    ensures multiset(items)[items[i]] >= 2
  {
    assert items == items[..j] + items[j..];
    assert items[i] in items[..j] && items[j] in items[j..];
  }

  lemma {:induction false} DistinctCountsOnce(items: seq<Item>, x: Item)
    requires DistinctKeys(items)
    ensures multiset(items)[x] <= 1
    decreases |items|
  {
    if |items| > 0 {
      var before, last := items[..|items| - 1], items[|items| - 1];
      DistinctCountsOnce(before, x);
      assert items == before + [last];
      assert forall i | 0 <= i < |before| :: before[i].key != last.key;
    }
  }

  lemma {:induction false} PermutationIsDistinct(items: seq<Item>, order: seq<Item>)
    requires DistinctKeys(items) && multiset(order) == multiset(items)
    ensures DistinctKeys(order)
  {
    forall i, j | 0 <= i < j < |order| ensures order[i].key != order[j].key {
      assert order[i] in multiset(items) && order[j] in multiset(items);
      var a :| 0 <= a < |items| && items[a] == order[i];
      var b :| 0 <= b < |items| && items[b] == order[j];
      if a == b {
        TwiceCounts(order, i, j);
        DistinctCountsOnce(items, order[i]);
      }
    }
  }

  lemma {:induction false} UpdatedSize(t: Tree, key: string, content: Bytes)
    ensures |t[key := content]| == if key in t then |t| else |t| + 1
  {
    assert t[key := content].Keys == t.Keys + {key};
    assert |t[key := content]| == |t[key := content].Keys| && |t| == |t.Keys|;
  }

  /** A tree has as many files as were unpacked exactly when no key occurs twice. */
  lemma {:induction false} UnpackSize(items: seq<Item>)
    ensures |Unpack(items)| <= |items|
    ensures |Unpack(items)| == |items| <==> DistinctKeys(items)
    decreases |items|
  {
    hide DistinctKeys, Keys;
    if |items| == 0 {
      NoneDistinct();
    } else {
      var before, x := items[..|items| - 1], items[|items| - 1];
      UnpackSize(before);
      UnpackKeys(before);
      UpdatedSize(Unpack(before), x.key, x.content);
      DistinctSnoc(before, x);
      assert items == before + [x];
    }
  }

  lemma {:induction false} NoneDistinct()
    ensures DistinctKeys([])
  {
  }

  lemma {:induction false} DistinctSnoc(items: seq<Item>, x: Item)
    ensures DistinctKeys(items + [x]) <==> DistinctKeys(items) && x.key !in Keys(items)
  {
    DistinctTogether(items, [x]);
    assert [x][0].key == x.key;
  }

  lemma {:induction false} SameKeys(items: seq<Item>, order: seq<Item>)
    requires multiset(order) == multiset(items)
    ensures Keys(items) == Keys(order)
  {
    forall x: Item ensures x in items <==> x in order { assert x in multiset(items) <==> x in multiset(order); }
  }

  lemma {:induction false} UnpackHoldsAll(items: seq<Item>, order: seq<Item>, i: int)
    requires DistinctKeys(order) && multiset(order) == multiset(items) && 0 <= i < |items|
    ensures items[i].key in Unpack(order) && Unpack(order)[items[i].key] == items[i].content
  {
    assert items[i] in multiset(order);
    var j :| 0 <= j < |order| && order[j] == items[i];
    UnpackHolds(order, j);
  }

  /** Any order of unpacking files with distinct keys gives the same tree, and nothing is overwritten. */
  lemma {:induction false} AnyOrderSameTree(items: seq<Item>, order: seq<Item>)
    requires DistinctKeys(items) && multiset(order) == multiset(items)
    ensures Unpack(order) == Unpack(items)
    ensures forall i | 0 <= i < |items| ::
              items[i].key in Unpack(order) && Unpack(order)[items[i].key] == items[i].content
    ensures |Unpack(order)| == |items|
  {
    hide Unpack, DistinctKeys;
    PermutationIsDistinct(items, order);
    UnpackKeys(items);
    UnpackKeys(order);
    SameKeys(items, order);
    forall i | 0 <= i < |items|
      ensures items[i].key in Unpack(order)
              && Unpack(order)[items[i].key] == items[i].content == Unpack(items)[items[i].key]
    {
      UnpackHoldsAll(items, order, i);
      UnpackHolds(items, i);
    }
    SameEntries(items, Unpack(order), Unpack(items));
    UnpackSize(items);
  }

  lemma {:induction false} SameEntries(items: seq<Item>, s: Tree, t: Tree)
    requires s.Keys == t.Keys == Keys(items) && forall i | 0 <= i < |items| :: s[items[i].key] == t[items[i].key]
    ensures s == t
  {
    forall key | key in s ensures s[key] == t[key] {
      var x :| x in items && x.key == key;
      var i :| 0 <= i < |items| && items[i] == x;
    }
  }

  // ---------------------------------------------------------------------------------------
  // Directories

  /** Some directory above the first path has the key of the second. */
  predicate Below(p: Path, q: Path, env: Env) {
    exists n | 0 < n < |p| :: env.key(p[..n]) == env.key(q)
  }

  /** One of the two files would have to be a directory for the other. */
  predicate Clash(x: Item, y: Item, env: Env) {
    Below(x.path, y.path, env) || Below(y.path, x.path, env)
  }

  predicate NoClash(items: seq<Item>, env: Env) {
    forall i, j | 0 <= i < j < |items| :: !Clash(items[i], items[j], env)
  }

  /** Writes files one after the other; fails where a file stands for a directory or a directory for a file. */
  function Install(items: seq<Item>, env: Env): Option<Tree> {
    if |items| == 0 then Some(map[])
    else
      var before, x := items[..|items| - 1], items[|items| - 1];
      match Install(before, env)
      case None => None
      case Some(tree) => if exists y | y in before :: Clash(y, x, env) then None else Some(tree[x.key := x.content])
  }

  lemma {:induction false} InstallIsUnpack(items: seq<Item>, env: Env)
    ensures Install(items, env) == if NoClash(items, env) then Some(Unpack(items)) else None
    decreases |items|
  {
    hide Clash;
    if |items| > 0 {
      var before, x := items[..|items| - 1], items[|items| - 1];
      InstallIsUnpack(before, env);
      if y :| y in before && Clash(y, x, env) {
        var i :| 0 <= i < |before| && before[i] == y;
        assert Clash(items[i], items[|items| - 1], env);
      } else {
        forall i | 0 <= i < |before| ensures !Clash(items[i], x, env) { assert before[i] in before; }
      }
    }
  }

  lemma {:induction false} PermutationNoClash(items: seq<Item>, order: seq<Item>, env: Env)
    requires DistinctKeys(items) && NoClash(items, env) && multiset(order) == multiset(items)
    ensures NoClash(order, env)
  {
    PermutationIsDistinct(items, order);
    forall i, j | 0 <= i < j < |order| ensures !Clash(order[i], order[j], env) {
      assert order[i] in multiset(items) && order[j] in multiset(items);
      var a :| 0 <= a < |items| && items[a] == order[i];
      var b :| 0 <= b < |items| && items[b] == order[j];
      assert !Clash(items[a], items[b], env);
    }
  }

  ghost predicate Arranges(order: seq<Item>, items: seq<Item>) {
    multiset(order) == multiset(items)
  }

  /** Installing in this order succeeds and leaves every file in place, with its own content and its own entry. */
  ghost predicate Complete(order: seq<Item>, items: seq<Item>, env: Env) {
    var tree := Install(order, env);
    && tree.Some? && |tree.value| == |items|
    && forall i | 0 <= i < |items| :: items[i].key in tree.value && tree.value[items[i].key] == items[i].content
  }

  /** Every order installs everything exactly when keys are distinct and no file lies below another. */
  lemma {:induction false} CompleteInAnyOrderIff(items: seq<Item>, env: Env)
    ensures (forall order | Arranges(order, items) :: Complete(order, items, env))
            <==> DistinctKeys(items) && NoClash(items, env)
  {
    hide NoClash, DistinctKeys, Install, Unpack;
    if DistinctKeys(items) && NoClash(items, env) {
      forall order | Arranges(order, items) ensures Complete(order, items, env) {
        PermutationNoClash(items, order, env);
        InstallIsUnpack(order, env);
        AnyOrderSameTree(items, order);
      }
    }
    assert Arranges(items, items);
    InstallIsUnpack(items, env);
    UnpackSize(items);
  }

  // ---------------------------------------------------------------------------------------
  // From archives to the tree

  datatype Wheel = Wheel(files: seq<File>, record: Path, rows: seq<Row>)

  ghost predicate AcceptedWheel(w: Wheel, env: Env) {
    IsRecordPath(w.record) && Accepted(w.files, w.record, w.rows, env)
  }

  ghost predicate AllAccepted(wheels: seq<Wheel>, env: Env) {
    forall i | 0 <= i < |wheels| :: AcceptedWheel(wheels[i], env)
  }

  /** What the ownership check looks at: the installed files that RECORD lists with a hash. */
  ghost function ItemsOf(wheels: seq<Wheel>, env: Env): (r: seq<seq<Item>>)
    requires AllAccepted(wheels, env)
    ensures |r| == |wheels|
  {
    seq(|wheels|, i requires 0 <= i < |wheels| && AcceptedWheel(wheels[i], env) =>
      Items(wheels[i].files, wheels[i].record, wheels[i].rows, env))
  }

  /** What it does not look at: the RECORD files themselves. */
  ghost function RecordItem(w: Wheel, env: Env): Item {
    var content := Find(w.files, w.record);
    Item(env.key(w.record), w.record, if content.Some? then content.value else [])
  }

  ghost function RecordItems(wheels: seq<Wheel>, env: Env): (r: seq<Item>)
    ensures |r| == |wheels| && forall i | 0 <= i < |wheels| :: r[i] == RecordItem(wheels[i], env)
  {
    seq(|wheels|, i requires 0 <= i < |wheels| => RecordItem(wheels[i], env))
  }

  /** Every file that unpacking the wheels puts into the library directory. */
  ghost function AllFiles(wheels: seq<Wheel>, env: Env): seq<Item>
    requires AllAccepted(wheels, env)
  {
    AllItems(ItemsOf(wheels, env)) + RecordItems(wheels, env)
  }

  /** The RECORD paths have keys of their own, apart from each other and from all owned paths. */
  ghost predicate RecordsApart(wheels: seq<Wheel>, env: Env)
    requires AllAccepted(wheels, env)
  {
    && (forall i, j | 0 <= i < j < |wheels| :: env.key(wheels[i].record) != env.key(wheels[j].record))
    && (forall i | 0 <= i < |wheels| :: env.key(wheels[i].record) !in Keys(AllItems(ItemsOf(wheels, env))))
  }

  lemma {:induction false} ItemOfRowIsListed(files: seq<File>, record: Path, rows: seq<Row>, i: int, env: Env)
    requires IsRecordPath(record) && 0 <= i < |rows| && ItemOf(files, record, rows[i], env).Some?
    ensures ItemOf(files, record, rows[i], env).value in Items(files, record, rows, env)
    decreases |rows|
  {
    if i < |rows| - 1 { ItemOfRowIsListed(files, record, rows[..|rows| - 1], i, env); }
  }

  lemma {:induction false} ListedInAll(packages: seq<seq<Item>>, i: int, x: Item)
    requires 0 <= i < |packages| && x in packages[i]
    ensures x in AllItems(packages)
    decreases |packages|
  {
    if i < |packages| - 1 { ListedInAll(packages[..|packages| - 1], i, x); }
  }

  /** A library member other than RECORD is among the items of its wheel. */
  lemma {:induction false} ListedMember(w: Wheel, k: int, env: Env)
    requires AcceptedWheel(w, env) && 0 <= k < |w.files| && w.files[k].path != w.record
    requires SitePath(w.files[k].path, DataPrefix(w.record)).Library?
    ensures var p := SitePath(w.files[k].path, DataPrefix(w.record)).path;
            Item(env.key(p), p, w.files[k].content) in Items(w.files, w.record, w.rows, env)
  {
    hide RowFine, SitePath, DataPrefix;
    var file := w.files[k];
    assert file in w.files && file.path in FilePaths(w.files);
    var row :| row in w.rows && row.Row? && row.path == file.path;
    var i :| 0 <= i < |w.rows| && w.rows[i] == row;
    FindAt(w.files, k);
    ItemOfRowIsListed(w.files, w.record, w.rows, i, env);
  }

  /** RECORD itself is installed where it is archived. */
  lemma {:induction false} RecordIsLibrary(record: Path)
    requires IsRecordPath(record)
    ensures SitePath(record, DataPrefix(record)) == Library(record)
  {
    assert |DataPrefix(record)| != |record[0]|;
  }

  /** Every library member of every archive, RECORD included, is among the files to install. */
  lemma {:induction false} MemberIsInstalled(wheels: seq<Wheel>, i: int, k: int, env: Env)
    requires AllAccepted(wheels, env) && 0 <= i < |wheels| && 0 <= k < |wheels[i].files|
    requires SitePath(wheels[i].files[k].path, DataPrefix(wheels[i].record)).Library?
    ensures var p := SitePath(wheels[i].files[k].path, DataPrefix(wheels[i].record)).path;
            Item(env.key(p), p, wheels[i].files[k].content) in AllFiles(wheels, env)
  {
    hide Accepted, SitePath, DataPrefix, Items, AllItems;
    var w := wheels[i];
    assert AcceptedWheel(w, env);
    if w.files[k].path == w.record {
      RecordIsLibrary(w.record);
      RecordContent(w, k, env);
      assert RecordItems(wheels, env)[i] in RecordItems(wheels, env);
    } else {
      var p := SitePath(w.files[k].path, DataPrefix(w.record)).path;
      ListedMember(w, k, env);
      ListedInAll(ItemsOf(wheels, env), i, Item(env.key(p), p, w.files[k].content));
    }
  }

  lemma {:induction false} RecordContent(w: Wheel, k: int, env: Env)
    requires AcceptedWheel(w, env) && 0 <= k < |w.files| && w.files[k].path == w.record
    ensures RecordItem(w, env) == Item(env.key(w.record), w.record, w.files[k].content)
  {
    FindAt(w.files, k);
  }

  lemma {:induction false} DistinctTogether(a: seq<Item>, b: seq<Item>)
    ensures DistinctKeys(a + b) <==>
              DistinctKeys(a) && DistinctKeys(b) && forall i | 0 <= i < |b| :: b[i].key !in Keys(a)
  {
    var c := a + b;
    if DistinctKeys(c) {
      forall i, j | 0 <= i < j < |a| ensures a[i].key != a[j].key { assert c[i].key != c[j].key; }
      forall i, j | 0 <= i < j < |b| ensures b[i].key != b[j].key { assert c[|a| + i].key != c[|a| + j].key; }
      forall i, x | 0 <= i < |b| && x in a ensures b[i].key != x.key {
        var j :| 0 <= j < |a| && a[j] == x;
        assert c[j].key != c[|a| + i].key;
      }
    }
    if DistinctKeys(a) && DistinctKeys(b) && forall i | 0 <= i < |b| :: b[i].key !in Keys(a) {
      forall i, j | 0 <= i < j < |c| ensures c[i].key != c[j].key {
        if i < |a| && |a| <= j { assert a[i] in a && b[j - |a|].key !in Keys(a); }
      }
    }
  }

  /** Unpacking in this order succeeds and leaves every library member of every archive in place. */
  ghost predicate AllInstalled(wheels: seq<Wheel>, order: seq<Item>, env: Env)
    requires AllAccepted(wheels, env)
  {
    && Complete(order, AllFiles(wheels, env), env)
    && forall i, k | 0 <= i < |wheels| && 0 <= k < |wheels[i].files|
                     && SitePath(wheels[i].files[k].path, DataPrefix(wheels[i].record)).Library? ::
         var key := env.key(SitePath(wheels[i].files[k].path, DataPrefix(wheels[i].record)).path);
         key in Install(order, env).value && Install(order, env).value[key] == wheels[i].files[k].content
  }

  lemma {:induction false} CompleteIsAllInstalled(wheels: seq<Wheel>, order: seq<Item>, env: Env)
    requires AllAccepted(wheels, env)
    ensures AllInstalled(wheels, order, env) <==> Complete(order, AllFiles(wheels, env), env)
  {
    hide Accepted, SitePath, DataPrefix, Items, AllItems, Install, AllFiles;
    if Complete(order, AllFiles(wheels, env), env) {
      forall i, k | 0 <= i < |wheels| && 0 <= k < |wheels[i].files|
                    && SitePath(wheels[i].files[k].path, DataPrefix(wheels[i].record)).Library?
        ensures var key := env.key(SitePath(wheels[i].files[k].path, DataPrefix(wheels[i].record)).path);
                key in Install(order, env).value && Install(order, env).value[key] == wheels[i].files[k].content
      {
        MemberIsInstalled(wheels, i, k, env);
        var p := SitePath(wheels[i].files[k].path, DataPrefix(wheels[i].record)).path;
        var x := Item(env.key(p), p, wheels[i].files[k].content);
        var n :| 0 <= n < |AllFiles(wheels, env)| && AllFiles(wheels, env)[n] == x;
      }
    }
  }

  /**
   End to end: for accepted wheels whose owners could be merged, unpacking all library files in any order leaves
   every one of them in place, RECORD files included, if and only if the RECORD paths have keys of their own and
   no file lies below another.
   */
  lemma {:induction false} EveryFileIsInstalledIff(wheels: seq<Wheel>, env: Env)
    requires AllAccepted(wheels, env) && DistinctKeys(AllItems(ItemsOf(wheels, env)))
    ensures (forall order | Arranges(order, AllFiles(wheels, env)) :: AllInstalled(wheels, order, env))
            <==> RecordsApart(wheels, env) && NoClash(AllFiles(wheels, env), env)
  {
    hide Complete, AllInstalled, NoClash, AllAccepted, AllItems, Arranges;
    forall order ensures AllInstalled(wheels, order, env) <==> Complete(order, AllFiles(wheels, env), env) {
      CompleteIsAllInstalled(wheels, order, env);
    }
    CompleteInAnyOrderIff(AllFiles(wheels, env), env);
    DistinctTogether(AllItems(ItemsOf(wheels, env)), RecordItems(wheels, env));
  }
}
