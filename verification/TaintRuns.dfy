/**
 Every name that the closure taints can be bound to the broker module in some run, as long as no two variables of the
 program differ in case only; with such twins the closure taints more than any run reaches.
 */
module TaintRuns {
  import opened Common
  import opened PythonSyntax
  import opened StaticStrings
  import opened OrderTaint
  import opened TaintReach

  // ---------------------------------------------------------------------------------------
  // One culprit is enough

  /** An order-capable expression is so because of one tainted name, or whatever the names. */
  ghost predicate Culprit(e: Expr, tainted: set<string>, fold: Fold) {
    OrderCapable(e, {}, fold) || exists n | n in tainted :: OrderCapable(e, {n}, fold)
  }

  lemma {:induction false} OneCulprit(e: Expr, tainted: set<string>, fold: Fold)
    requires OrderCapable(e, tainted, fold)
    ensures Culprit(e, tainted, fold)
    decreases e, 1
  {
    hide StaticString;
    match e
    case Name(id) => assert OrderCapable(e, {fold(id)}, fold);
    case Attribute(value, _) => if OrderCapable(value, tainted, fold) { OneCulprit(value, tainted, fold); }
    case Subscript(value, _) => OneCulprit(value, tainted, fold);
    case Call(_, args, _) =>
      if |args| > 0 && OrderCapable(args[0], tainted, fold) { OneCulprit(args[0], tainted, fold); }
    case ListLit(elts) => CulpritPart(e, elts, tainted, fold);
    case SetLit(elts) => CulpritPart(e, elts, tainted, fold);
    case TupleLit(elts) => CulpritPart(e, elts, tainted, fold);
    case DictLit(keys, values) =>
      if exists x | x in keys :: OrderCapable(x, tainted, fold) {
        CulpritPart(e, keys, tainted, fold);
      } else {
        CulpritPart(e, values, tainted, fold);
      }
  }

  lemma {:induction false} CulpritPart(e: Expr, elts: seq<Expr>, tainted: set<string>, fold: Fold)
    requires (forall x | x in elts :: x < e) && exists x | x in elts :: OrderCapable(x, tainted, fold)
    ensures (exists x | x in elts :: OrderCapable(x, {}, fold))
            || exists n | n in tainted :: exists x | x in elts :: OrderCapable(x, {n}, fold)
    decreases e, 0
  {
    hide OrderCapable;
    var x :| x in elts && OrderCapable(x, tainted, fold);
    OneCulprit(x, tainted, fold);
  }

  // ---------------------------------------------------------------------------------------
  // Binding hands the module on

  /** Every one of these variables reaches the module. */
  ghost predicate Reached(env: Env, names: set<string>) {
    forall x | x in names :: x in env && Reaches(env[x])
  }

  function TargetNames(targets: seq<Expr>): set<string> {
    if |targets| == 0 then {} else AssignedNames(targets[0]) + TargetNames(targets[1..])
  }

  lemma {:induction false} TargetNamesHold(targets: seq<Expr>, t: Expr)
    requires t in targets
    ensures AssignedNames(t) <= TargetNames(targets)
  {
    if t != targets[0] { TargetNamesHold(targets[1..], t); }
  }

  lemma {:induction false} DisplayNames(target: Expr)
    requires target.ListLit? || target.TupleLit?
    ensures AssignedNames(target) <= TargetNames(target.elts)
  {
    forall n | n in AssignedNames(target) ensures n in TargetNames(target.elts) {
      var t :| t in target.elts && n in AssignedNames(t);
      TargetNamesHold(target.elts, t);
    }
  }

  /** Binding a reaching value makes all its names reach, and spoils none. */
  lemma {:induction false} BindReaches(target: Expr, v: Value, env: Env, w: World, fold: Fold, names: set<string>)
    requires PlainTarget(target) && HandsOn(w, fold) && Reaches(v) && Reached(env, names)
    ensures Bind(target, v, env, w).1
    ensures Reached(Bind(target, v, env, w).0, names + AssignedNames(target))
    ensures env.Keys <= Bind(target, v, env, w).0.Keys
    decreases target, 0
  {
    if target.ListLit? || target.TupleLit? {
      var elts := target.elts;
      HandsAccess(w, fold, v, "", v, |elts|);
      hide HandsOn;
      BindAllReaches(elts, w.unpack(v, |elts|).value, env, w, fold, names);
      DisplayNames(target);
    }
  }

  lemma {:induction false} BindAllReaches(targets: seq<Expr>, vs: seq<Value>, env: Env, w: World, fold: Fold,
                                          names: set<string>)
    requires |targets| == |vs| && (forall t | t in targets :: PlainTarget(t)) && HandsOn(w, fold)
    requires (forall i | 0 <= i < |vs| :: Reaches(vs[i])) && Reached(env, names)
    ensures BindAll(targets, vs, env, w).1
    ensures Reached(BindAll(targets, vs, env, w).0, names + TargetNames(targets))
    ensures env.Keys <= BindAll(targets, vs, env, w).0.Keys
    decreases targets, 0
  {
    hide HandsOn, Reaches, PlainTarget, AssignedNames;
    if |targets| > 0 {
      BindReaches(targets[0], vs[0], env, w, fold, names);
      BindAllReaches(targets[1..], vs[1..], Bind(targets[0], vs[0], env, w).0, w, fold,
          names + AssignedNames(targets[0]));
      assert names + TargetNames(targets) == names + AssignedNames(targets[0]) + TargetNames(targets[1..]);
    } else {
      assert names + TargetNames(targets) == names;
    }
  }

  // ---------------------------------------------------------------------------------------
  // Programs

  /** The variable that an alias binds. */
  function BoundVariable(a: Alias, isFrom: bool): string {
    if isFrom || LoadedModule(a) == a.name then BoundName(a) else LoadedModule(a)
  }

  /** The variables that a statement mentions. */
  function Mentioned(s: Stmt): set<string> {
    match s
    case Import(names) => set a | a in names :: BoundVariable(a, false)
    case ImportFrom(_, names) => set a | a in names :: BoundVariable(a, true)
    case Parameters(_) => {}
    case Assign(targets, value) => TargetNames(targets) + (if value.Some? then NamesIn(value.value) else {})
  }

  /** No import statement binds one variable twice. */
  ghost predicate BindsOnce(s: Stmt) {
    && (s.Import? ==> forall i, j | 0 <= i < j < |s.names| ::
                        BoundVariable(s.names[i], false) != BoundVariable(s.names[j], false))
    && (s.ImportFrom? ==> forall i, j | 0 <= i < j < |s.names| ::
                            BoundVariable(s.names[i], true) != BoundVariable(s.names[j], true))
  }

  /** No assignment raises once all variables are bound. */
  ghost predicate Evaluates(s: Stmt, vars: set<string>, fold: Fold) {
    s.Assign? && s.value.Some? ==> forall env: Env | vars <= env.Keys :: Eval(s.value.value, env, Generous(fold)).Some?
  }

  ghost predicate NoTwins(vars: set<string>, fold: Fold) {
    forall x, y | x in vars && y in vars && fold(x) == fold(y) :: x == y
  }

  /** The programs of the converse, over these variables. */
  ghost predicate Regular(program: seq<Stmt>, vars: set<string>, fold: Fold) {
    && FoldsConstants(fold) && NoTwins(vars, fold)
    && forall s | s in program ::
         && TrackedStmt(s) && !StarImportsBroker(s, fold) && BindsOnce(s) && Evaluates(s, vars, fold)
         && Mentioned(s) <= vars
  }

  /** All variables bound, and only those with a fixed name to the module. */
  function Fresh(vars: set<string>, fold: Fold): Env {
    map x | x in vars :: if fold(x) in ORDER_CAPABLE_NAMES then Module else Opaque
  }

  /** After this schedule the variable reaches the module, and all variables are still bound. */
  ghost predicate ReachedBy(program: seq<Stmt>, schedule: seq<(nat, World)>, vars: set<string>, x: string, fold: Fold) {
    && LawfulSchedule(program, schedule, fold)
    && var env := Run(program, schedule, Fresh(vars, fold), fold);
    vars <= env.Keys && x in env && Reaches(env[x])
  }

  ghost predicate Reachable(program: seq<Stmt>, vars: set<string>, n: string, fold: Fold) {
    exists schedule, x :: x in vars && fold(x) == n && ReachedBy(program, schedule, vars, x, fold)
  }

  lemma {:induction false} RunSnoc(program: seq<Stmt>, schedule: seq<(nat, World)>, step: (nat, World), env: Env,
                                   fold: Fold)
    requires (forall s | s in schedule :: s.0 < |program|) && step.0 < |program|
    ensures Run(program, schedule + [step], env, fold)
            == Execute(program[step.0], Run(program, schedule, env, fold), step.1, fold)
  {
    hide Execute;
    if |schedule| == 0 {
      assert schedule + [step] == [step] && [step][1..] == [];
    } else {
      assert (schedule + [step])[1..] == schedule[1..] + [step];
      RunSnoc(program, schedule[1..], step, Execute(program[schedule[0].0], env, schedule[0].1, fold), fold);
    }
  }

  /** One more statement, in the generous world. */
  lemma {:induction false} OneMore(program: seq<Stmt>, schedule: seq<(nat, World)>, s: Stmt, vars: set<string>,
                                   x: string,
                                   fold: Fold)
    requires LawfulSchedule(program, schedule, fold) && s in program && FoldsConstants(fold) && x in vars
    requires var env := Execute(s, Run(program, schedule, Fresh(vars, fold), fold), Generous(fold), fold);
             vars <= env.Keys && x in env && Reaches(env[x])
    ensures Reachable(program, vars, fold(x), fold)
  {
    hide Execute, Lawful, Generous, Reaches;
    var i :| 0 <= i < |program| && program[i] == s;
    GenerousIsLawful(fold);
    RunSnoc(program, schedule, (i, Generous(fold)), Fresh(vars, fold), fold);
    assert ReachedBy(program, schedule + [(i, Generous(fold))], vars, x, fold);
  }

  // ---------------------------------------------------------------------------------------
  // Seeds

  /** Imports that do not bind a variable leave it alone. */
  lemma {:induction false} ImportKeeps(names: seq<Alias>, from: Option<string>, env: Env, w: World, fold: Fold,
                                       x: string)
    requires forall a | a in names :: x !in Bindings(a, from, w, fold)
    ensures x in env ==> x in ImportAll(names, from, env, w, fold) && ImportAll(names, from, env, w, fold)[x] == env[x]
    ensures env.Keys <= ImportAll(names, from, env, w, fold).Keys
    decreases |names|
  {
    hide Bindings;
    if |names| > 0 { ImportKeeps(names[1..], from, env + Bindings(names[0], from, w, fold), w, fold, x); }
  }

  lemma {:induction false} ImportGrows(names: seq<Alias>, from: Option<string>, env: Env, w: World, fold: Fold)
    ensures env.Keys <= ImportAll(names, from, env, w, fold).Keys
    decreases |names|
  {
    hide Bindings;
    if |names| > 0 { ImportGrows(names[1..], from, env + Bindings(names[0], from, w, fold), w, fold); }
  }

  /** What an alias binds stays if no later alias binds it again. */
  lemma {:induction false} ImportBinds(names: seq<Alias>, from: Option<string>, env: Env, w: World, fold: Fold, k: int,
                                       x: string)
    requires 0 <= k < |names| && x in Bindings(names[k], from, w, fold)
    requires forall j | k < j < |names| :: x !in Bindings(names[j], from, w, fold)
    ensures x in ImportAll(names, from, env, w, fold)
    ensures ImportAll(names, from, env, w, fold)[x] == Bindings(names[k], from, w, fold)[x]
    decreases |names|
  {
    hide Bindings;
    var env' := env + Bindings(names[0], from, w, fold);
    if k == 0 {
      ImportKeeps(names[1..], from, env', w, fold, x);
    } else {
      ImportBinds(names[1..], from, env', w, fold, k - 1, x);
    }
  }

  lemma {:induction false} OneBinding(a: Alias, from: Option<string>, w: World, fold: Fold)
    requires from.Some? ==> a.name != "*"
    ensures Bindings(a, from, w, fold).Keys == {BoundVariable(a, from.Some?)}
  {
  }

  /** The variable that a seeding alias binds reaches the module. */
  lemma {:induction false} SeedValue(a: Alias, from: Option<string>, fold: Fold)
    requires FoldsConstants(fold) && fold(if from.Some? then from.value else a.name) == "metatrader5"
    requires if from.Some? then a.name != "*" else fold(BoundName(a)) !in ORDER_CAPABLE_NAMES
    ensures var b := Bindings(a, from, Generous(fold), fold);
            && BoundVariable(a, from.Some?) == BoundName(a)
            && BoundName(a) in b && Reaches(b[BoundName(a)])
  {
    GenerousIsLawful(fold);
    hide Generous;
    HandsAccess(Generous(fold), fold, Module, a.name, Module, 0);
  }

  lemma {:induction false} AliasReachable(program: seq<Stmt>, vars: set<string>, s: Stmt, names: seq<Alias>,
                                          from: Option<string>, k: int, fold: Fold)
    requires FoldsConstants(fold) && s in program
             && s == (if from.None? then Import(names) else ImportFrom(from.value, names))
    requires BindsOnce(s) && Mentioned(s) <= vars && !StarImportsBroker(s, fold)
    requires 0 <= k < |names| && fold(if from.Some? then from.value else names[k].name) == "metatrader5"
    requires fold(BoundName(names[k])) !in ORDER_CAPABLE_NAMES
    ensures Reachable(program, vars, fold(BoundName(names[k])), fold)
  {
    hide Generous, Bindings, Reachable, LoadedModule, Reaches;
    var w, a := Generous(fold), names[k];
    assert a in names;
    SeedValue(a, from, fold);
    var x := BoundName(a);
    assert x in Mentioned(s);
    forall j | k < j < |names| ensures x !in Bindings(names[j], from, w, fold) {
      assert names[j] in names;
      OneBinding(names[j], from, w, fold);
    }
    ImportBinds(names, from, Fresh(vars, fold), w, fold, k, x);
    ImportGrows(names, from, Fresh(vars, fold), w, fold);
    assert Execute(s, Fresh(vars, fold), w, fold) == ImportAll(names, from, Fresh(vars, fold), w, fold);
    OneMore(program, [], s, vars, x, fold);
  }

  lemma {:induction false} SeedReachable(program: seq<Stmt>, vars: set<string>, s: Stmt, n: string, fold: Fold)
    requires Regular(program, vars, fold) && s in program && n in SeedsOf(s, fold) && n !in ORDER_CAPABLE_NAMES
    ensures Reachable(program, vars, n, fold)
  {
    hide Reachable, TrackedStmt, Evaluates, NoTwins, BindsOnce, Mentioned, StarImportsBroker;
    match s
    case Import(names) =>
      var a :| a in names && fold(a.name) == "metatrader5" && fold(BoundName(a)) == n;
      var k :| 0 <= k < |names| && names[k] == a;
      AliasReachable(program, vars, s, names, None, k, fold);
    case ImportFrom(moduleName, names) =>
      var a :| a in names && fold(BoundName(a)) == n;
      var k :| 0 <= k < |names| && names[k] == a;
      AliasReachable(program, vars, s, names, Some(moduleName), k, fold);
  }

  // ---------------------------------------------------------------------------------------
  // Assignments

  lemma {:induction false} ExecuteReaches(s: Stmt, env: Env, w: World, x: string, fold: Fold)
    requires s.Assign? && s.value.Some? && TrackedStmt(s) && HandsOn(w, fold) && x in TargetNames(s.targets)
    requires Yields(s.value.value, env, w)
    ensures var after := Execute(s, env, w, fold); env.Keys <= after.Keys && x in after && Reaches(after[x])
  {
    hide HandsOn, Reaches, Eval, Tracked, PlainTarget;
    var v := Eval(s.value.value, env, w).value;
    var vs := seq(|s.targets|, _ => v);
    BindAllReaches(s.targets, vs, env, w, fold, {});
    assert Execute(s, env, w, fold) == BindAll(s.targets, vs, env, w).0;
    assert x in {} + TargetNames(s.targets);
  }

  /** An assignment whose value reaches the module makes its targets reach it. */
  lemma {:induction false} AssignReachable(program: seq<Stmt>, vars: set<string>, schedule: seq<(nat, World)>, s: Stmt,
                                           x: string, fold: Fold)
    requires Regular(program, vars, fold) && s in program && s.Assign? && s.value.Some?
    requires LawfulSchedule(program, schedule, fold) && x in TargetNames(s.targets)
    requires var env := Run(program, schedule, Fresh(vars, fold), fold);
             vars <= env.Keys && Yields(s.value.value, env, Generous(fold))
    ensures Reachable(program, vars, fold(x), fold)
  {
    hide Reachable, Generous, Reaches, NoTwins, Evaluates, Run, Lawful, HandsOn, Execute, TrackedStmt, Yields;
    GenerousIsLawful(fold);
    ExecuteReaches(s, Run(program, schedule, Fresh(vars, fold), fold), Generous(fold), x, fold);
    OneMore(program, schedule, s, vars, x, fold);
  }

  /** The value yields the module after a schedule that makes the culprit reach it. */
  lemma {:induction false} CulpritReaches(program: seq<Stmt>, vars: set<string>, s: Stmt, n: string, x: string,
                                          fold: Fold)
    requires Regular(program, vars, fold) && s in program && s.Assign? && s.value.Some?
    requires OrderCapable(s.value.value, {n}, fold) && Reachable(program, vars, n, fold) && x in TargetNames(s.targets)
    ensures Reachable(program, vars, fold(x), fold)
  {
    hide OrderCapable, Eval, Run, Reaches;
    var schedule, y :| y in vars && fold(y) == n && ReachedBy(program, schedule, vars, y, fold);
    var e, env := s.value.value, Run(program, schedule, Fresh(vars, fold), fold);
    assert Mentioned(s) <= vars && Evaluates(s, vars, fold) && TrackedStmt(s);
    assert Armed(e, env, {n}, fold);
    GenerousIsLawful(fold);
    CapableYields(e, env, Generous(fold), {n}, fold);
    AssignReachable(program, vars, schedule, s, x, fold);
  }

  /** The same from the start, for the fixed names. */
  lemma {:induction false} FixedReaches(program: seq<Stmt>, vars: set<string>, s: Stmt, x: string, fold: Fold)
    requires Regular(program, vars, fold) && s in program && s.Assign? && s.value.Some?
    requires OrderCapable(s.value.value, ORDER_CAPABLE_NAMES, fold) && x in TargetNames(s.targets)
    ensures Reachable(program, vars, fold(x), fold)
  {
    hide OrderCapable, Eval;
    var e, env := s.value.value, Fresh(vars, fold);
    assert Run(program, [], env, fold) == env;
    assert Mentioned(s) <= vars && Evaluates(s, vars, fold) && TrackedStmt(s);
    assert Armed(e, env, ORDER_CAPABLE_NAMES, fold);
    GenerousIsLawful(fold);
    CapableYields(e, env, Generous(fold), ORDER_CAPABLE_NAMES, fold);
    AssignReachable(program, vars, [], s, x, fold);
  }

  lemma {:induction false} DerivedReachable(program: seq<Stmt>, vars: set<string>, s: Stmt, known: set<string>,
                                            m: string,
                                            fold: Fold)
    requires Regular(program, vars, fold) && s in program && m in Derived(s, known, fold)
    requires forall n | n in known && n !in ORDER_CAPABLE_NAMES :: Reachable(program, vars, n, fold)
    ensures Reachable(program, vars, m, fold)
  {
    hide Regular, Reachable, OrderCapable, AssignedNames;
    var t, x :| t in s.targets && x in AssignedNames(t) && fold(x) == m;
    TargetNamesHold(s.targets, t);
    var e := s.value.value;
    OneCulprit(e, known, fold);
    if OrderCapable(e, {}, fold) {
      OrderCapableMonotone(e, {}, ORDER_CAPABLE_NAMES, fold);
      FixedReaches(program, vars, s, x, fold);
    } else {
      var n :| n in known && OrderCapable(e, {n}, fold);
      if n in ORDER_CAPABLE_NAMES {
        OrderCapableMonotone(e, {n}, ORDER_CAPABLE_NAMES, fold);
        FixedReaches(program, vars, s, x, fold);
      } else {
        CulpritReaches(program, vars, s, n, x, fold);
      }
    }
  }

  /**
   Every name of the least set outside the fixed ones has a variable of the program and a lawful schedule that binds it
   to something that reaches the broker module.
   */
  lemma {:induction false} EveryTaintedNameIsReachable(program: seq<Stmt>, vars: set<string>, tainted: set<string>,
                                                       n: string, fold: Fold)
    requires Regular(program, vars, fold) && IsLeast(program, tainted, fold) && n in tainted
             && n !in ORDER_CAPABLE_NAMES
    ensures Reachable(program, vars, n, fold)
  {
    hide Regular, Reachable, Derived, SeedsOf;
    var known := ORDER_CAPABLE_NAMES + set m | m in tainted && Reachable(program, vars, m, fold);
    forall s | s in program ensures SeedsOf(s, fold) <= known {
      forall m | m in SeedsOf(s, fold) ensures m in known {
        if m !in ORDER_CAPABLE_NAMES { SeedReachable(program, vars, s, m, fold); }
      }
    }
    forall s | s in program ensures Derived(s, known, fold) <= known {
      DerivedMonotone(s, known, tainted, fold);
      forall m | m in Derived(s, known, fold) ensures m in known {
        DerivedReachable(program, vars, s, known, m, fold);
      }
    }
    assert HasSeeds(program, known, fold) && Closed(program, known, fold);
  }

  // ---------------------------------------------------------------------------------------
  // Twins

  /** `import MetaTrader5 as Foo` and `y = foo`. */
  const TWINS: seq<Stmt> := [Import([Alias("MetaTrader5", Some("Foo"))]), Assign([Name("y")], Some(Name("foo")))]

  predicate FoldsTwins(fold: Fold) {
    FoldsConstants(fold) && fold("Foo") == "foo" && fold("foo") == "foo" && fold("y") == "y"
  }

  /** Only `Foo` and variables with a fixed name reach the module. */
  ghost predicate OnlyFoo(env: Env, fold: Fold) {
    forall x | x in env && Reaches(env[x]) :: x == "Foo" || fold(x) in ORDER_CAPABLE_NAMES
  }

  lemma {:induction false} TwinStep(s: Stmt, env: Env, w: World, fold: Fold)
    requires s in TWINS && FoldsTwins(fold) && OnlyFoo(env, fold)
    ensures OnlyFoo(Execute(s, env, w, fold), fold)
  {
    if s == TWINS[0] {
      var a := Alias("MetaTrader5", Some("Foo"));
      assert [a][1..] == [];
      assert ImportAll([a], None, env, w, fold) == ImportAll([], None, env + Bindings(a, None, w, fold), w, fold);
      assert Bindings(a, None, w, fold).Keys == {"Foo"};
    } else {
      assert s == TWINS[1];
      TwinAssign(env, w, fold);
    }
  }

  lemma {:induction false} TwinAssign(env: Env, w: World, fold: Fold)
    requires FoldsTwins(fold) && OnlyFoo(env, fold)
    ensures OnlyFoo(Execute(TWINS[1], env, w, fold), fold)
  {
    var after := Execute(TWINS[1], env, w, fold);
    if "foo" in env {
      var v := env["foo"];
      assert "Foo"[0] != "foo"[0];
      assert !Reaches(v);
      assert seq(1, _ => v)[0] == v && [Name("y")][1..] == [];
      assert Bind(Name("y"), v, env, w) == (env["y" := v], true);
      assert BindAll([Name("y")], seq(1, _ => v), env, w).0 == env["y" := v];
    }
  }

  lemma {:induction false} TwinRun(schedule: seq<(nat, World)>, env: Env, fold: Fold)
    requires FoldsTwins(fold) && OnlyFoo(env, fold) && forall step | step in schedule :: step.0 < |TWINS|
    ensures OnlyFoo(Run(TWINS, schedule, env, fold), fold)
    decreases |schedule|
  {
    hide OnlyFoo, Execute;
    if |schedule| > 0 {
      assert TWINS[schedule[0].0] in TWINS;
      TwinStep(TWINS[schedule[0].0], env, schedule[0].1, fold);
      TwinRun(schedule[1..], Execute(TWINS[schedule[0].0], env, schedule[0].1, fold), fold);
    }
  }

  /** With twins the closure taints `y`, which no run from the fixed names makes reach the module. */
  lemma {:induction false} TwinsAreOvertainted(tainted: set<string>, schedule: seq<(nat, World)>, env: Env, fold: Fold)
    requires FoldsTwins(fold) && HasSeeds(TWINS, tainted, fold) && Closed(TWINS, tainted, fold)
    requires Covered(env, ORDER_CAPABLE_NAMES, fold) && LawfulSchedule(TWINS, schedule, fold)
    ensures "y" in tainted
    ensures var after := Run(TWINS, schedule, env, fold); "y" in after ==> !Reaches(after["y"])
  {
    hide Reaches, Lawful, HasSeeds, Closed, Run;
    TwinIsTainted(tainted, fold);
    TwinRun(schedule, env, fold);
  }

  lemma {:induction false} TwinIsTainted(tainted: set<string>, fold: Fold)
    requires FoldsTwins(fold) && HasSeeds(TWINS, tainted, fold) && Closed(TWINS, tainted, fold)
    ensures "y" in tainted
  {
    assert TWINS[0] in TWINS && TWINS[1] in TWINS;
    assert Alias("MetaTrader5", Some("Foo")) in [Alias("MetaTrader5", Some("Foo"))];
    assert "foo" in SeedsOf(TWINS[0], fold);
    assert OrderCapable(Name("foo"), tainted, fold);
    assert Name("y") in [Name("y")] && "y" in AssignedNames(Name("y"));
    assert "y" in Derived(TWINS[1], tainted, fold);
  }
}
