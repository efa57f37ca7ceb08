/**
 The taint closure over assignments that decides which names may hold the broker module.
 The loop computes the least set that contains the seeds and is closed under assignment, for
 any walk order, and that set covers every run of the program's assignments in any order.
 */
module OrderTaint {
  import opened Common
  import opened PythonSyntax
  import opened StaticStrings

  const ORDER_CAPABLE_NAMES: set<string> := {"broker_module", "metatrader5", "mt5", "mt5_module"}
  const ORDER_CAPABLE_ATTRIBUTES: set<string> := {"broker_module", "mt5", "mt5_module"}

  datatype Alias = Alias(name: string, asname: Option<string>)

  /** The syntax nodes that the closure looks at, listed in some walk order. */
  datatype Stmt =
    | Import(names: seq<Alias>)
    | ImportFrom(moduleName: string, names: seq<Alias>)
    | Parameters(args: seq<string>)
    | Assign(targets: seq<Expr>, value: Option<Expr>)   // also annotated and named assignments

  type Fold = string -> string

  function BoundName(a: Alias): string {
    if a.asname.Some? && a.asname.value != "" then a.asname.value else a.name
  }

  function AssignedNames(target: Expr): (r: set<string>) {
    match target
    case Name(id) => {id}
    case ListLit(elts) => set t, n | t in elts && n in AssignedNames(t) :: n
    case TupleLit(elts) => set t, n | t in elts && n in AssignedNames(t) :: n
    case _ => {}
  }

  predicate IsMetaTraderImport(e: Expr) {
    && e.Call?
    && IsImportFunction(e.func)
    && |e.args| > 0
    && StaticString(e.args[0]) == Some("MetaTrader5")
  }

  predicate OrderCapable(e: Expr, tainted: set<string>, fold: Fold) {
    match e
    case Name(id) => fold(id) in tainted
    case Attribute(value, attr) =>
      fold(attr) in ORDER_CAPABLE_ATTRIBUTES || OrderCapable(value, tainted, fold)
    case Subscript(value, _) => OrderCapable(value, tainted, fold)
    case Call(func, args, _) =>
      || IsMetaTraderImport(e)
      || ((func == Name("getattr") || func == Name("hasattr")) && |args| >= 2
          && OrderCapable(args[0], tainted, fold)
          && StaticString(args[1]) == Some("copy_ticks_range"))
      || func == Name("globals") || func == Name("locals")
      || (func == Name("type") && |args| > 0 && OrderCapable(args[0], tainted, fold))
    case ListLit(elts) => exists x | x in elts :: OrderCapable(x, tainted, fold)
    case SetLit(elts) => exists x | x in elts :: OrderCapable(x, tainted, fold)
    case TupleLit(elts) => exists x | x in elts :: OrderCapable(x, tainted, fold)
    case DictLit(keys, values) =>
      || (exists x | x in keys :: OrderCapable(x, tainted, fold))
      || (exists x | x in values :: OrderCapable(x, tainted, fold))
    case _ => false
  }

  /** Names tainted by one syntax node before any assignment is looked at. */
  function SeedsOf(s: Stmt, fold: Fold): set<string> {
    match s
    case Import(names) => set a | a in names && fold(a.name) == "metatrader5" :: fold(BoundName(a))
    case ImportFrom(moduleName, names) =>
      if fold(moduleName) == "metatrader5" then set a | a in names :: fold(BoundName(a)) else {}
    case Parameters(args) => set x | x in args && fold(x) in ORDER_CAPABLE_NAMES :: fold(x)
    case Assign(_, _) => {}
  }

  function FoldedTargets(targets: seq<Expr>, fold: Fold): set<string> {
    set t, n | t in targets && n in AssignedNames(t) :: fold(n)
  }

  /** Names that an assignment taints once `tainted` is known. */
  function Derived(s: Stmt, tainted: set<string>, fold: Fold): set<string> {
    if s.Assign? && s.value.Some? && OrderCapable(s.value.value, tainted, fold)
    then FoldedTargets(s.targets, fold) else {}
  }

  // ---------------------------------------------------------------------------------------
  // The least closed set

  ghost predicate HasSeeds(program: seq<Stmt>, names: set<string>, fold: Fold) {
    ORDER_CAPABLE_NAMES <= names && forall s | s in program :: SeedsOf(s, fold) <= names
  }

  ghost predicate Closed(program: seq<Stmt>, names: set<string>, fold: Fold) {
    forall s | s in program :: Derived(s, names, fold) <= names
  }

  ghost predicate IsLeast(program: seq<Stmt>, names: set<string>, fold: Fold) {
    && HasSeeds(program, names, fold)
    && Closed(program, names, fold)
    && forall other | HasSeeds(program, other, fold) && Closed(program, other, fold) :: names <= other
  }

  /** More tainted names never make an expression harmless. */
  lemma {:induction false} OrderCapableMonotone(e: Expr, small: set<string>, large: set<string>, fold: Fold)
    requires small <= large
    requires OrderCapable(e, small, fold)
    ensures OrderCapable(e, large, fold)
    decreases e, 1
  {
    match e
    case Name(_) =>
    case Attribute(value, attr) =>
      if fold(attr) !in ORDER_CAPABLE_ATTRIBUTES { OrderCapableMonotone(value, small, large, fold); }
    case Subscript(value, _) => OrderCapableMonotone(value, small, large, fold);
    case Call(func, args, _) =>
      if |args| > 0 && OrderCapable(args[0], small, fold) { OrderCapableMonotone(args[0], small, large, fold); }
    case ListLit(elts) => SomeCapableMonotone(e, elts, small, large, fold);
    case SetLit(elts) => SomeCapableMonotone(e, elts, small, large, fold);
    case TupleLit(elts) => SomeCapableMonotone(e, elts, small, large, fold);
    case DictLit(keys, values) =>
      if exists x | x in keys :: OrderCapable(x, small, fold) {
        SomeCapableMonotone(e, keys, small, large, fold);
      } else {
        SomeCapableMonotone(e, values, small, large, fold);
      }
  }

  lemma {:induction false} SomeCapableMonotone(e: Expr, elts: seq<Expr>, small: set<string>, large: set<string>,
                                               fold: Fold)
    requires forall x | x in elts :: x < e
    requires small <= large
    requires exists x | x in elts :: OrderCapable(x, small, fold)
    ensures exists x | x in elts :: OrderCapable(x, large, fold)
    decreases e, 0
  {
    var x :| x in elts && OrderCapable(x, small, fold);
    OrderCapableMonotone(x, small, large, fold);
  }

  /** The least set depends on which nodes the program has, not on the order they are walked in. */
  lemma WalkOrderIsIrrelevant(p: seq<Stmt>, q: seq<Stmt>, ps: set<string>, qs: set<string>, fold: Fold)
    requires forall s :: s in p <==> s in q
    requires IsLeast(p, ps, fold) && IsLeast(q, qs, fold)
    ensures ps == qs
  {
    assert HasSeeds(p, qs, fold) && Closed(p, qs, fold);
    assert HasSeeds(q, ps, fold) && Closed(q, ps, fold);
  }

  /** Folded names of every assignment target: what the loop can still add. */
  ghost function Assignable(program: seq<Stmt>, fold: Fold): set<string> {
    if |program| == 0 then {}
    else
      (if program[0].Assign? then FoldedTargets(program[0].targets, fold) else {})
      + Assignable(program[1..], fold)
  }

  lemma {:induction false} DerivedIsAssignable(program: seq<Stmt>, s: Stmt, tainted: set<string>, fold: Fold)
    requires s in program
    ensures Derived(s, tainted, fold) <= Assignable(program, fold)
  {
    if s != program[0] {
      DerivedIsAssignable(program[1..], s, tainted, fold);
    }
  }

  /** No set that has the seeds and is closed leaves any of these names out. */
  ghost predicate Forced(program: seq<Stmt>, names: set<string>, fold: Fold) {
    forall other | HasSeeds(program, other, fold) && Closed(program, other, fold) :: names <= other
  }

  /** The pass over imports and parameters. */
  method SeedNames(program: seq<Stmt>, fold: Fold) returns (tainted: set<string>)
    ensures HasSeeds(program, tainted, fold) && Forced(program, tainted, fold)
  {
    hide SeedsOf, Closed;
    tainted := ORDER_CAPABLE_NAMES;
    for k := 0 to |program|
      invariant ORDER_CAPABLE_NAMES <= tainted
      invariant forall i | 0 <= i < k :: SeedsOf(program[i], fold) <= tainted
      invariant Forced(program, tainted, fold)
    {
      assert program[k] in program;
      tainted := tainted + SeedsOf(program[k], fold);
    }
  }

  lemma {:induction false} DerivedIsForced(program: seq<Stmt>, s: Stmt, names: set<string>, fold: Fold)
    requires s in program && Forced(program, names, fold)
    ensures Forced(program, names + Derived(s, names, fold), fold)
  {
    forall other | HasSeeds(program, other, fold) && Closed(program, other, fold)
      ensures names + Derived(s, names, fold) <= other
    {
      DerivedMonotone(s, names, other, fold);
    }
  }

  /** One pass over all assignments. */
  method Pass(program: seq<Stmt>, before: set<string>, fold: Fold) returns (tainted: set<string>, changed: bool)
    requires Forced(program, before, fold)
    ensures before <= tainted && tainted - before <= Assignable(program, fold)
    ensures Forced(program, tainted, fold)
    ensures changed <==> tainted != before
    ensures !changed ==> Closed(program, tainted, fold)
  {
    hide Derived, Forced, Assignable;
    tainted, changed := before, false;
    for k := 0 to |program|
      invariant before <= tainted && tainted - before <= Assignable(program, fold)
      invariant Forced(program, tainted, fold)
      invariant changed <==> tainted != before
      invariant !changed ==> forall i | 0 <= i < k :: Derived(program[i], tainted, fold) <= tainted
    {
      var added := Derived(program[k], tainted, fold);
      DerivedIsAssignable(program, program[k], tainted, fold);
      DerivedIsForced(program, program[k], tainted, fold);
      if !(added <= tainted) {
        tainted := tainted + added;
        changed := true;
      }
    }
  }

  /** The seeding pass, then passes over all assignments until one adds nothing. */
  method OrderCapableNames(program: seq<Stmt>, fold: Fold) returns (tainted: set<string>)
    ensures IsLeast(program, tainted, fold)
  {
    hide Assignable, Closed, HasSeeds;
    tainted := SeedNames(program, fold);
    var changed := true;
    while changed
      invariant HasSeeds(program, tainted, fold) && Forced(program, tainted, fold)
      invariant !changed ==> Closed(program, tainted, fold)
      decreases Assignable(program, fold) - tainted, changed
    {
      ghost var before := tainted;
      tainted, changed := Pass(program, tainted, fold);
      SeedsStay(program, before, tainted, fold);
    }
  }

  lemma {:induction false} SeedsStay(program: seq<Stmt>, small: set<string>, large: set<string>, fold: Fold)
    requires HasSeeds(program, small, fold) && small <= large
    ensures HasSeeds(program, large, fold)
  {
  }

  lemma DerivedMonotone(s: Stmt, small: set<string>, large: set<string>, fold: Fold)
    requires small <= large
    ensures Derived(s, small, fold) <= Derived(s, large, fold)
  {
    if s.Assign? && s.value.Some? && OrderCapable(s.value.value, small, fold) {
      OrderCapableMonotone(s.value.value, small, large, fold);
    }
  }

  /** The pass over function parameters never contributes a name. */
  lemma ParametersAreRedundant(p: seq<Stmt>, q: seq<Stmt>, ps: set<string>, qs: set<string>, fold: Fold)
    requires forall s :: s in q <==> s in p && !s.Parameters?
    requires IsLeast(p, ps, fold) && IsLeast(q, qs, fold)
    ensures ps == qs
  {
    assert HasSeeds(q, ps, fold) && Closed(q, ps, fold);
    forall s | s in p ensures SeedsOf(s, fold) <= qs && Derived(s, qs, fold) <= qs {
      if s.Parameters? { assert SeedsOf(s, fold) <= ORDER_CAPABLE_NAMES; } else { assert s in q; }
    }
    assert HasSeeds(p, qs, fold) && Closed(p, qs, fold);
  }

  // ---------------------------------------------------------------------------------------
  // Execution

  /** Looking inside a value, importing another module or unpacking does not conjure the broker module. */
  ghost predicate Lawful(w: World, fold: Fold) {
    && (forall v, a :: Reaches(w.attr(v, a)) ==> Reaches(v) || fold(a) in ORDER_CAPABLE_ATTRIBUTES)
    && (forall v, i :: Reaches(w.item(v, i)) ==> Reaches(v))
    && (forall v, n :: w.unpack(v, n).Some? ==> forall p | p in w.unpack(v, n).value :: Reaches(p) ==> Reaches(v))
    && (forall v :: Reaches(w.typeOf(v)) ==> Reaches(v))
    && (forall s :: s != "MetaTrader5" ==> !Reaches(w.imported(s)))
    && PadsStrings(w)
    && fold("copy_ticks_range") == "copy_ticks_range" && fold("MetaTrader5") == "metatrader5"
  }

  /** Text whose meaning the constant folder determines. */
  predicate PlainText(e: Expr) {
    StaticString(e).Some? && !Alters(e)
  }

  /** Expressions whose value the taint rules follow. */
  predicate Tracked(e: Expr) {
    match e
    case StrConst(_) => true
    case OtherConst => true
    case NoKey => true
    case Name(_) => true
    case Attribute(value, _) => Tracked(value)
    case Subscript(value, _) => Tracked(value)
    case Add(_, _) => PlainText(e)
    case JoinedStr(_) => true
    case FormattedValue(_, _, _) => true
    case Call(func, args, _) =>
      if IsImportFunction(func) then |args| > 0 && PlainText(args[0])
      else if func == Name("globals") || func == Name("locals") then true
      else if func == Name("type") then |args| > 0 && Tracked(args[0])
      else if func == Name("getattr") || func == Name("hasattr") then
        |args| >= 2 && Tracked(args[0]) && PlainText(args[1]) && StaticString(args[1]) == Some("copy_ticks_range")
      else PlainText(e)
    case ListLit(elts) => forall x | x in elts :: Tracked(x)
    case SetLit(elts) => forall x | x in elts :: Tracked(x)
    case TupleLit(elts) => forall x | x in elts :: Tracked(x)
    case DictLit(keys, values) =>
      (forall x | x in keys :: Tracked(x)) && (forall x | x in values :: Tracked(x))
    case _ => false
  }

  /** Names and nested list or tuple displays of names, without a starred element. */
  predicate PlainTarget(t: Expr) {
    match t
    case Name(_) => true
    case ListLit(elts) => forall x | x in elts :: PlainTarget(x)
    case TupleLit(elts) => forall x | x in elts :: PlainTarget(x)
    case _ => false
  }

  predicate TrackedStmt(s: Stmt) {
    s.Assign? ==>
      && (s.value.Some? ==> Tracked(s.value.value))
      && (forall t | t in s.targets :: PlainTarget(t))
  }

  /** A star import of the broker package, which the scanner takes for a binding of the name `*`. */
  predicate StarImportsBroker(s: Stmt, fold: Fold) {
    s.ImportFrom? && fold(s.moduleName) == "metatrader5" && exists a | a in s.names :: a.name == "*"
  }

  /** Binds one target; the flag is false when unpacking raised, and earlier names stay bound. */
  function Bind(target: Expr, v: Value, env: Env, w: World): (Env, bool)
    decreases target, 0
  {
    match target
    case Name(id) => (env[id := v], true)
    case ListLit(elts) =>
      var parts := w.unpack(v, |elts|);
      if parts.None? || |parts.value| != |elts| then (env, false) else BindAll(elts, parts.value, env, w)
    case TupleLit(elts) =>
      var parts := w.unpack(v, |elts|);
      if parts.None? || |parts.value| != |elts| then (env, false) else BindAll(elts, parts.value, env, w)
    case _ => (env, true)
  }

  function BindAll(targets: seq<Expr>, vs: seq<Value>, env: Env, w: World): (Env, bool)
    requires |targets| == |vs|
    decreases targets, 0
  {
    if |targets| == 0 then (env, true)
    else
      var (env', ok) := Bind(targets[0], vs[0], env, w);
      if ok then BindAll(targets[1..], vs[1..], env', w) else (env', false)
  }

  /** The package that a dotted module name starts with. */
  function TopLevel(name: string): string {
    if |name| == 0 || name[0] == '.' then "" else [name[0]] + TopLevel(name[1..])
  }

  /** `import a.b` loads the whole path and binds the package `a`; with `as` it binds the module itself. */
  function LoadedModule(a: Alias): string {
    if a.asname.Some? && a.asname.value != "" then a.name else TopLevel(a.name)
  }

  function ModuleValue(name: string, w: World, fold: Fold): Value {
    if fold(name) == "metatrader5" then Module else w.imported(name)
  }

  function AttributeValue(fromModule: string, name: string, w: World, fold: Fold): Value {
    if fold(fromModule) == "metatrader5" then w.attr(Module, name) else w.imported(fromModule + "." + name)
  }

  /** The variables that one alias of an import statement binds; a star binds every public name of the package. */
  function Bindings(a: Alias, fromModule: Option<string>, w: World, fold: Fold): Env {
    if fromModule.None? then
      var loaded := LoadedModule(a);
      map[if loaded == a.name then BoundName(a) else loaded := ModuleValue(loaded, w, fold)]
    else if a.name == "*" then
      map n | n in w.public(fromModule.value) :: AttributeValue(fromModule.value, n, w, fold)
    else map[BoundName(a) := AttributeValue(fromModule.value, a.name, w, fold)]
  }

  function ImportAll(names: seq<Alias>, fromModule: Option<string>, env: Env, w: World, fold: Fold): Env
    decreases |names|
  {
    if |names| == 0 then env
    else ImportAll(names[1..], fromModule, env + Bindings(names[0], fromModule, w, fold), w, fold)
  }

  /** Runs one statement; an assignment binds its targets left to right. */
  function Execute(s: Stmt, env: Env, w: World, fold: Fold): Env {
    match s
    case Import(names) => ImportAll(names, None, env, w, fold)
    case ImportFrom(moduleName, names) => ImportAll(names, Some(moduleName), env, w, fold)
    case Parameters(_) => env
    case Assign(targets, value) =>
      if value.None? then env
      else
        match Eval(value.value, env, w)
        case None => env
        case Some(v) => BindAll(targets, seq(|targets|, _ => v), env, w).0
  }

  /** A schedule picks statements in any order, any number of times, each under its own world. */
  function Run(program: seq<Stmt>, schedule: seq<(nat, World)>, env: Env, fold: Fold): Env
    requires forall step | step in schedule :: step.0 < |program|
  {
    if |schedule| == 0 then env
    else
      var step := schedule[0];
      Run(program, schedule[1..], Execute(program[step.0], env, step.1, fold), fold)
  }

  /** Every variable through which the broker module can be reached has a tainted name. */
  ghost predicate Covered(env: Env, tainted: set<string>, fold: Fold) {
    forall x | x in env && Reaches(env[x]) :: fold(x) in tainted
  }

  lemma {:induction false} PlainTextValue(e: Expr, env: Env, w: World, fold: Fold)
    requires PlainText(e) && Lawful(w, fold) && Eval(e, env, w).Some?
    ensures Eval(e, env, w) == Some(Str(StaticString(e).value))
  {
    hide PadsStrings;
    FoldIsRight(e, env, w);
  }

  /** The expression evaluates to something that reaches the broker module. */
  ghost predicate Yields(e: Expr, env: Env, w: World) {
    Eval(e, env, w).Some? && Reaches(Eval(e, env, w).value)
  }

  /** The taint rules over-approximate evaluation. */
  lemma {:induction false} EvalCovered(e: Expr, env: Env, w: World, tainted: set<string>, fold: Fold)
    requires Tracked(e) && Lawful(w, fold) && Covered(env, tainted, fold) && Yields(e, env, w)
    ensures OrderCapable(e, tainted, fold)
    decreases e, 2
  {
    hide Tracked, Lawful, Covered, Yields, OrderCapable;
    match e
    case Attribute(_, _) => AccessCovered(e, env, w, tainted, fold);
    case Subscript(_, _) => AccessCovered(e, env, w, tainted, fold);
    case Call(_, _, _) => CallCovered(e, env, w, tainted, fold);
    case ListLit(_) => DisplayCovered(e, env, w, tainted, fold);
    case SetLit(_) => DisplayCovered(e, env, w, tainted, fold);
    case TupleLit(_) => DisplayCovered(e, env, w, tainted, fold);
    case DictLit(_, _) => DictCovered(e, env, w, tainted, fold);
    case _ => LeafCovered(e, env, w, tainted, fold);
  }

  /** Names carry what their variable holds; constants and text never reach the module. */
  lemma {:induction false} LeafCovered(e: Expr, env: Env, w: World, tainted: set<string>, fold: Fold)
    requires Tracked(e) && Lawful(w, fold) && Covered(env, tainted, fold) && Yields(e, env, w)
    requires !e.Attribute? && !e.Subscript? && !e.Call? && !e.ListLit? && !e.SetLit? && !e.TupleLit? && !e.DictLit?
    ensures OrderCapable(e, tainted, fold)
  {
    hide Lawful, PlainText, EvalCall, Converted;
    if e.Add? { PlainTextValue(e, env, w, fold); }
  }

  lemma {:induction false} LawfulAccess(w: World, fold: Fold, v: Value, a: string, i: Value)
    requires Lawful(w, fold)
    ensures Reaches(w.attr(v, a)) ==> Reaches(v) || fold(a) in ORDER_CAPABLE_ATTRIBUTES
    ensures Reaches(w.item(v, i)) ==> Reaches(v)
    ensures Reaches(w.typeOf(v)) ==> Reaches(v)
    ensures fold("copy_ticks_range") == "copy_ticks_range"
    ensures Reaches(w.imported(a)) ==> a == "MetaTrader5"
  {
    hide Reaches;
  }

  lemma {:induction false} AccessCovered(e: Expr, env: Env, w: World, tainted: set<string>, fold: Fold)
    requires (e.Attribute? || e.Subscript?) && Tracked(e)
    requires Lawful(w, fold) && Covered(env, tainted, fold) && Yields(e, env, w)
    ensures OrderCapable(e, tainted, fold)
    decreases e, 1
  {
    hide Lawful, Covered, PlainText, EvalCall, Converted, IsMetaTraderImport, Reaches;
    var v := Eval(e.value, env, w).value;
    if e.Attribute? {
      LawfulAccess(w, fold, v, e.attr, v);
    } else {
      LawfulAccess(w, fold, v, "", Eval(e.index, env, w).value);
    }
    if e.Subscript? || fold(e.attr) !in ORDER_CAPABLE_ATTRIBUTES { EvalCovered(e.value, env, w, tainted, fold); }
  }

  lemma {:induction false} DisplayCovered(e: Expr, env: Env, w: World, tainted: set<string>, fold: Fold)
    requires (e.ListLit? || e.SetLit? || e.TupleLit?) && Tracked(e)
    requires Lawful(w, fold) && Covered(env, tainted, fold) && Yields(e, env, w)
    ensures OrderCapable(e, tainted, fold)
    decreases e, 0, 1
  {
    hide Lawful, Covered, PlainText, EvalCall, Converted, IsMetaTraderImport;
    PartCovered(e, e.elts, env, w, tainted, fold);
  }

  lemma {:induction false} DictCovered(e: Expr, env: Env, w: World, tainted: set<string>, fold: Fold)
    requires e.DictLit? && Tracked(e) && Lawful(w, fold) && Covered(env, tainted, fold) && Yields(e, env, w)
    ensures OrderCapable(e, tainted, fold)
    decreases e, 0, 1
  {
    hide Lawful, Covered, PlainText, EvalCall, Converted, IsMetaTraderImport;
    var ks, vs := EvalAll(e.keys, env, w).value, EvalAll(e.values, env, w).value;
    assert Eval(e, env, w).value == Node(ks + vs);
    var p :| p in ks + vs && Reaches(p);
    if p in ks {
      PartCovered(e, e.keys, env, w, tainted, fold);
    } else {
      PartCovered(e, e.values, env, w, tainted, fold);
    }
  }

  lemma {:induction false} PartCovered(e: Expr, elts: seq<Expr>, env: Env, w: World, tainted: set<string>, fold: Fold)
    requires forall x | x in elts :: x < e && Tracked(x)
    requires Lawful(w, fold) && Covered(env, tainted, fold)
    requires EvalAll(elts, env, w).Some? && Reaches(Node(EvalAll(elts, env, w).value))
    ensures exists x | x in elts :: OrderCapable(x, tainted, fold)
    decreases e, 0, 0
  {
    var vs := EvalAll(elts, env, w).value;
    var p :| p in vs && Reaches(p);
    var i :| 0 <= i < |vs| && vs[i] == p;
    assert elts[i] in elts && Eval(elts[i], env, w) == Some(p);
    hide Lawful, Covered, Tracked, OrderCapable, Eval;
    EvalCovered(elts[i], env, w, tainted, fold);
  }

  /** What the calls that the rules know evaluate to, given their argument values. */
  lemma {:induction false} CallValue(e: Expr, env: Env, w: World) returns (vs: seq<Value>)
    requires e.Call? && Eval(e, env, w).Some?
    ensures EvalAll(e.args, env, w) == Some(vs) && |vs| == |e.args|
    ensures forall i | 0 <= i < |vs| :: Eval(e.args[i], env, w) == Some(vs[i])
    ensures IsImportFunction(e.func) && |vs| > 0 ==>
              vs[0].Str? && (vs[0].s == "MetaTrader5" || Eval(e, env, w).value == w.imported(vs[0].s))
    ensures e.func == Name("type") && |vs| > 0 ==> Eval(e, env, w).value == w.typeOf(vs[0])
    ensures (e.func == Name("getattr") || e.func == Name("hasattr")) && |vs| >= 2 ==>
              vs[1].Str? && Eval(e, env, w).value == w.attr(vs[0], vs[1].s)
  {
    vs := EvalAll(e.args, env, w).value;
    assert Eval(e, env, w) == EvalCall(e.func, vs, env, w);
  }

  lemma {:induction false} CallCovered(e: Expr, env: Env, w: World, tainted: set<string>, fold: Fold)
    requires e.Call? && Tracked(e) && Lawful(w, fold) && Covered(env, tainted, fold) && Yields(e, env, w)
    ensures OrderCapable(e, tainted, fold)
    decreases e, 1
  {
    hide Lawful, Covered, PlainText, Reaches, Eval, EvalCall;
    var func, args := e.func, e.args;
    var vs := CallValue(e, env, w);
    if IsImportFunction(func) {
      StaticText(args[0]);
      PlainTextValue(args[0], env, w, fold);
      LawfulAccess(w, fold, Opaque, vs[0].s, Opaque);
    } else if func == Name("globals") || func == Name("locals") {
    } else if func == Name("type") {
      LawfulAccess(w, fold, vs[0], "", vs[0]);
      EvalCovered(args[0], env, w, tainted, fold);
    } else if func == Name("getattr") || func == Name("hasattr") {
      PlainTextValue(args[1], env, w, fold);
      AttributesAreOther();
      LawfulAccess(w, fold, vs[0], vs[1].s, vs[0]);
      EvalCovered(args[0], env, w, tainted, fold);
    } else {
      StaticText(e);
      PlainTextValue(e, env, w, fold);
      TextIsHarmless(StaticString(e).value);
    }
  }

  lemma {:induction false} AttributesAreOther()
    ensures "copy_ticks_range" !in ORDER_CAPABLE_ATTRIBUTES
  {
  }

  lemma {:induction false} TextIsHarmless(s: string)
    ensures !Reaches(Str(s))
  {
  }

  lemma {:induction false} StaticText(e: Expr)
    requires PlainText(e)
    ensures StaticString(e).Some?
  {
  }

  lemma {:induction false} BindCovered(target: Expr, v: Value, env: Env, w: World, tainted: set<string>, fold: Fold)
    requires PlainTarget(target) && Lawful(w, fold) && Covered(env, tainted, fold)
    requires Reaches(v) ==> forall n | n in AssignedNames(target) :: fold(n) in tainted
    ensures Covered(Bind(target, v, env, w).0, tainted, fold)
    decreases target, 0
  {
    if target.ListLit? || target.TupleLit? {
      var elts, unpacked := target.elts, w.unpack(v, |target.elts|);
      if unpacked.Some? && |unpacked.value| == |elts| {
        var parts := unpacked.value;
        forall i | 0 <= i < |elts| && Reaches(parts[i])
          ensures forall n | n in AssignedNames(elts[i]) :: fold(n) in tainted
        {
          assert parts[i] in parts && elts[i] in elts;
          assert AssignedNames(elts[i]) <= AssignedNames(target);
        }
        BindAllCovered(elts, parts, env, w, tainted, fold);
      }
    }
  }

  lemma {:induction false} BindAllCovered(targets: seq<Expr>, vs: seq<Value>, env: Env, w: World,
                                          tainted: set<string>, fold: Fold)
    requires |targets| == |vs|
    requires forall t | t in targets :: PlainTarget(t)
    requires Lawful(w, fold) && Covered(env, tainted, fold)
    requires forall i | 0 <= i < |vs| && Reaches(vs[i]) ::
               forall n | n in AssignedNames(targets[i]) :: fold(n) in tainted
    ensures Covered(BindAll(targets, vs, env, w).0, tainted, fold)
    decreases targets, 0
  {
    if |targets| > 0 {
      BindCovered(targets[0], vs[0], env, w, tainted, fold);
      var (env', ok) := Bind(targets[0], vs[0], env, w);
      if ok {
        BindAllCovered(targets[1..], vs[1..], env', w, tainted, fold);
      }
    }
  }

  lemma {:induction false} OtherModulesAreHarmless(name: string, fromModule: string, w: World, fold: Fold)
    requires Lawful(w, fold)
    ensures Reaches(ModuleValue(name, w, fold)) ==> fold(name) == "metatrader5"
    ensures Reaches(AttributeValue(fromModule, name, w, fold)) ==> fold(fromModule) == "metatrader5"
  {
    assert (fromModule + "." + name)[|fromModule|] == '.';
    assert forall i | 0 <= i < |"MetaTrader5"| :: "MetaTrader5"[i] != '.';
  }

  lemma {:induction false} AliasCovered(a: Alias, fromModule: Option<string>, w: World, tainted: set<string>,
                                        fold: Fold)
    requires Lawful(w, fold) && ORDER_CAPABLE_NAMES <= tainted
    requires fold(if fromModule.Some? then fromModule.value else a.name) == "metatrader5" ==>
               fold(BoundName(a)) in tainted && (fromModule.Some? ==> a.name != "*")
    ensures Covered(Bindings(a, fromModule, w, fold), tainted, fold)
  {
    hide Lawful, Reaches, ModuleValue, AttributeValue;
    if fromModule.None? {
      OtherModulesAreHarmless(LoadedModule(a), "", w, fold);
    } else {
      forall n { OtherModulesAreHarmless(n, fromModule.value, w, fold); }
    }
  }

  lemma {:induction false} ImportCovered(names: seq<Alias>, fromModule: Option<string>, env: Env, w: World,
                                         tainted: set<string>, fold: Fold)
    requires Lawful(w, fold) && Covered(env, tainted, fold) && ORDER_CAPABLE_NAMES <= tainted
    requires forall a | a in names ::
               fold(if fromModule.Some? then fromModule.value else a.name) == "metatrader5" ==>
                 fold(BoundName(a)) in tainted && (fromModule.Some? ==> a.name != "*")
    ensures Covered(ImportAll(names, fromModule, env, w, fold), tainted, fold)
    decreases |names|
  {
    hide Lawful, Reaches, Bindings;
    if |names| > 0 {
      AliasCovered(names[0], fromModule, w, tainted, fold);
      ImportCovered(names[1..], fromModule, env + Bindings(names[0], fromModule, w, fold), w, tainted, fold);
    }
  }

  lemma {:induction false} AssignCovered(s: Stmt, env: Env, w: World, tainted: set<string>, fold: Fold)
    requires s.Assign? && TrackedStmt(s) && Lawful(w, fold)
    requires Derived(s, tainted, fold) <= tainted && Covered(env, tainted, fold)
    ensures Covered(Execute(s, env, w, fold), tainted, fold)
  {
    hide Lawful, Covered, Eval, Tracked, PlainTarget, OrderCapable, BindAll;
    if s.value.Some? && Eval(s.value.value, env, w).Some? {
      var v := Eval(s.value.value, env, w).value;
      if Reaches(v) {
        assert Yields(s.value.value, env, w);
        EvalCovered(s.value.value, env, w, tainted, fold);
        forall t, n | t in s.targets && n in AssignedNames(t) ensures fold(n) in tainted {
          assert fold(n) in FoldedTargets(s.targets, fold);
        }
      }
      BindAllCovered(s.targets, seq(|s.targets|, _ => v), env, w, tainted, fold);
    }
  }

  lemma {:induction false} ExecuteCovered(program: seq<Stmt>, s: Stmt, env: Env, w: World, tainted: set<string>,
                                          fold: Fold)
    requires s in program && TrackedStmt(s) && !StarImportsBroker(s, fold) && Lawful(w, fold)
    requires HasSeeds(program, tainted, fold) && Closed(program, tainted, fold)
    requires Covered(env, tainted, fold)
    ensures Covered(Execute(s, env, w, fold), tainted, fold)
  {
    assert SeedsOf(s, fold) <= tainted && Derived(s, tainted, fold) <= tainted;
    hide Lawful, Covered, Closed, Derived, TrackedStmt, Eval, BindAll;
    match s
    case Import(names) => ImportCovered(names, None, env, w, tainted, fold);
    case ImportFrom(moduleName, names) => ImportCovered(names, Some(moduleName), env, w, tainted, fold);
    case Parameters(_) =>
    case Assign(_, _) => AssignCovered(s, env, w, tainted, fold);
  }

  ghost predicate LawfulSchedule(program: seq<Stmt>, schedule: seq<(nat, World)>, fold: Fold) {
    forall step | step in schedule :: step.0 < |program| && Lawful(step.1, fold)
  }

  /**
   Soundness over all runs: starting from variables that reach the broker module only under
   the fixed names, no schedule ever makes it reachable from a variable outside a set that
   holds the seeds and is closed, such as the one `OrderCapableNames` returns.
   */
  lemma {:induction false} EveryRunIsCovered(program: seq<Stmt>, schedule: seq<(nat, World)>, env: Env,
                                             tainted: set<string>, fold: Fold)
    requires LawfulSchedule(program, schedule, fold)
    requires forall s | s in program :: TrackedStmt(s) && !StarImportsBroker(s, fold)
    requires HasSeeds(program, tainted, fold) && Closed(program, tainted, fold)
    requires Covered(env, tainted, fold)
    ensures Covered(Run(program, schedule, env, fold), tainted, fold)
    decreases |schedule|
  {
    if |schedule| > 0 {
      var step := schedule[0];
      ExecuteCovered(program, program[step.0], env, step.1, tainted, fold);
      EveryRunIsCovered(program, schedule[1..], Execute(program[step.0], env, step.1, fold), tainted, fold);
    }
  }
}
