/**
 The converse of taint coverage: what the rules call order-capable can reach the broker module in some world, and what
 the closure taints can be bound to it in some run.
 */
module TaintReach {
  import opened Common
  import opened PythonSyntax
  import opened StaticStrings
  import opened OrderTaint

  /** The module if the value reaches it. */
  function HandOn(v: Value): Value {
    if Reaches(v) then Module else Opaque
  }

  function HandOnParts(v: Value, n: nat): Option<seq<Value>> {
    Some(seq(n, _ => HandOn(v)))
  }

  /** The lawful world that hands the module on wherever it may. */
  function Generous(fold: Fold): World {
    World((v, a) => if fold(a) in ORDER_CAPABLE_ATTRIBUTES then Module else HandOn(v), (v, _) => HandOn(v),
          (_, _) => Opaque, HandOnParts, HandOn, Module, _ => Opaque, _ => [], (_, _) => Opaque,
          s => "''" + s, s => "''" + s, _ => "", Formatted)
  }

  /** What that world does, in so many words. */
  ghost predicate HandsOn(w: World, fold: Fold) {
    && (forall v, a :: Reaches(v) || fold(a) in ORDER_CAPABLE_ATTRIBUTES ==> Reaches(w.attr(v, a)))
    && (forall v, i :: Reaches(v) ==> Reaches(w.item(v, i)))
    && (forall v :: Reaches(v) ==> Reaches(w.typeOf(v)))
    && Reaches(w.namespace)
    && (forall v, n :: Reaches(v) ==> GivesParts(w.unpack(v, n), n))
  }

  ghost predicate GivesParts(parts: Option<seq<Value>>, n: nat) {
    parts.Some? && |parts.value| == n && forall i | 0 <= i < n :: Reaches(parts.value[i])
  }

  lemma {:induction false} HandsAccess(w: World, fold: Fold, v: Value, a: string, i: Value, n: nat)
    requires HandsOn(w, fold)
    ensures Reaches(v) || fold(a) in ORDER_CAPABLE_ATTRIBUTES ==> Reaches(w.attr(v, a))
    ensures Reaches(v) ==> Reaches(w.item(v, i)) && Reaches(w.typeOf(v)) && GivesParts(w.unpack(v, n), n)
    ensures Reaches(w.namespace)
  {
    hide Reaches, GivesParts;
  }

  predicate FoldsConstants(fold: Fold) {
    fold("copy_ticks_range") == "copy_ticks_range" && fold("MetaTrader5") == "metatrader5"
  }

  lemma {:induction false} HandOnReaches(v: Value, n: nat)
    ensures Reaches(HandOn(v)) <==> Reaches(v)
    ensures Reaches(v) ==> GivesParts(HandOnParts(v, n), n)
    ensures forall p | p in HandOnParts(v, n).value :: Reaches(p) ==> Reaches(v)
    ensures Reaches(Module) && !Reaches(Opaque)
  {
    forall p | p in HandOnParts(v, n).value ensures Reaches(p) ==> Reaches(v) {
      var i :| 0 <= i < n && HandOnParts(v, n).value[i] == p;
    }
  }

  lemma {:induction false} GenerousIsLawful(fold: Fold)
    requires FoldsConstants(fold)
    ensures Lawful(Generous(fold), fold)
    ensures HandsOn(Generous(fold), fold)
  {
    hide WidthOf, Reaches, HandOn, HandOnParts, GivesParts;
    var w := Generous(fold);
    HandOnReaches(Opaque, 0);
    forall v, a
      ensures Reaches(w.attr(v, a)) <==> Reaches(v) || fold(a) in ORDER_CAPABLE_ATTRIBUTES
    {
      HandOnReaches(v, 0);
    }
    forall v, i ensures Reaches(w.item(v, i)) <==> Reaches(v) { HandOnReaches(v, 0); }
    forall v ensures Reaches(w.typeOf(v)) <==> Reaches(v) { HandOnReaches(v, 0); }
    forall v, n: nat
      ensures Reaches(v) ==> GivesParts(w.unpack(v, n), n)
      ensures w.unpack(v, n).Some? ==> forall p | p in w.unpack(v, n).value :: Reaches(p) ==> Reaches(v)
    {
      HandOnReaches(v, n);
    }
    assert PadsStrings(w);
  }

  /** All names that occur in an expression. */
  function NamesIn(e: Expr): set<string> {
    match e
    case Name(id) => {id}
    case Attribute(value, _) => NamesIn(value)
    case Subscript(value, index) => NamesIn(value) + NamesIn(index)
    case Add(l, r) => NamesIn(l) + NamesIn(r)
    case JoinedStr(values) => set x, n | x in values && n in NamesIn(x) :: n
    case FormattedValue(value, _, spec) => NamesIn(value) + (if spec.Some? then NamesIn(spec.value) else {})
    case Call(func, args, keywords) =>
      NamesIn(func) + (set x, n | x in args && n in NamesIn(x) :: n)
          + (set x, n | x in keywords && n in NamesIn(x) :: n)
    case ListLit(elts) => set x, n | x in elts && n in NamesIn(x) :: n
    case SetLit(elts) => set x, n | x in elts && n in NamesIn(x) :: n
    case TupleLit(elts) => set x, n | x in elts && n in NamesIn(x) :: n
    case DictLit(keys, values) =>
      (set x, n | x in keys && n in NamesIn(x) :: n) + (set x, n | x in values && n in NamesIn(x) :: n)
    case Starred(value) => NamesIn(value)
    case _ => {}
  }

  /** Every name of the expression that counts as tainted is bound to something that reaches the module. */
  ghost predicate Armed(e: Expr, env: Env, tainted: set<string>, fold: Fold) {
    forall x | x in NamesIn(e) && fold(x) in tainted && x in env :: Reaches(env[x])
  }

  /** The world in which to look for the module. */
  ghost predicate Fitting(w: World, fold: Fold) {
    Lawful(w, fold) && HandsOn(w, fold)
  }

  lemma {:induction false} CapableYields(e: Expr, env: Env, w: World, tainted: set<string>, fold: Fold)
    requires Tracked(e) && OrderCapable(e, tainted, fold) && Armed(e, env, tainted, fold) && Fitting(w, fold)
    requires Eval(e, env, w).Some?
    ensures Yields(e, env, w)
    decreases e, 2
  {
    hide Tracked, Fitting, Armed, Eval, Yields, OrderCapable;
    match e
    case Name(_) => NameYields(e, env, w, tainted, fold);
    case Attribute(_, _) => AccessYields(e, env, w, tainted, fold);
    case Subscript(_, _) => AccessYields(e, env, w, tainted, fold);
    case Call(_, _, _) => CallYields(e, env, w, tainted, fold);
    case ListLit(_) => DisplayYields(e, env, w, tainted, fold);
    case SetLit(_) => DisplayYields(e, env, w, tainted, fold);
    case TupleLit(_) => DisplayYields(e, env, w, tainted, fold);
    case DictLit(_, _) => DictYields(e, env, w, tainted, fold);
    case _ => NothingElseIsCapable(e, tainted, fold);
  }

  lemma {:induction false} NothingElseIsCapable(e: Expr, tainted: set<string>, fold: Fold)
    requires !e.Name? && !e.Attribute? && !e.Subscript? && !e.Call? && !e.ListLit? && !e.SetLit? && !e.TupleLit?
             && !e.DictLit?
    ensures !OrderCapable(e, tainted, fold)
  {
  }

  lemma {:induction false} NameYields(e: Expr, env: Env, w: World, tainted: set<string>, fold: Fold)
    requires e.Name? && OrderCapable(e, tainted, fold) && Armed(e, env, tainted, fold) && Eval(e, env, w).Some?
    ensures Yields(e, env, w)
  {
    hide Reaches;
  }

  lemma {:induction false} AccessYields(e: Expr, env: Env, w: World, tainted: set<string>, fold: Fold)
    requires (e.Attribute? || e.Subscript?) && Tracked(e) && OrderCapable(e, tainted, fold)
    requires Armed(e, env, tainted, fold) && Fitting(w, fold) && Eval(e, env, w).Some?
    ensures Yields(e, env, w)
    decreases e, 1
  {
    hide Lawful, HandsOn, PlainText, EvalCall, Converted, IsMetaTraderImport, Reaches;
    var v := Eval(e.value, env, w).value;
    if OrderCapable(e.value, tainted, fold) { CapableYields(e.value, env, w, tainted, fold); }
    if e.Attribute? {
      HandsAccess(w, fold, v, e.attr, v, 0);
    } else {
      HandsAccess(w, fold, v, "", Eval(e.index, env, w).value, 0);
    }
  }

  lemma {:induction false} PartYields(e: Expr, elts: seq<Expr>, env: Env, w: World, tainted: set<string>, fold: Fold)
    requires forall x | x in elts :: x < e && Tracked(x) && Armed(x, env, tainted, fold)
    requires (exists x | x in elts :: OrderCapable(x, tainted, fold)) && Fitting(w, fold)
    requires EvalAll(elts, env, w).Some?
    ensures exists p | p in EvalAll(elts, env, w).value :: Reaches(p)
    decreases e, 0
  {
    hide Tracked, Fitting, Armed, OrderCapable, Eval, Reaches;
    var x :| x in elts && OrderCapable(x, tainted, fold);
    var i :| 0 <= i < |elts| && elts[i] == x;
    CapableYields(x, env, w, tainted, fold);
    var vs := EvalAll(elts, env, w).value;
    assert vs[i] in vs && Eval(x, env, w) == Some(vs[i]);
  }

  /** The parts of an expression are armed with it. */
  lemma {:induction false} PartsArmed(e: Expr, elts: seq<Expr>, env: Env, tainted: set<string>, fold: Fold)
    requires Armed(e, env, tainted, fold) && forall x | x in elts :: NamesIn(x) <= NamesIn(e)
    ensures forall x | x in elts :: Armed(x, env, tainted, fold)
  {
    hide NamesIn, Reaches;
  }

  lemma {:induction false} DisplayYields(e: Expr, env: Env, w: World, tainted: set<string>, fold: Fold)
    requires (e.ListLit? || e.SetLit? || e.TupleLit?) && Tracked(e) && OrderCapable(e, tainted, fold)
    requires Armed(e, env, tainted, fold) && Fitting(w, fold) && Eval(e, env, w).Some?
    ensures Yields(e, env, w)
    decreases e, 1
  {
    hide Armed, Fitting, PlainText, EvalCall, Converted, IsMetaTraderImport;
    PartsArmed(e, e.elts, env, tainted, fold);
    PartYields(e, e.elts, env, w, tainted, fold);
  }

  lemma {:induction false} DictYields(e: Expr, env: Env, w: World, tainted: set<string>, fold: Fold)
    requires e.DictLit? && Tracked(e) && OrderCapable(e, tainted, fold)
    requires Armed(e, env, tainted, fold) && Fitting(w, fold) && Eval(e, env, w).Some?
    ensures Yields(e, env, w)
    decreases e, 1
  {
    hide Armed, Fitting, PlainText, EvalCall, Converted, IsMetaTraderImport;
    PartsArmed(e, e.keys + e.values, env, tainted, fold);
    var ks, vs := EvalAll(e.keys, env, w).value, EvalAll(e.values, env, w).value;
    if exists x | x in e.keys :: OrderCapable(x, tainted, fold) {
      PartYields(e, e.keys, env, w, tainted, fold);
      var p :| p in ks && Reaches(p);
      assert p in ks + vs;
    } else {
      PartYields(e, e.values, env, w, tainted, fold);
      var p :| p in vs && Reaches(p);
      assert p in ks + vs;
    }
  }

  lemma {:induction false} CallYields(e: Expr, env: Env, w: World, tainted: set<string>, fold: Fold)
    requires e.Call? && Tracked(e) && OrderCapable(e, tainted, fold)
    requires Armed(e, env, tainted, fold) && Fitting(w, fold) && Eval(e, env, w).Some?
    ensures Yields(e, env, w)
    decreases e, 1
  {
    hide Lawful, HandsOn, PlainText, Reaches, Armed, Eval, EvalCall;
    var func, args := e.func, e.args;
    var vs := CallValue(e, env, w);
    if IsImportFunction(func) {
      StaticText(args[0]);
      PlainTextValue(args[0], env, w, fold);
      ImportYields(e, vs, env, w);
    } else if func == Name("globals") || func == Name("locals") {
      NamespaceYields(e, env, w, fold);
    } else {
      assert args[0] in args;
      PartsArmed(e, args, env, tainted, fold);
      CapableYields(args[0], env, w, tainted, fold);
      HandsAccess(w, fold, vs[0], if |vs| > 1 && vs[1].Str? then vs[1].s else "", vs[0], 0);
    }
  }

  lemma {:induction false} ImportYields(e: Expr, vs: seq<Value>, env: Env, w: World)
    requires e.Call? && IsImportFunction(e.func) && EvalAll(e.args, env, w) == Some(vs) && |vs| > 0
    requires vs[0] == Str("MetaTrader5")
    ensures Yields(e, env, w)
  {
    assert Eval(e, env, w) == EvalCall(e.func, vs, env, w);
  }

  lemma {:induction false} NamespaceYields(e: Expr, env: Env, w: World, fold: Fold)
    requires e.Call? && (e.func == Name("globals") || e.func == Name("locals")) && Eval(e, env, w).Some?
    requires HandsOn(w, fold)
    ensures Yields(e, env, w)
  {
    hide Reaches;
    var vs := EvalAll(e.args, env, w).value;
    assert Eval(e, env, w) == EvalCall(e.func, vs, env, w);
  }

  /** The environment that has every tainted name of the expression bound to the module. */
  function AllTainted(e: Expr, tainted: set<string>, fold: Fold): Env {
    map x | x in NamesIn(e) :: if fold(x) in tainted then Module else Opaque
  }

  ghost predicate CanYield(e: Expr, tainted: set<string>, fold: Fold) {
    exists env, w :: Lawful(w, fold) && Covered(env, tainted, fold) && Yields(e, env, w)
  }

  /**
   The rules are exact for expressions that evaluate at all: an expression is order-capable exactly when in some lawful
   world and some environment whose module-reaching variables are tainted it evaluates to something that reaches the
   module.
   */
  lemma {:induction false} OrderCapableIffReachable(e: Expr, tainted: set<string>, fold: Fold)
    requires Tracked(e) && FoldsConstants(fold) && Eval(e, AllTainted(e, tainted, fold), Generous(fold)).Some?
    ensures OrderCapable(e, tainted, fold) <==> CanYield(e, tainted, fold)
  {
    hide Tracked, OrderCapable, Lawful, HandsOn, Eval, Generous, Yields;
    if OrderCapable(e, tainted, fold) {
      var env := AllTainted(e, tainted, fold);
      GenerousIsLawful(fold);
      CapableYields(e, env, Generous(fold), tainted, fold);
      assert Covered(env, tainted, fold);
    }
    if CanYield(e, tainted, fold) {
      var env, w :| Lawful(w, fold) && Covered(env, tainted, fold) && Yields(e, env, w);
      EvalCovered(e, env, w, tainted, fold);
    }
  }

  /**
   Reflection on something order-capable: the rules follow it for one attribute only. Any other one may hand the module
   on just as well, so such calls are not among the tracked expressions.
   */
  lemma {:induction false} ReflectionLaw(obj: Expr, attr: string, env: Env, tainted: set<string>, fold: Fold)
    requires FoldsConstants(fold) && Yields(obj, env, Generous(fold)) && OrderCapable(obj, tainted, fold)
    ensures var e := Call(Name("getattr"), [obj, StrConst(attr)], []);
            && Yields(e, env, Generous(fold))
            && (OrderCapable(e, tainted, fold) <==> attr == "copy_ticks_range")
            && (Tracked(e) ==> attr == "copy_ticks_range")
  {
    hide Tracked, OrderCapable, Yields;
    ReflectionRule(obj, attr, tainted, fold);
    ReflectionYields(obj, attr, env, fold);
  }

  lemma {:induction false} ReflectionRule(obj: Expr, attr: string, tainted: set<string>, fold: Fold)
    requires OrderCapable(obj, tainted, fold)
    ensures var e := Call(Name("getattr"), [obj, StrConst(attr)], []);
            && (OrderCapable(e, tainted, fold) <==> attr == "copy_ticks_range")
            && (Tracked(e) ==> attr == "copy_ticks_range")
  {
    assert StaticString(StrConst(attr)) == Some(attr);
  }

  lemma {:induction false} ReflectionYields(obj: Expr, attr: string, env: Env, fold: Fold)
    requires FoldsConstants(fold) && Yields(obj, env, Generous(fold))
    ensures Yields(Call(Name("getattr"), [obj, StrConst(attr)], []), env, Generous(fold))
  {
    hide Generous, HandsOn, Lawful, Reaches;
    var e, w := Call(Name("getattr"), [obj, StrConst(attr)], []), Generous(fold);
    GenerousIsLawful(fold);
    var v := Eval(obj, env, w).value;
    HandsAccess(w, fold, v, attr, v, 0);
    TwoArguments(obj, attr, env, w);
    assert Eval(e, env, w) == EvalCall(e.func, [v, Str(attr)], env, w);
  }

  lemma {:induction false} TwoArguments(obj: Expr, attr: string, env: Env, w: World)
    requires Eval(obj, env, w).Some?
    ensures EvalAll([obj, StrConst(attr)], env, w) == Some([Eval(obj, env, w).value, Str(attr)])
  {
    hide EvalCall, Converted;
    var args := [obj, StrConst(attr)];
    assert args[0] == obj && args[1] == StrConst(attr);
    var vs := EvalAll(args, env, w);
    assert vs.Some? && vs.value == [Eval(obj, env, w).value, Str(attr)];
  }
}
