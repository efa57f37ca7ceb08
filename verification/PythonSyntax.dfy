/**
 The part of the Python expression grammar that the release scanner inspects, and a big-step
 evaluator for it. Everything the scanner cannot know about the running program (attribute
 lookup, subscripting, unpacking, formatting, unknown calls) is read from a `World`, so a
 statement over all worlds is a statement over all runtime behaviours.
 */
module PythonSyntax {
  import opened Common

  datatype Conversion = NoConversion | ToStr | ToRepr | ToAscii

  datatype Expr =
    | StrConst(s: string)
    | OtherConst
    | Name(id: string)
    | Attribute(value: Expr, attr: string)
    | Subscript(value: Expr, index: Expr)
    | Add(left: Expr, right: Expr)
    | JoinedStr(values: seq<Expr>)
    | FormattedValue(value: Expr, conversion: Conversion, spec: Option<Expr>)
    | Call(func: Expr, args: seq<Expr>, keywords: seq<Expr>)
    | ListLit(elts: seq<Expr>)
    | SetLit(elts: seq<Expr>)
    | TupleLit(elts: seq<Expr>)
    | DictLit(keys: seq<Expr>, values: seq<Expr>)
    | NoKey                       // the absent key of a `**mapping` entry in a dict display
    | Starred(value: Expr)
    | OtherExpr

  /** Runtime values; `Node` is any object that holds further values. */
  datatype Value =
    | Str(s: string)
    | Module
    | Opaque
    | Node(parts: seq<Value>)

  type Env = map<string, Value>

  /** The value is the broker module or holds it at some depth. */
  predicate Reaches(v: Value) {
    match v
    case Module => true
    case Node(parts) => exists p | p in parts :: Reaches(p)
    case _ => false
  }

  /** Everything about the running program that the source text does not determine. */
  datatype World = World(
    attr: (Value, string) -> Value,
    item: (Value, Value) -> Value,
    add: (Value, Value) -> Value,
    unpack: (Value, nat) -> Option<seq<Value>>,   // so many parts, if the value yields that many
    typeOf: Value -> Value,
    namespace: Value,
    imported: string -> Value,
    public: string -> seq<string>,        // what a star import of the package binds
    call: (Value, seq<Value>) -> Value,
    repr: string -> string,
    ascii: string -> string,
    show: Value -> string,
    format: (string, string) -> Option<string>)   // `None` when the specification is rejected

  function Join(separator: string, pieces: seq<string>): string {
    if |pieces| == 0 then ""
    else if |pieces| == 1 then pieces[0]
    else pieces[0] + separator + Join(separator, pieces[1..])
  }

  function Concat(pieces: seq<string>): string {
    if |pieces| == 0 then "" else pieces[0] + Concat(pieces[1..])
  }

  predicate AllStrings(vs: seq<Value>) {
    forall v | v in vs :: v.Str?
  }

  function Texts(vs: seq<Value>): (r: seq<string>)
    requires AllStrings(vs)
    ensures |r| == |vs|
  {
    seq(|vs|, i requires 0 <= i < |vs| => vs[i].s)
  }

  /** `str`, `repr` or `ascii` of a value, as an f-string replacement field asks for. */
  function Converted(v: Value, conversion: Conversion, w: World): string {
    var text := if v.Str? then v.s else w.show(v);
    match conversion
    case NoConversion => text
    case ToStr => text
    case ToRepr => if v.Str? then w.repr(v.s) else text
    case ToAscii => if v.Str? then w.ascii(v.s) else text
  }

  /** What evaluating `e` yields; `None` when it raises. */
  function Eval(e: Expr, env: Env, w: World): Option<Value>
    decreases e, 1
  {
    match e
    case StrConst(s) => Some(Str(s))
    case OtherConst => Some(Opaque)
    case Name(id) => if id in env then Some(env[id]) else None
    case Attribute(value, attr) =>
      (match Eval(value, env, w)
       case None => None
       case Some(v) => Some(w.attr(v, attr)))
    case Subscript(value, index) =>
      (match (Eval(value, env, w), Eval(index, env, w))
       case (Some(v), Some(i)) => Some(w.item(v, i))
       case _ => None)
    case Add(left, right) =>
      (match (Eval(left, env, w), Eval(right, env, w))
       case (Some(Str(l)), Some(Str(r))) => Some(Str(l + r))
       case (Some(l), Some(r)) => Some(w.add(l, r))
       case _ => None)
    case JoinedStr(values) =>
      (match EvalAll(values, env, w)
       case Some(vs) => if AllStrings(vs) then Some(Str(Concat(Texts(vs)))) else None
       case None => None)
    case FormattedValue(value, conversion, spec) =>
      (match Eval(value, env, w)
       case None => None
       case Some(v) =>
         var text := Converted(v, conversion, w);
         if spec.None? then Some(Str(text))
         else
           match Eval(spec.value, env, w)
           case Some(Str(p)) =>
             (match w.format(text, p)
              case Some(t) => Some(Str(t))
              case None => None)
           case _ => None)
    case Call(func, args, keywords) =>
      (match EvalAll(args, env, w)
       case None => None
       case Some(vs) => EvalCall(func, vs, env, w))
    case ListLit(elts) => MakeNode(EvalAll(elts, env, w))
    case SetLit(elts) => MakeNode(EvalAll(elts, env, w))
    case TupleLit(elts) => MakeNode(EvalAll(elts, env, w))
    case DictLit(keys, values) =>
      (match (EvalAll(keys, env, w), EvalAll(values, env, w))
       case (Some(ks), Some(vs)) => Some(Node(ks + vs))
       case _ => None)
    case NoKey => Some(Opaque)
    case Starred(value) => None
    case OtherExpr => None
  }

  function MakeNode(parts: Option<seq<Value>>): Option<Value> {
    match parts
    case Some(vs) => Some(Node(vs))
    case None => None
  }

  /** Evaluates left to right; raises as soon as one element does. */
  function EvalAll(es: seq<Expr>, env: Env, w: World): (r: Option<seq<Value>>)
    ensures r.Some? ==> |r.value| == |es|
    ensures r.Some? ==> forall i | 0 <= i < |es| :: Eval(es[i], env, w) == Some(r.value[i])
    ensures (forall i | 0 <= i < |es| :: Eval(es[i], env, w).Some?) ==> r.Some?
    decreases es, 0
  {
    if |es| == 0 then Some([])
    else
      assert forall i | 0 < i < |es| :: es[i] == es[1..][i - 1];
      match (Eval(es[0], env, w), EvalAll(es[1..], env, w))
      case (Some(v), Some(vs)) => Some([v] + vs)
      case _ => None
  }

  predicate IsImportFunction(func: Expr) {
    || func == Name("__import__")
    || (func.Attribute? && func.attr == "import_module" && func.value == Name("importlib"))
  }

  /** The call, once its arguments are known. Builtins are not rebound by the program. */
  function EvalCall(func: Expr, vs: seq<Value>, env: Env, w: World): Option<Value>
    decreases func, 2
  {
    if IsImportFunction(func) then
      if |vs| == 0 || !vs[0].Str? then None
      else if vs[0].s == "MetaTrader5" then Some(Module)
      else Some(w.imported(vs[0].s))
    else if func == Name("globals") || func == Name("locals") then Some(w.namespace)
    else if func == Name("type") && |vs| > 0 then Some(w.typeOf(vs[0]))
    else if (func == Name("getattr") || func == Name("hasattr")) && |vs| >= 2 then
      if vs[1].Str? then Some(w.attr(vs[0], vs[1].s)) else None
    else if func.Attribute? && func.attr == "join" then
      match Eval(func.value, env, w)
      case Some(Str(separator)) =>
        if |vs| == 1 && vs[0].Node? && AllStrings(vs[0].parts) then
          Some(Str(Join(separator, Texts(vs[0].parts))))
        else None
      case Some(v) => Some(w.call(v, vs))
      case None => None
    else
      match Eval(func, env, w)
      case Some(f) => Some(w.call(f, vs))
      case None => None
  }

  /** Where the i-th piece starts in the joined text. */
  function Offset(separator: string, pieces: seq<string>, i: nat): nat
    requires i <= |pieces|
  {
    if i == 0 then 0 else |pieces[0]| + |separator| + Offset(separator, pieces[1..], i - 1)
  }

  predicate StandsAt(text: string, at: nat, part: string) {
    at + |part| <= |text| && text[at..at + |part|] == part
  }

  lemma {:induction false} StandsLater(first: string, rest: string, at: nat, part: string)
    requires StandsAt(rest, at, part)
    ensures StandsAt(first + rest, |first| + at, part)
  {
    assert (first + rest)[|first| + at..|first| + at + |part|] == rest[at..at + |part|];
  }

  /** Joined text holds the pieces in order, with the separator after each but the last. */
  lemma {:induction false} JoinHolds(separator: string, pieces: seq<string>, i: nat)
    requires i < |pieces|
    ensures var text, at := Join(separator, pieces), Offset(separator, pieces, i);
            && StandsAt(text, at, pieces[i])
            && (if i == |pieces| - 1 then at + |pieces[i]| == |text| else StandsAt(text, at + |pieces[i]|, separator))
    decreases i
  {
    if |pieces| > 1 {
      hide StandsAt;
      var first, rest := pieces[0] + separator, Join(separator, pieces[1..]);
      assert Join(separator, pieces) == first + rest;
      if i > 0 {
        JoinHolds(separator, pieces[1..], i - 1);
        var at := Offset(separator, pieces[1..], i - 1);
        StandsLater(first, rest, at, pieces[i]);
        if i < |pieces| - 1 { StandsLater(first, rest, at + |pieces[i]|, separator); }
      } else {
        FrontStands(pieces[0], separator, rest);
      }
    }
  }

  lemma {:induction false} FrontStands(a: string, b: string, c: string)
    ensures StandsAt(a + b + c, 0, a) && StandsAt(a + b + c, |a|, b)
  {
    assert (a + b + c)[0..|a|] == a && (a + b + c)[|a|..|a| + |b|] == b;
  }

  /** Pieces put together without a separator. */
  lemma {:induction false} ConcatIsJoin(pieces: seq<string>)
    ensures Concat(pieces) == Join("", pieces)
  {
    if |pieces| > 0 {
      ConcatIsJoin(pieces[1..]);
      if |pieces| == 1 { assert Concat(pieces[1..]) == ""; }
    }
  }
}
