/**
 The constant folder for string expressions, and what its answers mean: for every expression
 it folds, exactly when the folded text is the text that the expression evaluates to.
 */
module StaticStrings {
  import opened Common
  import opened PythonSyntax

  predicate IsJoinCall(e: Expr) {
    && e.Call?
    && e.func.Attribute?
    && e.func.attr == "join"
    && |e.args| == 1
    && |e.keywords| == 0
    && (e.args[0].ListLit? || e.args[0].TupleLit?)
  }

  function StaticString(e: Expr): Option<string>
    decreases e, 1
  {
    if e.StrConst? then Some(e.s)
    else if e.Add? then
      match (StaticString(e.left), StaticString(e.right))
      case (Some(l), Some(r)) => Some(l + r)
      case _ => None
    else if e.JoinedStr? then
      match StaticPieces(e.values, true)
      case Some(pieces) => Some(Concat(pieces))
      case None => None
    else if IsJoinCall(e) && StaticString(e.func.value).Some? then
      match StaticPieces(e.args[0].elts, false)
      case Some(pieces) => Some(Join(StaticString(e.func.value).value, pieces))
      case None => None
    else None
  }

  /** A replacement field of an f-string is folded through its inner expression. */
  function StaticPiece(v: Expr, inFString: bool): Option<string>
    decreases v, 2
  {
    if inFString && v.FormattedValue? then StaticString(v.value) else StaticString(v)
  }

  function StaticPieces(es: seq<Expr>, inFString: bool): (r: Option<seq<string>>)
    ensures r.Some? ==> |r.value| == |es|
    ensures r.Some? ==> forall i | 0 <= i < |es| :: StaticPiece(es[i], inFString) == Some(r.value[i])
    ensures (forall i | 0 <= i < |es| :: StaticPiece(es[i], inFString).Some?) ==> r.Some?
    decreases es, 0
  {
    if |es| == 0 then Some([])
    else
      assert forall i | 0 < i < |es| :: es[i] == es[1..][i - 1];
      match (StaticPiece(es[0], inFString), StaticPieces(es[1..], inFString))
      case (Some(s), Some(rest)) => Some([s] + rest)
      case _ => None
  }

  /** Constants, `+`, f-strings and `join` over a list or tuple display of the same. */
  predicate StringFragment(e: Expr)
  {
    match e
    case StrConst(_) => true
    case Add(l, r) => StringFragment(l) && StringFragment(r)
    case JoinedStr(values) =>
      forall v | v in values ::
        if v.FormattedValue? then StringFragment(v.value) else StringFragment(v)
    case Call(func, args, keywords) =>
      && func.Attribute? && func.attr == "join" && StringFragment(func.value)
      && |args| == 1 && |keywords| == 0 && (args[0].ListLit? || args[0].TupleLit?)
      && (forall x | x in args[0].elts :: StringFragment(x))
    case _ => false
  }

  // ---------------------------------------------------------------------------------------
  // Format specifications of strings

  /** A decimal numeral; the empty one stands for zero. */
  function Decimal(p: string): Option<nat> {
    if |p| == 0 then Some(0)
    else
      var c := p[|p| - 1];
      match Decimal(p[..|p| - 1])
      case Some(n) => if '0' <= c <= '9' then Some(10 * n + (c - '0') as int) else None
      case None => None
  }

  predicate IsAlign(c: char) {
    c == '<' || c == '>' || c == '^'
  }

  /**
   The least width that a specification asks for: an optional fill and alignment, an optional width and an optional
   `s`. Specifications with a precision, and those that a string does not take, have none.
   */
  function WidthOf(p: string): Option<nat> {
    var q := if |p| >= 2 && IsAlign(p[1]) then p[2..] else if |p| >= 1 && IsAlign(p[0]) then p[1..] else p;
    Decimal(if |q| > 0 && q[|q| - 1] == 's' then q[..|q| - 1] else q)
  }

  /** Formatting a string pads it to the width, and leaves it alone when it is that wide already. */
  ghost predicate PadsStrings(w: World) {
    forall s, p | WidthOf(p).Some? :: PadsTo(s, w.format(s, p), WidthOf(p).value)
  }

  predicate PadsTo(s: string, t: Option<string>, width: nat) {
    t.Some? && (if width <= |s| then t.value == s else |t.value| == width)
  }

  /** Left-aligned padding with blanks. */
  function Padded(s: string, width: nat): (t: string)
    ensures PadsTo(s, Some(t), width)
  {
    if width <= |s| then s else s + seq(width - |s|, _ => ' ')
  }

  function Formatted(s: string, p: string): Option<string> {
    if WidthOf(p).Some? then Some(Padded(s, WidthOf(p).value)) else None
  }

  /** The folded specification asks for no more than the folded text is wide. */
  predicate Fits(spec: Expr, text: Expr) {
    && StaticString(spec).Some? && StaticString(text).Some?
    && var width := WidthOf(StaticString(spec).value);
    width.Some? && width.value <= |StaticString(text).value|
  }

  /** Some `!r` or `!a` conversion or format specification changes text that the expression's value contains. */
  predicate Alters(e: Expr)
  {
    match e
    case Add(l, r) => Alters(l) || Alters(r)
    case JoinedStr(values) =>
      exists v | v in values ::
        if v.FormattedValue? then
          || v.conversion.ToRepr? || v.conversion.ToAscii? || Alters(v.value)
          || (v.spec.Some? && (Alters(v.spec.value) || !Fits(v.spec.value, v.value)))
        else Alters(v)
    case Call(func, args, keywords) =>
      && IsJoinCall(e)
      && ((|args[0].elts| >= 2 && Alters(func.value)) || exists x | x in args[0].elts :: Alters(x))
    case _ => false
  }

  /** Every format specification that the folder looks past is unaltered foldable text that asks for a width only. */
  predicate PaddingSpecs(e: Expr)
  {
    match e
    case Add(l, r) => PaddingSpecs(l) && PaddingSpecs(r)
    case JoinedStr(values) =>
      forall v | v in values ::
        if v.FormattedValue? then
          && PaddingSpecs(v.value)
          && (v.spec.Some? ==>
                && PaddingSpecs(v.spec.value) && !Alters(v.spec.value)
                && StaticString(v.spec.value).Some? && WidthOf(StaticString(v.spec.value).value).Some?)
        else PaddingSpecs(v)
    case Call(func, args, keywords) =>
      IsJoinCall(e) ==> PaddingSpecs(func.value) && (forall x | x in args[0].elts :: PaddingSpecs(x))
    case _ => true
  }

  /** `repr` and `ascii` of a string wrap it in quotes and never drop a character. */
  ghost predicate QuotingWorld(w: World) {
    forall s: string :: |w.repr(s)| >= |s| + 2 && |w.ascii(s)| >= |s| + 2
  }

  // ---------------------------------------------------------------------------------------
  // Text assembled from pieces that may each have grown

  predicate Grown(ss: seq<string>, ts: seq<string>) {
    |ss| == |ts| && forall i | 0 <= i < |ss| :: |ss[i]| <= |ts[i]|
  }

  predicate SomeLonger(ss: seq<string>, ts: seq<string>)
    requires |ss| == |ts|
  {
    exists i | 0 <= i < |ss| :: |ss[i]| < |ts[i]|
  }

  lemma {:induction false} ConcatGrows(ss: seq<string>, ts: seq<string>)
    requires Grown(ss, ts)
    ensures |Concat(ss)| <= |Concat(ts)|
    ensures SomeLonger(ss, ts) ==> |Concat(ss)| < |Concat(ts)|
  {
    if |ss| > 0 {
      ConcatGrows(ss[1..], ts[1..]);
      if SomeLonger(ss, ts) && |ss[0]| == |ts[0]| {
        var i :| 0 <= i < |ss| && |ss[i]| < |ts[i]|;
        assert |ss[1..][i - 1]| < |ts[1..][i - 1]|;
      }
    }
  }

  lemma {:induction false} JoinGrows(s: string, t: string, ss: seq<string>, ts: seq<string>)
    requires Grown(ss, ts) && |s| <= |t|
    ensures |Join(s, ss)| <= |Join(t, ts)|
    ensures SomeLonger(ss, ts) || (|s| < |t| && |ss| >= 2) ==> |Join(s, ss)| < |Join(t, ts)|
  {
    if |ss| > 1 {
      JoinGrows(s, t, ss[1..], ts[1..]);
      if SomeLonger(ss, ts) && |ss[0]| == |ts[0]| {
        var i :| 0 <= i < |ss| && |ss[i]| < |ts[i]|;
        assert |ss[1..][i - 1]| < |ts[1..][i - 1]|;
      }
    }
  }

  lemma {:induction false} JoinIgnoresSeparator(s: string, t: string, ss: seq<string>)
    requires s == t || |ss| < 2
    ensures Join(s, ss) == Join(t, ss)
  {
  }

  // ---------------------------------------------------------------------------------------
  // The folder against the evaluator

  /**
   The evaluated text `t` against the folded text `s`: equal unless something alters it, and where alterations only
   grow never shorter, and then longer.
   */
  predicate Matches(s: string, t: string, alters: bool, grows: bool) {
    (!alters ==> t == s) && (grows ==> |s| <= |t| && (alters ==> |s| < |t|))
  }

  predicate PieceAlters(v: Expr) {
    if v.FormattedValue? then
      || v.conversion.ToRepr? || v.conversion.ToAscii? || Alters(v.value)
      || (v.spec.Some? && (Alters(v.spec.value) || !Fits(v.spec.value, v.value)))
    else Alters(v)
  }

  predicate PiecePads(v: Expr) {
    if v.FormattedValue? then
      && PaddingSpecs(v.value)
      && (v.spec.Some? ==>
            && PaddingSpecs(v.spec.value) && !Alters(v.spec.value)
            && StaticString(v.spec.value).Some? && WidthOf(StaticString(v.spec.value).value).Some?)
    else PaddingSpecs(v)
  }

  /** What a folded expression evaluates to, if it evaluates. */
  ghost predicate Agrees(e: Expr, env: Env, w: World) {
    StaticString(e).Some? && Eval(e, env, w).Some? ==>
      && Eval(e, env, w).value.Str?
      && Matches(StaticString(e).value, Eval(e, env, w).value.s, Alters(e), PaddingSpecs(e) && QuotingWorld(w))
  }

  ghost predicate PieceAgrees(v: Expr, env: Env, w: World) {
    StaticPiece(v, true).Some? && Eval(v, env, w).Some? ==>
      && Eval(v, env, w).value.Str?
      && Matches(StaticPiece(v, true).value, Eval(v, env, w).value.s, PieceAlters(v), PiecePads(v) && QuotingWorld(w))
  }

  lemma {:induction false} FoldMatches(e: Expr, env: Env, w: World)
    requires PadsStrings(w)
    ensures Agrees(e, env, w)
    decreases e, 1
  {
    hide QuotingWorld, PadsStrings;
    match e
    case StrConst(_) =>
    case Add(l, r) =>
      FoldMatches(l, env, w);
      FoldMatches(r, env, w);
    case JoinedStr(values) => JoinedStrMatches(e, env, w);
    case Call(func, args, keywords) => if IsJoinCall(e) { JoinCallMatches(e, env, w); }
    case _ =>
  }

  lemma {:induction false} PieceMatches(v: Expr, env: Env, w: World)
    requires PadsStrings(w)
    ensures PieceAgrees(v, env, w)
    decreases v, 2
  {
    hide Eval, StaticString, Alters, PaddingSpecs, Matches, QuotingWorld, PadsStrings, Fits;
    if v.FormattedValue? {
      FoldMatches(v.value, env, w);
      if v.spec.Some? { FoldMatches(v.spec.value, env, w); }
      FieldMatches(v, env, w);
    } else {
      FoldMatches(v, env, w);
    }
  }

  /** What a conversion does to the text of a string. */
  lemma {:induction false} ConversionMatches(s: string, t: string, conversion: Conversion, alters: bool, grows: bool,
                                             w: World)
    requires Matches(s, t, alters, grows) && (grows ==> QuotingWorld(w))
    ensures var quotes := conversion.ToRepr? || conversion.ToAscii?;
            Matches(s, Converted(Str(t), conversion, w), alters || quotes, grows)
  {
  }

  /** What a specification does to it. */
  lemma {:induction false} PaddingMatches(s: string, t: string, p: string, alters: bool, grows: bool, w: World)
    requires PadsStrings(w) && WidthOf(p).Some? && Matches(s, t, alters, grows)
    ensures w.format(t, p).Some?
    ensures Matches(s, w.format(t, p).value, alters || WidthOf(p).value > |s|, grows)
  {
    hide WidthOf;
    assert PadsTo(t, w.format(t, p), WidthOf(p).value);
  }

  /** A replacement field against the expression in it. */
  lemma {:induction false} FieldMatches(v: Expr, env: Env, w: World)
    requires v.FormattedValue? && PadsStrings(w) && Agrees(v.value, env, w)
    requires v.spec.Some? ==> Agrees(v.spec.value, env, w)
    ensures PieceAgrees(v, env, w)
  {
    hide StaticString, Alters, PaddingSpecs, WidthOf, PadsStrings, QuotingWorld, Converted;
    if StaticPiece(v, true).Some? && Eval(v, env, w).Some? {
      var s, t := StaticString(v.value).value, Eval(v.value, env, w).value.s;
      var grows := PiecePads(v) && QuotingWorld(w);
      var quotes := v.conversion.ToRepr? || v.conversion.ToAscii?;
      ConversionMatches(s, t, v.conversion, Alters(v.value), grows, w);
      if v.spec.Some? && StaticString(v.spec.value).Some? && !Alters(v.spec.value) {
        SpecText(v.spec.value, env, w);
        var p := StaticString(v.spec.value).value;
        if WidthOf(p).Some? {
          PaddingMatches(s, Converted(Str(t), v.conversion, w), p, Alters(v.value) || quotes, grows, w);
        }
      }
    }
  }

  /** Pieces that match one by one, with the text they are assembled into. */
  ghost predicate PiecesMatch(ss: seq<string>, ts: seq<string>, alters: seq<bool>, grows: bool) {
    |ss| == |ts| == |alters| && forall i | 0 <= i < |ss| :: Matches(ss[i], ts[i], alters[i], grows)
  }

  lemma {:induction false} PiecesGrow(ss: seq<string>, ts: seq<string>, alters: seq<bool>, grows: bool)
    requires PiecesMatch(ss, ts, alters, grows)
    ensures grows ==> Grown(ss, ts) && (SomeLonger(ss, ts) <==> true in alters)
    ensures true !in alters ==> ss == ts
  {
    if grows {
      if true in alters {
        var i :| 0 <= i < |alters| && alters[i] == true;
        assert |ss[i]| < |ts[i]|;
      }
      if SomeLonger(ss, ts) {
        var i :| 0 <= i < |ss| && |ss[i]| < |ts[i]|;
        assert alters[i];
      }
    }
    if true !in alters {
      forall i | 0 <= i < |ss| ensures ss[i] == ts[i] { assert alters[i] in alters; }
    }
  }

  lemma {:induction false} ConcatMatches(ss: seq<string>, ts: seq<string>, alters: seq<bool>, grows: bool)
    requires PiecesMatch(ss, ts, alters, grows)
    ensures Matches(Concat(ss), Concat(ts), true in alters, grows)
  {
    PiecesGrow(ss, ts, alters, grows);
    if grows { ConcatGrows(ss, ts); }
  }

  /** Joining matching pieces with a matching separator, which counts only between two pieces. */
  lemma {:induction false} JoinMatches(s: string, t: string, separatorAlters: bool,
                                       ss: seq<string>, ts: seq<string>, alters: seq<bool>, grows: bool)
    requires Matches(s, t, separatorAlters, grows) && PiecesMatch(ss, ts, alters, grows)
    ensures Matches(Join(s, ss), Join(t, ts), (|ss| >= 2 && separatorAlters) || true in alters, grows)
  {
    PiecesGrow(ss, ts, alters, grows);
    if grows { JoinGrows(s, t, ss, ts); }
    if !(|ss| >= 2 && separatorAlters) && true !in alters { JoinIgnoresSeparator(s, t, ss); }
  }

  /** Which pieces are altered, one by one. */
  function AltersOf(es: seq<Expr>, inFString: bool): (r: seq<bool>)
    ensures |r| == |es|
    ensures forall i | 0 <= i < |es| :: r[i] == if inFString then PieceAlters(es[i]) else Alters(es[i])
  {
    seq(|es|, i requires 0 <= i < |es| => if inFString then PieceAlters(es[i]) else Alters(es[i]))
  }

  lemma {:induction false} AltersSome(es: seq<Expr>, inFString: bool)
    ensures true in AltersOf(es, inFString) <==> exists v | v in es :: if inFString then PieceAlters(v) else Alters(v)
  {
    hide Alters, PieceAlters;
    var r := AltersOf(es, inFString);
    if true in r {
      var i :| 0 <= i < |r| && r[i] == true;
      assert es[i] in es;
    }
    if v :| v in es && if inFString then PieceAlters(v) else Alters(v) {
      var i :| 0 <= i < |es| && es[i] == v;
      assert r[i] in r;
    }
  }

  lemma {:induction false} PiecesAgree(es: seq<Expr>, inFString: bool, ss: seq<string>, vs: seq<Value>, env: Env,
                                       w: World, grows: bool)
    requires StaticPieces(es, inFString) == Some(ss) && EvalAll(es, env, w) == Some(vs)
    requires forall i | 0 <= i < |es| :: if inFString then PieceAgrees(es[i], env, w) else Agrees(es[i], env, w)
    requires grows ==> QuotingWorld(w)
    requires grows ==> forall i | 0 <= i < |es| :: if inFString then PiecePads(es[i]) else PaddingSpecs(es[i])
    ensures AllStrings(vs) && PiecesMatch(ss, Texts(vs), AltersOf(es, inFString), grows)
  {
    hide Alters, PieceAlters, StaticString, Eval, QuotingWorld, PaddingSpecs, PiecePads;
    forall i | 0 <= i < |es|
      ensures vs[i].Str? && Matches(ss[i], vs[i].s, AltersOf(es, inFString)[i], grows)
    {
      assert StaticPiece(es[i], inFString) == Some(ss[i]) && Eval(es[i], env, w) == Some(vs[i]);
      assert if inFString then PieceAgrees(es[i], env, w) else Agrees(es[i], env, w);
    }
  }

  lemma {:induction false} JoinedStrMatches(e: Expr, env: Env, w: World)
    requires e.JoinedStr? && PadsStrings(w)
    ensures Agrees(e, env, w)
    decreases e, 0
  {
    hide QuotingWorld, PadsStrings, PieceAgrees, PieceAlters, PiecePads, Matches, Alters, PaddingSpecs;
    var values := e.values;
    forall i | 0 <= i < |values| ensures PieceAgrees(values[i], env, w) { PieceMatches(values[i], env, w); }
    if StaticString(e).Some? && Eval(e, env, w).Some? {
      var ss, vs := StaticPieces(values, true).value, EvalAll(values, env, w).value;
      JoinedStrParts(e);
      var grows := PaddingSpecs(e) && QuotingWorld(w);
      PiecesAgree(values, true, ss, vs, env, w, grows);
      ConcatMatches(ss, Texts(vs), AltersOf(values, true), grows);
      AltersSome(values, true);
    }
  }

  lemma {:induction false} JoinedStrParts(e: Expr)
    requires e.JoinedStr?
    ensures Alters(e) <==> exists v | v in e.values :: PieceAlters(v)
    ensures PaddingSpecs(e) <==> forall v | v in e.values :: PiecePads(v)
  {
    hide Fits, WidthOf, StaticString;
  }

  /** A join call that evaluates joins what its arguments evaluate to. */
  lemma {:induction false} EvalJoinCall(e: Expr, env: Env, w: World)
    requires IsJoinCall(e)
    ensures var separator, elts := Eval(e.func.value, env, w), EvalAll(e.args[0].elts, env, w);
            separator.Some? && separator.value.Str? && elts.Some? ==>
              Eval(e, env, w)
              == if AllStrings(elts.value) then Some(Str(Join(separator.value.s, Texts(elts.value)))) else None
    ensures Eval(e, env, w).Some? ==> Eval(e.func.value, env, w).Some? && EvalAll(e.args[0].elts, env, w).Some?
  {
    hide StaticString, Join;
    var arg := e.args[0];
    assert e.args == [arg];
    var elts := EvalAll(arg.elts, env, w);
    assert Eval(arg, env, w) == MakeNode(elts);
    if elts.Some? {
      assert EvalAll([arg], env, w).value == [Node(elts.value)];
      assert Eval(e, env, w) == EvalCall(e.func, [Node(elts.value)], env, w);
    }
  }

  lemma {:induction false} JoinCallMatches(e: Expr, env: Env, w: World)
    requires IsJoinCall(e) && PadsStrings(w)
    ensures Agrees(e, env, w)
    decreases e, 0
  {
    hide QuotingWorld, PadsStrings, PieceAlters, PiecePads, Eval, EvalCall;
    var elts := e.args[0].elts;
    FoldMatches(e.func.value, env, w);
    forall i | 0 <= i < |elts| ensures Agrees(elts[i], env, w) { FoldMatches(elts[i], env, w); }
    if StaticString(e).Some? && Eval(e, env, w).Some? {
      EvalJoinCall(e, env, w);
      var s, t := StaticString(e.func.value).value, Eval(e.func.value, env, w).value.s;
      var ss, vs := StaticPieces(elts, false).value, EvalAll(elts, env, w).value;
      var grows := PaddingSpecs(e) && QuotingWorld(w);
      PiecesAgree(elts, false, ss, vs, env, w, grows);
      JoinMatches(s, t, Alters(e.func.value), ss, Texts(vs), AltersOf(elts, false), grows);
      AltersSome(elts, false);
    }
  }

  // ---------------------------------------------------------------------------------------
  // When the folder is right

  /** With specifications that only pad, what is folded evaluates to a string in every environment. */
  lemma {:induction false} FoldEvaluates(e: Expr, env: Env, w: World)
    requires StaticString(e).Some? && PaddingSpecs(e) && PadsStrings(w)
    ensures Eval(e, env, w).Some? && Eval(e, env, w).value.Str?
    decreases e, 1
  {
    hide PadsStrings;
    match e
    case StrConst(_) =>
    case Add(l, r) =>
      FoldEvaluates(l, env, w);
      FoldEvaluates(r, env, w);
    case JoinedStr(values) =>
      JoinedStrEvaluates(e, env, w);
    case Call(func, args, keywords) =>
      JoinCallEvaluates(e, env, w);
  }

  lemma {:induction false} JoinedStrEvaluates(e: Expr, env: Env, w: World)
    requires e.JoinedStr? && StaticString(e).Some? && PaddingSpecs(e) && PadsStrings(w)
    ensures Eval(e, env, w).Some? && Eval(e, env, w).value.Str?
    decreases e, 0
  {
    hide PadsStrings, PaddingSpecs, PiecePads, Alters, PieceAlters;
    JoinedStrParts(e);
    var values := e.values;
    forall i | 0 <= i < |values| ensures Eval(values[i], env, w).Some? && Eval(values[i], env, w).value.Str? {
      assert values[i] in values && StaticPiece(values[i], true).Some?;
      PieceEvaluates(values[i], env, w);
    }
  }

  lemma {:induction false} PieceEvaluates(v: Expr, env: Env, w: World)
    requires StaticPiece(v, true).Some? && PiecePads(v) && PadsStrings(w)
    ensures Eval(v, env, w).Some? && Eval(v, env, w).value.Str?
    decreases v, 2
  {
    hide Alters, PaddingSpecs, WidthOf, PadsStrings, StaticString;
    if v.FormattedValue? {
      FoldEvaluates(v.value, env, w);
      if v.spec.Some? {
        FoldEvaluates(v.spec.value, env, w);
        FoldMatches(v.spec.value, env, w);
        var p := Eval(v.spec.value, env, w).value.s;
        SpecText(v.spec.value, env, w);
        var text := Converted(Eval(v.value, env, w).value, v.conversion, w);
        PaddingMatches(text, text, p, false, false, w);
      }
    } else {
      FoldEvaluates(v, env, w);
    }
  }

  /** An unaltered specification is the text it folds to. */
  lemma {:induction false} SpecText(spec: Expr, env: Env, w: World)
    requires StaticString(spec).Some? && !Alters(spec) && Agrees(spec, env, w) && Eval(spec, env, w).Some?
    ensures Eval(spec, env, w) == Some(Str(StaticString(spec).value))
  {
    hide StaticString, Alters, Eval, PaddingSpecs;
  }

  lemma {:induction false} JoinCallEvaluates(e: Expr, env: Env, w: World)
    requires IsJoinCall(e) && StaticString(e).Some? && PaddingSpecs(e) && PadsStrings(w)
    ensures Eval(e, env, w).Some? && Eval(e, env, w).value.Str?
    decreases e, 0
  {
    hide Eval, EvalCall, PadsStrings;
    var elts := e.args[0].elts;
    FoldEvaluates(e.func.value, env, w);
    forall i | 0 <= i < |elts| ensures Eval(elts[i], env, w).Some? && Eval(elts[i], env, w).value.Str? {
      assert elts[i] in elts && StaticPiece(elts[i], false).Some?;
      FoldEvaluates(elts[i], env, w);
    }
    EvalJoinCall(e, env, w);
  }

  /** Whatever the specifications: where nothing alters the text and the expression evaluates, the folder is right. */
  lemma {:induction false} FoldIsRight(e: Expr, env: Env, w: World)
    requires StaticString(e).Some? && !Alters(e) && PadsStrings(w) && Eval(e, env, w).Some?
    ensures Eval(e, env, w) == Some(Str(StaticString(e).value))
  {
    FoldMatches(e, env, w);
    SpecText(e, env, w);
  }

  /**
   Without precisions in the format specifications the folder is right exactly when no `!r` or `!a` conversion
   contributes text and no specification asks for more width than the text in it has.
   */
  lemma {:induction false} FoldIsExact(e: Expr, env: Env, w: World)
    requires StaticString(e).Some? && PaddingSpecs(e) && PadsStrings(w) && QuotingWorld(w)
    ensures Eval(e, env, w) == Some(Str(StaticString(e).value)) <==> !Alters(e)
  {
    hide Eval, Alters, PaddingSpecs, PadsStrings, QuotingWorld;
    FoldEvaluates(e, env, w);
    FoldMatches(e, env, w);
  }

  /** The folder answers on the whole string fragment and nowhere else. */
  lemma {:induction false} FoldIsComplete(e: Expr)
    ensures StaticString(e).Some? <==> StringFragment(e)
  {
    match e
    case Add(l, r) =>
      FoldIsComplete(l);
      FoldIsComplete(r);
    case JoinedStr(values) =>
      forall v | v in values
        ensures StaticPiece(v, true).Some? <==> StringFragment(if v.FormattedValue? then v.value else v)
      {
        if v.FormattedValue? { FoldIsComplete(v.value); } else { FoldIsComplete(v); }
      }
      PiecesComplete(values, true);
    case Call(func, args, keywords) =>
      if IsJoinCall(e) {
        FoldIsComplete(func.value);
        forall x | x in args[0].elts ensures StaticPiece(x, false).Some? <==> StringFragment(x) { FoldIsComplete(x); }
        PiecesComplete(args[0].elts, false);
      }
    case _ =>
  }

  lemma {:induction false} PiecesComplete(es: seq<Expr>, inFString: bool)
    ensures StaticPieces(es, inFString).Some? <==> forall v | v in es :: StaticPiece(v, inFString).Some?
  {
    hide StaticPiece;
    if StaticPieces(es, inFString).Some? {
      forall v | v in es ensures StaticPiece(v, inFString).Some? {
        var i :| 0 <= i < |es| && es[i] == v;
      }
    }
    if forall v | v in es :: StaticPiece(v, inFString).Some? {
      forall i | 0 <= i < |es| ensures StaticPiece(es[i], inFString).Some? { assert es[i] in es; }
    }
  }

  /** `f"{'a'!r}"` is folded to `a`, yet evaluates to the quoted text. */
  lemma ReprIsMisfolded(env: Env, w: World)
    requires QuotingWorld(w)
    ensures var e := JoinedStr([FormattedValue(StrConst("a"), ToRepr, None)]);
            StaticString(e) == Some("a") && Eval(e, env, w) == Some(Str(w.repr("a"))) && w.repr("a") != "a"
  {
    var field := FormattedValue(StrConst("a"), ToRepr, None);
    assert StaticPiece(field, true) == Some("a");
    assert Eval(field, env, w) == Some(Str(w.repr("a")));
    OnePiece(field, "a", w.repr("a"), env, w);
    assert |w.repr("a")| >= |"a"| + 2;
  }

  /** One replacement field with a specification. */
  function Field(text: string, spec: string): Expr {
    FormattedValue(StrConst(text), NoConversion, Some(StrConst(spec)))
  }

  lemma {:induction false} FieldText(text: string, spec: string, env: Env, w: World)
    requires w.format(text, spec).Some?
    ensures StaticPiece(Field(text, spec), true) == Some(text)
    ensures Eval(Field(text, spec), env, w) == Some(Str(w.format(text, spec).value))
  {
  }

  /** `f"{'a':2}"` is folded to `a`, yet evaluates to text of width two; `f"{'a':s}"` does evaluate to `a`. */
  lemma {:induction false} PaddingIsMisfolded(env: Env, w: World)
    requires PadsStrings(w)
    ensures var e := JoinedStr([Field("a", "2")]);
            StaticString(e) == Some("a") && Eval(e, env, w).Some? && Eval(e, env, w) != Some(Str("a"))
    ensures var e := JoinedStr([Field("a", "s")]);
            StaticString(e) == Some("a") && Eval(e, env, w) == Some(Str("a"))
  {
    Widths();
    OneField("a", "2", env, w);
    OneField("a", "s", env, w);
  }

  lemma {:induction false} Widths()
    ensures WidthOf("2") == Some(2) && WidthOf("s") == Some(0) && WidthOf("b>2") == Some(2) && WidthOf(".1") == None
  {
    assert "2"[..0] == "" && "s"[..0] == "" && "b>2"[2..] == "2" && ".1"[..1] == "." && "."[..0] == "";
    assert Decimal("") == Some(0) && Decimal("2") == Some(2) && Decimal(".") == None && Decimal(".1") == None;
  }

  lemma {:induction false} OneField(text: string, spec: string, env: Env, w: World)
    requires PadsStrings(w) && WidthOf(spec).Some?
    ensures var e := JoinedStr([Field(text, spec)]);
            && StaticString(e) == Some(text) && Eval(e, env, w) == Some(Str(w.format(text, spec).value))
            && PadsTo(text, w.format(text, spec), WidthOf(spec).value)
  {
    hide WidthOf;
    assert PadsTo(text, w.format(text, spec), WidthOf(spec).value);
    var field := Field(text, spec);
    FieldText(text, spec, env, w);
    OnePiece(field, text, w.format(text, spec).value, env, w);
  }

  /** An f-string of one piece. */
  lemma {:induction false} OnePiece(v: Expr, s: string, t: string, env: Env, w: World)
    requires StaticPiece(v, true) == Some(s) && Eval(v, env, w) == Some(Str(t))
    ensures StaticString(JoinedStr([v])) == Some(s) && Eval(JoinedStr([v]), env, w) == Some(Str(t))
  {
    assert [v][0] == v;
    assert StaticPieces([v], true).value == [s];
    assert EvalAll([v], env, w).value == [Str(t)] && Texts([Str(t)]) == [t];
    assert [s][1..] == [] && [t][1..] == [];
    assert Concat([s]) == s + Concat([]) == s && Concat([t]) == t + Concat([]) == t;
  }

  /**
   With a precision no condition on single fields is exact: in `f"{'ab':.1}{'b':b>2}"` both fields change their text,
   and the value is the folded text all the same.
   */
  lemma {:induction false} AlterationsCanCancel(env: Env, w: World)
    requires w.format("ab", ".1") == Some("a") && w.format("b", "b>2") == Some("bb")
    ensures var x, y := Field("ab", ".1"), Field("b", "b>2");
            && PieceAlters(x) && PieceAlters(y)
            && StaticString(JoinedStr([x, y])) == Some("abb") && Eval(JoinedStr([x, y]), env, w) == Some(Str("abb"))
  {
    hide Eval, WidthOf;
    Widths();
    var x, y := Field("ab", ".1"), Field("b", "b>2");
    FieldText("ab", ".1", env, w);
    FieldText("b", "b>2", env, w);
    FoldTwo(x, y, "ab", "b");
    EvalTwo(x, y, "a", "bb", env, w);
    assert "ab" + "b" == "abb" && "a" + "bb" == "abb";
  }

  lemma {:induction false} FoldTwo(x: Expr, y: Expr, s: string, t: string)
    requires StaticPiece(x, true) == Some(s) && StaticPiece(y, true) == Some(t)
    ensures StaticString(JoinedStr([x, y])) == Some(s + t)
  {
    hide StaticPiece, Concat;
    assert [x, y][0] == x && [x, y][1] == y;
    assert StaticPieces([x, y], true).value == [s, t];
    ConcatOfTwo(s, t);
  }

  lemma {:induction false} EvalTwo(x: Expr, y: Expr, s: string, t: string, env: Env, w: World)
    requires Eval(x, env, w) == Some(Str(s)) && Eval(y, env, w) == Some(Str(t))
    ensures Eval(JoinedStr([x, y]), env, w) == Some(Str(s + t))
  {
    hide Concat, Converted, EvalCall;
    assert [x, y][0] == x && [x, y][1] == y;
    var vs := EvalAll([x, y], env, w).value;
    assert vs == [Str(s), Str(t)] && Texts(vs) == [s, t];
    ConcatOfTwo(s, t);
  }

  lemma {:induction false} ConcatOfTwo(s: string, t: string)
    ensures Concat([s, t]) == s + t
  {
    assert [s, t][1..] == [t] && [t][1..] == [];
    assert Concat([t]) == t + Concat([]) == t;
  }
}
