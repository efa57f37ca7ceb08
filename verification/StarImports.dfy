/** Star imports of the broker package: the statements that the taint closure does not see through. */
module StarImports {
  import opened Common
  import opened PythonSyntax
  import opened StaticStrings
  import opened OrderTaint

  /** What is used of case folding: two fixed values, and names outside every finite set of folded names. */
  ghost predicate Casefold(fold: Fold) {
    && fold("copy_ticks_range") == "copy_ticks_range" && fold("MetaTrader5") == "metatrader5"
    && forall names: set<string> :: SomeOutside(fold, names)
  }

  ghost predicate SomeOutside(fold: Fold, names: set<string>) {
    exists x :: fold(x) !in names
  }

  /** A lawful world in which every attribute leads back to its object and packages export one given name. */
  function Exporting(x: string): World {
    World((v, _) => v, (v, _) => v, (_, _) => Opaque, (_, _) => None, v => v, Opaque, _ => Opaque, _ => [x],
          (_, _) => Opaque, s => "''" + s, s => "''" + s, _ => "", Formatted)
  }

  lemma {:induction false} ExportingIsLawful(x: string, fold: Fold)
    requires Casefold(fold)
    ensures Lawful(Exporting(x), fold)
  {
    hide WidthOf;
  }

  lemma {:induction false} StarLeaks(names: seq<Alias>, fromModule: string, x: string, env: Env, tainted: set<string>,
                                     fold: Fold)
    requires fold(fromModule) == "metatrader5" && fold(x) !in tainted
    requires forall a | a in names :: fold(BoundName(a)) in tainted
    requires (x in env && Reaches(env[x])) || exists a | a in names :: a.name == "*"
    ensures var after := ImportAll(names, Some(fromModule), env, Exporting(x), fold); x in after && Reaches(after[x])
    decreases |names|
  {
    if |names| > 0 {
      StarLeaks(names[1..], fromModule, x, env + Bindings(names[0], Some(fromModule), Exporting(x), fold), tainted,
          fold);
    }
  }

  /**
   The set covers every run exactly when no statement star-imports the broker package: such a statement binds
   names that the scanner never sees.
   */
  lemma {:induction false} CoveredIffNoStarImport(program: seq<Stmt>, tainted: set<string>, fold: Fold)
    requires forall s | s in program :: TrackedStmt(s)
    requires HasSeeds(program, tainted, fold) && Closed(program, tainted, fold) && Casefold(fold)
    ensures (forall schedule, env | LawfulSchedule(program, schedule, fold) && Covered(env, tainted, fold) ::
               Covered(Run(program, schedule, env, fold), tainted, fold))
            <==> forall s | s in program :: !StarImportsBroker(s, fold)
  {
    hide Covered, Closed, Lawful;
    if forall s | s in program :: !StarImportsBroker(s, fold) {
      forall schedule, env | LawfulSchedule(program, schedule, fold) && Covered(env, tainted, fold)
        ensures Covered(Run(program, schedule, env, fold), tainted, fold)
      {
        EveryRunIsCovered(program, schedule, env, tainted, fold);
      }
    } else {
      var i :| 0 <= i < |program| && StarImportsBroker(program[i], fold);
      StarImportEscapes(program, i, tainted, fold);
    }
  }

  /** The failing run: one step, from no variables at all. */
  lemma {:induction false} StarImportEscapes(program: seq<Stmt>, i: nat, tainted: set<string>, fold: Fold)
    requires HasSeeds(program, tainted, fold) && Casefold(fold)
    requires i < |program| && StarImportsBroker(program[i], fold)
    ensures exists schedule, env ::
              LawfulSchedule(program, schedule, fold) && Covered(env, tainted, fold)
              && !Covered(Run(program, schedule, env, fold), tainted, fold)
  {
    hide Lawful, Reaches, Execute;
    assert SomeOutside(fold, tainted);
    var x :| fold(x) !in tainted;
    var s, w := program[i], Exporting(x);
    ExportingIsLawful(x, fold);
    StarStatementLeaks(program, s, x, tainted, fold);
    OneStep(program, i, w, map[], fold);
    assert LawfulSchedule(program, [(i, w)], fold);
    assert Covered(map[], tainted, fold);
  }

  lemma {:induction false} OneStep(program: seq<Stmt>, i: nat, w: World, env: Env, fold: Fold)
    requires i < |program|
    ensures Run(program, [(i, w)], env, fold) == Execute(program[i], env, w, fold)
  {
    hide Execute;
    assert [(i, w)][1..] == [];
  }

  lemma {:induction false} StarStatementLeaks(program: seq<Stmt>, s: Stmt, x: string, tainted: set<string>, fold: Fold)
    requires HasSeeds(program, tainted, fold) && s in program && StarImportsBroker(s, fold) && fold(x) !in tainted
    ensures !Covered(Execute(s, map[], Exporting(x), fold), tainted, fold)
  {
    hide Lawful, Reaches, Bindings;
    assert SeedsOf(s, fold) <= tainted;
    StarLeaks(s.names, s.moduleName, x, map[], tainted, fold);
  }
}
