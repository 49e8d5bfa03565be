/** A small blocks-world task run through the whole preprocessing model: two
    blocks, `on` changed by an action and therefore fluent, `clear` never
    changed and therefore static, and a `total-cost` initialisation that is
    dropped. */
module Scenarios {
  import opened Wrappers
  import opened Base
  import opened Util
  import Text
  import Static
  import opened TaskIndex
  import opened InitialState

  const Blocks := [ObjectDecl("b1", "block"), ObjectDecl("b2", "block")]
  const Preds := [PredicateDecl("on", ["block", "block"]), PredicateDecl("clear", ["block"])]
  const Funcs := [FunctionDecl(TotalCost, [], "number")]
  const Actions := [ActionDecl(["on"])]

  const Facts := [
    AtomFact("on", ["b1", "b2"], false),
    AtomFact("clear", ["b1"], false),
    AssignFact(TotalCost, [], NumericConstant(0))
  ]

  /** No name is external, no argument reads as an integer, and normalisation
      is the identity. */
  const Plain := Helpers(s => false, s => None, s => s)

  /** The objects get ids 2 and 3 after the two booleans. */
  lemma BlockIds()
    ensures IndexObjects(Blocks).IndexOf("b1") == Some(2)
    ensures IndexObjects(Blocks).IndexOf("b2") == Some(3)
  {
    ObjectIdsInOrder(Blocks);
    assert ObjectNames(Blocks)[0] == "b1" && ObjectNames(Blocks)[1] == "b2";
  }

  const OnSymbol := Predicate("on", ["block", "block"])
  const ClearSymbol := Predicate("clear", ["block"])

  lemma BlocksDeclarations()
    ensures Declarations(Preds, Funcs) == [OnSymbol, ClearSymbol]
  {
    assert KeptFunctions(Funcs) == [];
  }

  /** Both predicates are indexed in order with value type `bool`. */
  lemma BlocksTable()
    ensures IndexSymbols(Preds, Funcs) ==
      SymbolTable(["on", "clear"], map["on" := OnSymbol, "clear" := ClearSymbol], map["on" := BoolType, "clear" := BoolType])
  {
    BlocksDeclarations();
    var decls := [OnSymbol, ClearSymbol];
    assert decls[..1] == [OnSymbol] && [OnSymbol][..0] == [];
    assert BuildTable([OnSymbol]) == SymbolTable(["on"], map["on" := OnSymbol], map["on" := BoolType]);
  }

  /** `on` is fluent, `clear` static, and `total-cost` no symbol at all. */
  lemma BlocksSymbols()
    ensures var info := ProcessSymbols(Actions, Preds, Funcs);
      && info.allSymbols == ["on", "clear"]
      && info.fluentSymbols == {"on"}
      && info.table.symbols == map["on" := OnSymbol, "clear" := ClearSymbol]
  {
    BlocksTable();
    BlocksFluent();
  }

  lemma BlocksFluent()
    ensures FluentSymbols(Actions) == {"on"}
  {
    forall s | s in FluentSymbols(Actions)
      ensures s == "on"
    {
      var a :| a in Actions && s in a.effectSymbols;
      assert a == Actions[0];
    }
    assert "on" in Actions[0].effectSymbols;
  }

  const BlocksSymbolMap := map["on" := OnSymbol, "clear" := ClearSymbol]
  const OnFact := RawFact("on", [Obj("b1"), Obj("b2")], Nil)
  const ClearFact := RawFact("clear", [Obj("b1")], Nil)

  /** Both atoms are kept with their arguments as names; `total-cost` is dropped. */
  lemma BlocksExtraction(objects: IndexDictionary)
    ensures ExtractFact(Facts[0], BlocksSymbolMap, objects, Plain) == Ok(Some(OnFact))
    ensures ExtractFact(Facts[1], BlocksSymbolMap, objects, Plain) == Ok(Some(ClearFact))
    ensures ExtractFact(Facts[2], BlocksSymbolMap, objects, Plain) == Ok(None)
  {
    assert !Plain.isExternal("on") && !Plain.isExternal("clear");
    assert CheckSymbolInInitialState("on", BlocksSymbolMap, Plain.isExternal) == Ok(true);
    assert CheckSymbolInInitialState("clear", BlocksSymbolMap, Plain.isExternal) == Ok(true);
    assert VerbatimArgs(["b1", "b2"]) == [Obj("b1"), Obj("b2")];
    assert VerbatimArgs(["b1"]) == [Obj("b1")];
  }

  lemma BlocksRawFacts(objects: IndexDictionary)
    ensures ExtractInitialAtoms(Facts, BlocksSymbolMap, objects, Plain) == Ok([OnFact, ClearFact])
  {
    BlocksExtraction(objects);
    assert Facts[1..][1..] == Facts[2..] && Facts[2..][0] == Facts[2] && Facts[2..][1..] == [];
    assert ExtractInitialAtoms(Facts[2..], BlocksSymbolMap, objects, Plain) == Ok([]);
    assert Facts[1..][0] == Facts[1];
    assert [ClearFact] + [] == [ClearFact];
    assert ExtractInitialAtoms(Facts[1..], BlocksSymbolMap, objects, Plain) == Ok([ClearFact]);
    assert [OnFact] + [ClearFact] == [OnFact, ClearFact];
  }

  lemma BlocksStaticData()
    ensures ProcessStaticAtoms([ClearFact], BlocksSymbolMap, Plain.normalize) ==
      Ok(map["clear" := Static.SetExt("clear", 1, {[Obj("b1")]})])
  {
    assert [ClearFact][..0] == [];
    assert Plain.normalize("clear") == "clear";
    assert Static.InstantiateExtension(ClearSymbol, Plain.normalize) == Ok(Static.SetExt("clear", 1, {}));
    assert {} + {[Obj("b1")]} == {[Obj("b1")]};
  }

  /** The compiled initial state: one fluent atom `on(b1, b2) = 1`, and the
      static extension of `clear` holding the tuple `(b1)`. */
  lemma BlocksInitialState()
    ensures ProcessInitialState(Facts, ProcessSymbols(Actions, Preds, Funcs), IndexObjects(Blocks), Plain) ==
      Ok(Compiled([Atom(Variable("on", [Obj("b1"), Obj("b2")]), Num(1))],
                  map["clear" := Static.SetExt("clear", 1, {[Obj("b1")]})]))
  {
    BlocksSymbols();
    BlocksRawFacts(IndexObjects(Blocks));
    BlocksStaticData();
    BlocksSplit({"on"});
    BlocksFluentAtoms();
  }

  lemma BlocksSplit(fluent: set<string>)
    requires fluent == {"on"}
    ensures Select([OnFact, ClearFact], fluent, true) == [OnFact]
    ensures Select([OnFact, ClearFact], fluent, false) == [ClearFact]
  {
    assert [OnFact, ClearFact][1..] == [ClearFact] && [ClearFact][1..] == [];
    assert [OnFact] + [] == [OnFact] && [] + [ClearFact] == [ClearFact];
  }

  lemma BlocksFluentAtoms()
    ensures ProcessFluentAtoms([OnFact]) == [Atom(Variable("on", [Obj("b1"), Obj("b2")]), Num(1))]
  {
  }

  /** Serialised against the object ids, the `clear` extension is the single
      record "2". */
  lemma ClearSerialization()
    ensures Static.SerializeData(Static.SetExt("clear", 1, {[Obj("b1")]}), map["b1" := 2, "b2" := 3]) ==
      Ok(map[[Obj("b1")] := "2"])
  {
    var e := Static.SetExt("clear", 1, {[Obj("b1")]});
    var ids := map["b1" := 2, "b2" := 3];
    var k := [Obj("b1")];
    assert Static.Keys(e) == {k};
    assert Static.Row(e, k) == k;
    assert Static.Resolvable(k[0], ids);
    assert Static.Serializable(e, ids);
    assert Static.IdsOf(k, ids) == [2];
    assert Text.IntFields([2]) == ["2"];
    assert Static.SerializeData(e, ids).Ok?;
    var r := Static.SerializeData(e, ids).value;
    assert r.Keys == {k};
    assert r[k] == "2";
    assert r == map[k := "2"];
  }

  /** As written, the static fact `clear(b1)` reaches the set extension through
      the two-argument `add`, which the set does not define. */
  lemma StaticPredicateFactAsWritten()
    ensures var e := Static.SetExt("clear", 1, {});
      && AddFactAsWritten(e, [Obj("b1")], Nil).raised == Some(Static.WrongAddSignature("clear"))
      && AddFact(e, [Obj("b1")], Nil) == Updated(Static.SetExt("clear", 1, {[Obj("b1")]}), None)
  {
    assert {} + {[Obj("b1")]} == {[Obj("b1")]};
  }
}
