/** Index construction of preprocessor/fs_task.py: integer ids for objects and
    types, the ordered symbol table, and the fluent/static split of symbols. */
module TaskIndex {
  import opened Wrappers
  import opened Base
  import opened Util

  const TotalCost := "total-cost"
  const Equality := "="
  const FalseName := "false"
  const TrueName := "true"

  datatype ObjectDecl = ObjectDecl(name: string, typ: string)
  datatype PredicateDecl = PredicateDecl(name: string, argTypes: seq<string>)
  datatype FunctionDecl = FunctionDecl(name: string, argTypes: seq<string>, typ: string)
  /** An action, seen only through the head symbol of each of its effects. */
  datatype ActionDecl = ActionDecl(effectSymbols: seq<string>)

  // ---- objects ----

  function ObjectNames(objects: seq<ObjectDecl>): (names: seq<string>)
    ensures |names| == |objects|
    ensures forall i | 0 <= i < |objects| :: names[i] == objects[i].name
  {
    if |objects| == 0 then [] else [objects[0].name] + ObjectNames(objects[1..])
  }

  function AddObjects(d: IndexDictionary, objects: seq<ObjectDecl>): (r: IndexDictionary)
    ensures r.elems == d.elems + ObjectNames(objects)
    decreases |objects|
  {
    if |objects| == 0 then d
    else
      var r := AddObjects(d.Add(objects[0].name), objects[1..]);
      ObjectNamesCons(d, objects);
      r
  }

  lemma ObjectNamesCons(d: IndexDictionary, objects: seq<ObjectDecl>)
    requires |objects| > 0
    ensures d.elems + ObjectNames(objects) == d.Add(objects[0].name).elems + ObjectNames(objects[1..])
  {
    assert ObjectNames(objects) == [objects[0].name] + ObjectNames(objects[1..]);
  }

  /** `_index_objects`: `false` and `true` first, then every declared object. */
  function IndexObjects(objects: seq<ObjectDecl>): (r: IndexDictionary)
    ensures r.elems == [FalseName, TrueName] + ObjectNames(objects)
  {
    AddObjects(IndexDictionary([]).Add(FalseName).Add(TrueName), objects)
  }

  /** `false` has id 0, `true` id 1, and the index holds exactly the booleans
      and the declared objects. */
  lemma ObjectIndexContents(objects: seq<ObjectDecl>)
    ensures IndexObjects(objects).IndexOf(FalseName) == Some(0)
    ensures IndexObjects(objects).IndexOf(TrueName) == Some(1)
    ensures forall x :: IndexObjects(objects).Contains(x) <==>
      x == FalseName || x == TrueName || x in ObjectNames(objects)
  {
    var elems := IndexObjects(objects).elems;
    assert elems[..1] == [FalseName];
    FirstIndexAt(elems, 1);
  }

  /** The i-th declared object has id i + 2 when the declared names are
      distinct and none of them is a boolean name. */
  lemma {:induction false} ObjectIdsInOrder(objects: seq<ObjectDecl>)
    requires Distinct(ObjectNames(objects))
    requires FalseName !in ObjectNames(objects) && TrueName !in ObjectNames(objects)
    ensures forall i | 0 <= i < |objects| :: IndexObjects(objects).IndexOf(objects[i].name) == Some(i + 2)
  {
    forall i | 0 <= i < |objects|
      ensures IndexObjects(objects).IndexOf(objects[i].name) == Some(i + 2)
    {
      ObjectIdAt(objects, i);
    }
  }

  lemma ObjectIdAt(objects: seq<ObjectDecl>, i: nat)
    requires Distinct(ObjectNames(objects))
    requires FalseName !in ObjectNames(objects) && TrueName !in ObjectNames(objects)
    requires i < |objects|
    ensures IndexObjects(objects).IndexOf(objects[i].name) == Some(i + 2)
  {
    BooleansThenNames(ObjectNames(objects), i);
  }

  lemma BooleansThenNames(names: seq<string>, i: nat)
    requires Distinct(names) && FalseName !in names && TrueName !in names
    requires i < |names|
    ensures FirstIndex([FalseName, TrueName] + names, names[i]) == Some(i + 2)
  {
    var booleans := [FalseName, TrueName];
    assert booleans[0] != names[i] && booleans[1] != names[i];
    FirstIndexAfterPrefix(booleans, names, i);
  }

  // ---- positions: `{x: i for i, x in enumerate(xs)}` ----

  /** Each element maps to a position holding it, and to the last such position. */
  function PositionMap(xs: seq<string>): (m: map<string, nat>)
    ensures forall x :: x in m <==> x in xs
    ensures forall x | x in m :: m[x] < |xs| && xs[m[x]] == x
    ensures forall x, j | x in m && m[x] < j < |xs| :: xs[j] != x
    decreases |xs|
  {
    if |xs| == 0 then map[]
    else
      var init := xs[..|xs| - 1];
      assert xs == init + [xs[|xs| - 1]];
      PositionMap(init)[xs[|xs| - 1] := |xs| - 1]
  }

  lemma PositionMapOfDistinct(xs: seq<string>)
    requires Distinct(xs)
    ensures forall i | 0 <= i < |xs| :: PositionMap(xs)[xs[i]] == i
  {
  }

  /** `process_types`: each type name maps to its position in the type list. */
  function ProcessTypes(types: seq<string>): (r: map<string, nat>)
    ensures forall t :: t in r <==> t in types
    ensures Distinct(types) ==> forall i | 0 <= i < |types| :: r[types[i]] == i
  {
    PositionMap(types)
  }

  // ---- symbols ----

  function PredicateSymbols(preds: seq<PredicateDecl>): (r: seq<Symbol>)
    ensures |r| == |preds|
    ensures forall i | 0 <= i < |preds| :: r[i] == Predicate(preds[i].name, preds[i].argTypes)
  {
    if |preds| == 0 then [] else [Predicate(preds[0].name, preds[0].argTypes)] + PredicateSymbols(preds[1..])
  }

  /** The declared functions in order, without the `total-cost` function. */
  function KeptFunctions(funcs: seq<FunctionDecl>): (r: seq<FunctionDecl>)
    ensures forall i | 0 <= i < |r| :: r[i].name != TotalCost
  {
    if |funcs| == 0 then []
    else if funcs[0].name == TotalCost then KeptFunctions(funcs[1..])
    else [funcs[0]] + KeptFunctions(funcs[1..])
  }

  /** Exactly the functions not named `total-cost` are kept. */
  lemma {:induction false} KeptFunctionsExact(funcs: seq<FunctionDecl>)
    ensures forall f :: f in KeptFunctions(funcs) <==> f in funcs && f.name != TotalCost
    decreases |funcs|
  {
    if |funcs| > 0 {
      KeptFunctionsExact(funcs[1..]);
      assert funcs == [funcs[0]] + funcs[1..];
    }
  }

  /** The filter keeps declaration order: it distributes over concatenation. */
  lemma {:induction false} KeptFunctionsAppend(a: seq<FunctionDecl>, b: seq<FunctionDecl>)
    ensures KeptFunctions(a + b) == KeptFunctions(a) + KeptFunctions(b)
    decreases |a|
  {
    if |a| > 0 {
      assert (a + b)[0] == a[0] && (a + b)[1..] == a[1..] + b;
      KeptFunctionsAppend(a[1..], b);
    } else {
      assert a + b == b;
    }
  }

  function FunctionSymbols(funcs: seq<FunctionDecl>): (r: seq<Symbol>)
    ensures |r| == |funcs|
    ensures forall i | 0 <= i < |funcs| :: r[i] == Function(funcs[i].name, funcs[i].argTypes, funcs[i].typ)
  {
    if |funcs| == 0 then [] else [Function(funcs[0].name, funcs[0].argTypes, funcs[0].typ)] + FunctionSymbols(funcs[1..])
  }

  /** The symbol declarations in the order `_index_symbols` visits them. */
  function Declarations(preds: seq<PredicateDecl>, funcs: seq<FunctionDecl>): seq<Symbol> {
    PredicateSymbols(preds) + FunctionSymbols(KeptFunctions(funcs))
  }

  function Names(decls: seq<Symbol>): (names: seq<string>)
    ensures |names| == |decls|
    ensures forall i | 0 <= i < |decls| :: names[i] == decls[i].name
  {
    seq(|decls|, i requires 0 <= i < |decls| => decls[i].name)
  }

  /** The ordered symbol table (an OrderedDict keyed by name) and the symbol-type table. */
  datatype SymbolTable = SymbolTable(order: seq<string>, symbols: map<string, Symbol>, symbolTypes: map<string, string>)

  /** `symbols[s.name] = s; symbol_types[s.name] = type`: a new name is
      appended to the order, an existing one keeps its place and is overwritten. */
  function Insert(t: SymbolTable, s: Symbol): SymbolTable {
    SymbolTable(
      if s.name in t.symbols then t.order else t.order + [s.name],
      t.symbols[s.name := s],
      t.symbolTypes[s.name := ValueType(s)])
  }

  /** No later declaration has the name of declaration `i`. */
  predicate LastDeclaration(decls: seq<Symbol>, i: nat)
    requires i < |decls|
  {
    forall j | i < j < |decls| :: decls[j].name != decls[i].name
  }

  function BuildTable(decls: seq<Symbol>): (t: SymbolTable)
    ensures Distinct(t.order)
    ensures forall n :: n in t.symbols <==> n in t.order
    ensures t.symbolTypes.Keys == t.symbols.Keys
    ensures forall n | n in t.symbols :: t.symbols[n].name == n && t.symbolTypes[n] == ValueType(t.symbols[n])
    decreases |decls|
  {
    if |decls| == 0 then SymbolTable([], map[], map[])
    else Insert(BuildTable(decls[..|decls| - 1]), decls[|decls| - 1])
  }

  /** The table's names are exactly the declared names. */
  lemma {:induction false} BuildTableNames(decls: seq<Symbol>)
    ensures forall n :: n in BuildTable(decls).symbols <==> n in Names(decls)
    decreases |decls|
  {
    if |decls| > 0 {
      var init := decls[..|decls| - 1];
      BuildTableNames(init);
      assert Names(decls) == Names(init) + [decls[|decls| - 1].name];
    }
  }

  /** A repeated name keeps the last declaration. */
  lemma {:induction false} BuildTableLastWins(decls: seq<Symbol>)
    ensures forall i | 0 <= i < |decls| && LastDeclaration(decls, i) ::
      decls[i].name in BuildTable(decls).symbols && BuildTable(decls).symbols[decls[i].name] == decls[i]
    decreases |decls|
  {
    if |decls| > 0 {
      BuildTableLastWins(decls[..|decls| - 1]);
      forall i | 0 <= i < |decls| && LastDeclaration(decls, i)
        ensures decls[i].name in BuildTable(decls).symbols && BuildTable(decls).symbols[decls[i].name] == decls[i]
      {
        LastWinsAt(decls, i);
      }
    }
  }

  lemma LastWinsAt(decls: seq<Symbol>, i: nat)
    requires i < |decls| && LastDeclaration(decls, i)
    requires var init := decls[..|decls| - 1];
      forall i | 0 <= i < |init| && LastDeclaration(init, i) ::
        init[i].name in BuildTable(init).symbols && BuildTable(init).symbols[init[i].name] == init[i]
    ensures decls[i].name in BuildTable(decls).symbols && BuildTable(decls).symbols[decls[i].name] == decls[i]
  {
    var init := decls[..|decls| - 1];
    var s := decls[|decls| - 1];
    var m0 := BuildTable(init).symbols;
    assert BuildTable(decls).symbols == m0[s.name := s];
    if i < |init| {
      assert init[i] == decls[i] && decls[i].name != s.name;
      assert LastDeclaration(init, i);
      assert init[i].name in m0 && m0[init[i].name] == init[i];
    }
  }

  /** With all names distinct, the table's order is the declaration order. */
  lemma {:induction false} BuildTableOrder(decls: seq<Symbol>)
    requires Distinct(Names(decls))
    ensures BuildTable(decls).order == Names(decls)
    decreases |decls|
  {
    if |decls| > 0 {
      var init := decls[..|decls| - 1];
      assert Names(decls) == Names(init) + [decls[|decls| - 1].name];
      BuildTableOrder(init);
    }
  }

  /** Every name of `order` occurs in `names`, and `order` lists them by the
      position of their first occurrence there. */
  predicate OrderedByFirst(order: seq<string>, names: seq<string>) {
    forall p, q | 0 <= p < q < |order| ::
      && FirstIndex(names, order[p]).Some? && FirstIndex(names, order[q]).Some?
      && FirstIndex(names, order[p]).value < FirstIndex(names, order[q]).value
  }

  lemma OrderedByFirstStep(order: seq<string>, names: seq<string>, x: string)
    requires OrderedByFirst(order, names)
    requires forall n :: n in order <==> n in names
    ensures OrderedByFirst(if x in names then order else order + [x], names + [x])
  {
    OrderedByFirstExtend(order, names, x);
    if x !in names {
      var names' := names + [x];
      assert names == names'[..|names|];
      FirstIndexAt(names', |names|);
      forall p | 0 <= p < |order|
        ensures FirstIndex(names', order[p]).Some? && FirstIndex(names', order[p]).value < |names|
      {
        FirstIndexAppend(names, x, order[p]);
      }
      OrderedByFirstSnoc(order, names', x);
    }
  }

  /** Appending to the names keeps the first positions of the names listed. */
  lemma OrderedByFirstExtend(order: seq<string>, names: seq<string>, x: string)
    requires OrderedByFirst(order, names)
    requires forall n | n in order :: n in names
    ensures OrderedByFirst(order, names + [x])
  {
    forall p | 0 <= p < |order|
      ensures FirstIndex(names + [x], order[p]) == FirstIndex(names, order[p])
    {
      FirstIndexAppend(names, x, order[p]);
    }
  }

  /** A name first found after every listed name may be appended to the order. */
  lemma OrderedByFirstSnoc(order: seq<string>, names: seq<string>, x: string)
    requires OrderedByFirst(order, names)
    requires FirstIndex(names, x).Some?
    requires forall p | 0 <= p < |order| ::
      FirstIndex(names, order[p]).Some? && FirstIndex(names, order[p]).value < FirstIndex(names, x).value
    ensures OrderedByFirst(order + [x], names)
  {
    var order' := order + [x];
    forall p, q | 0 <= p < q < |order'|
      ensures && FirstIndex(names, order'[p]).Some? && FirstIndex(names, order'[q]).Some?
              && FirstIndex(names, order'[p]).value < FirstIndex(names, order'[q]).value
    {
      assert order'[p] == order[p];
      if q < |order| {
        assert order'[q] == order[q];
      }
    }
  }

  /** The order holds exactly the declared names. */
  lemma BuildTableOrderNames(decls: seq<Symbol>)
    ensures forall n :: n in BuildTable(decls).order <==> n in Names(decls)
  {
    BuildTableNames(decls);
  }

  /** One declaration more: its name is appended to the order unless declared before. */
  lemma BuildTableOrderStep(decls: seq<Symbol>)
    requires |decls| > 0
    ensures var init := decls[..|decls| - 1];
      var s := decls[|decls| - 1];
      && Names(decls) == Names(init) + [s.name]
      && BuildTable(decls).order ==
           if s.name in Names(init) then BuildTable(init).order else BuildTable(init).order + [s.name]
  {
    var init := decls[..|decls| - 1];
    BuildTableNames(init);
    assert Names(decls) == Names(init) + [decls[|decls| - 1].name];
  }

  /** The order lists the declared names by their first declaration, as an
      OrderedDict does: a re-declared name keeps the place of its first
      declaration. */
  lemma {:induction false} BuildTableFirstPositions(decls: seq<Symbol>)
    ensures forall n :: n in BuildTable(decls).order <==> n in Names(decls)
    ensures OrderedByFirst(BuildTable(decls).order, Names(decls))
    decreases |decls|
  {
    BuildTableOrderNames(decls);
    if |decls| > 0 {
      var init := decls[..|decls| - 1];
      BuildTableFirstPositions(init);
      BuildTableOrderStep(decls);
      OrderedByFirstStep(BuildTable(init).order, Names(init), decls[|decls| - 1].name);
    }
  }

  /** `_index_symbols`: the symbol table and the symbol-type table. */
  function IndexSymbols(preds: seq<PredicateDecl>, funcs: seq<FunctionDecl>): (t: SymbolTable)
    ensures forall n :: n in t.order <==> n in Names(Declarations(preds, funcs))
    ensures OrderedByFirst(t.order, Names(Declarations(preds, funcs)))
  {
    BuildTableFirstPositions(Declarations(preds, funcs));
    BuildTable(Declarations(preds, funcs))
  }

  /** Everything `process_symbols` computes. */
  datatype SymbolInfo = SymbolInfo(
    table: SymbolTable,
    symbolIndex: map<string, nat>,
    allSymbols: seq<string>,
    fluentSymbols: set<string>,
    staticSymbols: set<string>)

  /** The head symbols of all action effects. */
  function FluentSymbols(actions: seq<ActionDecl>): (r: set<string>)
    ensures forall s :: s in r <==> exists a | a in actions :: s in a.effectSymbols
  {
    set a, s | a in actions && s in a.effectSymbols :: s
  }

  /** The declared symbols that are not fluent, and equality. */
  function StaticSymbols(allSymbols: seq<string>, fluent: set<string>): (r: set<string>)
    ensures Equality in r
    ensures forall s | s in allSymbols && s != Equality :: s in r <==> s !in fluent
    ensures forall s | s in r :: s == Equality || s in allSymbols
  {
    (set s | s in allSymbols && s !in fluent) + {Equality}
  }

  /** `process_symbols`: the table, the symbol positions, and the fluent/static split. */
  function ProcessSymbols(actions: seq<ActionDecl>, preds: seq<PredicateDecl>, funcs: seq<FunctionDecl>): (info: SymbolInfo)
    ensures info.allSymbols == info.table.order
    ensures forall n :: n in info.symbolIndex <==> n in info.table.symbols
    ensures forall n | n in info.symbolIndex :: info.symbolIndex[n] < |info.allSymbols| && info.allSymbols[info.symbolIndex[n]] == n
    ensures forall s :: s in info.fluentSymbols <==> exists a | a in actions :: s in a.effectSymbols
    ensures Equality in info.staticSymbols
    ensures forall s | s in info.table.symbols && s != Equality :: s in info.staticSymbols <==> s !in info.fluentSymbols
  {
    var table := IndexSymbols(preds, funcs);
    var fluent := FluentSymbols(actions);
    SymbolInfo(table, PositionMap(table.order), table.order, fluent, StaticSymbols(table.order, fluent))
  }

  predicate IsFluent(info: SymbolInfo, name: string) {
    name in info.fluentSymbols
  }

  /** `is_fluent` after `process_symbols`: a name is fluent exactly when it heads
      some action's effect, whether or not it is declared. */
  lemma IsFluentEffectHead(actions: seq<ActionDecl>, preds: seq<PredicateDecl>, funcs: seq<FunctionDecl>, name: string)
    ensures IsFluent(ProcessSymbols(actions, preds, funcs), name) <==> exists a | a in actions :: name in a.effectSymbols
  {
  }

  lemma DeclarationsLayout(preds: seq<PredicateDecl>, funcs: seq<FunctionDecl>)
    ensures var decls := Declarations(preds, funcs);
      && |decls| == |preds| + |KeptFunctions(funcs)|
      && (forall i | 0 <= i < |preds| :: decls[i] == Predicate(preds[i].name, preds[i].argTypes))
      && (forall j | 0 <= j < |KeptFunctions(funcs)| :: decls[|preds| + j] == FunctionSymbols(KeptFunctions(funcs))[j])
  {
  }

  lemma DistinctNamesAreLast(decls: seq<Symbol>)
    requires Distinct(Names(decls))
    ensures forall i | 0 <= i < |decls| :: LastDeclaration(decls, i)
  {
    forall i | 0 <= i < |decls|
      ensures LastDeclaration(decls, i)
    {
      assert forall j | i < j < |decls| :: Names(decls)[j] != Names(decls)[i];
    }
  }

  /** With all declared names distinct, declaration k sits at position k of the
      order, `symbol_index` gives k, and the tables hold its symbol and value type. */
  lemma DeclarationAtPosition(actions: seq<ActionDecl>, preds: seq<PredicateDecl>, funcs: seq<FunctionDecl>)
    requires Distinct(Names(Declarations(preds, funcs)))
    ensures var info := ProcessSymbols(actions, preds, funcs);
      var decls := Declarations(preds, funcs);
      && info.allSymbols == Names(decls)
      && forall k | 0 <= k < |decls| ::
        && decls[k].name in info.table.symbols && decls[k].name in info.symbolIndex
        && info.table.symbols[decls[k].name] == decls[k]
        && info.table.symbolTypes[decls[k].name] == ValueType(decls[k])
        && info.symbolIndex[decls[k].name] == k
  {
    var decls := Declarations(preds, funcs);
    var info := ProcessSymbols(actions, preds, funcs);
    assert info.allSymbols == BuildTable(decls).order;
    BuildTableOrder(decls);
    forall k | 0 <= k < |decls|
      ensures && decls[k].name in info.table.symbols && decls[k].name in info.symbolIndex
              && info.table.symbols[decls[k].name] == decls[k]
              && info.table.symbolTypes[decls[k].name] == ValueType(decls[k])
              && info.symbolIndex[decls[k].name] == k
    {
      InfoStoredAt(actions, preds, funcs, k);
    }
  }

  /** Declaration `k` as `process_symbols` records it, when all names differ. */
  lemma InfoStoredAt(actions: seq<ActionDecl>, preds: seq<PredicateDecl>, funcs: seq<FunctionDecl>, k: nat)
    requires Distinct(Names(Declarations(preds, funcs))) && k < |Declarations(preds, funcs)|
    ensures var info := ProcessSymbols(actions, preds, funcs);
      var d := Declarations(preds, funcs)[k];
      && d.name in info.table.symbols && d.name in info.symbolIndex
      && info.table.symbols[d.name] == d
      && info.table.symbolTypes[d.name] == ValueType(d)
      && info.symbolIndex[d.name] == k
  {
    var decls := Declarations(preds, funcs);
    var info := ProcessSymbols(actions, preds, funcs);
    assert info.table == BuildTable(decls) && info.symbolIndex == PositionMap(BuildTable(decls).order);
    DeclarationStoredAt(decls, k);
  }

  /** Declaration `k` is in the table under its name, and the name sits at
      position `k` of the positions map of the order. */
  predicate DeclarationStored(decls: seq<Symbol>, k: nat)
    requires k < |decls|
  {
    var t := BuildTable(decls);
    && decls[k].name in t.symbols && decls[k].name in PositionMap(t.order)
    && t.symbols[decls[k].name] == decls[k]
    && t.symbolTypes[decls[k].name] == ValueType(decls[k])
    && PositionMap(t.order)[decls[k].name] == k
  }

  lemma DeclarationStoredAt(decls: seq<Symbol>, k: nat)
    requires Distinct(Names(decls)) && k < |decls|
    ensures DeclarationStored(decls, k)
  {
    BuildTableOrder(decls);
    BuildTableLastWins(decls);
    DistinctNamesAreLast(decls);
    PositionMapOfDistinct(Names(decls));
    assert Names(decls)[k] == decls[k].name;
  }

  /** When all declared names differ: the predicates come first, each with value
      type `bool`, and the predicate at position i has symbol index i. */
  lemma PredicatesFirst(actions: seq<ActionDecl>, preds: seq<PredicateDecl>, funcs: seq<FunctionDecl>)
    requires Distinct(Names(Declarations(preds, funcs)))
    ensures var info := ProcessSymbols(actions, preds, funcs);
      forall i | 0 <= i < |preds| ::
        && preds[i].name in info.table.symbols && preds[i].name in info.symbolIndex
        && info.table.symbols[preds[i].name] == Predicate(preds[i].name, preds[i].argTypes)
        && info.table.symbolTypes[preds[i].name] == BoolType
        && info.symbolIndex[preds[i].name] == i
  {
    var decls := Declarations(preds, funcs);
    DeclarationsLayout(preds, funcs);
    DeclarationAtPosition(actions, preds, funcs);
    forall i | 0 <= i < |preds|
      ensures decls[i].name == preds[i].name && ValueType(decls[i]) == BoolType
    {
    }
  }

  /** When all declared names differ: the functions other than `total-cost`
      follow the predicates in declaration order, each with its declared value
      type. */
  lemma FunctionsAfterPredicates(actions: seq<ActionDecl>, preds: seq<PredicateDecl>, funcs: seq<FunctionDecl>)
    requires Distinct(Names(Declarations(preds, funcs)))
    ensures var info := ProcessSymbols(actions, preds, funcs);
      var kept := KeptFunctions(funcs);
      forall j | 0 <= j < |kept| ::
        && kept[j].name in info.table.symbols && kept[j].name in info.symbolIndex
        && info.table.symbols[kept[j].name] == Function(kept[j].name, kept[j].argTypes, kept[j].typ)
        && info.table.symbolTypes[kept[j].name] == kept[j].typ
        && info.symbolIndex[kept[j].name] == |preds| + j
  {
    var kept := KeptFunctions(funcs);
    var info := ProcessSymbols(actions, preds, funcs);
    forall j | 0 <= j < |kept|
      ensures kept[j].name in info.table.symbols && kept[j].name in info.symbolIndex
      ensures info.table.symbols[kept[j].name] == Function(kept[j].name, kept[j].argTypes, kept[j].typ)
      ensures info.table.symbolTypes[kept[j].name] == kept[j].typ
      ensures info.symbolIndex[kept[j].name] == |preds| + j
    {
      FunctionAt(actions, preds, funcs, j);
    }
  }

  lemma {:induction false} FunctionAt(actions: seq<ActionDecl>, preds: seq<PredicateDecl>, funcs: seq<FunctionDecl>, j: nat)
    requires Distinct(Names(Declarations(preds, funcs)))
    requires j < |KeptFunctions(funcs)|
    ensures var info := ProcessSymbols(actions, preds, funcs);
      var f := KeptFunctions(funcs)[j];
      && f.name in info.table.symbols && f.name in info.symbolIndex
      && info.table.symbols[f.name] == Function(f.name, f.argTypes, f.typ)
      && info.table.symbolTypes[f.name] == f.typ
      && info.symbolIndex[f.name] == |preds| + j
  {
    var kept := KeptFunctions(funcs);
    var ps := PredicateSymbols(preds);
    var fs := FunctionSymbols(kept);
    assert (ps + fs)[|ps| + j] == fs[j];
    DeclarationAtPosition(actions, preds, funcs);
  }

  /** The `total-cost` function never enters the table: a symbol of that name
      can only come from a predicate declaration. */
  lemma TotalCostNeverAFunction(preds: seq<PredicateDecl>, funcs: seq<FunctionDecl>)
    ensures var t := IndexSymbols(preds, funcs);
      TotalCost in t.symbols ==> t.symbols[TotalCost].Predicate? && exists i | 0 <= i < |preds| :: preds[i].name == TotalCost
  {
    var decls := Declarations(preds, funcs);
    var t := IndexSymbols(preds, funcs);
    if TotalCost in t.symbols {
      BuildTableNames(decls);
      BuildTableLastWins(decls);
      var i :| 0 <= i < |decls| && Names(decls)[i] == TotalCost;
      LastDeclarationExists(decls, i);
      var k :| i <= k < |decls| && decls[k].name == TotalCost && LastDeclaration(decls, k);
      assert k < |preds|;
    }
  }

  lemma {:induction false} LastDeclarationExists(decls: seq<Symbol>, i: nat)
    requires i < |decls|
    ensures exists k | i <= k < |decls| :: decls[k].name == decls[i].name && LastDeclaration(decls, k)
    decreases |decls| - i
  {
    if !LastDeclaration(decls, i) {
      var j :| i < j < |decls| && decls[j].name == decls[i].name;
      LastDeclarationExists(decls, j);
    }
  }

  /** Every declared symbol other than equality is either fluent or static, never
      both; equality is always static; and it is the only name that can be both,
      which happens exactly when some effect has `=` as its head. */
  lemma FluentStaticPartition(actions: seq<ActionDecl>, preds: seq<PredicateDecl>, funcs: seq<FunctionDecl>)
    ensures var info := ProcessSymbols(actions, preds, funcs);
      && Equality in info.staticSymbols
      && (forall s | s in info.allSymbols && s != Equality :: IsFluent(info, s) != (s in info.staticSymbols))
      && (forall s | IsFluent(info, s) && s in info.staticSymbols :: s == Equality)
      && (IsFluent(info, Equality) <==> exists a | a in actions :: Equality in a.effectSymbols)
  {
  }
}
