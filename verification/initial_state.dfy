/** Initial-state compilation of preprocessor/fs_task.py: every initial fact is
    checked against the symbol table, fluent facts become initial atoms and
    static facts are gathered into one static extension per symbol. */
module InitialState {
  import opened Wrappers
  import opened Base
  import opened Util
  import Static
  import opened TaskIndex

  /** The value side of an initial assignment. */
  datatype Expr = NumericConstant(value: int) | SymbolRef(symbol: string)

  datatype Fact =
    | AssignFact(symbol: string, args: seq<string>, expression: Expr)
    | AtomFact(pred: string, args: seq<string>, negated: bool)
    | OtherFact

  /** `(name, args, value)` as extracted; `value` is `Nil` for an atom. */
  datatype RawFact = RawFact(name: string, args: seq<Val>, value: Val)

  datatype InitError =
    | ExternalSymbolInInitialState(symbol: string)
    | UnknownSymbol(symbol: string)
    | NegatedInitialAtom(pred: string)
    | UnrecognizedFact
    | ValueNotAnObject(symbol: string)
    | ExtensionError(cause: Static.ExtError)

  /** `_check_symbol_in_initial_state`: `total-cost` is dropped before any other
      test, then an external symbol is an error, then an unknown one. */
  function CheckSymbolInInitialState(s: string, symbols: map<string, Symbol>, isExternal: string -> bool): (r: Result<bool, InitError>)
    ensures s == TotalCost ==> r == Ok(false)
    ensures s != TotalCost && isExternal(s) ==> r == Err(ExternalSymbolInInitialState(s))
    ensures s != TotalCost && !isExternal(s) && s !in symbols ==> r == Err(UnknownSymbol(s))
    ensures r == Ok(true) <==> s != TotalCost && !isExternal(s) && s in symbols
  {
    if s == TotalCost then Ok(false)
    else if isExternal(s) then Err(ExternalSymbolInInitialState(s))
    else if s !in symbols then Err(UnknownSymbol(s))
    else Ok(true)
  }

  /** `parse_value`: a number is its value; a name must be an indexed object. */
  function ParseValue(e: Expr, objects: IndexDictionary): (r: Result<Val, InitError>)
    ensures e.NumericConstant? ==> r == Ok(Num(e.value))
    ensures e.SymbolRef? ==> (r.Ok? <==> objects.Contains(e.symbol))
    ensures e.SymbolRef? && r.Ok? ==> r.value == Obj(e.symbol)
    ensures r.Err? ==> r.error == ValueNotAnObject(e.symbol)
  {
    match e
    case NumericConstant(v) => Ok(Num(v))
    case SymbolRef(s) => if objects.Contains(s) then Ok(Obj(s)) else Err(ValueNotAnObject(s))
  }

  /** Against the object index, a symbolic value is accepted exactly when it is a
      boolean name or a declared object. */
  lemma ParseValueAgainstObjects(objects: seq<ObjectDecl>, s: string)
    ensures ParseValue(SymbolRef(s), IndexObjects(objects)).Ok? <==>
      s == FalseName || s == TrueName || s in ObjectNames(objects)
  {
    ObjectIndexContents(objects);
  }

  /** Assignment arguments that read as integers become integers. */
  function CoerceArgs(args: seq<string>, asInt: string -> Option<int>): (r: seq<Val>)
    ensures |r| == |args|
    ensures forall k | 0 <= k < |args| :: r[k] == if asInt(args[k]).Some? then Num(asInt(args[k]).value) else Obj(args[k])
  {
    seq(|args|, k requires 0 <= k < |args| => if asInt(args[k]).Some? then Num(asInt(args[k]).value) else Obj(args[k]))
  }

  /** Atom arguments are kept as the names they are. */
  function VerbatimArgs(args: seq<string>): (r: seq<Val>)
    ensures |r| == |args|
    ensures forall k | 0 <= k < |args| :: r[k] == Obj(args[k])
  {
    seq(|args|, k requires 0 <= k < |args| => Obj(args[k]))
  }

  function FactSymbol(f: Fact): string
    requires !f.OtherFact?
  {
    if f.AssignFact? then f.symbol else f.pred
  }

  /** The symbol of a kept fact passed the initial-state check. */
  predicate Admitted(x: RawFact, symbols: map<string, Symbol>, h: Helpers) {
    x.name in symbols && x.name != TotalCost && !h.isExternal(x.name)
  }

  /** One iteration of `_extract_initial_atom_names_and_arguments`. */
  function ExtractFact(f: Fact, symbols: map<string, Symbol>, objects: IndexDictionary, h: Helpers): (r: Result<Option<RawFact>, InitError>)
    ensures f.OtherFact? ==> r == Err(UnrecognizedFact)
    ensures f.AtomFact? && f.negated ==> r == Err(NegatedInitialAtom(f.pred))
    ensures r == Ok(None) <==> !f.OtherFact? && !(f.AtomFact? && f.negated) && FactSymbol(f) == TotalCost
    ensures r.Ok? && r.value.Some? ==> Admitted(r.value.value, symbols, h) && r.value.value.name == FactSymbol(f)
    ensures r.Ok? && r.value.Some? && f.AtomFact? ==>
      r.value.value.args == VerbatimArgs(f.args) && r.value.value.value == Nil
    ensures r.Ok? && r.value.Some? && f.AssignFact? ==>
      r.value.value.args == CoerceArgs(f.args, h.asInt) && ParseValue(f.expression, objects) == Ok(r.value.value.value)
    ensures !f.OtherFact? && !(f.AtomFact? && f.negated) && CheckSymbolInInitialState(FactSymbol(f), symbols, h.isExternal).Err? ==>
      r == Err(CheckSymbolInInitialState(FactSymbol(f), symbols, h.isExternal).error)
    ensures f.AssignFact? && CheckSymbolInInitialState(f.symbol, symbols, h.isExternal) == Ok(true) && ParseValue(f.expression, objects).Err? ==>
      r == Err(ParseValue(f.expression, objects).error)
  {
    match f
    case AssignFact(s, args, e) =>
      var keep :- CheckSymbolInInitialState(s, symbols, h.isExternal);
      if !keep then Ok(None)
      else
        var v :- ParseValue(e, objects);
        Ok(Some(RawFact(s, CoerceArgs(args, h.asInt), v)))
    case AtomFact(p, args, negated) =>
      if negated then Err(NegatedInitialAtom(p))
      else
        var keep :- CheckSymbolInInitialState(p, symbols, h.isExternal);
        if keep then Ok(Some(RawFact(p, VerbatimArgs(args), Nil))) else Ok(None)
    case OtherFact => Err(UnrecognizedFact)
  }

  /** Fact `i` is the first one whose extraction raises. */
  predicate FirstExtractFailure(facts: seq<Fact>, i: nat, symbols: map<string, Symbol>, objects: IndexDictionary, h: Helpers)
    requires i < |facts|
  {
    ExtractFact(facts[i], symbols, objects, h).Err? &&
    forall j | 0 <= j < i :: ExtractFact(facts[j], symbols, objects, h).Ok?
  }

  /** `_extract_initial_atom_names_and_arguments`: the kept facts in input
      order, or the error of the first fact that raises. */
  function ExtractInitialAtoms(facts: seq<Fact>, symbols: map<string, Symbol>, objects: IndexDictionary, h: Helpers): (r: Result<seq<RawFact>, InitError>)
    ensures r.Ok? <==> forall i | 0 <= i < |facts| :: ExtractFact(facts[i], symbols, objects, h).Ok?
    ensures r.Ok? ==> |r.value| <= |facts| && forall k | 0 <= k < |r.value| :: Admitted(r.value[k], symbols, h)
    ensures r.Err? ==> exists i | 0 <= i < |facts| ::
      FirstExtractFailure(facts, i, symbols, objects, h) && r.error == ExtractFact(facts[i], symbols, objects, h).error
    decreases |facts|
  {
    if |facts| == 0 then Ok([])
    else
      var head :- ExtractFact(facts[0], symbols, objects, h);
      var rest := ExtractInitialAtoms(facts[1..], symbols, objects, h);
      if rest.Err? then
        assert forall i | 1 <= i < |facts| :: facts[i] == facts[1..][i - 1];
        Err(rest.error)
      else
        assert forall i | 1 <= i < |facts| :: facts[i] == facts[1..][i - 1];
        Ok((if head.Some? then [head.value] else []) + rest.value)
  }

  /** The extracted list holds exactly the kept facts: every fact that extracts
      to a kept fact contributes it, and every entry is the kept fact of some
      input fact. */
  lemma ExtractContents(facts: seq<Fact>, symbols: map<string, Symbol>, objects: IndexDictionary, h: Helpers)
    requires ExtractInitialAtoms(facts, symbols, objects, h).Ok?
    ensures var raw := ExtractInitialAtoms(facts, symbols, objects, h).value;
      forall i | 0 <= i < |facts| ::
        ExtractFact(facts[i], symbols, objects, h).value.Some? ==> ExtractFact(facts[i], symbols, objects, h).value.value in raw
    ensures var raw := ExtractInitialAtoms(facts, symbols, objects, h).value;
      forall k | 0 <= k < |raw| :: exists i | 0 <= i < |facts| :: ExtractFact(facts[i], symbols, objects, h) == Ok(Some(raw[k]))
  {
    forall i | 0 <= i < |facts| && ExtractFact(facts[i], symbols, objects, h).value.Some?
      ensures ExtractFact(facts[i], symbols, objects, h).value.value in ExtractInitialAtoms(facts, symbols, objects, h).value
    {
      ExtractKeepsFact(facts, symbols, objects, h, i);
    }
    forall k | 0 <= k < |ExtractInitialAtoms(facts, symbols, objects, h).value|
      ensures exists i | 0 <= i < |facts| ::
        ExtractFact(facts[i], symbols, objects, h) == Ok(Some(ExtractInitialAtoms(facts, symbols, objects, h).value[k]))
    {
      ExtractEntryFrom(facts, symbols, objects, h, k);
    }
  }

  lemma {:induction false} ExtractKeepsFact(facts: seq<Fact>, symbols: map<string, Symbol>, objects: IndexDictionary, h: Helpers, i: nat)
    requires ExtractInitialAtoms(facts, symbols, objects, h).Ok?
    requires i < |facts| && ExtractFact(facts[i], symbols, objects, h).Ok? && ExtractFact(facts[i], symbols, objects, h).value.Some?
    ensures ExtractFact(facts[i], symbols, objects, h).value.value in ExtractInitialAtoms(facts, symbols, objects, h).value
    decreases |facts|
  {
    var head := ExtractFact(facts[0], symbols, objects, h).value;
    var kept := if head.Some? then [head.value] else [];
    var tail := ExtractInitialAtoms(facts[1..], symbols, objects, h);
    assert ExtractInitialAtoms(facts, symbols, objects, h).value == kept + tail.value;
    if i > 0 {
      assert facts[i] == facts[1..][i - 1];
      ExtractKeepsFact(facts[1..], symbols, objects, h, i - 1);
    }
  }

  lemma {:induction false} ExtractEntryFrom(facts: seq<Fact>, symbols: map<string, Symbol>, objects: IndexDictionary, h: Helpers, k: nat)
    requires ExtractInitialAtoms(facts, symbols, objects, h).Ok?
    requires k < |ExtractInitialAtoms(facts, symbols, objects, h).value|
    ensures exists i | 0 <= i < |facts| ::
      ExtractFact(facts[i], symbols, objects, h) == Ok(Some(ExtractInitialAtoms(facts, symbols, objects, h).value[k]))
    decreases |facts|
  {
    var raw := ExtractInitialAtoms(facts, symbols, objects, h).value;
    var head := ExtractFact(facts[0], symbols, objects, h).value;
    var kept := if head.Some? then [head.value] else [];
    var tail := ExtractInitialAtoms(facts[1..], symbols, objects, h);
    assert raw == kept + tail.value;
    if k < |kept| {
      assert ExtractFact(facts[0], symbols, objects, h) == Ok(Some(raw[k]));
    } else {
      assert raw[k] == tail.value[k - |kept|];
      ExtractEntryFrom(facts[1..], symbols, objects, h, k - |kept|);
      var i :| 0 <= i < |facts[1..]| && ExtractFact(facts[1..][i], symbols, objects, h) == Ok(Some(raw[k]));
      assert facts[i + 1] == facts[1..][i];
    }
  }

  /** Extraction of a concatenation: the first part's error wins, otherwise the
      kept facts of both parts in order. */
  predicate AppendLaw(a: seq<Fact>, b: seq<Fact>, symbols: map<string, Symbol>, objects: IndexDictionary, h: Helpers) {
    var ra := ExtractInitialAtoms(a, symbols, objects, h);
    var rb := ExtractInitialAtoms(b, symbols, objects, h);
    ExtractInitialAtoms(a + b, symbols, objects, h) ==
      if ra.Err? then ra else if rb.Err? then rb else Ok(ra.value + rb.value)
  }

  lemma {:induction false} ExtractAppend(a: seq<Fact>, b: seq<Fact>, symbols: map<string, Symbol>, objects: IndexDictionary, h: Helpers)
    ensures var ra := ExtractInitialAtoms(a, symbols, objects, h);
      var rb := ExtractInitialAtoms(b, symbols, objects, h);
      ExtractInitialAtoms(a + b, symbols, objects, h) ==
        if ra.Err? then ra else if rb.Err? then rb else Ok(ra.value + rb.value)
    decreases |a|
  {
    if |a| > 0 {
      ExtractAppend(a[1..], b, symbols, objects, h);
      AppendLawStep(a, b, symbols, objects, h);
    } else {
      assert a + b == b;
      var rb := ExtractInitialAtoms(b, symbols, objects, h);
      if rb.Ok? {
        assert [] + rb.value == rb.value;
      }
    }
  }

  lemma AppendLawStep(a: seq<Fact>, b: seq<Fact>, symbols: map<string, Symbol>, objects: IndexDictionary, h: Helpers)
    requires |a| > 0 && AppendLaw(a[1..], b, symbols, objects, h)
    ensures AppendLaw(a, b, symbols, objects, h)
  {
    var ab := a + b;
    assert ab[1..] == a[1..] + b;
    assert ab[0] == a[0];
    if ExtractFact(a[0], symbols, objects, h).Err? ||
       ExtractInitialAtoms(a[1..], symbols, objects, h).Err? ||
       ExtractInitialAtoms(b, symbols, objects, h).Err? {
      ExtractCons(a, symbols, objects, h);
      ExtractCons(ab, symbols, objects, h);
      ErrLawOfResults(ExtractFact(a[0], symbols, objects, h), ExtractInitialAtoms(a[1..], symbols, objects, h),
                      ExtractInitialAtoms(b, symbols, objects, h), ExtractInitialAtoms(a, symbols, objects, h),
                      ExtractInitialAtoms(ab, symbols, objects, h), ExtractInitialAtoms(a[1..] + b, symbols, objects, h));
    } else {
      AppendLawStepOk(a, b, symbols, objects, h);
    }
  }

  /** The append law for one step, on plain result values, when some part fails. */
  lemma ErrLawOfResults(x: Result<Option<RawFact>, InitError>, r1: Result<seq<RawFact>, InitError>, rb: Result<seq<RawFact>, InitError>,
                        ra: Result<seq<RawFact>, InitError>, rab: Result<seq<RawFact>, InitError>, r1b: Result<seq<RawFact>, InitError>)
    requires x.Err? || r1.Err? || rb.Err?
    requires ra == if x.Err? then Err(x.error) else if r1.Err? then r1 else Ok(KeptOf(x.value) + r1.value)
    requires rab == if x.Err? then Err(x.error) else if r1b.Err? then r1b else Ok(KeptOf(x.value) + r1b.value)
    requires r1b == if r1.Err? then r1 else if rb.Err? then rb else Ok(r1.value + rb.value)
    ensures ra.Err? || rb.Err?
    ensures rab == if ra.Err? then ra else rb
  {
  }

  lemma AppendLawStepOk(a: seq<Fact>, b: seq<Fact>, symbols: map<string, Symbol>, objects: IndexDictionary, h: Helpers)
    requires |a| > 0 && AppendLaw(a[1..], b, symbols, objects, h)
    requires ExtractFact(a[0], symbols, objects, h).Ok?
    requires ExtractInitialAtoms(a[1..], symbols, objects, h).Ok? && ExtractInitialAtoms(b, symbols, objects, h).Ok?
    ensures AppendLaw(a, b, symbols, objects, h)
  {
    var kept := KeptOf(ExtractFact(a[0], symbols, objects, h).value);
    var ra := ExtractInitialAtoms(a[1..], symbols, objects, h).value;
    var rb := ExtractInitialAtoms(b, symbols, objects, h).value;
    ExtractOkCons(a, symbols, objects, h);
    ExtractOkConsAppend(a, b, symbols, objects, h);
    AppendLawOfResults(ExtractInitialAtoms(a, symbols, objects, h), ExtractInitialAtoms(b, symbols, objects, h),
                       ExtractInitialAtoms(a + b, symbols, objects, h), kept, ra, rb);
  }

  lemma ExtractOkConsAppend(a: seq<Fact>, b: seq<Fact>, symbols: map<string, Symbol>, objects: IndexDictionary, h: Helpers)
    requires |a| > 0 && ExtractFact(a[0], symbols, objects, h).Ok?
    requires ExtractInitialAtoms(a[1..] + b, symbols, objects, h).Ok?
    ensures ExtractInitialAtoms(a + b, symbols, objects, h) ==
      Ok(KeptOf(ExtractFact(a[0], symbols, objects, h).value) + ExtractInitialAtoms(a[1..] + b, symbols, objects, h).value)
  {
    var ab := a + b;
    assert ab[1..] == a[1..] + b;
    assert ab[0] == a[0];
    ExtractOkCons(ab, symbols, objects, h);
  }

  lemma AppendLawOfResults(ra: Result<seq<RawFact>, InitError>, rb: Result<seq<RawFact>, InitError>,
                           rab: Result<seq<RawFact>, InitError>, kept: seq<RawFact>, xs: seq<RawFact>, ys: seq<RawFact>)
    requires ra == Ok(kept + xs) && rb == Ok(ys) && rab == Ok(kept + (xs + ys))
    ensures rab == if ra.Err? then ra else if rb.Err? then rb else Ok(ra.value + rb.value)
  {
    assert (kept + xs) + ys == kept + (xs + ys);
  }

  /** One step of extraction: the first fact, then the rest. */
  lemma ExtractCons(facts: seq<Fact>, symbols: map<string, Symbol>, objects: IndexDictionary, h: Helpers)
    requires |facts| > 0
    ensures var x := ExtractFact(facts[0], symbols, objects, h);
      var rest := ExtractInitialAtoms(facts[1..], symbols, objects, h);
      ExtractInitialAtoms(facts, symbols, objects, h) ==
        if x.Err? then Err(x.error)
        else if rest.Err? then rest
        else Ok(KeptOf(x.value) + rest.value)
  {
  }

  /** The kept fact of one extraction, as a list of zero or one facts. */
  function KeptOf(x: Option<RawFact>): seq<RawFact> {
    if x.Some? then [x.value] else []
  }

  /** One successful step of extraction: the first fact's kept fact, then the rest's. */
  lemma ExtractOkCons(facts: seq<Fact>, symbols: map<string, Symbol>, objects: IndexDictionary, h: Helpers)
    requires |facts| > 0 && ExtractFact(facts[0], symbols, objects, h).Ok?
    requires ExtractInitialAtoms(facts[1..], symbols, objects, h).Ok?
    ensures ExtractInitialAtoms(facts, symbols, objects, h) ==
      Ok(KeptOf(ExtractFact(facts[0], symbols, objects, h).value) + ExtractInitialAtoms(facts[1..], symbols, objects, h).value)
  {
  }

  /** The facts whose symbol is (or is not) fluent, in input order. */
  function Select(raw: seq<RawFact>, fluent: set<string>, wantFluent: bool): (r: seq<RawFact>)
    ensures |r| <= |raw|
    ensures forall k | 0 <= k < |r| :: (r[k].name in fluent) == wantFluent
    ensures forall k | 0 <= k < |raw| && (raw[k].name in fluent) == wantFluent :: raw[k] in r
    decreases |raw|
  {
    if |raw| == 0 then []
    else (if (raw[0].name in fluent) == wantFluent then [raw[0]] else []) + Select(raw[1..], fluent, wantFluent)
  }

  /** The fluent and the static selections split the facts between them. */
  lemma {:induction false} SelectPartition(raw: seq<RawFact>, fluent: set<string>)
    ensures multiset(Select(raw, fluent, true)) + multiset(Select(raw, fluent, false)) == multiset(raw)
    decreases |raw|
  {
    if |raw| > 0 {
      SelectPartition(raw[1..], fluent);
      var head := [raw[0]];
      assert raw == head + raw[1..];
      assert multiset(raw) == multiset(head) + multiset(raw[1..]);
      if raw[0].name in fluent {
        assert Select(raw, fluent, true) == head + Select(raw[1..], fluent, true);
        assert Select(raw, fluent, false) == Select(raw[1..], fluent, false);
        assert multiset(Select(raw, fluent, true)) == multiset(head) + multiset(Select(raw[1..], fluent, true));
      } else {
        assert Select(raw, fluent, true) == Select(raw[1..], fluent, true);
        assert Select(raw, fluent, false) == head + Select(raw[1..], fluent, false);
        assert multiset(Select(raw, fluent, false)) == multiset(head) + multiset(Select(raw[1..], fluent, false));
      }
    }
  }

  /** Selection keeps input order: it distributes over concatenation. */
  lemma {:induction false} SelectAppend(a: seq<RawFact>, b: seq<RawFact>, fluent: set<string>, wantFluent: bool)
    ensures Select(a + b, fluent, wantFluent) == Select(a, fluent, wantFluent) + Select(b, fluent, wantFluent)
    decreases |a|
  {
    if |a| > 0 {
      assert (a + b)[1..] == a[1..] + b;
      assert (a + b)[0] == a[0];
      SelectAppend(a[1..], b, fluent, wantFluent);
    } else {
      assert a + b == b;
    }
  }

  /** `_process_fluent_atoms`: one atom per fluent fact, valued 1 for a
      predicate fact and the assigned value for a function fact. */
  function ProcessFluentAtoms(fluents: seq<RawFact>): (r: seq<Atom>)
    ensures |r| == |fluents|
    ensures forall k | 0 <= k < |r| :: r[k].variable == Variable(fluents[k].name, fluents[k].args)
    ensures forall k | 0 <= k < |r| :: r[k].value == if fluents[k].value.Nil? then Num(1) else fluents[k].value
  {
    seq(|fluents|, k requires 0 <= k < |fluents| =>
      Atom(Variable(fluents[k].name, fluents[k].args), if fluents[k].value.Nil? then Num(1) else fluents[k].value))
  }

  // ---- static facts ----

  /** `initial_static_data[name].add(args, value)` as it is written: every
      extension is called with a tuple and a value, which the sets reject. */
  function AddFactAsWritten(e: Static.Ext, args: seq<Val>, value: Val): (r: Updated<Static.Ext, Static.ExtError>)
    ensures e.SetExt? ==> r.raised == Some(Static.WrongAddSignature(e.name))
    ensures !e.SetExt? ==> r == Static.AddPair(e, args, value)
  {
    Static.AddPair(e, args, value)
  }

  /** The call with the signature each extension declares: sets take the tuple
      alone, the constant and the maps the tuple and the value. */
  function AddFact(e: Static.Ext, args: seq<Val>, value: Val): (r: Updated<Static.Ext, Static.ExtError>)
    ensures r.raised.None? <==> |args| == Static.Arity(e)
    ensures r.raised.Some? ==> r.state == e
    ensures r.raised.None? ==> Static.Emptied(r.state) == Static.Emptied(e)
    ensures r.raised.None? ==> Static.Keys(r.state) == Static.Keys(e) + {args}
    ensures r.raised.None? && !e.SetExt? ==> Static.Lookup(r.state, args) == value
    ensures r.raised.None? && !e.SetExt? ==> forall k | k in Static.Keys(e) && k != args ::
      Static.Lookup(r.state, k) == Static.Lookup(e, k)
  {
    if e.SetExt? then Static.AddTuple(e, args) else Static.AddPair(e, args, value)
  }

  /** A static fact can be stored: its symbol is declared, an extension can be
      instantiated for it, and the fact fits that extension. */
  predicate StaticFactOk(f: RawFact, symbols: map<string, Symbol>, normalize: string -> string) {
    && f.name in symbols
    && Static.InstantiateExtension(symbols[f.name], normalize).Ok?
    && AddFact(Static.InstantiateExtension(symbols[f.name], normalize).value, f.args, f.value).raised.None?
  }

  /** The error a static fact that cannot be stored raises. */
  function StaticFactError(f: RawFact, symbols: map<string, Symbol>, normalize: string -> string): InitError
    requires !StaticFactOk(f, symbols, normalize)
  {
    if f.name !in symbols then UnknownSymbol(f.name)
    else
      var created := Static.InstantiateExtension(symbols[f.name], normalize);
      if created.Err? then ExtensionError(created.error)
      else ExtensionError(AddFact(created.value, f.args, f.value).raised.value)
  }

  /** Every stored extension is, with its contents dropped, what the factory
      builds for its declared symbol. */
  predicate Instantiated(data: map<string, Static.Ext>, symbols: map<string, Symbol>, normalize: string -> string) {
    forall n | n in data :: n in symbols && Static.InstantiateExtension(symbols[n], normalize) == Ok(Static.Emptied(data[n]))
  }

  /** Whether adding a fact fails depends only on the extension's shape. */
  lemma AddFactShape(e1: Static.Ext, e2: Static.Ext, args: seq<Val>, value: Val)
    requires Static.Emptied(e1) == Static.Emptied(e2)
    ensures AddFact(e1, args, value).raised == AddFact(e2, args, value).raised
  {
  }

  /** One iteration of `_process_static_atoms`: the symbol's extension (created
      on first use) receives the fact. */
  function StoreFact(data: map<string, Static.Ext>, f: RawFact, symbols: map<string, Symbol>, normalize: string -> string): (r: Result<map<string, Static.Ext>, InitError>)
    requires Instantiated(data, symbols, normalize)
    ensures r.Ok? <==> StaticFactOk(f, symbols, normalize)
    ensures r.Err? ==> r.error == StaticFactError(f, symbols, normalize)
    ensures r.Ok? ==> r.value.Keys == data.Keys + {f.name} && Instantiated(r.value, symbols, normalize)
    ensures r.Ok? ==> forall n | n in data && n != f.name :: r.value[n] == data[n]
    ensures r.Ok? ==> Static.Keys(r.value[f.name]) ==
                        (if f.name in data then Static.Keys(data[f.name]) else {}) + {f.args}
    ensures r.Ok? && !r.value[f.name].SetExt? ==> Static.Lookup(r.value[f.name], f.args) == f.value
    ensures r.Ok? && f.name in data && !data[f.name].SetExt? ==>
              forall k | k in Static.Keys(data[f.name]) && k != f.args ::
                Static.Lookup(r.value[f.name], k) == Static.Lookup(data[f.name], k)
  {
    if f.name !in symbols then Err(UnknownSymbol(f.name))
    else
      var current := if f.name in data then Ok(data[f.name]) else Static.InstantiateExtension(symbols[f.name], normalize);
      if current.Err? then Err(ExtensionError(current.error))
      else
        var u := AddFact(current.value, f.args, f.value);
        var created := Static.InstantiateExtension(symbols[f.name], normalize);
        AddFactShape(current.value, created.value, f.args, f.value);
        if u.raised.Some? then Err(ExtensionError(u.raised.value))
        else Ok(data[f.name := u.state])
  }

  /** The symbols that have at least one static fact. */
  function FactNames(statics: seq<RawFact>): (names: set<string>)
    ensures forall i | 0 <= i < |statics| :: statics[i].name in names
    ensures forall n | n in names :: exists i | 0 <= i < |statics| :: statics[i].name == n
    decreases |statics|
  {
    if |statics| == 0 then {}
    else
      var init := statics[..|statics| - 1];
      assert forall i | 0 <= i < |init| :: init[i] == statics[i];
      FactNames(init) + {statics[|statics| - 1].name}
  }

  /** Every static fact can be stored. */
  predicate AllStorable(statics: seq<RawFact>, symbols: map<string, Symbol>, normalize: string -> string)
    decreases |statics|
  {
    |statics| > 0 ==>
      AllStorable(statics[..|statics| - 1], symbols, normalize) && StaticFactOk(statics[|statics| - 1], symbols, normalize)
  }

  /** `_process_static_atoms`: an extension is instantiated for a symbol the
      first time one of its facts is seen, and every fact is added to it. */
  function ProcessStaticAtoms(statics: seq<RawFact>, symbols: map<string, Symbol>, normalize: string -> string): (r: Result<map<string, Static.Ext>, InitError>)
    ensures r.Ok? <==> AllStorable(statics, symbols, normalize)
    ensures r.Ok? ==> r.value.Keys == FactNames(statics)
    ensures r.Ok? ==> Instantiated(r.value, symbols, normalize)
    decreases |statics|
  {
    if |statics| == 0 then Ok(map[])
    else
      var data :- ProcessStaticAtoms(statics[..|statics| - 1], symbols, normalize);
      StoreFact(data, statics[|statics| - 1], symbols, normalize)
  }

  /** Storability of every fact, stated position by position. */
  lemma {:induction false} AllStorableAt(statics: seq<RawFact>, symbols: map<string, Symbol>, normalize: string -> string)
    ensures AllStorable(statics, symbols, normalize) <==> forall i | 0 <= i < |statics| :: StaticFactOk(statics[i], symbols, normalize)
    decreases |statics|
  {
    if |statics| > 0 {
      AllStorableAt(statics[..|statics| - 1], symbols, normalize);
      AllSnoc(statics, f => StaticFactOk(f, symbols, normalize));
    }
  }

  /** A property holds of every element exactly when it holds of every element
      but the last, and of the last. */
  lemma AllSnoc<T>(s: seq<T>, p: T -> bool)
    requires |s| > 0
    ensures var init := s[..|s| - 1];
      (forall i | 0 <= i < |s| :: p(s[i])) <==> (forall i | 0 <= i < |init| :: p(init[i])) && p(s[|s| - 1])
  {
    var init := s[..|s| - 1];
    assert forall i | 0 <= i < |init| :: init[i] == s[i];
  }

  /** Processing succeeds exactly when every static fact can be stored, and then
      it holds one extension per symbol that has a static fact. */
  lemma StaticAtomsSucceed(statics: seq<RawFact>, symbols: map<string, Symbol>, normalize: string -> string)
    ensures var r := ProcessStaticAtoms(statics, symbols, normalize);
      r.Ok? <==> forall i | 0 <= i < |statics| :: StaticFactOk(statics[i], symbols, normalize)
    ensures var r := ProcessStaticAtoms(statics, symbols, normalize);
      r.Ok? ==> forall n :: n in r.value <==> exists i | 0 <= i < |statics| :: statics[i].name == n
  {
    AllStorableAt(statics, symbols, normalize);
  }

  /** The failure is that of the first fact that cannot be stored. */
  lemma {:induction false} StaticAtomsFirstError(statics: seq<RawFact>, symbols: map<string, Symbol>, normalize: string -> string)
    requires ProcessStaticAtoms(statics, symbols, normalize).Err?
    ensures exists i | 0 <= i < |statics| ::
      && !StaticFactOk(statics[i], symbols, normalize)
      && (forall j | 0 <= j < i :: StaticFactOk(statics[j], symbols, normalize))
      && ProcessStaticAtoms(statics, symbols, normalize).error == StaticFactError(statics[i], symbols, normalize)
    decreases |statics|
  {
    var init := statics[..|statics| - 1];
    var f := statics[|statics| - 1];
    assert forall i | 0 <= i < |init| :: init[i] == statics[i];
    var before := ProcessStaticAtoms(init, symbols, normalize);
    if before.Err? {
      StaticAtomsFirstError(init, symbols, normalize);
      var i :| 0 <= i < |init| && !StaticFactOk(init[i], symbols, normalize)
        && (forall j | 0 <= j < i :: StaticFactOk(init[j], symbols, normalize))
        && before.error == StaticFactError(init[i], symbols, normalize);
      assert statics[i] == init[i];
    } else {
      AllStorableAt(init, symbols, normalize);
      assert ProcessStaticAtoms(statics, symbols, normalize) == StoreFact(before.value, f, symbols, normalize);
      assert statics[|statics| - 1] == f;
    }
  }

  /** The argument tuples of the static facts for symbol `n`. */
  function TuplesOf(statics: seq<RawFact>, n: string): (ts: set<seq<Val>>)
    ensures forall i | 0 <= i < |statics| && statics[i].name == n :: statics[i].args in ts
    ensures forall t | t in ts :: exists i | 0 <= i < |statics| :: statics[i].name == n && statics[i].args == t
    decreases |statics|
  {
    if |statics| == 0 then {}
    else
      var init := statics[..|statics| - 1];
      var f := statics[|statics| - 1];
      assert forall i | 0 <= i < |init| :: init[i] == statics[i];
      TuplesOf(init, n) + (if f.name == n then {f.args} else {})
  }

  /** Every symbol's extension holds exactly the argument tuples of that
      symbol's static facts. */
  lemma {:induction false} StaticAtomsContents(statics: seq<RawFact>, symbols: map<string, Symbol>, normalize: string -> string)
    requires ProcessStaticAtoms(statics, symbols, normalize).Ok?
    ensures var data := ProcessStaticAtoms(statics, symbols, normalize).value;
      forall n | n in data :: Static.Keys(data[n]) == TuplesOf(statics, n)
    decreases |statics|
  {
    if |statics| > 0 {
      var init := statics[..|statics| - 1];
      var f := statics[|statics| - 1];
      StaticAtomsStep(statics, symbols, normalize);
      StaticAtomsContents(init, symbols, normalize);
      var before := ProcessStaticAtoms(init, symbols, normalize).value;
      var after := ProcessStaticAtoms(statics, symbols, normalize).value;
      forall n | n in after
        ensures Static.Keys(after[n]) == TuplesOf(statics, n)
      {
        TuplesOfStep(statics, n);
        if n !in before {
          TuplesOfAbsent(init, n);
        }
        StoredKeys(before, f, symbols, normalize, after, n, TuplesOf(init, n));
      }
    }
  }

  /** The tuples of symbol `n` after one more fact is stored, given the tuples
      `ts` it had before. */
  lemma StoredKeys(before: map<string, Static.Ext>, f: RawFact, symbols: map<string, Symbol>, normalize: string -> string,
                   after: map<string, Static.Ext>, n: string, ts: set<seq<Val>>)
    requires Instantiated(before, symbols, normalize)
    requires StoreFact(before, f, symbols, normalize) == Ok(after) && n in after
    requires n in before ==> Static.Keys(before[n]) == ts
    requires n !in before ==> ts == {}
    ensures Static.Keys(after[n]) == ts + (if f.name == n then {f.args} else {})
  {
  }

  /** One step of `_process_static_atoms`: the last fact is stored into the
      extensions built from the others. */
  lemma StaticAtomsStep(statics: seq<RawFact>, symbols: map<string, Symbol>, normalize: string -> string)
    requires |statics| > 0 && ProcessStaticAtoms(statics[..|statics| - 1], symbols, normalize).Ok?
    ensures var before := ProcessStaticAtoms(statics[..|statics| - 1], symbols, normalize).value;
      && Instantiated(before, symbols, normalize)
      && ProcessStaticAtoms(statics, symbols, normalize) == StoreFact(before, statics[|statics| - 1], symbols, normalize)
  {
  }

  lemma TuplesOfStep(statics: seq<RawFact>, n: string)
    requires |statics| > 0
    ensures var f := statics[|statics| - 1];
      TuplesOf(statics, n) == TuplesOf(statics[..|statics| - 1], n) + (if f.name == n then {f.args} else {})
  {
  }

  /** A symbol without static facts has no tuples. */
  lemma TuplesOfAbsent(statics: seq<RawFact>, n: string)
    requires n !in FactNames(statics)
    ensures TuplesOf(statics, n) == {}
  {
    if t :| t in TuplesOf(statics, n) {
      assert false;
    }
  }

  /** A fact that no later fact with the same symbol and arguments overrides. */
  predicate LastWrite(statics: seq<RawFact>, i: nat)
    requires i < |statics|
  {
    forall j | i < j < |statics| :: !(statics[j].name == statics[i].name && statics[j].args == statics[i].args)
  }

  /** A fact that is not overwritten in the prefix is not overwritten in the
      whole sequence either, and differs in name or tuple from the last fact. */
  lemma LastWritePrefix(statics: seq<RawFact>, i: nat)
    requires i < |statics| - 1 && LastWrite(statics, i)
    ensures var init := statics[..|statics| - 1];
      && init[i] == statics[i] && LastWrite(init, i)
      && (statics[|statics| - 1].name != statics[i].name || statics[|statics| - 1].args != statics[i].args)
  {
    var init := statics[..|statics| - 1];
    forall j | i < j < |init|
      ensures !(init[j].name == init[i].name && init[j].args == init[i].args)
    {
      assert init[j] == statics[j];
    }
  }

  /** Storing a fact under another name or tuple keeps a stored tuple and its value. */
  lemma StoredValueKept(before: map<string, Static.Ext>, f: RawFact, symbols: map<string, Symbol>, normalize: string -> string,
                        after: map<string, Static.Ext>, x: RawFact)
    requires Instantiated(before, symbols, normalize)
    requires StoreFact(before, f, symbols, normalize) == Ok(after)
    requires x.name in before && x.args in Static.Keys(before[x.name])
    requires !before[x.name].SetExt? ==> Static.Lookup(before[x.name], x.args) == x.value
    requires f.name != x.name || f.args != x.args
    ensures x.name in after && x.args in Static.Keys(after[x.name])
    ensures !after[x.name].SetExt? ==> Static.Lookup(after[x.name], x.args) == x.value
  {
    if f.name == x.name {
      assert Static.Emptied(after[x.name]) == Static.Emptied(before[x.name]);
    }
  }

  /** A successful run also succeeds on every prefix. */
  lemma StaticAtomsPrefix(statics: seq<RawFact>, symbols: map<string, Symbol>, normalize: string -> string)
    requires |statics| > 0 && ProcessStaticAtoms(statics, symbols, normalize).Ok?
    ensures ProcessStaticAtoms(statics[..|statics| - 1], symbols, normalize).Ok?
  {
  }

  /** For the constant and map extensions, the value stored under a tuple is
      that of the tuple's last fact. */
  lemma {:induction false} StaticAtomsLastWriteWins(statics: seq<RawFact>, symbols: map<string, Symbol>, normalize: string -> string, i: nat)
    requires ProcessStaticAtoms(statics, symbols, normalize).Ok?
    requires i < |statics| && LastWrite(statics, i)
    ensures var data := ProcessStaticAtoms(statics, symbols, normalize).value;
      && statics[i].name in data
      && statics[i].args in Static.Keys(data[statics[i].name])
      && (!data[statics[i].name].SetExt? ==> Static.Lookup(data[statics[i].name], statics[i].args) == statics[i].value)
    decreases |statics|
  {
    var init := statics[..|statics| - 1];
    StaticAtomsPrefix(statics, symbols, normalize);
    StaticAtomsStep(statics, symbols, normalize);
    if i < |statics| - 1 {
      LastWritePrefix(statics, i);
      StaticAtomsLastWriteWins(init, symbols, normalize, i);
      StoredValueKept(ProcessStaticAtoms(init, symbols, normalize).value, statics[|statics| - 1], symbols, normalize,
                      ProcessStaticAtoms(statics, symbols, normalize).value, statics[i]);
    }
  }

  // ---- the whole initial state ----

  /** The compiled initial state: the fluent atoms and one static extension per
      static symbol that has initial facts. */
  datatype Compiled = Compiled(fluentAtoms: seq<Atom>, staticData: map<string, Static.Ext>)

  /** `process_initial_state`: extract and check every fact, then send the
      facts of fluent symbols to the atom list and the rest to the extensions. */
  function ProcessInitialState(facts: seq<Fact>, info: SymbolInfo, objects: IndexDictionary, h: Helpers): (r: Result<Compiled, InitError>)
    ensures r.Ok? <==>
      && ExtractInitialAtoms(facts, info.table.symbols, objects, h).Ok?
      && AllStorable(Select(ExtractInitialAtoms(facts, info.table.symbols, objects, h).value, info.fluentSymbols, false),
                     info.table.symbols, h.normalize)
    ensures r.Ok? ==> |r.value.fluentAtoms| <= |facts|
    ensures r.Ok? ==> forall k | 0 <= k < |r.value.fluentAtoms| :: IsFluent(info, r.value.fluentAtoms[k].variable.symbol)
    ensures r.Ok? ==> forall n | n in r.value.staticData :: !IsFluent(info, n) && n in info.table.symbols
  {
    var raw :- ExtractInitialAtoms(facts, info.table.symbols, objects, h);
    var data :- ProcessStaticAtoms(Select(raw, info.fluentSymbols, false), info.table.symbols, h.normalize);
    Ok(Compiled(ProcessFluentAtoms(Select(raw, info.fluentSymbols, true)), data))
  }

  /** Where the kept fact `x` lands after compilation. */
  predicate Placed(x: RawFact, info: SymbolInfo, c: Compiled) {
    if IsFluent(info, x.name) then
      exists j | 0 <= j < |c.fluentAtoms| :: c.fluentAtoms[j].variable == Variable(x.name, x.args)
    else
      x.name in c.staticData && x.args in Static.Keys(c.staticData[x.name])
  }

  lemma FluentPlaced(raw: seq<RawFact>, fluent: set<string>, k: nat)
    requires k < |raw| && raw[k].name in fluent
    ensures exists j | 0 <= j < |ProcessFluentAtoms(Select(raw, fluent, true))| ::
      ProcessFluentAtoms(Select(raw, fluent, true))[j].variable == Variable(raw[k].name, raw[k].args)
  {
    var fluents := Select(raw, fluent, true);
    var j :| 0 <= j < |fluents| && fluents[j] == raw[k];
    var atoms := ProcessFluentAtoms(fluents);
    assert j < |atoms| && atoms[j].variable == Variable(raw[k].name, raw[k].args);
  }

  lemma StaticPlaced(statics: seq<RawFact>, symbols: map<string, Symbol>, normalize: string -> string, x: RawFact)
    requires x in statics && ProcessStaticAtoms(statics, symbols, normalize).Ok?
    ensures var data := ProcessStaticAtoms(statics, symbols, normalize).value;
      x.name in data && x.args in Static.Keys(data[x.name])
  {
    StaticAtomsContents(statics, symbols, normalize);
    var j :| 0 <= j < |statics| && statics[j] == x;
    assert x.name in FactNames(statics);
    assert x.args in TuplesOf(statics, x.name);
  }

  lemma PlacedAt(raw: seq<RawFact>, info: SymbolInfo, c: Compiled, normalize: string -> string, k: nat)
    requires k < |raw|
    requires c.fluentAtoms == ProcessFluentAtoms(Select(raw, info.fluentSymbols, true))
    requires ProcessStaticAtoms(Select(raw, info.fluentSymbols, false), info.table.symbols, normalize) == Ok(c.staticData)
    ensures Placed(raw[k], info, c)
  {
    if IsFluent(info, raw[k].name) {
      FluentPlaced(raw, info.fluentSymbols, k);
    } else {
      StaticPlaced(Select(raw, info.fluentSymbols, false), info.table.symbols, normalize, raw[k]);
    }
  }

  /** Every kept fact lands on exactly one side: a fluent fact as an atom over
      its symbol and arguments, a static fact as a tuple of its symbol's extension. */
  lemma InitialStatePlacement(facts: seq<Fact>, info: SymbolInfo, objects: IndexDictionary, h: Helpers)
    requires ProcessInitialState(facts, info, objects, h).Ok?
    ensures var raw := ExtractInitialAtoms(facts, info.table.symbols, objects, h).value;
      forall k | 0 <= k < |raw| :: Placed(raw[k], info, ProcessInitialState(facts, info, objects, h).value)
  {
    var raw := ExtractInitialAtoms(facts, info.table.symbols, objects, h).value;
    var c := ProcessInitialState(facts, info, objects, h).value;
    forall k | 0 <= k < |raw|
      ensures Placed(raw[k], info, c)
    {
      PlacedAt(raw, info, c, h.normalize, k);
    }
  }

  /** Compilation stops at the first fact whose extraction raises, with that
      fact's error, whatever follows it. */
  lemma InitialStateFailsFast(facts: seq<Fact>, info: SymbolInfo, objects: IndexDictionary, h: Helpers, i: nat)
    requires i < |facts| && FirstExtractFailure(facts, i, info.table.symbols, objects, h)
    ensures ProcessInitialState(facts, info, objects, h) == Err(ExtractFact(facts[i], info.table.symbols, objects, h).error)
  {
    var r := ExtractInitialAtoms(facts, info.table.symbols, objects, h);
    assert r.Err?;
    var i' :| 0 <= i' < |facts| && FirstExtractFailure(facts, i', info.table.symbols, objects, h)
      && r.error == ExtractFact(facts[i'], info.table.symbols, objects, h).error;
  }

  /** When every fact extracts, compilation fails exactly when a static fact
      cannot be stored, and then with the error of the first such fact. */
  lemma InitialStateStaticError(facts: seq<Fact>, info: SymbolInfo, objects: IndexDictionary, h: Helpers)
    requires ExtractInitialAtoms(facts, info.table.symbols, objects, h).Ok?
    ensures var statics := Select(ExtractInitialAtoms(facts, info.table.symbols, objects, h).value, info.fluentSymbols, false);
      && (ProcessInitialState(facts, info, objects, h).Err? <==>
            exists i | 0 <= i < |statics| :: !StaticFactOk(statics[i], info.table.symbols, h.normalize))
      && (ProcessInitialState(facts, info, objects, h).Err? ==> exists i | 0 <= i < |statics| ::
            && !StaticFactOk(statics[i], info.table.symbols, h.normalize)
            && (forall j | 0 <= j < i :: StaticFactOk(statics[j], info.table.symbols, h.normalize))
            && ProcessInitialState(facts, info, objects, h).error == StaticFactError(statics[i], info.table.symbols, h.normalize))
  {
    var statics := Select(ExtractInitialAtoms(facts, info.table.symbols, objects, h).value, info.fluentSymbols, false);
    StaticStage(facts, info, objects, h);
    StaticAtomsSucceed(statics, info.table.symbols, h.normalize);
    if ProcessStaticAtoms(statics, info.table.symbols, h.normalize).Err? {
      StaticAtomsFirstError(statics, info.table.symbols, h.normalize);
    }
  }

  /** Once every fact extracts, the static stage decides failure and its error. */
  lemma StaticStage(facts: seq<Fact>, info: SymbolInfo, objects: IndexDictionary, h: Helpers)
    requires ExtractInitialAtoms(facts, info.table.symbols, objects, h).Ok?
    ensures var ps := ProcessStaticAtoms(Select(ExtractInitialAtoms(facts, info.table.symbols, objects, h).value, info.fluentSymbols, false),
                                         info.table.symbols, h.normalize);
      && (ProcessInitialState(facts, info, objects, h).Err? <==> ps.Err?)
      && (ps.Err? ==> ProcessInitialState(facts, info, objects, h).error == ps.error)
  {
  }

  /** A fact over an undeclared symbol (other than `total-cost` and external
      ones) makes compilation fail with `UnknownSymbol` once the facts before it pass. */
  lemma UnknownSymbolRejected(facts: seq<Fact>, info: SymbolInfo, objects: IndexDictionary, h: Helpers, i: nat)
    requires i < |facts| && (facts[i].AssignFact? || (facts[i].AtomFact? && !facts[i].negated))
    requires FactSymbol(facts[i]) != TotalCost && !h.isExternal(FactSymbol(facts[i]))
    requires FactSymbol(facts[i]) !in info.table.symbols
    requires forall j | 0 <= j < i :: ExtractFact(facts[j], info.table.symbols, objects, h).Ok?
    ensures ProcessInitialState(facts, info, objects, h) == Err(UnknownSymbol(FactSymbol(facts[i])))
  {
    InitialStateFailsFast(facts, info, objects, h, i);
  }
}
