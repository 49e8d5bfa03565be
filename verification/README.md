# Task index, static extensions and engine registry — a Dafny model

This project models the front end of a planning system. It covers three parts:

- **Task indexing** (`preprocessor/fs_task.py`):
  - the object index, which reserves ids 0 and 1 for `false` and `true`;
  - the type index;
  - the ordered symbol table, holding predicates and then functions, with the
    `total-cost` function dropped;
  - the fluent/static split of the symbols, decided by which symbols head
    action effects;
  - compilation of the initial state. Every initial fact is checked. Fluent
    facts become atoms. Static facts are gathered into one static extension
    per symbol.
- **Static extensions** (`preprocessor/static.py`): the 0-ary element, the
  maps of arity 1–4 and the sets of arity 1–4. Each has a validated `add` and
  a serialiser. The maps and sets write comma-separated integer ids; the 0-ary
  element, as written, writes its raw value (see "## Findings").
- **Engine registry** (`src/search/engines/registry.cxx`): a map from engine
  name to creator. A second registration of a name is refused, and looking up
  an unregistered name fails.

## Modelling approach

- Everything is an immutable value.
- Operations are pure functions.
  - A call that raises in the source returns `Result.Err`.
  - A mutating call (`add` on an extension or on the registry) returns
    `Updated(state, raised)`. This makes "unchanged on failure" a statement
    about the returned state.
- The per-arity class family of `static.py` is one datatype `Static.Ext`:
  - `Constant` is the 0-ary element;
  - `MapExt` has an `arity` field standing for the class constant `ARITY`;
  - `SetExt` also has an `arity` field.
- A tuple component or stored value is a `Base.Val`: an object name, an
  integer, or `Nil`. `Nil` is Python's `None`, the value an atom fact carries.

The modules follow the source files:

- `wrappers.dfy`: `Option`, `Result`, `Updated`.
- `base.dfy`: symbols, variables, atoms.
- `util.dfy`: the index dictionary and the injected name helpers.
- `text.dfy`: decimal rendering and comma records, with a reference reader.
- `static_ext.dfy`: `static.py`.
- `task_index.dfy`: objects, types, symbols and the fluent/static split.
- `initial_state.dfy`: initial-state compilation.
- `registry.dfy`: the engine registry.
- `scenarios.dfy`: a small blocks-world task computed end to end.

### Behaviour of the code that the model keeps

- **Duplicate symbols.** A duplicate symbol declaration is not rejected. The
  code writes into an `OrderedDict` and never checks, so a later declaration
  silently replaces an earlier one and the name keeps the place of its first
  declaration (`preprocessor/fs_task.py:122`, `:128`). `TaskIndex.BuildTable`
  models this. `TaskIndex.BuildTableLastWins` states which declaration is
  stored, and `TaskIndex.BuildTableFirstPositions` states the order.
- **`total-cost`.** Only a *function* named `total-cost` is skipped
  (`preprocessor/fs_task.py:126`). A predicate with that name would be kept;
  `TaskIndex.TotalCostNeverAFunction` states exactly this.
- **Atom arguments.** Atom arguments are not turned into object ids. The
  code keeps them verbatim as names, so the fluent atom `on(b1, b2)` has the
  arguments `b1` and `b2` (`preprocessor/fs_task.py:170`, `:39`). Only
  assignment arguments that read as integers are converted.
- **`instantiate_extension`.** It is called at `preprocessor/fs_task.py:149`
  but not defined in `static.py`. It is modelled as a dispatch:
  - predicates go to `instantiate_predicate`;
  - functions go to `instantiate_function`;
  - the arity is the number of argument types.
- **Static `add` calls.** `preprocessor/fs_task.py:150` calls `add(args, value)`
  on every extension, which no set accepts (see "## Findings"). The rest of
  the model uses `InitialState.AddFact`, the intended dispatch: sets get
  `add(args)`, the constant and the maps get `add(args, value)`. The rows for
  `StoreFact`, `ProcessStaticAtoms`, the static-fact lemmas,
  `ProcessInitialState`, `InitialStatePlacement` and
  `Scenarios.BlocksInitialState` describe that intended dispatch. The code as
  written is `InitialState.AddFactAsWritten`.
- **Serialising the constant.** `preprocessor/static.py:86-87` writes the
  0-ary element's raw value (see "## Findings"). `Static.SerializeData`
  models the corrected version, which resolves the value through the id table.
- **Unknown static symbol.** For a static fact whose symbol is missing from
  the table, `self.symbols[name]` would raise `KeyError`. That case is already
  rejected earlier as an unknown symbol, and the model uses the same error.

## Model

| member | source | states |
|---|---|---|
| TaskIndex.IndexObjects | preprocessor/fs_task.py:103-110 | The object index holds `false`, `true`, then the declared object names in input order. |
| TaskIndex.ObjectIndexContents | preprocessor/fs_task.py:103-110 | `false` has id 0 and `true` has id 1. A name is in the index exactly when it is a boolean name or a declared object. |
| TaskIndex.ObjectIdsInOrder | preprocessor/fs_task.py:103-110 | Given distinct, non-boolean object names, the i-th declared object (0-based) has id i + 2. |
| TaskIndex.PositionMap | preprocessor/fs_task.py:89 | The `{x: i for i, x in enumerate(xs)}` map. It is defined on exactly the elements; each maps to a position holding it, and no later position holds it. |
| TaskIndex.ProcessTypes | preprocessor/fs_task.py:78-80 | Every listed type name, and nothing else, has an index. For distinct type names, each maps to its position in the list. |
| TaskIndex.KeptFunctionsExact | preprocessor/fs_task.py:125-126 | A function declaration is kept exactly when its name is not `total-cost`. |
| TaskIndex.KeptFunctionsAppend | preprocessor/fs_task.py:125-126 | Dropping `total-cost` keeps declaration order: the filter distributes over concatenation. |
| TaskIndex.BuildTable | preprocessor/fs_task.py:118-131 | The order has no repeats and lists exactly the table's names. The type table has the same names. Each entry is stored under its own name, with value type `bool` for predicates and the declared type for functions. |
| TaskIndex.BuildTableNames | preprocessor/fs_task.py:118-131 | The table's names are exactly the declared names. |
| TaskIndex.BuildTableLastWins | preprocessor/fs_task.py:120-129 | When a name is declared more than once, the last declaration is the one stored. |
| TaskIndex.BuildTableOrder | preprocessor/fs_task.py:118-131 | With distinct names, the table order is the declaration order. |
| TaskIndex.BuildTableFirstPositions | preprocessor/fs_task.py:120-129 | For any declarations, repeated names included: the order lists exactly the declared names, sorted by the position of each name's first declaration. A re-declared name keeps its first place in the `OrderedDict` (lines 122 and 128). |
| TaskIndex.DeclarationAtPosition | preprocessor/fs_task.py:87-91 | With distinct names: `all_symbols` lists the declarations in order, and the k-th declaration is stored with its value type and has `symbol_index` k. |
| TaskIndex.PredicatesFirst | preprocessor/fs_task.py:120-123 | The i-th predicate has symbol index i and value type `bool`. |
| TaskIndex.FunctionsAfterPredicates | preprocessor/fs_task.py:125-129 | The j-th kept function has symbol index (number of predicates) + j and its declared value type. |
| TaskIndex.TotalCostNeverAFunction | preprocessor/fs_task.py:125-126 | If `total-cost` is in the table at all, it is a predicate declared under that name, never a function. |
| TaskIndex.IndexSymbols | preprocessor/fs_task.py:113-131 | The table's order lists exactly the names of the predicates and the kept functions, each at the place of its first declaration. |
| TaskIndex.ProcessSymbols | preprocessor/fs_task.py:87-97 | `all_symbols` is the table order. `symbol_index` is defined exactly on the table's names and maps each to a position of `all_symbols` holding it. The fluent symbols are exactly the effect heads. `=` is static, and every other declared symbol is static exactly when it is not fluent. |
| TaskIndex.IsFluentEffectHead | preprocessor/fs_task.py:99-100 | After `process_symbols`, `is_fluent` holds of a name exactly when it heads some action's effect, declared or not. |
| TaskIndex.FluentSymbols | preprocessor/fs_task.py:94 | A symbol is fluent exactly when it heads some action's effect. |
| TaskIndex.StaticSymbols | preprocessor/fs_task.py:97 | `=` is static. A declared symbol other than `=` is static exactly when it is not fluent. Nothing undeclared is static except `=`. |
| TaskIndex.FluentStaticPartition | preprocessor/fs_task.py:93-100 | No declared symbol is both fluent and static, except `=` when some effect has `=` as its head, and that is the only overlap. |
| Static.InstantiateFunction | preprocessor/static.py:8-12 | Succeeds exactly for arities 0–4: arity 0 gives the constant, other arities a map of that arity. The element is empty, valid and named by the normalised name. Any other arity raises. |
| Static.InstantiatePredicate | preprocessor/static.py:15-19 | Succeeds exactly for arities 1–4, giving an empty, valid set of that arity. Arity 0 and arities above 4 raise. |
| Static.InstantiateExtension | preprocessor/fs_task.py:149 | Predicates become sets and functions become maps or the constant. The arity is the number of argument types, within the same bounds. The result is empty and valid. |
| Static.AccessorOfInstantiated | preprocessor/static.py:39-41 | The accessor of every element built for a symbol is `get_` followed by the symbol's normalised name. |
| Static.AddPair | preprocessor/static.py:79-114 | The two-argument `add` of the constant and the maps succeeds exactly when the tuple length equals the arity (the empty tuple for the constant). On failure the element is unchanged. On success the tuple maps to the value, other keys keep their values, the key set grows by exactly that tuple, and validity is preserved. Sets reject the call. The error is named: a non-empty key for the constant is `NonEmptyConstantKey` (the `assert` at line 79), a wrong-length tuple for a map is `ArityViolation` with the tuple and value (lines 111-114), and a set gets `WrongAddSignature` (Python's `TypeError`). |
| Static.AddTuple | preprocessor/static.py:164-174 | The set `add` succeeds exactly when the tuple length equals the arity. On failure the set is unchanged; on success it gains exactly that tuple. A wrong-length tuple raises `ArityViolation` with the tuple (lines 171-174); any other element gets `WrongAddSignature`, the `TypeError` of calling a one-argument `add` on it. |
| Static.AddTupleIdempotent | preprocessor/static.py:164-166 | Adding the same tuple twice gives the same set as adding it once. |
| Static.SerializeTuple | preprocessor/static.py:29-33 | Succeeds exactly when every component is an int or a known name. Otherwise it fails naming the first component that is neither, all components before it being resolvable. The empty tuple gives the empty string. A non-empty tuple's record has one field per component, and reading it back gives the components' ids in order. A lone value is treated as a 1-tuple. |
| Static.RecordOfTuple | preprocessor/static.py:33 | A non-empty tuple's record splits into one field per component and reads back as the list of ids. |
| Static.SerializeData | preprocessor/static.py:108-109 | There is one record per stored key, and it succeeds exactly when every row resolves. Each record is `serialize_tuple` of the key for sets (lines 168-169), or of the key followed by the value for maps (line 109) and for the constant (the corrected lines 86-87). For a valid element: a map's record is the key's ids followed by the value's id (arity + 1 fields), a set's record is the member's ids (arity fields), and the constant's record is its value's id. Each record reads back as those ids. |
| Static.RowsOfValid | preprocessor/static.py:168-169 | In a valid element every row has the same non-zero field count: the arity for sets, arity + 1 for maps and the constant. |
| Static.RecordOfKey | preprocessor/static.py:108-109 | For a valid element, the record of a stored key reads back as the ids of its row, and the key is that row's prefix of arity length. |
| Static.RecordsIdentifyKeys | preprocessor/static.py:108-109 | With an injective id table, two stored keys made only of object names that get the same record are equal. |
| Static.SerializeConstantAsWritten | preprocessor/static.py:86-87 | As written, the 0-ary element writes Python's `str` of its value: an object value as its name (not its id), an integer in decimal, `None` as `None`. It fails with `MissingConstantValue` when nothing was added. |
| Static.ConstantObjectValueNotAnId | preprocessor/static.py:86-87 | For the constant `holding = b1` with `b1` ↦ 2, the as-written record is `b1`, which does not read as an id, while the id-table record reads back as `[2]`. |
| Text.RecordRoundTrip | preprocessor/static.py:33 | A comma-joined record of integers has one field per integer and reads back as exactly those integers. |
| Text.IntRoundTrip | preprocessor/static.py:33 | Reading back Python's decimal `str` of an integer gives the integer. |
| Text.SplitJoin | preprocessor/static.py:33 | Splitting a join of comma-free fields at the separator gives the fields back. |
| InitialState.CheckSymbolInInitialState | preprocessor/fs_task.py:198-208 | The checks run in a fixed order: `total-cost` is dropped before anything else; then an external symbol is an error; then an undeclared one is an error; otherwise the fact is kept. |
| InitialState.ParseValue | preprocessor/fs_task.py:177-183 | A numeric constant gives its value. A name gives itself when it is in the object index, and otherwise raises. |
| InitialState.ParseValueAgainstObjects | preprocessor/fs_task.py:177-183 | Against the object index, a symbolic value is accepted exactly when it is `false`, `true` or a declared object. |
| InitialState.CoerceArgs | preprocessor/fs_task.py:160 | Assignment arguments that read as integers become integers; the others stay names, in order. |
| InitialState.ExtractFact | preprocessor/fs_task.py:156-173 | A negated atom raises before its symbol is checked, and a fact of another kind raises. A fact is dropped exactly when it is about `total-cost`. A kept fact has passed the symbol check. A kept atom has verbatim arguments and no value; a kept assignment has coerced arguments and the parsed value. An external or undeclared symbol fails with the symbol check's error, and an assignment whose value is not an indexed object fails with `parse_value`'s error. |
| InitialState.ExtractInitialAtoms | preprocessor/fs_task.py:154-175 | Succeeds exactly when every fact passes, keeping only admitted facts. A failure carries the error of the first fact that raises. |
| InitialState.ExtractContents | preprocessor/fs_task.py:154-175 | After a successful extraction, the kept fact of every input fact is in the list (lines 162 and 170), and every listed entry is the kept fact of some input fact. |
| InitialState.ExtractAppend | preprocessor/fs_task.py:154-175 | Extraction is sequential: for a concatenation, the first part's error wins, otherwise the kept facts of both parts appear in order. |
| InitialState.Select | preprocessor/fs_task.py:137-138 | Each selection keeps exactly the facts of the requested kind (fluent or not). |
| InitialState.SelectPartition | preprocessor/fs_task.py:137-138 | The fluent and static selections together are a permutation of the extracted facts. |
| InitialState.SelectAppend | preprocessor/fs_task.py:137-138 | Selection keeps input order: it distributes over concatenation. |
| InitialState.ProcessFluentAtoms | preprocessor/fs_task.py:34-42 | One atom per fluent fact, in order, over the fact's symbol and arguments. A predicate fact gets value 1; a function fact keeps its value. |
| InitialState.AddFactAsWritten | preprocessor/fs_task.py:150 | As written, every extension receives `add(args, value)`. A set extension therefore always raises. |
| InitialState.AddFact | preprocessor/fs_task.py:150 | With each extension's own `add` signature, adding a fact succeeds exactly when its tuple has the extension's arity. On failure nothing changes. On success the key set grows by exactly that tuple, a map stores the value under it, and other keys keep their values. |
| InitialState.StoreFact | preprocessor/fs_task.py:145-150 | With the intended `add` dispatch: one static fact succeeds exactly when it can be stored, and the error otherwise is that fact's. The symbol's extension (created on first use) gains the tuple and the value; every other symbol's extension is unchanged. |
| InitialState.ProcessStaticAtoms | preprocessor/fs_task.py:143-152 | With the intended `add` dispatch: succeeds exactly when all static facts can be stored. There is one extension per symbol that has a static fact, each created by the symbol's factory. |
| InitialState.StaticAtomsSucceed | preprocessor/fs_task.py:143-152 | Success is exactly "every static fact can be stored". The extensions' names are exactly the symbols of the static facts. |
| InitialState.StaticAtomsFirstError | preprocessor/fs_task.py:143-152 | A failure carries the error of the first static fact that cannot be stored. |
| InitialState.StaticAtomsContents | preprocessor/fs_task.py:143-152 | Each extension's key set is exactly the argument tuples of that symbol's static facts. |
| InitialState.StaticAtomsLastWriteWins | preprocessor/fs_task.py:145-150 | For the constant and the maps, the value under a tuple is that of the last fact with this symbol and tuple. |
| InitialState.ProcessInitialState | preprocessor/fs_task.py:133-141 | With the intended `add` dispatch: compilation succeeds exactly when every fact extracts and every static fact can be stored. There are at most as many atoms as facts. Every atom is over a fluent symbol, and every extension belongs to a declared non-fluent symbol. |
| InitialState.InitialStateStaticError | preprocessor/fs_task.py:137-152 | When every fact extracts, compilation fails exactly when some static fact cannot be stored, and then with the error of the first such fact. |
| InitialState.InitialStatePlacement | preprocessor/fs_task.py:133-141 | With the intended `add` dispatch: every kept fact lands on its side: a fluent fact as an atom over its symbol and arguments, a static fact as a tuple in its symbol's extension. |
| InitialState.InitialStateFailsFast | preprocessor/fs_task.py:154-175 | When fact i is the first to raise, the whole compilation fails with that fact's error, whatever follows. |
| InitialState.UnknownSymbolRejected | preprocessor/fs_task.py:205-206 | An undeclared, non-external symbol other than `total-cost` fails compilation with `UnknownSymbol`, once the facts before it pass. |
| EngineRegistry.Add | src/search/engines/registry.cxx:41-44 | Succeeds exactly for an unregistered name, adding exactly that name. A registered name raises `DuplicateRegistration` and leaves the registry unchanged. |
| EngineRegistry.Get | src/search/engines/registry.cxx:47-51 | Succeeds exactly for a registered name, returning its creator. Otherwise it raises `NoCreator`. |
| EngineRegistry.AddThenGet | src/search/engines/registry.cxx:41-50 | After adding a fresh name, `get` of that name returns the added creator. |
| EngineRegistry.DuplicateKeepsOriginal | src/search/engines/registry.cxx:42-43 | A second registration fails, and the first creator stays in place. |
| EngineRegistry.AddKeepsOthers | src/search/engines/registry.cxx:42 | Adding one name never changes the lookup of any other name. |
| EngineRegistry.RegisterAllFresh | src/search/engines/registry.cxx:28-33 | Registering entries with distinct, new names succeeds. Each name resolves to its own creator, and earlier names keep theirs. |
| EngineRegistry.InitialRegistrations | src/search/engines/registry.cxx:26-35 | After construction exactly six names are registered, each resolving to its own creator: `gbfs_chff`, `gbfs_chmax`, `iterated_width`, `astar_asphplus`, `gbfs_novelty`, `breadth_first_search`. |
| Scenarios.BlockIds | preprocessor/fs_task.py:103-110 | For objects b1 and b2, b1 has id 2 and b2 has id 3. |
| Scenarios.BlocksSymbols | preprocessor/fs_task.py:87-97 | With predicates `on/2` and `clear/1` and an action changing `on`: the symbols are `on`, `clear`, only `on` is fluent, and `total-cost` is absent. |
| Scenarios.BlocksInitialState | preprocessor/fs_task.py:133-152 | With the intended `add` dispatch, the facts `on(b1,b2)`, `clear(b1)` and `total-cost = 0` compile to one atom `on(b1,b2) = 1` and a `clear` set holding `(b1)`. |
| Scenarios.ClearSerialization | preprocessor/static.py:168-169 | The `clear` set serialises to the single record `2`. |
| Scenarios.StaticPredicateFactAsWritten | preprocessor/fs_task.py:150 | As written, storing `clear(b1)` raises, because the set has no two-argument `add`. With the set's own signature it gives the set `{(b1)}`. |

## Left out

- Orchestration in `fs_task.py` is not modelled: `create_fs_task`, `process_state_variables`, `process_actions`, `process_goal`, `process_state_constraints` and `_init_data_structures`. They hand work to action, formula and state-variable compilers that are not part of this model, or they are unused.
- The code-generation templates of `static.py` (`get_tpl`, `get_accessor`, `get_declaration`, `initializer_list`) are target-language string formatting and are not modelled. Only the accessor name is.
- `util.is_external`, `util.is_int` with `int`, and `util.normalize` are not part of this model. They are parameters (`Util.Helpers`), so every statement holds for any behaviour of them.
- `util.bool_string` is not part of this model; it is taken to give `"false"` and `"true"`.
- `IndexDictionary` is not part of this model. It is modelled as an append-only list in which a name's id is its first position.
- TaskIndex.ObjectIdsInOrder: requires distinct object names that are not boolean names, because how `IndexDictionary` treats a repeated name is not known.
- TaskIndex.ProcessTypes: the position statement is made for distinct type names only. For repeated names the dict comprehension keeps the last position, which `TaskIndex.PositionMap` states.
- TaskIndex.BuildTableOrder: stated for distinct declared names only. For repeated names, `TaskIndex.BuildTableFirstPositions` states the order.
- TaskIndex.DeclarationAtPosition: stated for distinct declared names only. With repeated names the positions shift, and `TaskIndex.BuildTableLastWins` says which declaration is stored.
- TaskIndex.PredicatesFirst: stated for distinct declared names only, for the same reason.
- TaskIndex.FunctionsAfterPredicates: stated for distinct declared names only, for the same reason.
- EngineRegistry.RegisterAllFresh: stated for distinct, unregistered names only. Otherwise the constructor's first duplicate raises, which `EngineRegistry.Add` states.
- Iteration order is not modelled. Dict and set iteration order makes the order of serialised records unspecified, so `Static.SerializeData` returns a map from stored key to record.
- Exception classes are not modelled. `RuntimeError`, `ParseException`, `AssertionError`, `KeyError` and `TypeError` are all `Err` values naming the failing case.
- InitialState.ProcessInitialState: partial state after a raise is not modelled. `preprocessor/fs_task.py:140` assigns `initial_fluent_atoms` before `_process_static_atoms` (line 141) can raise at line 149 or 150, so the task object keeps the new fluent atoms when a static fact fails. The model returns only `Err` and says nothing about the task object after a failure.
- InitialState.StoreFact: the model promises the behaviour of the intended `add` dispatch, not that of the call as written at `preprocessor/fs_task.py:150`. The same holds for `ProcessStaticAtoms`, the static-fact lemmas, `ProcessInitialState`, `InitialStatePlacement`, `InitialStateStaticError` and `Scenarios.BlocksInitialState`. The code as written is `InitialState.AddFactAsWritten`.
- Static.SerializeData: models the corrected constant branch. `preprocessor/static.py:86-87` as written is `Static.SerializeConstantAsWritten`.
- Static.RecordsIdentifyKeys: stated for keys made only of object names. The records do not determine the stored contents in general. An integer and an object name whose id is that integer serialise the same: the map value `2` and the value `b1` with `b1` ↦ 2 both give the record field `2`. The same holds for integer key components.
- The C++ reader of the records is not part of this model. `Text.ParseRecord` is a reference reader used only to state round trips.
- The engine creators are names only. What each creator builds depends on search components that are not part of this model.
- The registry's singleton accessor and destructor are not modelled: they are object lifetime and memory management.
- The remaining C++ sources (heuristics, constraint handlers, entry points, printers) and `preprocessor/tests/language_test.py` are not part of this model.

## Findings

| source | as written | input that shows it | evidently intended | confidence | as-written member | corrected member |
|---|---|---|---|---|---|---|
| preprocessor/fs_task.py:150 | `initial_static_data[name].add(args, value)` is called on every extension. `UnarySet.add` and the other sets (preprocessor/static.py:164) take only the tuple. | A static predicate fact such as `clear(b1)`: the call passes two arguments to a one-argument method and raises `TypeError`, so any task with a static predicate fact fails. | Sets receive `add(args)`; the constant and the maps receive `add(args, value)`. | high, not executed | InitialState.AddFactAsWritten (exhibited by Scenarios.StaticPredicateFactAsWritten) | InitialState.AddFact |
| preprocessor/static.py:86-87 | `Arity0Element.serialize_data` writes `str(self.elems[()])`, the raw value. | The 0-ary function `holding` with value `b1`, where `b1` has id 2: the record is `b1`, not `2`. Every other variant resolves names through the id table. | The value goes through the id table like every other component (`serialize_tuple`). | medium, not executed | Static.SerializeConstantAsWritten (exhibited by Static.ConstantObjectValueNotAnId) | Static.SerializeData |
