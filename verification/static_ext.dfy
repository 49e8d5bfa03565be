/** Static extensions (preprocessor/static.py): the complete value of one
    static symbol, kept as a 0-ary constant, a map from argument tuples to
    values (functions of arity 1 to 4) or a set of argument tuples (predicates
    of arity 1 to 4), with a validated `add` and a serialiser to records of
    comma-separated integer ids.

    The per-arity class family of the source becomes one tagged datatype whose
    `arity` field plays the role of the class constant `ARITY`. */
module Static {
  import opened Wrappers
  import opened Base
  import Text

  const MaxArity: nat := 4

  /** The argument of `serialize_tuple`: a lone value is treated as a 1-tuple. */
  datatype Elem = Single(v: Val) | Many(vs: seq<Val>)

  datatype ExtError =
    | UnsupportedFunctionArity(symbol: string, arity: nat)
    | UnsupportedPredicateArity(symbol: string, arity: nat)
      // a tuple whose length is not the extension's arity; maps also name the value
    | ArityViolation(symbol: string, elem: seq<Val>, value: Option<Val>)
      // the 0-ary element asserts that its key is the empty tuple
    | NonEmptyConstantKey(symbol: string, elem: seq<Val>)
      // `add` called with the wrong number of arguments (a Python TypeError)
    | WrongAddSignature(symbol: string)
      // a tuple component that is neither an int nor a name in the id table (a KeyError)
    | UnresolvedComponent(v: Val)
      // serialising a 0-ary element to which nothing was added (a KeyError on `()`)
    | MissingConstantValue(symbol: string)
      // some stored record of this extension has an unresolvable component
    | UnresolvedRecord(symbol: string)

  datatype Ext =
    | Constant(name: string, value: Option<Val>)
    | MapExt(name: string, arity: nat, pairs: map<seq<Val>, Val>)
    | SetExt(name: string, arity: nat, members: set<seq<Val>>)

  function Arity(e: Ext): nat {
    if e.Constant? then 0 else e.arity
  }

  /** Extensions built by the factories and kept by `add`: variant arities in
      range and every stored tuple of the declared length. */
  predicate Valid(e: Ext) {
    match e
    case Constant(_, _) => true
    case MapExt(_, a, pairs) => 1 <= a <= MaxArity && forall k | k in pairs :: |k| == a
    case SetExt(_, a, members) => 1 <= a <= MaxArity && forall k | k in members :: |k| == a
  }

  /** The extension with its contents dropped: what the factory returned. */
  function Emptied(e: Ext): Ext {
    match e
    case Constant(n, _) => Constant(n, None)
    case MapExt(n, a, _) => MapExt(n, a, map[])
    case SetExt(n, a, _) => SetExt(n, a, {})
  }

  /** The stored argument tuples (for the constant, the key `()` once a value is set). */
  function Keys(e: Ext): set<seq<Val>> {
    match e
    case Constant(_, v) => if v.Some? then {[]} else {}
    case MapExt(_, _, pairs) => pairs.Keys
    case SetExt(_, _, members) => members
  }

  /** The value stored under `k` in a constant or map extension. */
  function Lookup(e: Ext, k: seq<Val>): Val
    requires k in Keys(e) && !e.SetExt?
  {
    match e
    case Constant(_, v) => v.value
    case MapExt(_, _, pairs) => pairs[k]
  }

  /** The name under which generated code reads the extension. */
  function Accessor(e: Ext): string {
    "get_" + e.name
  }

  function InstantiateFunction(name: string, arity: nat, normalize: string -> string): (r: Result<Ext, ExtError>)
    ensures r.Ok? <==> arity <= MaxArity
    ensures r.Ok? ==> Valid(r.value) && Arity(r.value) == arity && !r.value.SetExt?
    ensures r.Ok? ==> r.value.name == normalize(name) && Keys(r.value) == {}
    ensures r.Err? ==> r.error == UnsupportedFunctionArity(name, arity)
  {
    if arity == 0 then Ok(Constant(normalize(name), None))
    else if arity <= MaxArity then Ok(MapExt(normalize(name), arity, map[]))
    else Err(UnsupportedFunctionArity(name, arity))
  }

  function InstantiatePredicate(name: string, arity: nat, normalize: string -> string): (r: Result<Ext, ExtError>)
    ensures r.Ok? <==> 1 <= arity <= MaxArity
    ensures r.Ok? ==> Valid(r.value) && Arity(r.value) == arity && r.value.SetExt?
    ensures r.Ok? ==> r.value.name == normalize(name) && Keys(r.value) == {}
    ensures r.Err? ==> r.error == UnsupportedPredicateArity(name, arity)
  {
    if 1 <= arity <= MaxArity then Ok(SetExt(normalize(name), arity, {}))
    else Err(UnsupportedPredicateArity(name, arity))
  }

  /** Predicates become sets and functions maps, with arity the number of
      argument types. */
  function InstantiateExtension(s: Symbol, normalize: string -> string): (r: Result<Ext, ExtError>)
    ensures r.Ok? <==> if s.Predicate? then 1 <= s.Arity() <= MaxArity else s.Arity() <= MaxArity
    ensures r.Ok? ==> Emptied(r.value) == r.value && Arity(r.value) == s.Arity() && Valid(r.value)
    ensures r.Ok? ==> (r.value.SetExt? <==> s.Predicate?) && r.value.name == normalize(s.name)
  {
    match s
    case Predicate(n, args) => InstantiatePredicate(n, |args|, normalize)
    case Function(n, args, _) => InstantiateFunction(n, |args|, normalize)
  }

  /** Every element built for a symbol is read through `get_` followed by the
      symbol's normalised name. */
  lemma AccessorOfInstantiated(s: Symbol, normalize: string -> string)
    requires InstantiateExtension(s, normalize).Ok?
    ensures Accessor(InstantiateExtension(s, normalize).value) == "get_" + normalize(s.name)
  {
  }

  /** `ext.add(elem, value)`: the constant and the maps take a tuple and a value. */
  function AddPair(e: Ext, elem: seq<Val>, value: Val): (r: Updated<Ext, ExtError>)
    ensures r.raised.None? <==> !e.SetExt? && |elem| == Arity(e)
    ensures r.raised.Some? ==> r.state == e
    ensures r.raised.None? ==> Emptied(r.state) == Emptied(e)
    ensures r.raised.None? ==> Keys(r.state) == Keys(e) + {elem} && Lookup(r.state, elem) == value
    ensures r.raised.None? ==> forall k | k in Keys(e) && k != elem :: Lookup(r.state, k) == Lookup(e, k)
    ensures Valid(e) ==> Valid(r.state)
    ensures e.Constant? && |elem| != 0 ==> r.raised == Some(NonEmptyConstantKey(e.name, elem))
    ensures e.MapExt? && |elem| != e.arity ==> r.raised == Some(ArityViolation(e.name, elem, Some(value)))
    ensures e.SetExt? ==> r.raised == Some(WrongAddSignature(e.name))
  {
    match e
    case Constant(n, _) =>
      if |elem| == 0 then Updated(Constant(n, Some(value)), None)
      else Updated(e, Some(NonEmptyConstantKey(n, elem)))
    case MapExt(n, a, pairs) =>
      if |elem| == a then Updated(MapExt(n, a, pairs[elem := value]), None)
      else Updated(e, Some(ArityViolation(n, elem, Some(value))))
    case SetExt(n, _, _) => Updated(e, Some(WrongAddSignature(n)))
  }

  /** `ext.add(elem)`: the sets take only the tuple. */
  function AddTuple(e: Ext, elem: seq<Val>): (r: Updated<Ext, ExtError>)
    ensures r.raised.None? <==> e.SetExt? && |elem| == e.arity
    ensures r.raised.Some? ==> r.state == e
    ensures r.raised.None? ==> Emptied(r.state) == Emptied(e) && Keys(r.state) == Keys(e) + {elem}
    ensures Valid(e) ==> Valid(r.state)
    ensures e.SetExt? && |elem| != e.arity ==> r.raised == Some(ArityViolation(e.name, elem, None))
    ensures !e.SetExt? ==> r.raised == Some(WrongAddSignature(e.name))
  {
    match e
    case SetExt(n, a, members) =>
      if |elem| == a then Updated(SetExt(n, a, members + {elem}), None)
      else Updated(e, Some(ArityViolation(n, elem, None)))
    case _ => Updated(e, Some(WrongAddSignature(e.name)))
  }

  /** Adding a tuple that is already a member leaves the set as it is. */
  lemma AddTupleIdempotent(e: Ext, elem: seq<Val>)
    requires AddTuple(e, elem).raised.None?
    ensures AddTuple(AddTuple(e, elem).state, elem) == AddTuple(e, elem)
  {
  }

  // ---- serialisation ----

  function Components(t: Elem): seq<Val> {
    match t
    case Single(v) => [v]
    case Many(vs) => vs
  }

  /** Ints are written as they are; names go through the id table. */
  predicate Resolvable(v: Val, ids: map<string, int>) {
    v.Num? || (v.Obj? && v.name in ids)
  }

  predicate AllResolvable(vs: seq<Val>, ids: map<string, int>) {
    forall i | 0 <= i < |vs| :: Resolvable(vs[i], ids)
  }

  function IdOf(v: Val, ids: map<string, int>): int
    requires Resolvable(v, ids)
  {
    if v.Num? then v.n else ids[v.name]
  }

  function IdsOf(vs: seq<Val>, ids: map<string, int>): (r: seq<int>)
    requires AllResolvable(vs, ids)
    ensures |r| == |vs|
  {
    seq(|vs|, i requires 0 <= i < |vs| && AllResolvable(vs, ids) => IdOf(vs[i], ids))
  }

  function FirstUnresolved(vs: seq<Val>, ids: map<string, int>): (i: nat)
    requires !AllResolvable(vs, ids)
    ensures i < |vs| && !Resolvable(vs[i], ids) && AllResolvable(vs[..i], ids)
    decreases |vs|
  {
    if !Resolvable(vs[0], ids) then 0
    else
      var j := FirstUnresolved(vs[1..], ids);
      assert forall k | 0 <= k < j + 1 :: vs[..j + 1][k] == vs[k];
      j + 1
  }

  /** One record per non-empty tuple: one comma-separated field per component,
      each reading back as the component's id. */
  lemma RecordOfTuple(vs: seq<Val>, ids: map<string, int>)
    requires AllResolvable(vs, ids) && |vs| >= 1
    ensures |Text.Split(Text.Render(IdsOf(vs, ids)), Text.Comma)| == |vs|
    ensures Text.ParseRecord(Text.Render(IdsOf(vs, ids))) == Some(IdsOf(vs, ids))
  {
    Text.RecordRoundTrip(IdsOf(vs, ids));
  }

  /** `serialize_tuple(t, symbols)`: the comma-joined ids of the components;
      the first component that is neither an int nor a known name raises. */
  function SerializeTuple(t: Elem, ids: map<string, int>): (r: Result<string, ExtError>)
    ensures r.Ok? <==> AllResolvable(Components(t), ids)
    ensures r.Err? ==> exists i | 0 <= i < |Components(t)| ::
      && !Resolvable(Components(t)[i], ids)
      && AllResolvable(Components(t)[..i], ids)
      && r.error == UnresolvedComponent(Components(t)[i])
    ensures r.Ok? && |Components(t)| == 0 ==> r.value == ""
    ensures r.Ok? && |Components(t)| >= 1 ==>
      |Text.Split(r.value, Text.Comma)| == |Components(t)| &&
      Text.ParseRecord(r.value) == Some(IdsOf(Components(t), ids))
  {
    var vs := Components(t);
    if AllResolvable(vs, ids) then
      if |vs| >= 1 then RecordOfTuple(vs, ids); Ok(Text.Render(IdsOf(vs, ids)))
      else Ok(Text.Render(IdsOf(vs, ids)))
    else
      var i := FirstUnresolved(vs, ids);
      Err(UnresolvedComponent(vs[i]))
  }

  /** The components of the record written for stored key `k`: the key, then the
      value for constants and maps. */
  function Row(e: Ext, k: seq<Val>): seq<Val>
    requires k in Keys(e)
  {
    if e.SetExt? then k else k + [Lookup(e, k)]
  }

  /** The number of fields of every record of a valid extension. */
  function FieldCount(e: Ext): nat {
    if e.SetExt? then Arity(e) else Arity(e) + 1
  }

  predicate Serializable(e: Ext, ids: map<string, int>) {
    (e.Constant? ==> e.value.Some?) &&
    forall k | k in Keys(e) :: AllResolvable(Row(e, k), ids)
  }

  lemma RowsOfValid(e: Ext, ids: map<string, int>)
    requires Valid(e) && Serializable(e, ids)
    ensures forall k | k in Keys(e) :: |Row(e, k)| == FieldCount(e) >= 1
    ensures forall k | k in Keys(e) ::
      Text.ParseRecord(Text.Render(IdsOf(Row(e, k), ids))) == Some(IdsOf(Row(e, k), ids)) &&
      |Text.Split(Text.Render(IdsOf(Row(e, k), ids)), Text.Comma)| == FieldCount(e)
  {
    forall k | k in Keys(e)
      ensures Text.ParseRecord(Text.Render(IdsOf(Row(e, k), ids))) == Some(IdsOf(Row(e, k), ids))
      ensures |Text.Split(Text.Render(IdsOf(Row(e, k), ids)), Text.Comma)| == FieldCount(e)
    {
      RecordOfTuple(Row(e, k), ids);
    }
  }

  /** `serialize_data(symbols)`: one record per stored key, `serialize_tuple` of
      the key (sets) or of the key followed by its value (maps), keyed by that key
      because the source's record order is the unspecified iteration order of a
      dict or set. The 0-ary element writes its value through the id table like
      every other variant (see `SerializeConstantAsWritten`). */
  function SerializeData(e: Ext, ids: map<string, int>): (r: Result<map<seq<Val>, string>, ExtError>)
    ensures r.Ok? <==> Serializable(e, ids)
    ensures r.Ok? ==> r.value.Keys == Keys(e)
    ensures r.Ok? ==> forall k | k in r.value :: SerializeTuple(Many(Row(e, k)), ids) == Ok(r.value[k])
    ensures r.Ok? && Valid(e) ==> forall k | k in r.value ::
      |Text.Split(r.value[k], Text.Comma)| == FieldCount(e) &&
      Text.ParseRecord(r.value[k]) == Some(IdsOf(Row(e, k), ids))
  {
    if e.Constant? && e.value.None? then Err(MissingConstantValue(e.name))
    else if !Serializable(e, ids) then Err(UnresolvedRecord(e.name))
    else
      var records := map k | k in Keys(e) :: SerializeTuple(Many(Row(e, k)), ids).value;
      if Valid(e) then RowsOfValid(e, ids); Ok(records) else Ok(records)
  }

  /** Distinct names have distinct ids, as in an object index. */
  predicate InjectiveIds(ids: map<string, int>) {
    forall a, b | a in ids && b in ids && a != b :: ids[a] != ids[b]
  }

  predicate AllObjects(vs: seq<Val>) {
    forall i | 0 <= i < |vs| :: vs[i].Obj?
  }

  /** Through an injective id table, tuples of names with the same ids are equal. */
  lemma IdsOfInjective(vs: seq<Val>, ws: seq<Val>, n: nat, ids: map<string, int>)
    requires InjectiveIds(ids) && AllResolvable(vs, ids) && AllResolvable(ws, ids)
    requires n <= |vs| && n <= |ws| && AllObjects(vs[..n]) && AllObjects(ws[..n])
    requires IdsOf(vs, ids)[..n] == IdsOf(ws, ids)[..n]
    ensures vs[..n] == ws[..n]
  {
    forall i | 0 <= i < n
      ensures vs[i] == ws[i]
    {
      assert vs[..n][i] == vs[i] && ws[..n][i] == ws[i];
      assert IdsOf(vs, ids)[..n][i] == IdsOf(ws, ids)[..n][i];
    }
  }

  /** The record of stored key `k` reads back as the ids of its row, and the
      key is the row's prefix. */
  lemma RecordOfKey(e: Ext, ids: map<string, int>, k: seq<Val>)
    requires Valid(e) && SerializeData(e, ids).Ok? && k in Keys(e)
    ensures Text.ParseRecord(SerializeData(e, ids).value[k]) == Some(IdsOf(Row(e, k), ids))
    ensures |k| == Arity(e) <= |Row(e, k)| && Row(e, k)[..|k|] == k
  {
    RowsOfValid(e, ids);
  }

  /** Serialisation identifies keys: when every stored key is a tuple of names
      and the id table is injective, different stored keys get different
      records. */
  lemma RecordsIdentifyKeys(e: Ext, ids: map<string, int>, k1: seq<Val>, k2: seq<Val>)
    requires Valid(e) && InjectiveIds(ids) && SerializeData(e, ids).Ok?
    requires k1 in Keys(e) && k2 in Keys(e) && AllObjects(k1) && AllObjects(k2)
    requires SerializeData(e, ids).value[k1] == SerializeData(e, ids).value[k2]
    ensures k1 == k2
  {
    RecordOfKey(e, ids, k1);
    RecordOfKey(e, ids, k2);
    var r1 := Row(e, k1);
    var r2 := Row(e, k2);
    assert IdsOf(r1, ids) == IdsOf(r2, ids);
    IdsOfInjective(r1, r2, |k1|, ids);
  }

  /** The source's `Arity0Element.serialize_data`: `str` of the stored value,
      without going through the id table. */
  function SerializeConstantAsWritten(e: Ext): (r: Result<map<seq<Val>, string>, ExtError>)
    requires e.Constant?
    ensures r.Ok? <==> e.value.Some?
    ensures r.Ok? ==> r.value.Keys == {[]}
    ensures r.Ok? && e.value.value.Obj? ==> r.value[[]] == e.value.value.name
    ensures r.Ok? && e.value.value.Num? ==> r.value[[]] == Text.IntToStr(e.value.value.n)
    ensures r.Ok? && e.value.value.Nil? ==> r.value[[]] == "None"
    ensures r.Err? ==> r.error == MissingConstantValue(e.name)
  {
    if e.value.None? then Err(MissingConstantValue(e.name))
    else Ok(map[[] := PythonStr(e.value.value)])
  }

  function PythonStr(v: Val): string {
    match v
    case Obj(n) => n
    case Num(n) => Text.IntToStr(n)
    case Nil => "None"
  }

  /** An object-valued constant is written as the object's name, which no
      reader of integer ids accepts, while the id-table serialisation writes
      the object's id. */
  lemma ConstantObjectValueNotAnId()
    ensures var e := Constant("holding", Some(Obj("b1")));
      var ids := map["b1" := 2];
      SerializeConstantAsWritten(e) == Ok(map[[] := "b1"]) &&
      Text.ParseRecord("b1") == None &&
      SerializeData(e, ids).Ok? && Text.ParseRecord(SerializeData(e, ids).value[[]]) == Some([2])
  {
    var e := Constant("holding", Some(Obj("b1")));
    var ids := map["b1" := 2];
    assert Text.Split("b1", Text.Comma) == ["b1"] by {
      Text.SplitWithoutSeparator("b1", Text.Comma);
    }
    assert Text.ParseInt("b1") == None by {
      assert !Text.IsDigit('b');
    }
    assert IdsOf(Row(e, []), ids) == [2];
  }
}
