/** The search-engine registry of src/search/engines/registry.cxx: a map from
    engine name to creator that refuses a second registration of a name and
    fails on a lookup of an unregistered one. */
module EngineRegistry {
  import opened Wrappers
  import Util

  /** The heuristics the constrained greedy best-first creators are built from. */
  datatype Heuristic = GecodeCRPG | DirectCRPG | GecodeCHMax | DirectCHMax

  /** The engine creators the registry is populated with. */
  datatype Creator =
    | GBFSConstrainedHeuristics(gecode: Heuristic, direct: Heuristic)
    | IteratedWidth
    | AStarASPRPG
    | GBFSNovelty
    | BreadthFirstSearch

  datatype RegistryError = DuplicateRegistration(name: string) | NoCreator(name: string)

  datatype Registry = Registry(creators: map<string, Creator>)

  /** `EngineRegistry::add`: the insertion does not overwrite, and a name that is
      already registered raises. */
  function Add(reg: Registry, name: string, c: Creator): (r: Updated<Registry, RegistryError>)
    ensures r.raised.None? <==> name !in reg.creators
    ensures r.raised.Some? ==> r.state == reg && r.raised.value == DuplicateRegistration(name)
    ensures r.raised.None? ==> r.state.creators.Keys == reg.creators.Keys + {name}
  {
    if name in reg.creators then Updated(reg, Some(DuplicateRegistration(name)))
    else Updated(Registry(reg.creators[name := c]), None)
  }

  /** `EngineRegistry::get`: the creator registered under the name, or an error. */
  function Get(reg: Registry, name: string): (r: Result<Creator, RegistryError>)
    ensures r.Ok? <==> name in reg.creators
    ensures r.Err? ==> r.error == NoCreator(name)
    ensures r.Ok? ==> name in reg.creators && reg.creators[name] == r.value
  {
    if name in reg.creators then Ok(reg.creators[name]) else Err(NoCreator(name))
  }

  /** Adding a fresh name makes it resolve to the added creator. */
  lemma AddThenGet(reg: Registry, name: string, c: Creator)
    requires name !in reg.creators
    ensures Add(reg, name, c).raised.None?
    ensures Get(Add(reg, name, c).state, name) == Ok(c)
  {
  }

  /** A second registration fails and the first creator stays in place. */
  lemma DuplicateKeepsOriginal(reg: Registry, name: string, c: Creator)
    requires name in reg.creators
    ensures Add(reg, name, c).raised == Some(DuplicateRegistration(name))
    ensures Get(Add(reg, name, c).state, name) == Get(reg, name) == Ok(reg.creators[name])
  {
  }

  /** Adding one name leaves every other name's lookup as it was. */
  lemma AddKeepsOthers(reg: Registry, name: string, c: Creator, other: string)
    requires other != name
    ensures Get(Add(reg, name, c).state, other) == Get(reg, other)
  {
  }

  /** Registers the entries in order, stopping at the first that raises. */
  function RegisterAll(reg: Registry, entries: seq<(string, Creator)>): (r: Updated<Registry, RegistryError>)
    ensures r.raised.None? ==> reg.creators.Keys <= r.state.creators.Keys
    decreases |entries|
  {
    if |entries| == 0 then Updated(reg, None)
    else
      var u := Add(reg, entries[0].0, entries[0].1);
      if u.raised.Some? then u else RegisterAll(u.state, entries[1..])
  }

  function EntryNames(entries: seq<(string, Creator)>): seq<string> {
    seq(|entries|, k requires 0 <= k < |entries| => entries[k].0)
  }

  /** Entries with pairwise different names, none of them registered yet, are
      all registered, each under its own creator, and nothing else changes. */
  lemma {:induction false} RegisterAllFresh(reg: Registry, entries: seq<(string, Creator)>)
    requires Util.Distinct(EntryNames(entries))
    requires forall k | 0 <= k < |entries| :: entries[k].0 !in reg.creators
    ensures RegisterAll(reg, entries).raised.None?
    ensures var after := RegisterAll(reg, entries).state.creators;
      && (forall n :: n in after <==> n in reg.creators || n in EntryNames(entries))
      && (forall k | 0 <= k < |entries| :: entries[k].0 in after && after[entries[k].0] == entries[k].1)
      && (forall n | n in reg.creators :: after[n] == reg.creators[n])
    decreases |entries|
  {
    if |entries| > 0 {
      var u := Add(reg, entries[0].0, entries[0].1);
      var rest := entries[1..];
      assert EntryNames(rest) == EntryNames(entries)[1..];
      forall k | 0 <= k < |rest|
        ensures rest[k].0 !in u.state.creators
      {
        assert EntryNames(entries)[k + 1] == rest[k].0;
        assert EntryNames(entries)[0] == entries[0].0;
      }
      RegisterAllFresh(u.state, rest);
      var after := RegisterAll(reg, entries).state.creators;
      forall n
        ensures n in after <==> n in reg.creators || n in EntryNames(entries)
      {
        assert EntryNames(entries) == [entries[0].0] + EntryNames(rest);
      }
      forall k | 0 <= k < |entries|
        ensures entries[k].0 in after && after[entries[k].0] == entries[k].1
      {
        if k > 0 {
          assert rest[k - 1] == entries[k];
        }
      }
    }
  }

  /** The engines the constructor registers, in order. */
  const Preconfigured: seq<(string, Creator)> := [
    ("gbfs_chff", GBFSConstrainedHeuristics(GecodeCRPG, DirectCRPG)),
    ("gbfs_chmax", GBFSConstrainedHeuristics(GecodeCHMax, DirectCHMax)),
    ("iterated_width", IteratedWidth),
    ("astar_asphplus", AStarASPRPG),
    ("gbfs_novelty", GBFSNovelty),
    ("breadth_first_search", BreadthFirstSearch)
  ]

  /** `EngineRegistry::EngineRegistry`: the empty registry with the
      preconfigured engines added. */
  function Initial(): Updated<Registry, RegistryError> {
    RegisterAll(Registry(map[]), Preconfigured)
  }

  /** The six engine names. */
  const PreconfiguredNames: set<string> :=
    {"gbfs_chff", "gbfs_chmax", "iterated_width", "astar_asphplus", "gbfs_novelty", "breadth_first_search"}

  lemma PreconfiguredNamesDistinct()
    ensures Util.Distinct(EntryNames(Preconfigured))
    ensures forall n :: n in EntryNames(Preconfigured) <==> n in PreconfiguredNames
  {
    var names := EntryNames(Preconfigured);
    assert names == ["gbfs_chff", "gbfs_chmax", "iterated_width", "astar_asphplus", "gbfs_novelty", "breadth_first_search"];
  }

  /** After construction exactly the six preconfigured names are registered,
      each resolving to its own creator. */
  lemma InitialRegistrations()
    ensures Initial().raised.None?
    ensures Initial().state.creators.Keys == PreconfiguredNames
    ensures forall k | 0 <= k < |Preconfigured| :: Get(Initial().state, Preconfigured[k].0) == Ok(Preconfigured[k].1)
  {
    PreconfiguredNamesDistinct();
    RegisterAllFresh(Registry(map[]), Preconfigured);
  }
}
