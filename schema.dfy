/**
 * The schema declarations `IndexedDBAdapter.initialize` accepts and what the upgrade
 * step makes of them: a store is created only when no store of that name exists, an
 * index only when no index of that name exists, and a bare index name gets default
 * settings.
 */
module Schema {
  import opened Outcomes
  import opened ObjectStore

  /** An index declaration: a bare name, or an `IndexConfig` whose settings may be left out. */
  datatype IndexDecl =
    | Bare(name: string)
    | Config(name: string, keyPath: Option<string>, unique: Option<bool>, multiEntry: Option<bool>)

  /** `{ name, keyPath = name, unique = false, multiEntry = false }` */
  function IndexSettings(d: IndexDecl): IndexParams
  {
    match d
    case Bare(n) => IndexParams(n, false, false)
    case Config(n, path, unique, multiEntry) => IndexParams(path.GetOr(n), unique.GetOr(false), multiEntry.GetOr(false))
  }

  /** One step of `processIndexes`: the index is created only when its name is not taken. */
  function AddIndex(indexes: map<string, IndexParams>, d: IndexDecl): map<string, IndexParams>
  {
    if d.name in indexes then indexes else indexes[d.name := IndexSettings(d)]
  }

  /** The indexes of a store after the declarations are processed in order. */
  function CreateIndexes(existing: map<string, IndexParams>, decls: seq<IndexDecl>): map<string, IndexParams>
    decreases decls
  {
    if decls == [] then existing else CreateIndexes(AddIndex(existing, decls[0]), decls[1..])
  }

  /** `processIndexes(store, indexes)`: an absent (`undefined`) list does nothing. */
  function CreateOptionalIndexes(existing: map<string, IndexParams>, decls: Option<seq<IndexDecl>>): map<string, IndexParams>
  {
    match decls
    case None => existing
    case Some(ds) => CreateIndexes(existing, ds)
  }

  /** A `StoreConfig`: store name, optional key path, optional auto-increment flag and optional indexes. */
  datatype StoreConfig = StoreConfig(
    storeName: string,
    keyPath: Option<string>,
    autoIncrement: Option<bool>,
    indexes: Option<seq<IndexDecl>>)

  /** The store `createObjectStore` makes for a config (`autoIncrement ?? true`), with its indexes. */
  function NewStore(c: StoreConfig): Store
  {
    EmptyStore(c.keyPath, c.autoIncrement.GetOr(true), CreateOptionalIndexes(map[], c.indexes))
  }

  /** One step of `processStore`: the store is created only when its name is not taken. */
  function AddStore(stores: map<string, Store>, c: StoreConfig): map<string, Store>
  {
    if c.storeName in stores then stores else stores[c.storeName := NewStore(c)]
  }

  /** The stores of a database after the configs are processed in order. */
  function CreateStores(existing: map<string, Store>, configs: seq<StoreConfig>): map<string, Store>
    decreases configs
  {
    if configs == [] then existing else CreateStores(AddStore(existing, configs[0]), configs[1..])
  }

  /** No config before position `i` names the same store as config `i`. */
  predicate FirstConfigOfName(configs: seq<StoreConfig>, i: int)
    requires 0 <= i < |configs|
  {
    forall j :: 0 <= j < i ==> configs[j].storeName != configs[i].storeName
  }

  /** No declaration before position `i` names the same index as declaration `i`. */
  predicate FirstDeclOfName(decls: seq<IndexDecl>, i: int)
    requires 0 <= i < |decls|
  {
    forall j :: 0 <= j < i ==> decls[j].name != decls[i].name
  }

  function DeclNames(decls: seq<IndexDecl>): set<string>
  {
    set i | 0 <= i < |decls| :: decls[i].name
  }

  function ConfigNames(configs: seq<StoreConfig>): set<string>
  {
    set i | 0 <= i < |configs| :: configs[i].storeName
  }

  lemma DeclNamesCons(decls: seq<IndexDecl>)
    requires decls != []
    ensures DeclNames(decls) == {decls[0].name} + DeclNames(decls[1..])
  {
    forall n | n in DeclNames(decls) ensures n in {decls[0].name} + DeclNames(decls[1..]) {
      var i :| 0 <= i < |decls| && decls[i].name == n;
      if i > 0 {
        assert decls[1..][i - 1].name == n;
      }
    }
    forall n | n in DeclNames(decls[1..]) ensures n in DeclNames(decls) {
      var i :| 0 <= i < |decls[1..]| && decls[1..][i].name == n;
      assert decls[i + 1].name == n;
    }
  }

  lemma ConfigNamesCons(configs: seq<StoreConfig>)
    requires configs != []
    ensures ConfigNames(configs) == {configs[0].storeName} + ConfigNames(configs[1..])
  {
    forall n | n in ConfigNames(configs) ensures n in {configs[0].storeName} + ConfigNames(configs[1..]) {
      var i :| 0 <= i < |configs| && configs[i].storeName == n;
      if i > 0 {
        assert configs[1..][i - 1].storeName == n;
      }
    }
    forall n | n in ConfigNames(configs[1..]) ensures n in ConfigNames(configs) {
      var i :| 0 <= i < |configs[1..]| && configs[1..][i].storeName == n;
      assert configs[i + 1].storeName == n;
    }
  }

  /** Processing index declarations adds exactly the declared names and keeps every existing index. */
  lemma {:induction false} CreateIndexesKeeps(existing: map<string, IndexParams>, decls: seq<IndexDecl>)
    ensures CreateIndexes(existing, decls).Keys == existing.Keys + DeclNames(decls)
    ensures forall n :: n in existing ==> CreateIndexes(existing, decls)[n] == existing[n]
    decreases decls
  {
    if decls != [] {
      DeclNamesCons(decls);
      CreateIndexesKeeps(AddIndex(existing, decls[0]), decls[1..]);
    }
  }

  /**
   * A name that did not exist gets the settings of its first declaration; a bare name
   * gets key path = name, unique = false, multiEntry = false.
   */
  lemma {:induction false} CreateIndexesFirstWins(existing: map<string, IndexParams>, decls: seq<IndexDecl>, i: int)
    requires 0 <= i < |decls| && decls[i].name !in existing && FirstDeclOfName(decls, i)
    ensures decls[i].name in CreateIndexes(existing, decls) &&
      CreateIndexes(existing, decls)[decls[i].name] == IndexSettings(decls[i])
    ensures decls[i].Bare? ==> IndexSettings(decls[i]) == IndexParams(decls[i].name, false, false)
    decreases decls
  {
    var next := AddIndex(existing, decls[0]);
    if i == 0 {
      CreateIndexesKeeps(next, decls[1..]);
    } else {
      assert decls[1..][i - 1] == decls[i];
      CreateIndexesFirstWins(next, decls[1..], i - 1);
    }
  }

  lemma {:induction false} CreateIndexesPresent(existing: map<string, IndexParams>, decls: seq<IndexDecl>)
    requires DeclNames(decls) <= existing.Keys
    ensures CreateIndexes(existing, decls) == existing
    decreases decls
  {
    if decls != [] {
      DeclNamesCons(decls);
      CreateIndexesPresent(existing, decls[1..]);
    }
  }

  /** Processing the same declarations again changes nothing: index creation is idempotent. */
  lemma CreateIndexesIdempotent(existing: map<string, IndexParams>, decls: seq<IndexDecl>)
    ensures CreateIndexes(CreateIndexes(existing, decls), decls) == CreateIndexes(existing, decls)
  {
    CreateIndexesKeeps(existing, decls);
    CreateIndexesPresent(CreateIndexes(existing, decls), decls);
  }

  /** Processing store configs adds exactly the configured names and keeps every existing store as it was. */
  lemma {:induction false} CreateStoresKeeps(existing: map<string, Store>, configs: seq<StoreConfig>)
    ensures CreateStores(existing, configs).Keys == existing.Keys + ConfigNames(configs)
    ensures forall n :: n in existing ==> CreateStores(existing, configs)[n] == existing[n]
    decreases configs
  {
    if configs != [] {
      ConfigNamesCons(configs);
      CreateStoresKeeps(AddStore(existing, configs[0]), configs[1..]);
    }
  }

  /**
   * A store name that did not exist is created, empty, from its first config, with the
   * config's key path and auto-increment unless the config sets it to false.
   */
  lemma {:induction false} CreateStoresFirstWins(existing: map<string, Store>, configs: seq<StoreConfig>, i: int)
    requires 0 <= i < |configs| && configs[i].storeName !in existing && FirstConfigOfName(configs, i)
    ensures configs[i].storeName in CreateStores(existing, configs) &&
      CreateStores(existing, configs)[configs[i].storeName] == NewStore(configs[i])
    ensures var st := NewStore(configs[i]);
      st.entries == [] && st.keyPath == configs[i].keyPath &&
      st.autoIncrement == (configs[i].autoIncrement != Some(false))
    decreases configs
  {
    var next := AddStore(existing, configs[0]);
    if i == 0 {
      CreateStoresKeeps(next, configs[1..]);
    } else {
      assert configs[1..][i - 1] == configs[i];
      CreateStoresFirstWins(next, configs[1..], i - 1);
    }
  }

  lemma {:induction false} CreateStoresPresent(existing: map<string, Store>, configs: seq<StoreConfig>)
    requires ConfigNames(configs) <= existing.Keys
    ensures CreateStores(existing, configs) == existing
    decreases configs
  {
    if configs != [] {
      ConfigNamesCons(configs);
      CreateStoresPresent(existing, configs[1..]);
    }
  }

  /** Processing the same configs again changes nothing: store creation is idempotent. */
  lemma CreateStoresIdempotent(existing: map<string, Store>, configs: seq<StoreConfig>)
    ensures CreateStores(CreateStores(existing, configs), configs) == CreateStores(existing, configs)
  {
    CreateStoresKeeps(existing, configs);
    CreateStoresPresent(CreateStores(existing, configs), configs);
  }

  /** Every store the upgrade creates is a valid, empty store. */
  lemma {:induction false} CreateStoresValid(existing: map<string, Store>, configs: seq<StoreConfig>)
    requires forall n :: n in existing ==> Valid(existing[n])
    ensures forall n :: n in CreateStores(existing, configs) ==> Valid(CreateStores(existing, configs)[n])
    decreases configs
  {
    if configs != [] {
      CreateStoresValid(AddStore(existing, configs[0]), configs[1..]);
    }
  }
}
