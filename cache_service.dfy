/**
 * The key→blob store behind the loader (`CacheService`).
 *
 * IndexedDB itself is not modelled: the persistent object store is the map
 * `entries`, and the database's failures come from a fixed environment that
 * says whether the database can be opened at all and which keys' requests
 * fail. Asynchronous completion is treated as sequential.
 */
module Cache {
  import opened Wrappers

  newtype byte = b: int | 0 <= b < 256

  /** The record the loader keeps under `<modelId>_metadata`. */
  datatype Metadata = Metadata(
    modelId: string,
    modelUrl: string,
    totalSize: nat,
    totalChunks: nat,
    chunkSize: nat,
    timestamp: nat)

  /**
   * A stored value: the bytes of a chunk, a metadata record, or a value that
   * JavaScript treats as falsy (null, 0, '', false).
   */
  datatype Blob = Bytes(data: seq<byte>) | Record(meta: Metadata) | Falsy

  /** `!!value` */
  predicate Truthy(b: Blob) {
    !b.Falsy?
  }

  /**
   * What the browser's database does for this instance: whether
   * `indexedDB.open` succeeds, the keys whose get/put/delete request fails,
   * and whether a `clear` request fails.
   */
  datatype StoreEnv = StoreEnv(canOpen: bool, brokenKeys: set<string>, clearBroken: bool)

  datatype StoreError = OpenFailed | RequestFailed

  /** A get or put request on `key` completes successfully. */
  predicate Reachable(env: StoreEnv, key: string) {
    env.canOpen && key !in env.brokenKeys
  }

  /** What `getModel(key)` resolves to, or the error it rejects with. */
  function Lookup(env: StoreEnv, entries: map<string, Blob>, key: string): Result<Option<Blob>, StoreError> {
    if !env.canOpen then Err(OpenFailed)
    else if key in env.brokenKeys then Err(RequestFailed)
    else if key in entries then Ok(Some(entries[key]))
    else Ok(None)
  }

  /** What `hasModel(key)` resolves to. */
  predicate Present(env: StoreEnv, entries: map<string, Blob>, key: string) {
    Reachable(env, key) && key in entries && Truthy(entries[key])
  }

  /** The stored entries after `saveModel(key, value)`. */
  function AfterPut(env: StoreEnv, entries: map<string, Blob>, key: string, value: Blob): map<string, Blob> {
    if Reachable(env, key) then entries[key := value] else entries
  }

  /** `hasModel` is `!!getModel` with every failure read as "absent". */
  lemma PresentIsTruthyLookup(env: StoreEnv, entries: map<string, Blob>, key: string)
    ensures Present(env, entries, key)
            <==> (Lookup(env, entries, key).Ok? && Lookup(env, entries, key).value.Some?
                  && Truthy(Lookup(env, entries, key).value.value))
  {
  }

  class CacheService {
    const env: StoreEnv
    /** `this.db !== null` */
    var dbOpen: bool
    /** How many times `indexedDB.open` has succeeded for this instance. */
    ghost var opens: nat
    /** The object store's contents. */
    var entries: map<string, Blob>

    ghost predicate Valid()
      reads this
    {
      (dbOpen ==> env.canOpen) && opens == (if dbOpen then 1 else 0)
    }

    /** A fresh service over a database that already holds `initial`. */
    constructor (env: StoreEnv, initial: map<string, Blob>)
      ensures Valid() && this.env == env && !dbOpen && entries == initial
    {
      this.env := env;
      dbOpen := false;
      opens := 0;
      entries := initial;
    }

    /** Opens the database lazily; once open, the cached handle is reused. */
    method InitDB() returns (r: Outcome<StoreError>)
      requires Valid()
      modifies this
      ensures Valid() && entries == old(entries)
      ensures r == (if env.canOpen then Pass else Fail(OpenFailed))
      ensures dbOpen == env.canOpen
      ensures old(dbOpen) ==> opens == old(opens)
    {
      if dbOpen {
        return Pass;
      }
      if env.canOpen {
        dbOpen := true;
        opens := opens + 1;
        r := Pass;
      } else {
        r := Fail(OpenFailed);
      }
    }

    /** `hasModel`: never fails; every error reads as "not cached". */
    method HasModel(key: string) returns (b: bool)
      requires Valid()
      modifies this
      ensures Valid() && entries == old(entries)
      ensures b == Present(env, entries, key)
    {
      var init := InitDB();
      if init.Fail? {
        return false;
      }
      if key in env.brokenKeys {
        return false;
      }
      b := key in entries && Truthy(entries[key]);
    }

    /**
     * `saveModel`: resolves to false when the database cannot be opened and
     * rejects when the put request fails.
     */
    method SaveModel(key: string, value: Blob) returns (r: Result<bool, StoreError>)
      requires Valid()
      modifies this
      ensures Valid()
      ensures !env.canOpen ==> r == Ok(false)
      ensures env.canOpen && key in env.brokenKeys ==> r == Err(RequestFailed)
      ensures Reachable(env, key) ==> r == Ok(true)
      ensures entries == AfterPut(env, old(entries), key, value)
    {
      var init := InitDB();
      if init.Fail? {
        return Ok(false);
      }
      if key in env.brokenKeys {
        return Err(RequestFailed);
      }
      entries := entries[key := value];
      r := Ok(true);
    }

    /**
     * `getModel`: an absent key resolves to `undefined` (`None`); a failure to
     * open the database and a failed request both reject.
     */
    method GetModel(key: string) returns (r: Result<Option<Blob>, StoreError>)
      requires Valid()
      modifies this
      ensures Valid() && entries == old(entries)
      ensures r == Lookup(env, entries, key)
      ensures r.Ok? ==> (r.value.Some? <==> key in entries)
      ensures r.Ok? && key in entries ==> r.value.value == entries[key]
    {
      var init := InitDB();
      if init.Fail? {
        return Err(OpenFailed);
      }
      if key in env.brokenKeys {
        return Err(RequestFailed);
      }
      r := if key in entries then Ok(Some(entries[key])) else Ok(None);
    }

    /** `deleteModel`: removes `key` only. */
    method DeleteModel(key: string) returns (r: Result<bool, StoreError>)
      requires Valid()
      modifies this
      ensures Valid()
      ensures !env.canOpen ==> r == Ok(false)
      ensures env.canOpen && key in env.brokenKeys ==> r == Err(RequestFailed)
      ensures Reachable(env, key) ==> r == Ok(true)
      ensures entries == if Reachable(env, key) then old(entries) - {key} else old(entries)
      ensures forall k :: k != key ==> (k in entries <==> k in old(entries))
      ensures forall k :: k != key && k in entries ==> entries[k] == old(entries)[k]
    {
      var init := InitDB();
      if init.Fail? {
        return Ok(false);
      }
      if key in env.brokenKeys {
        return Err(RequestFailed);
      }
      entries := entries - {key};
      r := Ok(true);
    }

    /** `clearCache`: empties the store. */
    method ClearCache() returns (r: Result<bool, StoreError>)
      requires Valid()
      modifies this
      ensures Valid()
      ensures !env.canOpen ==> r == Ok(false) && entries == old(entries)
      ensures env.canOpen && env.clearBroken ==> r == Err(RequestFailed) && entries == old(entries)
      ensures env.canOpen && !env.clearBroken ==> r == Ok(true) && entries == map[]
    {
      var init := InitDB();
      if init.Fail? {
        return Ok(false);
      }
      if env.clearBroken {
        return Err(RequestFailed);
      }
      entries := map[];
      r := Ok(true);
    }
  }

  /**
   * A client of the store: after a successful save, a read of the same key
   * yields the saved value, a second save overwrites it, and a delete makes
   * the key absent while other keys keep their values.
   */
  method SaveGetDeleteScenario(store: CacheService, k: string, other: string, v1: Blob, v2: Blob)
    returns (first: Result<Option<Blob>, StoreError>, second: Result<Option<Blob>, StoreError>,
             afterDelete: Result<Option<Blob>, StoreError>)
    requires store.Valid() && Reachable(store.env, k) && k != other
    modifies store
    ensures first == Ok(Some(v1)) && second == Ok(Some(v2)) && afterDelete == Ok(None)
    ensures other in store.entries <==> other in old(store.entries)
    ensures other in store.entries ==> store.entries[other] == old(store.entries)[other]
  {
    var s1 := store.SaveModel(k, v1);
    first := store.GetModel(k);
    var s2 := store.SaveModel(k, v2);
    second := store.GetModel(k);
    var d := store.DeleteModel(k);
    afterDelete := store.GetModel(k);
  }
}
