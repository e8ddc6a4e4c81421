/**
 * The key-value store as the resolvers use it: `KEYS pattern`, `GET key`,
 * `MGET key...`, and the "discover, then fetch" helper built from the first two.
 *
 * `keys` is the order in which the store enumerates its keys (the store
 * promises no particular order; the model fixes one per store state), and
 * `values` holds the payload under each key. A key that is enumerated but has
 * no value stands for one deleted between the two calls. Payloads are already
 * decoded JSON: a record, a list of records, or anything else.
 */
module KeyStore {
  import opened Outcomes
  import opened Glob
  import opened Characters

  datatype Payload = Record(rec: StarWarsChar) | RecordList(recs: seq<StarWarsChar>) | Garbage

  datatype Store = Store(keys: seq<string>, values: map<string, Payload>)

  /** Position `i` holds the first key, in enumeration order, that matches `pattern`. */
  ghost predicate FirstMatchAt(keys: seq<string>, pattern: string, i: int) {
    0 <= i < |keys| && Matches(pattern, keys[i]) &&
    forall j :: 0 <= j < i ==> !Matches(pattern, keys[j])
  }

  /** `KEYS pattern`: the matching keys, in enumeration order. */
  function KeysMatching(keys: seq<string>, pattern: string): (r: seq<string>)
    ensures forall k :: k in r <==> k in keys && Matches(pattern, k)
    ensures forall i :: FirstMatchAt(keys, pattern, i) ==> r != [] && r[0] == keys[i]
  {
    if keys == [] then []
    else
      var rest := KeysMatching(keys[1..], pattern);
      assert forall i :: FirstMatchAt(keys, pattern, i) && i > 0 ==> FirstMatchAt(keys[1..], pattern, i - 1);
      if Matches(pattern, keys[0]) then [keys[0]] + rest else rest
  }

  /** `GET key`: a nil reply cannot be read as a string. */
  function Get(store: Store, key: string): (r: Result<Payload>)
    ensures r.Ok? <==> key in store.values
    ensures r.Ok? ==> r.value == store.values[key]
    ensures r.Err? ==> r == Err(MissingValue(key))
  {
    if key in store.values then Ok(store.values[key]) else Err(MissingValue(key))
  }

  /**
   * `get_data_from_redis`: list the keys matching `pattern` and GET the first
   * one. With no match the GET is sent without a key and the store refuses it.
   */
  function GetDataFromRedis(store: Store, pattern: string): (r: Result<Payload>)
    ensures r == Err(NoMatchingKey(pattern)) <==> forall k :: k in store.keys ==> !Matches(pattern, k)
    ensures forall i :: FirstMatchAt(store.keys, pattern, i) ==> r == Get(store, store.keys[i])
  {
    var found := KeysMatching(store.keys, pattern);
    if found == [] then Err(NoMatchingKey(pattern))
    else
      assert found[0] in found;
      Get(store, found[0])
  }

  /** `serde_json::from_str::<StarWarsChar>`. */
  function Decode(p: Payload): (r: Result<StarWarsChar>)
    ensures r.Ok? <==> p.Record?
    ensures r.Ok? ==> p == Record(r.value)
  {
    if p.Record? then Ok(p.rec) else Err(Undecodable)
  }

  /** Find a record by pattern and decode it: the path every by-id lookup takes. */
  function Resolve(store: Store, pattern: string): (r: Result<StarWarsChar>)
    ensures forall i :: FirstMatchAt(store.keys, pattern, i) ==>
      (r.Ok? <==> store.keys[i] in store.values && store.values[store.keys[i]].Record?)
    ensures forall i :: FirstMatchAt(store.keys, pattern, i) && r.Ok? ==>
      store.values[store.keys[i]] == Record(r.value)
    ensures (forall k :: k in store.keys ==> !Matches(pattern, k)) ==> r == Err(NoMatchingKey(pattern))
  {
    var payload :- GetDataFromRedis(store, pattern);
    Decode(payload)
  }

  /** Read one value per key, in key order; any nil reply fails the whole batch. */
  function GetAll(store: Store, keys: seq<string>): (r: Result<seq<Payload>>)
    ensures r.Ok? <==> forall k :: k in keys ==> k in store.values
    ensures r.Ok? ==> |r.value| == |keys| && forall i :: 0 <= i < |keys| ==> r.value[i] == store.values[keys[i]]
  {
    if keys == [] then Ok([])
    else
      var head :- Get(store, keys[0]);
      var tail :- GetAll(store, keys[1..]);
      Ok([head] + tail)
  }

  /** `MGET keys`: the store refuses an MGET without keys. */
  function MGet(store: Store, keys: seq<string>): (r: Result<seq<Payload>>)
    ensures keys == [] ==> r == Err(EmptyBatch)
    ensures keys != [] ==> r == GetAll(store, keys)
  {
    if keys == [] then Err(EmptyBatch) else GetAll(store, keys)
  }

  /** Decode every payload of a batch; the first one that does not decode fails it. */
  function DecodeAll(payloads: seq<Payload>): (r: Result<seq<StarWarsChar>>)
    ensures r.Ok? <==> forall i :: 0 <= i < |payloads| ==> payloads[i].Record?
    ensures r.Ok? ==> |r.value| == |payloads| && forall i :: 0 <= i < |payloads| ==> payloads[i] == Record(r.value[i])
  {
    if payloads == [] then Ok([])
    else
      var head :- Decode(payloads[0]);
      var tail :- DecodeAll(payloads[1..]);
      assert forall i :: 0 < i < |payloads| ==> payloads[i] == payloads[1..][i - 1];
      Ok([head] + tail)
  }
}
