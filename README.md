# Star Wars character schema over a key-value store

This project models the core of a GraphQL server for the Star Wars
characters. Its resolvers read JSON records from Redis. The model covers both
versions of the schema module:

- `src/schema/models.rs`, the early version. Only the hero and `human` reach
  the store; the other resolvers are stubs.
- `rust/src/schema/models.rs`, the later version. Friends, by-id lookups, the
  listings and the hero all read from the store.

The modules are:

- `Outcomes`: `Option`, `Result` and `Fault`. A failing `unwrap`, a bad slice
  and an error returned with `?` all end the query the same way, so all of
  them become `Err(fault)`.
- `Glob`: the Redis `KEYS` pattern language (`*`, `?` and literal characters).
  It also holds the decimal rendering of a numeric id, which the friend
  pattern `{id}*` is built from.
- `Characters`: the stored record, the episodes, and the `Human`/`Droid`
  views with their field accessors.
- `KeyStore`: the store, seen as the order `KEYS` enumerates keys in plus a
  map from key to payload.
  - `KEYS` returns the matching keys in that order.
  - `GET` fails on a missing key.
  - `MGET` fails on an empty key list, and is taken to fail on a missing key.
  - `get_data_from_redis` lists the keys matching a pattern and GETs the
    first one.
  - Decoding turns a payload into a record; only a single-record payload
    succeeds.
- `Pagination`: `query_characters`, the Relay-style windowing shared by both
  versions.
  - It is written step by step as the method `QueryCharacters`, together with
    `CutWindow` and `ExtendEdges`.
  - It is proved equal to the function `Paginate`. `Paginate` splits into the
    index arithmetic `PageCut` and the edges `Materialize` builds from it.
  - The properties of the windowing are lemmas about `Paginate`.
- `RedisSchema`: the query root and views of the later version.
- `EarlySchema`: the query root and views of the early version, plus how its
  hero differs from the later one.

The model follows the code, including these behaviours:

- Under `first`, the right boundary moves left by the number of kept
  elements. It is not set to `start + kept`.
- A window with `start > end` panics instead of coming back empty.
- A malformed value fails the whole listing. It is not skipped. A missing value is taken to fail it too.
- A pattern that matches several keys uses the first key listed. It is not
  reported as ambiguous.
- Friend ids are not deduplicated, and there is no concurrency bound.

The listings use the windowing as written. The corrected windowing
(`PaginateIntended`) and the corrected hero (`HeroIntended`) are defined
beside it, and their intended properties are proved.

## Model

| member | source | states |
|---|---|---|
| Pagination.QueryCharacters | rust/src/schema/models.rs:291-326 | The step-by-step windowing returns exactly `Paginate`: the early returns, the panicking slice, then the adjusted window. |
| Pagination.CutWindow | rust/src/schema/models.rs:309-325 | Slicing, shrinking by `first` or `last` and building the connection gives the connection of `WindowCut`: flags from the adjusted boundaries, one edge per kept element. |
| Pagination.ExtendEdges | rust/src/schema/models.rs:320-325 | Extending the edges appends one edge per item, in order, with cursor `offset + i` over `map_to(item)`, and leaves the flags alone. |
| Pagination.CursorBounds | rust/src/schema/models.rs:292-309 | The query ends early with an empty page exactly when `after >= len` or `before = 0`. Otherwise the window is `start = after + 1` (or 0) and `end = before` (or `len`), and when it is returned it satisfies `start <= end <= len`, so the slice is defined. |
| Pagination.WindowCut | rust/src/schema/models.rs:311-317 | `first` or `last` only shrinks the window: `start <= lo <= hi <= end`. |
| Pagination.PageCut | src/schema/models.rs:254-281 | Every successful index computation selects a range inside the sequence. |
| Pagination.Enumerate | rust/src/schema/models.rs:321-324 | One edge per item. |
| Pagination.Materialize | rust/src/schema/models.rs:319-325 | The connection of a cut carries the cut's two flags and exactly one edge per element of `[lo, hi)`. |
| Pagination.Paginate | src/schema/models.rs:254-287 | The reference definition of the windowing: it fails only with the slice fault, and never has more edges than the sequence has elements. The windowing lemmas below are about it. |
| Pagination.AfterPastEndIsEmpty | src/schema/models.rs:257-260 | An `after` at or past the end gives no edges and both flags false, whatever `before`, `first` and `last` are. |
| Pagination.BeforeZeroIsEmpty | src/schema/models.rs:264-267 | `before = 0` gives no edges and both flags false, unless `after` returned first. |
| Pagination.SliceFaults | src/schema/models.rs:254-271 | The call fails exactly when no early return applies and `before` is past the end or below `after + 1`. |
| Pagination.WholeWindow | rust/src/schema/models.rs:292-325 | Without `first`/`last` and past the early returns, the call succeeds iff `[s, e)` is a valid slice (`s = after + 1` or 0, `e = before` or `len`). The page then has exactly `e - s` edges, the `i`-th being cursor `s + i` over element `s + i`, with `hasPreviousPage = s > 0` and `hasNextPage = e < len`, including when the window is empty. |
| Pagination.EdgesIndexCharacters | src/schema/models.rs:281-287 | Edges have consecutive cursors in sequence order. Each cursor is a valid index strictly between `after` and `before`, and the edge wraps the element at that index. |
| Pagination.FirstCut | rust/src/schema/models.rs:311-313 | On indices, `first` keeps the start of the `after`/`before` window and `min(first, len)` elements. The previous-page flag is unchanged; the next-page flag is the window's own, or true once anything is kept. |
| Pagination.LastCut | rust/src/schema/models.rs:314-316 | On indices, `last` keeps the end of the window and `min(last, len)` elements. The next-page flag is unchanged; the previous-page flag is also true when something was dropped. |
| Pagination.FirstKeepsPrefix | src/schema/models.rs:273-275 | With `first`, the edges are the first `min(first, n)` edges of the unbounded window, `hasPreviousPage` is unchanged, and `hasNextPage` holds iff the window had a next page or something was kept. |
| Pagination.LastKeepsSuffix | src/schema/models.rs:276-278 | With `last` and no `first`, the edges are the last `min(last, n)` edges of the window, `hasNextPage` is unchanged, and `hasPreviousPage` holds iff the window had a previous page or something was dropped. |
| Pagination.FirstOverridesLast | rust/src/schema/models.rs:311-317 | Once `first` is given, `last` changes nothing. |
| Pagination.FlagsMatchEdgesWithoutFirst | rust/src/schema/models.rs:319 | Without `first`, a non-empty page has a previous page iff its first cursor is past 0, and a next page iff an element follows its last cursor. |
| Pagination.ForwardCutsConcatenate | rust/src/schema/models.rs:295-313 | On indices, a forward page of `k2` after cursor `a + k1` starts where the page of `k1` after `a` ends, and the two together span the page of `k1 + k2`. |
| Pagination.PagesConcatenate | rust/src/schema/models.rs:291-326 | Paging forward by `k1`, then by `k2` from cursor `a + k1`, lists exactly the edges of one page of `k1 + k2`, with none skipped or repeated. |
| Pagination.FirstFlagQuirk | rust/src/schema/models.rs:313 | As written, one element with `first = 1` yields its only edge with `hasNextPage` true. |
| Pagination.PageCutIntended | rust/src/schema/models.rs:311-313 | The corrected index computation also selects a range inside the sequence. |
| Pagination.PaginateIntended | rust/src/schema/models.rs:311-325 | The corrected windowing fails only with the slice fault and never has more edges than elements. |
| Pagination.IntendedFlagsMatchEdges | rust/src/schema/models.rs:311-319 | With the boundary set to `start + kept`, the call succeeds exactly when the original does and gives the same edges. Every non-empty page has a next page iff an element follows its last cursor, and a previous page iff its first cursor is past 0. |
| Glob.LiteralMatchesItself | rust/src/schema/models.rs:55-58 | A pattern without wildcards matches exactly the key spelled the same way. |
| Glob.StarMatchesEverything | rust/src/schema/models.rs:205-208 | `*` matches every key. |
| Glob.PrefixPattern | rust/src/schema/models.rs:84 | For a literal `p`, `p*` matches exactly the keys that start with `p`. |
| Glob.SuffixPattern | rust/src/schema/models.rs:168 | For a literal `p`, `*p` matches exactly the keys that end with `p`. |
| Glob.Decimal | rust/src/schema/models.rs:84 | The rendering of an id is a non-empty, wildcard-free digit string that starts with 0 only for id 0. |
| Glob.DecimalRoundTrip | rust/src/schema/models.rs:84 | Reading the rendered digits back gives the id. |
| Glob.DecimalInjective | rust/src/schema/models.rs:84 | Distinct ids render to distinct digit strings. |
| Characters.Classify | rust/src/schema/models.rs:86-90 | The view is `Human` iff the record says `is_human`, and it wraps that record unchanged. |
| Characters.ViewsExposeRecord | rust/src/schema/models.rs:68-148 | Either view's id, name and episodes are the record's. A human's home planet and a droid's primary function are the record's. |
| KeyStore.KeysMatching | rust/src/schema/models.rs:55-58 | `KEYS` returns exactly the matching keys. Its first element is the first matching key in enumeration order. |
| KeyStore.Get | rust/src/schema/models.rs:59-62 | `GET` succeeds iff the key is present and returns its value; otherwise it fails naming that key. |
| KeyStore.GetDataFromRedis | rust/src/schema/models.rs:54-64 | Fails with "no matching key" iff no key matches. Otherwise it is the `GET` of the first matching key. |
| KeyStore.Decode | rust/src/schema/models.rs:85 | Decoding succeeds iff the payload is a single record, and gives that record. |
| KeyStore.Resolve | rust/src/schema/models.rs:84-85 | Succeeds iff the first matching key holds a single record, and gives that record. Fails when nothing matches. |
| KeyStore.GetAll | rust/src/schema/models.rs:209-212 | One value per key, in key order. Succeeds iff every key is present. |
| KeyStore.MGet | rust/src/schema/models.rs:209-212 | As `GetAll`, except that an empty key list fails. |
| KeyStore.DecodeAll | rust/src/schema/models.rs:213-219 | Succeeds iff every payload is a single record. Gives the records in order. |
| RedisSchema.FriendPattern | rust/src/schema/models.rs:84 | The friend pattern is a wildcard-free digit string followed by one `*`, so it is a prefix pattern. |
| RedisSchema.ResolveFriend | rust/src/schema/models.rs:84-90 | A friend resolves iff its `{id}*` lookup does. The view wraps that record and is `Human` iff the record says so. |
| RedisSchema.FriendFindsFirstPrefixedKey | rust/src/schema/models.rs:84 | A friend is the record under the first key, in enumeration order, that starts with the id's digits. |
| RedisSchema.ShortIdMatchesLongerKey | rust/src/schema/models.rs:84 | Friend 1 is found under key "1000" when that key is listed before "1". |
| RedisSchema.FriendsOf | rust/src/schema/models.rs:82-92 | Succeeds iff every id resolves. Then it has one view per id, in the order of the ids, each the resolution of that id. |
| RedisSchema.Friends | rust/src/schema/models.rs:124-137 | A character's friends succeed iff each of its friend ids resolves. Then there is one view per id, and the view at position `i` is the resolution of the `i`-th id. |
| RedisSchema.FriendsClassifiedAndRepeatable | rust/src/schema/models.rs:126-136 | Each friend's view follows its own discriminator, and an id listed twice yields the same view twice. |
| RedisSchema.HumanById | rust/src/schema/models.rs:185-194 | Succeeds iff the `{id}*` lookup does, and always gives `Some(Human)` of that record, whatever its discriminator. |
| RedisSchema.DroidById | rust/src/schema/models.rs:223-232 | Succeeds iff the `{id}*` lookup does, and always gives `Some(Droid)` of that record, whatever its discriminator. |
| RedisSchema.ByIdFindsFirstPrefixedKey | rust/src/schema/models.rs:191 | For a wildcard-free id, `human` and `droid` both use the first key starting with the id. They succeed together, and differ only in the view. |
| RedisSchema.Keep | rust/src/schema/models.rs:213-219 | Keeps exactly the records of the requested variant and never adds any. |
| RedisSchema.KeepDistributes | rust/src/schema/models.rs:251-257 | Filtering distributes over concatenation, so the store order is preserved. |
| RedisSchema.KeepPartitions | rust/src/schema/models.rs:213-257 | The human and the droid filters split the records between them, as a multiset and by count. |
| RedisSchema.Scan | rust/src/schema/models.rs:204-219 | Succeeds iff the store is non-empty and every listed key holds a single record. The result is exactly `Keep` of the decoded values in key order: the records of the requested variant, in store order, each once per key. |
| RedisSchema.AllMatchingKeepsKeys | rust/src/schema/models.rs:205-208 | A pattern matching every key lists all keys in order. |
| RedisSchema.AsHuman | rust/src/schema/models.rs:220 | The `map_to` of the human listing wraps the record unchanged in a `Human` view. |
| RedisSchema.AsDroid | rust/src/schema/models.rs:258 | The `map_to` of the droid listing wraps the record unchanged in a `Droid` view. |
| RedisSchema.Humans | rust/src/schema/models.rs:196-221 | Fails when the scan fails. Otherwise it is exactly the windowing `Paginate` over the scanned human records with `Human` views, so every windowing lemma applies. Every edge is a `Human` view of a record marked human. |
| RedisSchema.Droids | rust/src/schema/models.rs:234-259 | Fails when the scan fails. Otherwise it is exactly the windowing `Paginate` over the scanned droid records with `Droid` views. Every edge is a `Droid` view of a record not marked human. |
| RedisSchema.Hero | rust/src/schema/models.rs:165-182 | The result is `Human` iff there is no episode or it is Empire. Empire gives `Human` of the `*luke` pattern lookup; any other episode gives `Droid` of the `*artoo` pattern lookup; no episode gives `Human` of the record under the key literally named `*luke`. Each succeeds iff its lookup does. |
| RedisSchema.EmpireHeroIsFirstLukeKey | rust/src/schema/models.rs:167-170 | The Empire hero is the `Human` view of the record under the first key ending in "luke". |
| RedisSchema.HeroWithoutEpisodeMissesLuke | rust/src/schema/models.rs:177-181 | With Luke under "1000luke", the Empire hero is Luke but the hero without an episode fails on the missing key `*luke`. |
| RedisSchema.HeroIntended | rust/src/schema/models.rs:165-182 | The corrected hero is `Human` iff there is no episode or it is Empire. |
| RedisSchema.SagaHeroIsFirstLukeKey | rust/src/schema/models.rs:165-182 | The corrected hero without an episode is the record under the first key ending in "luke". With an episode it is what the code returns. |
| EarlySchema.Hero | src/schema/models.rs:152-171 | `Human` iff no episode or Empire. Empire gives `Human` of the `*luke` pattern lookup; other episodes give `Droid` of the record under the literal key `*artoo`; no episode gives `Human` of the record under the literal key `*luke`. Each succeeds iff its lookup does. |
| EarlySchema.HeroAcrossVersions | src/schema/models.rs:159-164 | For Empire and for no episode, the early hero equals the later one. For other episodes they agree when the key `*artoo` itself comes first. |
| EarlySchema.HumanById | src/schema/models.rs:174-186 | Succeeds iff the key literally named `*` holds a list of records, and is then always null. |
| EarlySchema.Humans | src/schema/models.rs:188-199 | Always an empty page with both flags false. |
| EarlySchema.DroidById | src/schema/models.rs:201-208 | Always null. |
| EarlySchema.Droids | src/schema/models.rs:210-221 | Always an empty page with both flags false. |
| EarlySchema.Friends | src/schema/models.rs:62-77 | No friends, for either view. |

## Left out

- Redis itself: the connection pool, `get_redis_conn`, transport errors and timeouts. The store is a value: the key enumeration order plus a map from key to payload.
- The order in which Redis enumerates keys is not modelled. It is a parameter of the store, so every property holds for any order.
- `serde_json`. A payload is a single record, a list of records or anything else; only the shape is modelled, not the JSON text.
- Glob brackets (`[...]`) and backslash escapes in `KEYS` patterns. No pattern the code builds uses them, except a by-id lookup whose id contains them, which is out of scope.
- KeyStore.MGet: a nil entry in the `MGET` reply is assumed to fail the whole batch. What it really does depends on how the Redis client library converts the reply to a list of strings, and that library is not part of this model.
- KeyStore.GetAll: same assumption as `MGet`, whose per-key reads it models.
- Panic versus returned error. Both become `Err(fault)`; the fault kind tells which lookup failed, not how.
- `future::join_all` and the async machinery. Friend resolution is a sequential map with the same order and the same all-or-nothing result.
- The `query` wrapper of async-graphql: it parses cursor strings and rejects negative `first`/`last`. Cursors and counts are natural numbers here.
- The GraphQL derive macros, the schema type and both `main.rs` files. They are wiring, not logic.
- The in-memory store commented out in `src/schema/models.rs`. It is not live code.
- The `println!` in the early hero. It is output only.

## Findings

| source | as written | input that shows it | evidently intended | confidence | as-written member | corrected member |
|---|---|---|---|---|---|---|
| rust/src/schema/models.rs:313 | Under `first` the right boundary becomes `end - kept`, so `hasNextPage` is true whenever something is kept. | One element, `first = 1`: the only edge comes back with `hasNextPage` true. | `end = start + kept`, so `hasNextPage` holds iff an element follows the page. | not executed | Pagination.FirstFlagQuirk | Pagination.IntendedFlagsMatchEdges |
| rust/src/schema/models.rs:178 | Without an episode, the hero is a plain `GET` of the key literally named `*luke`. | Luke stored under "1000luke": `hero(Empire)` finds him, `hero()` fails on the missing key. | Look Luke up by the `*luke` pattern, as the Empire case does. | not executed | RedisSchema.HeroWithoutEpisodeMissesLuke | RedisSchema.SagaHeroIsFirstLukeKey |
