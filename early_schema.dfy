/**
 * The first version of the query root (`src/schema/models.rs`): only the
 * hero and `human` reach the store, the other lookups are stubs. The
 * character views, the record type and the windowing are shared with the
 * later version.
 */
module EarlySchema {
  import opened Outcomes
  import opened Characters
  import opened KeyStore
  import opened Pagination
  import RedisSchema

  /**
   * `hero(episode)`: Empire looks up the pattern `*luke` as a human; any other
   * episode GETs the key literally named `*artoo` as a droid, and no episode
   * GETs the key literally named `*luke` as a human.
   */
  function Hero(store: Store, episode: Option<Episode>): (r: Result<Character>)
    ensures r.Ok? ==> (r.value.Human? <==> episode.None? || episode == Some(Empire))
    ensures episode == Some(Empire) ==> (r.Ok? <==> Resolve(store, "*luke").Ok?)
    ensures episode.Some? && episode != Some(Empire) ==>
      (r.Ok? <==> "*artoo" in store.values && store.values["*artoo"].Record?)
    ensures episode.None? ==> (r.Ok? <==> "*luke" in store.values && store.values["*luke"].Record?)
    ensures episode == Some(Empire) && r.Ok? ==>
      Resolve(store, "*luke").Ok? && r.value == Human(Resolve(store, "*luke").value)
    ensures episode.Some? && episode != Some(Empire) && r.Ok? ==>
      "*artoo" in store.values && store.values["*artoo"].Record? && r.value == Droid(store.values["*artoo"].rec)
    ensures episode.None? && r.Ok? ==>
      "*luke" in store.values && store.values["*luke"].Record? && r.value == Human(store.values["*luke"].rec)
  {
    match episode
    case Some(name) =>
      if name == Empire then
        var luke :- Resolve(store, "*luke");
        Ok(Human(luke))
      else
        var reply :- Get(store, "*artoo");
        var artoo :- Decode(reply);
        Ok(Droid(artoo))
    case None =>
      var reply :- Get(store, "*luke");
      var luke :- Decode(reply);
      Ok(Human(luke))
  }

  /**
   * The later version keeps the Empire and no-episode lookups and turns the
   * other episodes' literal GET into a pattern lookup; the two agree on the
   * other episodes whenever "*artoo" is the first key matching its own pattern.
   */
  lemma HeroAcrossVersions(store: Store, episode: Option<Episode>)
    ensures episode.None? || episode == Some(Empire) ==> Hero(store, episode) == RedisSchema.Hero(store, episode)
    ensures episode.Some? && episode != Some(Empire) && FirstMatchAt(store.keys, "*artoo", 0) && store.keys[0] == "*artoo" ==>
      Hero(store, episode) == RedisSchema.Hero(store, episode)
  {
    if episode.Some? && episode != Some(Empire) && FirstMatchAt(store.keys, "*artoo", 0) && store.keys[0] == "*artoo" {
      assert GetDataFromRedis(store, "*artoo") == Get(store, "*artoo");
    }
  }

  /**
   * `human(id)`: GET the key literally named `*`, which must hold a list of
   * records; the answer is then always null, whatever the id.
   */
  function HumanById(store: Store, id: string): (r: Result<Option<Character>>)
    ensures r.Ok? <==> "*" in store.values && store.values["*"].RecordList?
    ensures r.Ok? ==> r.value.None?
  {
    var reply :- Get(store, "*");
    if reply.RecordList? then Ok(None) else Err(Undecodable)
  }

  /** `humans(...)`: an empty page with both flags false, whatever the cursors. */
  function Humans(store: Store, after: Option<nat>, before: Option<nat>, first: Option<nat>, last: Option<nat>)
    : (r: Result<Connection<Character>>)
    ensures r.Ok? && r.value.edges == [] && !r.value.hasPreviousPage && !r.value.hasNextPage
  {
    Ok(Connection(false, false, []))
  }

  /** `droid(id)`: always null. */
  function DroidById(store: Store, id: string): (r: Option<Character>)
    ensures r.None?
  {
    None
  }

  /** `droids(...)`: an empty page with both flags false, whatever the cursors. */
  function Droids(store: Store, after: Option<nat>, before: Option<nat>, first: Option<nat>, last: Option<nat>)
    : (r: Result<Connection<Character>>)
    ensures r.Ok? && r.value.edges == [] && !r.value.hasPreviousPage && !r.value.hasNextPage
  {
    Ok(Connection(false, false, []))
  }

  /** `Human::friends` and `Droid::friends`: no friends, for either view. */
  function Friends(c: Character): (r: seq<Character>)
    ensures |r| == 0
  {
    []
  }
}
