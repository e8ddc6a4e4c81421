/**
 * The query root and the character views backed by the key-value store:
 * friends resolved one pattern lookup per id, by-id lookups, the human and
 * droid listings (scan everything, keep one variant, paginate) and the hero.
 */
module RedisSchema {
  import opened Outcomes
  import opened Glob
  import opened Characters
  import opened KeyStore
  import opened Pagination

  /*
   * Friends.
   */

  /** The pattern `format!("{}*", id)` a friend id is looked up by. */
  function FriendPattern(id: nat): (p: string)
    ensures |p| >= 2 && p[|p| - 1] == '*'
    ensures Literal(p[..|p| - 1]) && AllDigits(p[..|p| - 1])
  {
    var digits := Decimal(id);
    assert (digits + "*")[..|digits|] == digits;
    digits + "*"
  }

  /** Look a friend up by its pattern, decode it and project it by its discriminator. */
  function ResolveFriend(store: Store, id: nat): (r: Result<Character>)
    ensures r.Ok? <==> Resolve(store, FriendPattern(id)).Ok?
    ensures r.Ok? ==> r.value.record == Resolve(store, FriendPattern(id)).value
    ensures r.Ok? ==> (r.value.Human? <==> r.value.record.isHuman)
  {
    var friend :- Resolve(store, FriendPattern(id));
    Ok(Classify(friend))
  }

  /**
   * A friend id finds the first key, in the store's enumeration order, that
   * starts with the id's decimal digits; a shorter id can therefore pick up a
   * longer id's record.
   */
  lemma {:induction false} FriendFindsFirstPrefixedKey(store: Store, id: nat, i: nat)
    requires i < |store.keys| && Decimal(id) <= store.keys[i]
    requires forall j :: 0 <= j < i ==> !(Decimal(id) <= store.keys[j])
    ensures ResolveFriend(store, id).Ok? <==> store.keys[i] in store.values && store.values[store.keys[i]].Record?
    ensures ResolveFriend(store, id).Ok? ==> store.values[store.keys[i]] == Record(ResolveFriend(store, id).value.record)
  {
    forall j | 0 <= j <= i
      ensures Matches(FriendPattern(id), store.keys[j]) <==> Decimal(id) <= store.keys[j]
    {
      PrefixPattern(Decimal(id), store.keys[j]);
    }
    assert FirstMatchAt(store.keys, FriendPattern(id), i);
  }

  /** Friend 1 is found under the key "1000" when that key is enumerated first. */
  lemma ShortIdMatchesLongerKey(luke: StarWarsChar, other: StarWarsChar)
    ensures var store := Store(["1000", "1"], map["1000" := Record(luke), "1" := Record(other)]);
      ResolveFriend(store, 1) == Ok(Classify(luke))
  {
    var store := Store(["1000", "1"], map["1000" := Record(luke), "1" := Record(other)]);
    assert Decimal(1) == "1";
    assert "1" <= "1000";
    FriendFindsFirstPrefixedKey(store, 1, 0);
  }

  /**
   * `join_all` over one lookup per friend id: one view per id, in the order of
   * the ids; any lookup that fails (each one unwraps) fails the whole list.
   */
  function FriendsOf(store: Store, ids: seq<nat>): (r: Result<seq<Character>>)
    ensures r.Ok? <==> forall i :: 0 <= i < |ids| ==> ResolveFriend(store, ids[i]).Ok?
    ensures r.Ok? ==> (|r.value| == |ids| &&
      forall i :: 0 <= i < |ids| ==> ResolveFriend(store, ids[i]) == Ok(r.value[i]))
  {
    if ids == [] then Ok([])
    else
      var head :- ResolveFriend(store, ids[0]);
      var tail :- FriendsOf(store, ids[1..]);
      assert forall i :: 0 < i < |ids| ==> ids[i] == ids[1..][i - 1];
      Ok([head] + tail)
  }

  /** `Human::friends` and `Droid::friends`: the same resolution for either view. */
  function Friends(store: Store, c: Character): (r: Result<seq<Character>>)
    ensures r.Ok? <==> forall i :: 0 <= i < |c.record.friends| ==> ResolveFriend(store, c.record.friends[i]).Ok?
    ensures r.Ok? ==> |r.value| == |c.record.friends|
    ensures r.Ok? ==> forall i :: 0 <= i < |c.record.friends| ==> r.value[i] == ResolveFriend(store, c.record.friends[i]).value
  {
    FriendsOf(store, c.record.friends)
  }

  /**
   * Each friend comes back in the view its own discriminator selects, and a
   * friend id listed twice yields the same view at both positions.
   */
  lemma FriendsClassifiedAndRepeatable(store: Store, c: Character, i: nat, j: nat)
    requires Friends(store, c).Ok?
    requires i < |c.record.friends| && j < |c.record.friends|
    ensures var fs := Friends(store, c).value;
      && (fs[i].Human? <==> fs[i].record.isHuman)
      && (c.record.friends[i] == c.record.friends[j] ==> fs[i] == fs[j])
  {
    var fs := Friends(store, c).value;
    assert ResolveFriend(store, c.record.friends[i]) == Ok(fs[i]);
    assert ResolveFriend(store, c.record.friends[j]) == Ok(fs[j]);
  }

  /*
   * Lookups by id.
   */

  /** `human(id)`: look up `{id}*` and wrap the record as a human, whatever its discriminator says. */
  function HumanById(store: Store, id: string): (r: Result<Option<Character>>)
    ensures r.Ok? <==> Resolve(store, id + "*").Ok?
    ensures r.Ok? ==> r.value.Some? && r.value.value.Human? && r.value.value.record == Resolve(store, id + "*").value
  {
    var data :- Resolve(store, id + "*");
    Ok(Some(Human(data)))
  }

  /** `droid(id)`: look up `{id}*` and wrap the record as a droid, whatever its discriminator says. */
  function DroidById(store: Store, id: string): (r: Result<Option<Character>>)
    ensures r.Ok? <==> Resolve(store, id + "*").Ok?
    ensures r.Ok? ==> r.value.Some? && r.value.value.Droid? && r.value.value.record == Resolve(store, id + "*").value
  {
    var data :- Resolve(store, id + "*");
    Ok(Some(Droid(data)))
  }

  /**
   * `human(id)` and `droid(id)` find the same record and differ only in the
   * view; for an id free of pattern characters that record sits under the
   * first key starting with the id.
   */
  lemma {:induction false} ByIdFindsFirstPrefixedKey(store: Store, id: string, i: nat)
    requires Literal(id)
    requires i < |store.keys| && id <= store.keys[i]
    requires forall j :: 0 <= j < i ==> !(id <= store.keys[j])
    ensures HumanById(store, id).Ok? <==> DroidById(store, id).Ok?
    ensures HumanById(store, id).Ok? <==> store.keys[i] in store.values && store.values[store.keys[i]].Record?
    ensures HumanById(store, id).Ok? ==>
      && HumanById(store, id).value.value == Human(store.values[store.keys[i]].rec)
      && DroidById(store, id).value.value == Droid(store.values[store.keys[i]].rec)
  {
    forall j | 0 <= j <= i
      ensures Matches(id + "*", store.keys[j]) <==> id <= store.keys[j]
    {
      PrefixPattern(id, store.keys[j]);
    }
    assert FirstMatchAt(store.keys, id + "*", i);
  }

  /*
   * Listings.
   */

  /** The records whose discriminator equals `wantHuman`, in their original order. */
  function Keep(records: seq<StarWarsChar>, wantHuman: bool): (kept: seq<StarWarsChar>)
    ensures |kept| <= |records|
    ensures forall r :: r in kept <==> r in records && r.isHuman == wantHuman
  {
    if records == [] then []
    else if records[0].isHuman == wantHuman then [records[0]] + Keep(records[1..], wantHuman)
    else Keep(records[1..], wantHuman)
  }

  /** Filtering distributes over concatenation, so relative order is kept. */
  lemma {:induction false} KeepDistributes(xs: seq<StarWarsChar>, ys: seq<StarWarsChar>, wantHuman: bool)
    ensures Keep(xs + ys, wantHuman) == Keep(xs, wantHuman) + Keep(ys, wantHuman)
  {
    if xs != [] {
      assert (xs + ys)[1..] == xs[1..] + ys;
      KeepDistributes(xs[1..], ys, wantHuman);
    } else {
      assert xs + ys == ys;
    }
  }

  /** The human and the droid listings split the decoded records between them. */
  lemma {:induction false} KeepPartitions(records: seq<StarWarsChar>)
    ensures multiset(Keep(records, true)) + multiset(Keep(records, false)) == multiset(records)
    ensures |Keep(records, true)| + |Keep(records, false)| == |records|
  {
    if records != [] {
      KeepPartitions(records[1..]);
      assert records == [records[0]] + records[1..];
    }
  }

  /**
   * `KEYS *`, one `MGET` over every key, decode every value, keep one variant.
   * An empty store fails (MGET without keys), as does a key without a value or
   * a value that does not decode.
   */
  function Scan(store: Store, wantHuman: bool): (r: Result<seq<StarWarsChar>>)
    ensures r.Ok? <==> (store.keys != [] &&
      forall i :: 0 <= i < |store.keys| ==> store.keys[i] in store.values && store.values[store.keys[i]].Record?)
    ensures r.Ok? ==> forall c :: c in r.value <==>
      c.isHuman == wantHuman && exists i :: 0 <= i < |store.keys| && store.values[store.keys[i]] == Record(c)
    ensures r.Ok? ==> (MGet(store, store.keys).Ok? && DecodeAll(MGet(store, store.keys).value).Ok? &&
      r.value == Keep(DecodeAll(MGet(store, store.keys).value).value, wantHuman))
  {
    var keys := KeysMatching(store.keys, "*");
    assert keys == store.keys by {
      forall k | k in store.keys ensures Matches("*", k) { StarMatchesEverything(k); }
      AllMatchingKeepsKeys(store.keys, "*");
    }
    var payloads :- MGet(store, keys);
    var records :- DecodeAll(payloads);
    Ok(Keep(records, wantHuman))
  }

  lemma {:induction false} AllMatchingKeepsKeys(keys: seq<string>, pattern: string)
    requires forall k :: k in keys ==> Matches(pattern, k)
    ensures KeysMatching(keys, pattern) == keys
  {
    if keys != [] {
      AllMatchingKeepsKeys(keys[1..], pattern);
    }
  }

  /** The `Human` constructor as the `map_to` of the human listing. */
  function AsHuman(c: StarWarsChar): (v: Character)
    ensures v.Human? && v.record == c
  {
    Human(c)
  }

  /** The `Droid` constructor as the `map_to` of the droid listing. */
  function AsDroid(c: StarWarsChar): (v: Character)
    ensures v.Droid? && v.record == c
  {
    Droid(c)
  }

  /** `humans(after, before, first, last)`: every human record, paginated as human views. */
  function Humans(store: Store, after: Option<nat>, before: Option<nat>, first: Option<nat>, last: Option<nat>)
    : (r: Result<Connection<Character>>)
    ensures Scan(store, true).Err? ==> r.Err?
    ensures Scan(store, true).Ok? ==> r == Paginate(Scan(store, true).value, after, before, first, last, AsHuman)
    ensures r.Ok? ==> forall i :: 0 <= i < |r.value.edges| ==>
      r.value.edges[i].node.Human? && r.value.edges[i].node.record.isHuman
  {
    var humans :- Scan(store, true);
    EdgesIndexCharacters(humans, after, before, first, last, AsHuman);
    Paginate(humans, after, before, first, last, AsHuman)
  }

  /** `droids(after, before, first, last)`: every droid record, paginated as droid views. */
  function Droids(store: Store, after: Option<nat>, before: Option<nat>, first: Option<nat>, last: Option<nat>)
    : (r: Result<Connection<Character>>)
    ensures Scan(store, false).Err? ==> r.Err?
    ensures Scan(store, false).Ok? ==> r == Paginate(Scan(store, false).value, after, before, first, last, AsDroid)
    ensures r.Ok? ==> forall i :: 0 <= i < |r.value.edges| ==>
      r.value.edges[i].node.Droid? && !r.value.edges[i].node.record.isHuman
  {
    var droids :- Scan(store, false);
    EdgesIndexCharacters(droids, after, before, first, last, AsDroid);
    Paginate(droids, after, before, first, last, AsDroid)
  }

  /*
   * The hero.
   */

  /**
   * `hero(episode)`: Empire looks up `*luke` as a human, any other episode
   * `*artoo` as a droid; no episode GETs the key literally named `*luke`.
   */
  function Hero(store: Store, episode: Option<Episode>): (r: Result<Character>)
    ensures r.Ok? ==> (r.value.Human? <==> episode.None? || episode == Some(Empire))
    ensures episode.Some? ==> (r.Ok? <==> Resolve(store, if episode.value == Empire then "*luke" else "*artoo").Ok?)
    ensures episode.None? ==> (r.Ok? <==> "*luke" in store.values && store.values["*luke"].Record?)
    ensures episode == Some(Empire) && r.Ok? ==>
      Resolve(store, "*luke").Ok? && r.value == Human(Resolve(store, "*luke").value)
    ensures episode.Some? && episode != Some(Empire) && r.Ok? ==>
      Resolve(store, "*artoo").Ok? && r.value == Droid(Resolve(store, "*artoo").value)
    ensures episode.None? && r.Ok? ==>
      "*luke" in store.values && store.values["*luke"].Record? && r.value == Human(store.values["*luke"].rec)
  {
    match episode
    case Some(name) =>
      if name == Empire then
        var luke :- Resolve(store, "*luke");
        Ok(Human(luke))
      else
        var artoo :- Resolve(store, "*artoo");
        Ok(Droid(artoo))
    case None =>
      var reply :- Get(store, "*luke");
      var luke :- Decode(reply);
      Ok(Human(luke))
  }

  /**
   * The Empire hero is the record under the first key, in enumeration order,
   * that ends in "luke".
   */
  lemma {:induction false} EmpireHeroIsFirstLukeKey(store: Store, i: nat)
    requires i < |store.keys| && IsSuffix("luke", store.keys[i])
    requires forall j :: 0 <= j < i ==> !IsSuffix("luke", store.keys[j])
    ensures Hero(store, Some(Empire)).Ok? <==> store.keys[i] in store.values && store.values[store.keys[i]].Record?
    ensures Hero(store, Some(Empire)).Ok? ==> Hero(store, Some(Empire)).value == Human(store.values[store.keys[i]].rec)
  {
    assert Literal("luke");
    assert "*luke" == "*" + "luke";
    forall j | 0 <= j <= i
      ensures Matches("*luke", store.keys[j]) <==> IsSuffix("luke", store.keys[j])
    {
      SuffixPattern("luke", store.keys[j]);
    }
    assert FirstMatchAt(store.keys, "*luke", i);
  }

  /**
   * With Luke stored under "1000luke", the Empire hero is found but the
   * saga hero is not: the key "*luke" does not exist.
   */
  lemma HeroWithoutEpisodeMissesLuke(luke: StarWarsChar)
    ensures var store := Store(["1000luke"], map["1000luke" := Record(luke)]);
      Hero(store, Some(Empire)) == Ok(Human(luke)) && Hero(store, None) == Err(MissingValue("*luke"))
  {
    var store := Store(["1000luke"], map["1000luke" := Record(luke)]);
    assert "1000luke"[|"1000luke"| - 4..] == "luke";
    EmpireHeroIsFirstLukeKey(store, 0);
  }

  /** `hero` with no episode looking Luke up by pattern, as the Empire case does. */
  function HeroIntended(store: Store, episode: Option<Episode>): (r: Result<Character>)
    ensures r.Ok? ==> (r.value.Human? <==> episode.None? || episode == Some(Empire))
  {
    match episode
    case Some(name) => Hero(store, episode)
    case None => Hero(store, Some(Empire))
  }

  /**
   * The corrected hero: without an episode it is the record under the first
   * key ending in "luke", viewed as a human, and with an episode it is what
   * the code returns.
   */
  lemma {:induction false} SagaHeroIsFirstLukeKey(store: Store, episode: Option<Episode>, i: nat)
    requires i < |store.keys| && IsSuffix("luke", store.keys[i])
    requires forall j :: 0 <= j < i ==> !IsSuffix("luke", store.keys[j])
    ensures episode.Some? ==> HeroIntended(store, episode) == Hero(store, episode)
    ensures HeroIntended(store, None).Ok? <==> store.keys[i] in store.values && store.values[store.keys[i]].Record?
    ensures HeroIntended(store, None).Ok? ==> HeroIntended(store, None).value == Human(store.values[store.keys[i]].rec)
  {
    EmpireHeroIsFirstLukeKey(store, i);
  }
}
