/**
 * The character records of the Star Wars schema and their two views.
 *
 * A stored record carries an `is_human` discriminator; clients never see the
 * record itself but a `Human` or a `Droid` view wrapping it. Both views expose
 * id, name and episodes; only a human has a home planet and only a droid a
 * primary function.
 */
module Characters {
  import opened Outcomes

  /** One of the films in the Star Wars trilogy. */
  datatype Episode = NewHope | Empire | Jedi

  /** A decoded stored record; `friends` holds numeric ids, in the order they are reported. */
  datatype StarWarsChar = StarWarsChar(
    id: string,
    name: string,
    isHuman: bool,
    friends: seq<nat>,
    appearsIn: seq<Episode>,
    homePlanet: Option<string>,
    primaryFunction: Option<string>)

  /** The `Character` interface: a record projected into one of its two views. */
  datatype Character = Human(record: StarWarsChar) | Droid(record: StarWarsChar) {
    function Id(): string { record.id }
    function Name(): string { record.name }
    function AppearsIn(): seq<Episode> { record.appearsIn }
    function HomePlanet(): Option<string> requires Human? { record.homePlanet }
    function PrimaryFunction(): Option<string> requires Droid? { record.primaryFunction }
  }

  /** The projection a resolved friend goes through: the discriminator picks the view. */
  function Classify(rec: StarWarsChar): (c: Character)
    ensures c.Human? <==> rec.isHuman
    ensures c.record == rec
  {
    if rec.isHuman then Human(rec) else Droid(rec)
  }

  /**
   * Whatever view wraps a record, the shared fields read back the record's own
   * values, and a view's variant-specific field is the record's.
   */
  lemma ViewsExposeRecord(rec: StarWarsChar, c: Character)
    requires c == Human(rec) || c == Droid(rec)
    ensures c.Id() == rec.id && c.Name() == rec.name && c.AppearsIn() == rec.appearsIn
    ensures c.Human? ==> c.HomePlanet() == rec.homePlanet
    ensures c.Droid? ==> c.PrimaryFunction() == rec.primaryFunction
  {
  }
}
