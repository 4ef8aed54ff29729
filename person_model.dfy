/** The `people` table of app/models/person.py. */
module PersonModel {
  import opened Wrappers
  import Ids

  const PersonIdPrefix: char := 'p'
  const DefaultAvatarColor: string := "bg-indigo-200"
  const DefaultMetCount: nat := 0

  /**
   * One row of `people`. `name`, `role`, `avatar_color` and `context` are NOT NULL
   * columns; the two ARRAY columns and `last_met` are nullable. `met_count` is never
   * written as null: it has a default and no update payload carries it. It is an
   * `Integer` column, so PostgreSQL stores it in 4 bytes (see `FitsInteger`).
   */
  datatype Person = Person(
    id: string,
    name: string,
    role: string,
    avatarColor: string,
    context: string,
    interests: Option<seq<string>>,
    openFollowUps: Option<seq<string>>,
    lastMet: Option<string>,
    metCount: nat)

  /** The largest value an `Integer` column (PostgreSQL `integer`, 4 bytes) can hold. */
  const IntegerMax: int := 0x7fff_ffff

  /** `n` can be stored in an `Integer` column; writing any other value fails with "integer out of range". */
  predicate FitsInteger(n: int) {
    -IntegerMax - 1 <= n <= IntegerMax
  }

  /** The key the `id` column default generates. */
  function NewPersonId(uuidHex: string): (id: string)
    requires Ids.IsUuidHex(uuidHex)
    ensures Ids.IsGeneratedId(id, PersonIdPrefix)
  {
    Ids.NewId(PersonIdPrefix, uuidHex)
  }

  /**
   * `Person(name=..., role=..., ...)` followed by the insert: a keyword given as `None`
   * here is one left out of the call, so its column default applies; the columns the
   * constructor is never given (`last_met`, `met_count`) take their defaults too.
   */
  function NewPerson(
    id: string, name: string, role: string, avatarColor: Option<string>, context: string,
    interests: Option<seq<string>>, openFollowUps: Option<seq<string>>): (p: Person)
    ensures p.id == id && p.name == name && p.role == role && p.context == context
    ensures p.avatarColor == (if avatarColor.Some? then avatarColor.value else DefaultAvatarColor)
    ensures p.interests == Some(if interests.Some? then interests.value else [])
    ensures p.openFollowUps == Some(if openFollowUps.Some? then openFollowUps.value else [])
    ensures p.lastMet == None && p.metCount == 0
  {
    Person(id, name, role, avatarColor.GetOr(DefaultAvatarColor), context,
           Some(interests.GetOr([])), Some(openFollowUps.GetOr([])), None, DefaultMetCount)
  }
}
