/** The request and response shapes of app/schemas/person.py. */
module PersonSchemas {
  import opened Wrappers
  import opened PersonModel

  /**
   * `PersonCreate` (with the `PersonBase` fields). `avatar_color` and `context` are
   * required; the two lists default to empty; the face fields are optional.
   */
  datatype PersonCreate = PersonCreate(
    name: string,
    role: string,
    avatarColor: string,
    context: string,
    interests: seq<string>,
    openFollowUps: seq<string>,
    faceEmbedding: Option<seq<string>>,
    faceThumbnailBase64: Option<string>,
    physicalDescription: Option<string>)

  /** A `PersonCreate` body that sends only the required fields. */
  function PersonCreateWithDefaults(name: string, role: string, avatarColor: string, context: string): (c: PersonCreate)
    ensures c.interests == [] && c.openFollowUps == []
    ensures c.faceEmbedding.None? && c.faceThumbnailBase64.None? && c.physicalDescription.None?
  {
    PersonCreate(name, role, avatarColor, context, [], [], None, None, None)
  }

  /**
   * `PersonUpdate`: every field is optional and may be sent as null. There is no field
   * for `id`, `met_count` or `last_met`.
   */
  datatype PersonUpdate = PersonUpdate(
    name: Patch<Option<string>>,
    role: Patch<Option<string>>,
    avatarColor: Patch<Option<string>>,
    context: Patch<Option<string>>,
    interests: Patch<Option<seq<string>>>,
    openFollowUps: Patch<Option<seq<string>>>,
    faceEmbedding: Patch<Option<seq<string>>>,
    faceThumbnailBase64: Patch<Option<string>>,
    physicalDescription: Patch<Option<string>>)
  {
    /**
     * `model_dump(exclude_unset=True)`: one `(field, value)` entry per field the caller
     * sent, in declaration order, explicit nulls included.
     */
    function ModelDump(): (d: seq<PersonAssignment>)
      ensures d == [] <==> this == NoPersonChanges
    {
      RequiredEntries() + OtherEntries()
    }

    /** The entries of the NOT NULL columns `name`, `role`, `avatar_color` and `context`. */
    function RequiredEntries(): seq<PersonAssignment> {
      (if name.Supplied? then [SetName(name.value)] else [])
      + (if role.Supplied? then [SetRole(role.value)] else [])
      + (if avatarColor.Supplied? then [SetAvatarColor(avatarColor.value)] else [])
      + (if context.Supplied? then [SetContext(context.value)] else [])
    }

    /** The entries of the remaining fields, in declaration order. */
    function OtherEntries(): seq<PersonAssignment> {
      (if interests.Supplied? then [SetInterests(interests.value)] else [])
      + (if openFollowUps.Supplied? then [SetOpenFollowUps(openFollowUps.value)] else [])
      + (if faceEmbedding.Supplied? then [SetFaceEmbedding(faceEmbedding.value)] else [])
      + (if faceThumbnailBase64.Supplied? then [SetFaceThumbnailBase64(faceThumbnailBase64.value)] else [])
      + (if physicalDescription.Supplied? then [SetPhysicalDescription(physicalDescription.value)] else [])
    }
  }

  /** An update body that sends no field at all. */
  const NoPersonChanges: PersonUpdate :=
    PersonUpdate(Unset, Unset, Unset, Unset, Unset, Unset, Unset, Unset, Unset)

  /** One `(field, value)` entry of a dumped `PersonUpdate`. */
  datatype PersonAssignment =
    | SetName(name: Option<string>)
    | SetRole(role: Option<string>)
    | SetAvatarColor(avatarColor: Option<string>)
    | SetContext(context: Option<string>)
    | SetInterests(interests: Option<seq<string>>)
    | SetOpenFollowUps(openFollowUps: Option<seq<string>>)
    | SetFaceEmbedding(faceEmbedding: Option<seq<string>>)
    | SetFaceThumbnailBase64(faceThumbnailBase64: Option<string>)
    | SetPhysicalDescription(physicalDescription: Option<string>)

  /**
   * `PersonResponse` read from a stored row: the model has no face columns, so
   * `physical_description` is absent and `has_face_data` keeps its default, false.
   */
  datatype PersonResponse = PersonResponse(
    id: string,
    name: string,
    role: string,
    avatarColor: string,
    context: string,
    interests: Option<seq<string>>,
    openFollowUps: Option<seq<string>>,
    lastMet: Option<string>,
    metCount: nat,
    physicalDescription: Option<string>,
    hasFaceData: bool)

  function ToPersonResponse(p: Person): (r: PersonResponse)
    ensures r.id == p.id && r.name == p.name && r.role == p.role && r.avatarColor == p.avatarColor
    ensures r.context == p.context && r.interests == p.interests && r.openFollowUps == p.openFollowUps
    ensures r.lastMet == p.lastMet && r.metCount == p.metCount
    ensures r.physicalDescription.None? && !r.hasFaceData
  {
    PersonResponse(p.id, p.name, p.role, p.avatarColor, p.context, p.interests, p.openFollowUps,
                   p.lastMet, p.metCount, None, false)
  }

  /** `PersonListResponse`: the summary shown in listings, without the lists. */
  datatype PersonListResponse = PersonListResponse(
    id: string,
    name: string,
    role: string,
    avatarColor: string,
    lastMet: Option<string>,
    metCount: nat,
    context: string,
    hasFaceData: bool)

  function ToPersonListResponse(p: Person): (r: PersonListResponse)
    ensures r.id == p.id && r.name == p.name && r.role == p.role && r.avatarColor == p.avatarColor
    ensures r.lastMet == p.lastMet && r.metCount == p.metCount && r.context == p.context
    ensures !r.hasFaceData
  {
    PersonListResponse(p.id, p.name, p.role, p.avatarColor, p.lastMet, p.metCount, p.context, false)
  }

  /** A full response determines the stored row it was read from. */
  lemma ResponseDeterminesRow(p: Person, q: Person)
    requires ToPersonResponse(p) == ToPersonResponse(q)
    ensures p == q
  {
  }
}
