/**
 * The handlers of app/routers/people.py. Each handler is a method over the session it is
 * handed; its single `commit` is one state transition, and a commit the database would
 * reject leaves the session as it was.
 */
module PeopleRouter {
  import opened Wrappers
  import opened PersonModel
  import opened PersonSchemas
  import opened ConversationModel
  import opened Database
  import Ids

  /**
   * The person instance while the `setattr` loop runs: its columns, whether a NOT NULL
   * column has been given null (which the commit will reject), and the plain Python
   * attribute `physical_description`, which is not a column and is never stored.
   */
  datatype PendingPerson = PendingPerson(row: Person, nulledColumn: bool, physicalDescription: Option<string>)

  /**
   * One `setattr(db_person, field, value)`. The face fields name no column: setting them
   * changes nothing that is stored, and `physical_description` lives only on the instance.
   */
  function SetAttr(p: PendingPerson, a: PersonAssignment): (q: PendingPerson)
    ensures q.row.id == p.row.id && q.row.metCount == p.row.metCount && q.row.lastMet == p.row.lastMet
    ensures q.nulledColumn <==> p.nulledColumn || AssignsNull(a)
    ensures a.SetFaceEmbedding? || a.SetFaceThumbnailBase64? ==> q == p
    ensures !a.SetPhysicalDescription? ==> q.physicalDescription == p.physicalDescription
  {
    match a
    case SetName(v) => if v.Some? then p.(row := p.row.(name := v.value)) else p.(nulledColumn := true)
    case SetRole(v) => if v.Some? then p.(row := p.row.(role := v.value)) else p.(nulledColumn := true)
    case SetAvatarColor(v) => if v.Some? then p.(row := p.row.(avatarColor := v.value)) else p.(nulledColumn := true)
    case SetContext(v) => if v.Some? then p.(row := p.row.(context := v.value)) else p.(nulledColumn := true)
    case SetInterests(v) => p.(row := p.row.(interests := v))
    case SetOpenFollowUps(v) => p.(row := p.row.(openFollowUps := v))
    case SetFaceEmbedding(_) => p
    case SetFaceThumbnailBase64(_) => p
    case SetPhysicalDescription(v) => p.(physicalDescription := v)
  }

  /** The entry gives null to one of the NOT NULL columns `name`, `role`, `avatar_color`, `context`. */
  predicate AssignsNull(a: PersonAssignment) {
    || (a.SetName? && a.name.None?)
    || (a.SetRole? && a.role.None?)
    || (a.SetAvatarColor? && a.avatarColor.None?)
    || (a.SetContext? && a.context.None?)
  }

  /** The patch sends null for one of the NOT NULL columns `name`, `role`, `avatar_color`, `context`. */
  predicate NullsRequiredColumn(u: PersonUpdate) {
    SendsNull(u.name) || SendsNull(u.role) || SendsNull(u.avatarColor) || SendsNull(u.context)
  }

  /**
   * The merge-patch a `PersonUpdate` stands for, field by field: the row it leaves, or the
   * integrity error the commit raises when a NOT NULL column is sent null.
   */
  function PatchPerson(p: Person, u: PersonUpdate): (r: Result<Person, Error>)
    ensures r.Err? <==> NullsRequiredColumn(u)
    ensures r.Err? ==> r.error == IntegrityError(People)
    ensures r.Ok? ==> r.value.id == p.id && r.value.metCount == p.metCount && r.value.lastMet == p.lastMet
    ensures r.Ok? ==> (u.name.Unset? ==> r.value.name == p.name) && (u.role.Unset? ==> r.value.role == p.role)
    ensures r.Ok? ==> (u.avatarColor.Unset? ==> r.value.avatarColor == p.avatarColor) && (u.context.Unset? ==> r.value.context == p.context)
    ensures r.Ok? ==> (u.interests.Unset? ==> r.value.interests == p.interests) && (u.openFollowUps.Unset? ==> r.value.openFollowUps == p.openFollowUps)
    ensures r.Ok? ==> (u.name.Supplied? ==> Some(r.value.name) == u.name.value) && (u.role.Supplied? ==> Some(r.value.role) == u.role.value)
    ensures r.Ok? ==> (u.avatarColor.Supplied? ==> Some(r.value.avatarColor) == u.avatarColor.value) && (u.context.Supplied? ==> Some(r.value.context) == u.context.value)
    ensures r.Ok? ==> (u.interests.Supplied? ==> r.value.interests == u.interests.value) && (u.openFollowUps.Supplied? ==> r.value.openFollowUps == u.openFollowUps.value)
  {
    if NullsRequiredColumn(u) then Err(IntegrityError(People))
    else Ok(Person(
      p.id,
      MergedRequired(u.name, p.name),
      MergedRequired(u.role, p.role),
      MergedRequired(u.avatarColor, p.avatarColor),
      MergedRequired(u.context, p.context),
      Merged(u.interests, p.interests),
      Merged(u.openFollowUps, p.openFollowUps),
      p.lastMet,
      p.metCount))
  }

  /** The response `update_person` returns for the row it stored. */
  function UpdatedResponse(row: Person, u: PersonUpdate): (r: PersonResponse)
    ensures r.id == row.id && r.name == row.name && r.metCount == row.metCount && r.lastMet == row.lastMet
    ensures r.role == row.role && r.avatarColor == row.avatarColor && r.context == row.context
    ensures r.interests == row.interests && r.openFollowUps == row.openFollowUps
    ensures r.physicalDescription == (if u.physicalDescription.Supplied? then u.physicalDescription.value else None)
    ensures !r.hasFaceData
  {
    ToPersonResponse(row).(physicalDescription := Merged(u.physicalDescription, None))
  }

  /** The loop body run on a dump that holds at most one entry for a field. */
  function SetSent(s: PendingPerson, e: seq<PersonAssignment>): PendingPerson {
    if e == [] then s else SetAttr(s, e[0])
  }

  /** The loop body run on the dump entries of the NOT NULL columns `name`, `role`, `avatar_color`, `context`. */
  function SetRequiredColumns(s: PendingPerson, u: PersonUpdate): PendingPerson {
    var s1 := SetSent(s, if u.name.Supplied? then [SetName(u.name.value)] else []);
    var s2 := SetSent(s1, if u.role.Supplied? then [SetRole(u.role.value)] else []);
    var s3 := SetSent(s2, if u.avatarColor.Supplied? then [SetAvatarColor(u.avatarColor.value)] else []);
    SetSent(s3, if u.context.Supplied? then [SetContext(u.context.value)] else [])
  }

  /** The loop body run on the dump entries of the remaining fields. */
  function SetOtherFields(s: PendingPerson, u: PersonUpdate): PendingPerson {
    var s1 := SetSent(s, if u.interests.Supplied? then [SetInterests(u.interests.value)] else []);
    var s2 := SetSent(s1, if u.openFollowUps.Supplied? then [SetOpenFollowUps(u.openFollowUps.value)] else []);
    var s3 := SetSent(s2, if u.faceEmbedding.Supplied? then [SetFaceEmbedding(u.faceEmbedding.value)] else []);
    var s4 := SetSent(s3, if u.faceThumbnailBase64.Supplied? then [SetFaceThumbnailBase64(u.faceThumbnailBase64.value)] else []);
    SetSent(s4, if u.physicalDescription.Supplied? then [SetPhysicalDescription(u.physicalDescription.value)] else [])
  }

  lemma RequiredColumnsLoop(s: PendingPerson, u: PersonUpdate)
    ensures Fold(SetAttr, s, u.RequiredEntries()) == SetRequiredColumns(s, u)
  {
    var e1 := if u.name.Supplied? then [SetName(u.name.value)] else [];
    var e2 := if u.role.Supplied? then [SetRole(u.role.value)] else [];
    var e3 := if u.avatarColor.Supplied? then [SetAvatarColor(u.avatarColor.value)] else [];
    var e4 := if u.context.Supplied? then [SetContext(u.context.value)] else [];
    var d1 := e1;
    FoldSent(SetAttr, s, [], e1);
    assert [] + e1 == e1;
    var t1 := SetSent(s, e1);
    assert Fold(SetAttr, s, d1) == t1;
    var d2 := d1 + e2;
    FoldSent(SetAttr, s, d1, e2);
    var t2 := SetSent(t1, e2);
    assert Fold(SetAttr, s, d2) == t2;
    var d3 := d2 + e3;
    FoldSent(SetAttr, s, d2, e3);
    var t3 := SetSent(t2, e3);
    assert Fold(SetAttr, s, d3) == t3;
    var d4 := d3 + e4;
    FoldSent(SetAttr, s, d3, e4);
    var t4 := SetSent(t3, e4);
    assert Fold(SetAttr, s, d4) == t4;
    assert d4 == u.RequiredEntries();
  }


  lemma OtherFieldsLoop(s: PendingPerson, u: PersonUpdate)
    ensures Fold(SetAttr, s, u.OtherEntries()) == SetOtherFields(s, u)
  {
    var e1 := if u.interests.Supplied? then [SetInterests(u.interests.value)] else [];
    var e2 := if u.openFollowUps.Supplied? then [SetOpenFollowUps(u.openFollowUps.value)] else [];
    var e3 := if u.faceEmbedding.Supplied? then [SetFaceEmbedding(u.faceEmbedding.value)] else [];
    var e4 := if u.faceThumbnailBase64.Supplied? then [SetFaceThumbnailBase64(u.faceThumbnailBase64.value)] else [];
    var e5 := if u.physicalDescription.Supplied? then [SetPhysicalDescription(u.physicalDescription.value)] else [];
    var d1 := e1;
    FoldSent(SetAttr, s, [], e1);
    assert [] + e1 == e1;
    var t1 := SetSent(s, e1);
    assert Fold(SetAttr, s, d1) == t1;
    var d2 := d1 + e2;
    FoldSent(SetAttr, s, d1, e2);
    var t2 := SetSent(t1, e2);
    assert Fold(SetAttr, s, d2) == t2;
    var d3 := d2 + e3;
    FoldSent(SetAttr, s, d2, e3);
    var t3 := SetSent(t2, e3);
    assert Fold(SetAttr, s, d3) == t3;
    var d4 := d3 + e4;
    FoldSent(SetAttr, s, d3, e4);
    var t4 := SetSent(t3, e4);
    assert Fold(SetAttr, s, d4) == t4;
    var d5 := d4 + e5;
    FoldSent(SetAttr, s, d4, e5);
    var t5 := SetSent(t4, e5);
    assert Fold(SetAttr, s, d5) == t5;
    assert d5 == u.OtherEntries();
  }


  /** The loop over the whole dump runs the body on the entries of each field in turn. */
  lemma SetAttrLoopByField(s: PendingPerson, u: PersonUpdate)
    ensures Fold(SetAttr, s, u.ModelDump()) == SetOtherFields(SetRequiredColumns(s, u), u)
  {
    FoldAppend(SetAttr, s, u.RequiredEntries(), u.OtherEntries());
    RequiredColumnsLoop(s, u);
    OtherFieldsLoop(SetRequiredColumns(s, u), u);
  }

  lemma SetRequiredColumnsEffect(s: PendingPerson, u: PersonUpdate)
    ensures var t := SetRequiredColumns(s, u);
      && t.nulledColumn == (s.nulledColumn || NullsRequiredColumn(u))
      && t.physicalDescription == s.physicalDescription
      && (!NullsRequiredColumn(u) ==> t.row == s.row.(name := MergedRequired(u.name, s.row.name),
                                                       role := MergedRequired(u.role, s.row.role),
                                                       avatarColor := MergedRequired(u.avatarColor, s.row.avatarColor),
                                                       context := MergedRequired(u.context, s.row.context)))
  {
  }

  lemma SetOtherFieldsEffect(s: PendingPerson, u: PersonUpdate)
    ensures var t := SetOtherFields(s, u);
      && t.nulledColumn == s.nulledColumn
      && t.physicalDescription == Merged(u.physicalDescription, s.physicalDescription)
      && t.row == s.row.(interests := Merged(u.interests, s.row.interests),
                         openFollowUps := Merged(u.openFollowUps, s.row.openFollowUps))
  {
  }

  /** The `setattr` loop over `model_dump(exclude_unset=True)` is the field-by-field merge-patch. */
  lemma SetAttrLoopIsPatch(p: Person, u: PersonUpdate)
    ensures var done := Fold(SetAttr, PendingPerson(p, false, None), u.ModelDump());
      && done.nulledColumn == NullsRequiredColumn(u)
      && done.physicalDescription == Merged(u.physicalDescription, None)
      && (!done.nulledColumn ==> PatchPerson(p, u) == Ok(done.row))
  {
    var s0 := PendingPerson(p, false, None);
    SetAttrLoopByField(s0, u);
    SetRequiredColumnsEffect(s0, u);
    SetOtherFieldsEffect(SetRequiredColumns(s0, u), u);
  }

  /** Sending the same patch a second time changes nothing more. */
  lemma PatchPersonIdempotent(p: Person, u: PersonUpdate)
    requires PatchPerson(p, u).Ok?
    ensures PatchPerson(PatchPerson(p, u).value, u) == PatchPerson(p, u)
  {
  }

  /** A patch that sends no field leaves the row as it is. */
  lemma EmptyPatchKeepsRow(p: Person)
    ensures PatchPerson(p, NoPersonChanges) == Ok(p)
  {
  }

  /** Only `name` sent: every other column, `met_count` and `interests` included, is kept. */
  lemma NameOnlyPatch(p: Person, name: string)
    ensures PatchPerson(p, NoPersonChanges.(name := Supplied(Some(name)))) == Ok(p.(name := name))
  {
  }

  /** `get_people`: at most `limit` people, starting at offset `skip` of the stored order. */
  method GetPeople(db: Session, skip: nat, limit: nat) returns (r: seq<PersonListResponse>)
    requires db.Valid()
    ensures |r| <= limit
    ensures |r| == |Page(db.personOrder, skip, limit)|
    ensures forall k :: 0 <= k < |r| ==> skip + k < |db.personOrder| && r[k] == ToPersonListResponse(db.people[db.personOrder[skip + k]])
  {
    var ids := Page(db.personOrder, skip, limit);
    forall k | 0 <= k < |ids| ensures ids[k] in db.people {
      assert db.personOrder[skip + k] in db.personOrder;
    }
    r := seq(|ids|, k requires 0 <= k < |ids| && ids[k] in db.people reads db => ToPersonListResponse(db.people[ids[k]]));
  }

  /** `get_person`: the stored person, or NotFound. */
  method GetPerson(db: Session, personId: string) returns (r: Result<PersonResponse, Error>)
    ensures personId in db.people <==> r.Ok?
    ensures r.Ok? ==> r.value == ToPersonResponse(db.people[personId])
    ensures r.Err? ==> r.error == NotFound(People, personId)
  {
    if personId !in db.people {
      return Err(NotFound(People, personId));
    }
    r := Ok(ToPersonResponse(db.people[personId]));
  }

  /**
   * `create_person`: a new row under the generated key, holding exactly the six sent
   * fields, with `met_count` 0 and `last_met` unset. The face fields of the body are
   * dropped.
   */
  method CreatePerson(db: Session, body: PersonCreate, uuidHex: string) returns (r: PersonResponse)
    requires db.Valid()
    requires Ids.IsUuidHex(uuidHex) && NewPersonId(uuidHex) !in db.people
    modifies db`people, db`personOrder
    ensures db.Valid()
    ensures var p := NewPerson(NewPersonId(uuidHex), body.name, body.role, Some(body.avatarColor), body.context,
                               Some(body.interests), Some(body.openFollowUps));
      && db.people == old(db.people)[p.id := p]
      && db.personOrder == old(db.personOrder) + [p.id]
      && r == ToPersonResponse(p)
  {
    var dbPerson := NewPerson(NewPersonId(uuidHex), body.name, body.role, Some(body.avatarColor), body.context,
                              Some(body.interests), Some(body.openFollowUps));
    db.people := db.people[dbPerson.id := dbPerson];
    db.personOrder := db.personOrder + [dbPerson.id];
    r := ToPersonResponse(dbPerson);
  }

  /**
   * `update_person`: NotFound for an unknown key; otherwise the merge-patch of the sent
   * fields, or an integrity error and no change when a NOT NULL column is sent null.
   */
  method UpdatePerson(db: Session, personId: string, u: PersonUpdate) returns (r: Result<PersonResponse, Error>)
    requires db.Valid()
    modifies db`people
    ensures db.Valid()
    ensures personId !in old(db.people) ==> r == Err(NotFound(People, personId)) && db.people == old(db.people)
    ensures personId in old(db.people) ==>
      var patched := PatchPerson(old(db.people)[personId], u);
      && (patched.Err? ==> r == Err(patched.error) && db.people == old(db.people))
      && (patched.Ok? ==> r == Ok(UpdatedResponse(patched.value, u)) && db.people == old(db.people)[personId := patched.value])
  {
    if personId !in db.people {
      return Err(NotFound(People, personId));
    }
    var updateData := u.ModelDump();
    var start := PendingPerson(db.people[personId], false, None);
    var dbPerson := start;
    for i := 0 to |updateData|
      invariant dbPerson == Fold(SetAttr, start, updateData[..i])
    {
      assert updateData[..i + 1][..i] == updateData[..i];
      dbPerson := SetAttr(dbPerson, updateData[i]);
    }
    assert updateData[..|updateData|] == updateData;
    SetAttrLoopIsPatch(start.row, u);
    if dbPerson.nulledColumn {
      return Err(IntegrityError(People));
    }
    db.people := db.people[personId := dbPerson.row];
    r := Ok(ToPersonResponse(dbPerson.row).(physicalDescription := dbPerson.physicalDescription));
  }

  /**
   * `delete_person`: NotFound for an unknown key. The relationship to the person's
   * conversations has no cascade and `conversations.person_id` is NOT NULL, so deleting a
   * person who still has conversations is rejected and changes nothing.
   */
  method DeletePerson(db: Session, personId: string) returns (r: Result<(), Error>)
    requires db.Valid()
    modifies db`people, db`personOrder
    ensures db.Valid()
    ensures personId !in old(db.people) ==> r == Err(NotFound(People, personId))
    ensures personId in old(db.people) && HasConversations(db.conversations, personId) ==> r == Err(IntegrityError(Conversations))
    ensures r.Err? ==> db.people == old(db.people) && db.personOrder == old(db.personOrder)
    ensures r.Ok? <==> personId in old(db.people) && !HasConversations(db.conversations, personId)
    ensures r.Ok? ==> db.people == old(db.people) - {personId} && db.personOrder == Restrict(old(db.personOrder), db.people.Keys)
  {
    if personId !in db.people {
      return Err(NotFound(People, personId));
    }
    if exists k | k in db.conversations :: db.conversations[k].personId == personId {
      return Err(IntegrityError(Conversations));
    }
    var remaining := db.people - {personId};
    RestrictDistinct(db.personOrder, remaining.Keys);
    assert Indexes(Restrict(db.personOrder, remaining.Keys), remaining);
    assert ConversationsHavePeople(db.conversations, remaining);
    db.people := remaining;
    db.personOrder := Restrict(db.personOrder, remaining.Keys);
    r := Ok(());
  }

  /** Some conversation names `personId` as its person. */
  predicate HasConversations(conversations: map<string, Conversation>, personId: string) {
    exists k :: k in conversations && conversations[k].personId == personId
  }
}
