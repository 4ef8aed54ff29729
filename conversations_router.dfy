/**
 * The handlers of app/routers/conversations.py. Each handler is a method over the session
 * it is handed; its single `commit` is one state transition, and a commit the database
 * would reject leaves the session as it was.
 */
module ConversationsRouter {
  import opened Wrappers
  import opened Text
  import opened PersonModel
  import opened ConversationModel
  import opened ConversationSchemas
  import opened Database
  import Ids

  /** The bullet (U+2022) between the day and the time in a conversation's `date` label. */
  const Bullet: char := '\U{2022}'

  // ----- The meeting side effect of `create_conversation` -----

  /**
   * `date.split('•')[0].strip()`: the part of the label before its first bullet, with the
   * surrounding whitespace removed; a label without a bullet is stripped as a whole.
   */
  function LastMet(date: string): (day: string)
    ensures day == Strip(date[..IndexOf(date, Bullet)])
    ensures Stripped(day) && Bullet !in day
  {
    FirstPiece(date, Bullet);
    SplitStrip(date, Bullet)[0]
  }

  /** Without a bullet the whole label, stripped, becomes `last_met`. */
  lemma LastMetWithoutBullet(date: string)
    requires Bullet !in date
    ensures LastMet(date) == Strip(date)
  {
    assert date[..IndexOf(date, Bullet)] == date;
  }

  /**
   * A label of the form "<day> • <time>" with a stripped day, such as "Jan 16 • 2:30 PM",
   * records the meeting under its day alone.
   */
  lemma LastMetOfDayAndTime(day: string, time: string)
    requires Stripped(day) && Bullet !in day
    ensures LastMet(day + " " + [Bullet] + " " + time) == day
  {
    var date := day + " " + [Bullet] + " " + time;
    assert date == (day + " ") + [Bullet] + (" " + time);
    IndexOfAfter(day + " ", Bullet, " " + time);
    assert date[..|day| + 1] == day + " ";
    StripPadded([], day, " ");
    assert [] + day + " " == day + " ";
  }

  /**
   * `person.met_count += 1` and the new `last_met`: the meeting is counted once and
   * dated by `day`; every other column of the person is kept.
   */
  function RecordMeeting(p: Person, day: string): (q: Person)
    ensures q.metCount == p.metCount + 1 && q.lastMet == Some(day)
    ensures q.id == p.id && q.name == p.name && q.role == p.role && q.avatarColor == p.avatarColor
    ensures q.context == p.context && q.interests == p.interests && q.openFollowUps == p.openFollowUps
  {
    p.(metCount := p.metCount + 1, lastMet := Some(day))
  }

  // ----- Creating a conversation -----

  /**
   * The rows the loop over `conversation.action_items` adds: one per draft, in input
   * order, under the key generated for it, bound to conversation `cid`, with the draft's
   * text and completion.
   */
  function DraftedItems(cid: string, drafts: seq<ActionItemCreate>, keys: seq<string>): (items: seq<ActionItem>)
    requires |keys| == |drafts|
    ensures |items| == |drafts| && KeysOf(items) == keys
    ensures forall k :: 0 <= k < |items| ==>
      items[k].conversationId == cid && items[k].text == drafts[k].text && items[k].completed == Some(drafts[k].completed)
  {
    seq(|drafts|, k requires 0 <= k < |drafts| && k < |keys| =>
      NewActionItem(keys[k], cid, drafts[k].text, Some(drafts[k].completed)))
  }

  /** The row `Conversation(...)` builds from a create body, stamped with the clock. */
  function ConversationFromBody(id: string, body: ConversationCreate, createdAt: nat): (c: Conversation)
    ensures c.id == id && c.personId == body.personId && c.createdAt == createdAt
    ensures c.participants == Some(body.participants) && c.keyPoints == Some(body.keyPoints)
    ensures c.title == body.title && c.date == body.date && c.location == body.location
    ensures c.summary == body.summary && c.fullTranscript == body.fullTranscript
  {
    NewConversation(id, body.personId, Some(body.participants), body.title, body.date, body.location,
                    body.summary, Some(body.keyPoints), body.fullTranscript, createdAt)
  }

  /**
   * `create_conversation`: NotFound, with nothing written, when the person does not
   * exist. When the person's `met_count` is already the largest `Integer`, the commit
   * fails with "integer out of range" and rolls back the flushed conversation too, so
   * nothing is written either. Otherwise one atomic transition that inserts the
   * conversation, inserts one item per draft in input order, and records the meeting
   * on the person. The random
   * UUID texts the `id` column defaults draw are passed in, and the keys are built from
   * them as the defaults do; the built keys are new to their tables and the item keys
   * differ from each other.
   */
  method CreateConversation(db: Session, body: ConversationCreate, conversationHex: string, itemHexes: seq<string>)
    returns (r: Result<ConversationDetail, Error>)
    requires db.Valid()
    requires Ids.IsUuidHex(conversationHex) && NewConversationId(conversationHex) !in db.conversations
    requires |itemHexes| == |body.actionItems| && forall k :: 0 <= k < |itemHexes| ==> Ids.IsUuidHex(itemHexes[k])
    requires Distinct(NewActionItemIds(itemHexes)) && forall x :: x in NewActionItemIds(itemHexes) ==> x !in db.actionItems
    modifies db`people, db`conversations, db`conversationOrder, db`actionItems, db`itemOrder, db`clock
    ensures db.Valid()
    ensures body.personId !in old(db.people) ==>
      && r == Err(NotFound(People, body.personId))
      && db.people == old(db.people) && db.conversations == old(db.conversations) && db.actionItems == old(db.actionItems)
      && db.conversationOrder == old(db.conversationOrder) && db.itemOrder == old(db.itemOrder) && db.clock == old(db.clock)
    ensures body.personId in old(db.people) && !FitsInteger(old(db.people)[body.personId].metCount + 1) ==>
      && r == Err(OutOfRange(People))
      && db.people == old(db.people) && db.conversations == old(db.conversations) && db.actionItems == old(db.actionItems)
      && db.conversationOrder == old(db.conversationOrder) && db.itemOrder == old(db.itemOrder) && db.clock == old(db.clock)
    ensures body.personId in old(db.people) && FitsInteger(old(db.people)[body.personId].metCount + 1) ==>
      var cid := NewConversationId(conversationHex);
      var items := DraftedItems(cid, body.actionItems, NewActionItemIds(itemHexes));
      && db.conversations == old(db.conversations)[cid := ConversationFromBody(cid, body, old(db.clock))]
      && db.conversationOrder == old(db.conversationOrder) + [cid]
      && db.actionItems == InsertAll(old(db.actionItems), items)
      && db.itemOrder == old(db.itemOrder) + NewActionItemIds(itemHexes)
      && db.people == old(db.people)[body.personId := RecordMeeting(old(db.people)[body.personId], LastMet(body.date))]
      && db.clock == old(db.clock) + 1
      && r == Ok(ConversationDetail(db.conversations[cid], items))
  {
    if body.personId !in db.people {
      return Err(NotFound(People, body.personId));
    }
    if !FitsInteger(db.people[body.personId].metCount + 1) {
      return Err(OutOfRange(People));
    }
    var conversationId := NewConversationId(conversationHex);
    var itemIds := NewActionItemIds(itemHexes);
    var dbConversation := ConversationFromBody(conversationId, body, db.clock);
    var actionItems, itemOrder := AddItems(db.actionItems, db.itemOrder, conversationId, body.actionItems, itemIds);
    var rows := DraftedItems(conversationId, body.actionItems, itemIds);
    CommitCreated(db, dbConversation, rows, LastMet(body.date), actionItems, itemOrder);
    r := Ok(db.Detail(conversationId));
  }

  /**
   * The `db.commit()` of `create_conversation`: the new conversation, its pending item rows
   * and the person's meeting count and date become visible together.
   */
  method CommitCreated(db: Session, c: Conversation, rows: seq<ActionItem>, day: string,
                       actionItems: map<string, ActionItem>, itemOrder: seq<string>)
    requires db.Valid()
    requires c.id !in db.conversations && c.personId in db.people && c.createdAt == db.clock
    requires forall k :: 0 <= k < |rows| ==> rows[k].conversationId == c.id
    requires Distinct(KeysOf(rows)) && forall x :: x in KeysOf(rows) ==> x !in db.actionItems
    requires actionItems == InsertAll(db.actionItems, rows) && itemOrder == db.itemOrder + KeysOf(rows)
    modifies db`people, db`conversations, db`conversationOrder, db`actionItems, db`itemOrder, db`clock
    ensures db.people == old(db.people)[c.personId := RecordMeeting(old(db.people)[c.personId], day)]
    ensures db.conversations == old(db.conversations)[c.id := c] && db.conversationOrder == old(db.conversationOrder) + [c.id]
    ensures db.actionItems == actionItems && db.itemOrder == itemOrder && db.clock == old(db.clock) + 1
    ensures db.Valid() && c.id in db.conversations && db.ItemsOf(c.id) == rows
  {
    var people := db.people[c.personId := RecordMeeting(db.people[c.personId], day)];
    var conversations := db.conversations[c.id := c];
    var conversationOrder := db.conversationOrder + [c.id];
    ghost var people0, personOrder0, conversations0, order0 := db.people, db.personOrder, db.conversations, db.conversationOrder;
    ghost var items0, itemOrder0, clock0 := db.actionItems, db.itemOrder, db.clock;
    db.people, db.conversations, db.conversationOrder, db.actionItems, db.itemOrder, db.clock :=
      people, conversations, conversationOrder, actionItems, itemOrder, db.clock + 1;
    assert db.people == people && db.conversations == conversations && db.conversationOrder == conversationOrder;
    assert db.actionItems == actionItems && db.itemOrder == itemOrder && db.clock == clock0 + 1 && db.personOrder == personOrder0;
    CreatedConsistent(people0, personOrder0, conversations0, order0, items0, itemOrder0, clock0,
      c, rows, day, people, conversations, conversationOrder, actionItems, itemOrder);
  }

  /**
   * The loop over `conversation.action_items`: one new row per draft is added to the
   * pending rows, in input order; the commit that follows stores them all at once.
   */
  method AddItems(items: map<string, ActionItem>, order: seq<string>, cid: string, drafts: seq<ActionItemCreate>, keys: seq<string>)
    returns (items': map<string, ActionItem>, order': seq<string>)
    requires |keys| == |drafts|
    ensures items' == InsertAll(items, DraftedItems(cid, drafts, keys))
    ensures order' == order + keys
  {
    ghost var rows := DraftedItems(cid, drafts, keys);
    items', order' := items, order;
    for i := 0 to |drafts|
      invariant items' == InsertAll(items, rows[..i])
      invariant order' == order + keys[..i]
    {
      var draft := drafts[i];
      var dbActionItem := NewActionItem(keys[i], cid, draft.text, Some(draft.completed));
      assert dbActionItem == rows[i];
      assert rows[..i + 1][..i] == rows[..i];
      assert keys[..i + 1] == keys[..i] + [keys[i]];
      items' := items'[dbActionItem.id := dbActionItem];
      order' := order' + [dbActionItem.id];
    }
    assert rows[..|rows|] == rows;
    assert keys[..|keys|] == keys;
  }

  /**
   * The tables `create_conversation` commits keep every constraint, and the items listed
   * for the new conversation are exactly the new rows, in input order.
   */
  lemma CreatedConsistent(
    people: map<string, Person>, personOrder: seq<string>,
    conversations: map<string, Conversation>, conversationOrder: seq<string>,
    actionItems: map<string, ActionItem>, itemOrder: seq<string>, clock: nat,
    c: Conversation, rows: seq<ActionItem>, day: string,
    people': map<string, Person>, conversations': map<string, Conversation>, conversationOrder': seq<string>,
    actionItems': map<string, ActionItem>, itemOrder': seq<string>)
    requires Consistent(people, personOrder, conversations, conversationOrder, actionItems, itemOrder, clock)
    requires c.id !in conversations && c.personId in people && c.createdAt == clock
    requires forall k :: 0 <= k < |rows| ==> rows[k].conversationId == c.id
    requires Distinct(KeysOf(rows)) && forall x :: x in KeysOf(rows) ==> x !in actionItems
    requires people' == people[c.personId := RecordMeeting(people[c.personId], day)]
    requires conversations' == conversations[c.id := c] && conversationOrder' == conversationOrder + [c.id]
    requires actionItems' == InsertAll(actionItems, rows) && itemOrder' == itemOrder + KeysOf(rows)
    ensures Consistent(people', personOrder, conversations', conversationOrder', actionItems', itemOrder', clock + 1)
    ensures (forall x :: x in itemOrder' ==> x in actionItems') && ItemsIn(itemOrder', actionItems', c.id) == rows
  {
    CreatedConversationConsistent(people, conversations, conversationOrder, clock, c);
    CreatedItemsConsistent(actionItems, itemOrder, conversations, c, rows);
    CreatedItemsListed(itemOrder, rows, actionItems', c.id);
  }

  /** Old rows, none of them of `cid`, followed by the new rows of `cid`: the items of `cid` are the new rows. */
  lemma CreatedItemsListed(itemOrder: seq<string>, rows: seq<ActionItem>, items: map<string, ActionItem>, cid: string)
    requires forall x :: x in itemOrder ==> x in items && items[x].conversationId != cid
    requires forall k :: 0 <= k < |rows| ==> rows[k].id in items && items[rows[k].id] == rows[k] && rows[k].conversationId == cid
    ensures forall x :: x in itemOrder + KeysOf(rows) ==> x in items
    ensures ItemsIn(itemOrder + KeysOf(rows), items, cid) == rows
  {
    ItemsInKeysOf(rows, items, cid);
    ItemsInAppend(itemOrder, KeysOf(rows), items, cid);
    ItemsInNone(itemOrder, items, cid);
  }

  lemma CreatedConversationConsistent(
    people: map<string, Person>, conversations: map<string, Conversation>, conversationOrder: seq<string>, clock: nat, c: Conversation)
    requires Indexes(conversationOrder, conversations) && ConversationsKeyed(conversations)
    requires ConversationsHavePeople(conversations, people) && Chronological(conversationOrder, conversations, clock)
    requires c.id !in conversations && c.personId in people && c.createdAt == clock
    ensures Indexes(conversationOrder + [c.id], conversations[c.id := c]) && ConversationsKeyed(conversations[c.id := c])
    ensures ConversationsHavePeople(conversations[c.id := c], people)
    ensures Chronological(conversationOrder + [c.id], conversations[c.id := c], clock + 1)
  {
    var after := conversations[c.id := c];
    DistinctSnoc(conversationOrder, c.id);
    AscendingStamps(conversationOrder, conversations, after);
    SnocAscending(conversationOrder, c.id, after);
  }

  lemma CreatedItemsConsistent(
    actionItems: map<string, ActionItem>, itemOrder: seq<string>, conversations: map<string, Conversation>,
    c: Conversation, rows: seq<ActionItem>)
    requires Indexes(itemOrder, actionItems) && ItemsKeyed(actionItems)
    requires ItemsHaveConversations(actionItems, conversations) && c.id !in conversations
    requires forall k :: 0 <= k < |rows| ==> rows[k].conversationId == c.id
    requires Distinct(KeysOf(rows)) && forall x :: x in KeysOf(rows) ==> x !in actionItems
    ensures var items := InsertAll(actionItems, rows);
      && Indexes(itemOrder + KeysOf(rows), items) && ItemsKeyed(items)
      && ItemsHaveConversations(items, conversations[c.id := c])
      && (forall x :: x in itemOrder ==> x in items && items[x].conversationId != c.id)
      && (forall k :: 0 <= k < |rows| ==> items[rows[k].id] == rows[k])
  {
    var items := InsertAll(actionItems, rows);
    InsertAllContents(actionItems, rows);
    DistinctAppend(itemOrder, KeysOf(rows));
    forall x | x in items ensures items[x].id == x && items[x].conversationId in conversations[c.id := c] {
      if x in KeysOf(rows) {
        var k :| 0 <= k < |rows| && KeysOf(rows)[k] == x;
      }
    }
  }

  // ----- Reading conversations -----

  /**
   * The conversations `get_conversations` selects: with a non-empty `person_id` filter
   * those of that person, otherwise all of them (`if person_id:` ignores an empty id).
   */
  function Selected(conversations: map<string, Conversation>, personId: Option<string>): (keys: set<string>)
    ensures forall k :: k in keys <==>
      k in conversations && (personId.Some? && personId.value != "" ==> conversations[k].personId == personId.value)
  {
    if personId.Some? && personId.value != "" then set k | k in conversations && conversations[k].personId == personId.value
    else conversations.Keys
  }

  /**
   * The selected conversations ordered by `created_at`, newest first: every selected
   * conversation exactly once, each created after the ones that follow it.
   */
  function NewestFirst(db: Session, personId: Option<string>): (keys: seq<string>)
    reads db
    requires db.Valid()
    ensures forall k :: k in keys <==> k in Selected(db.conversations, personId)
    ensures Descending(keys, db.conversations)
    ensures Distinct(keys)
  {
    assert Distinct(db.conversationOrder) && Ascending(db.conversationOrder, db.conversations);
    assert forall k :: k in db.conversationOrder <==> k in db.conversations;
    NewestFirstOf(db.conversationOrder, Selected(db.conversations, personId), db.conversations);
    Reversed(Restrict(db.conversationOrder, Selected(db.conversations, personId)))
  }

  /**
   * `.offset(skip).limit(limit)` over the newest-first selection: at most `limit` stored
   * conversations, all matching the filter, newest first, and the slice of the whole
   * selection that starts at `skip`.
   */
  function Listed(db: Session, personId: Option<string>, skip: nat, limit: nat): (page: seq<string>)
    reads db
    requires db.Valid()
    ensures |page| <= limit
    ensures |page| == if skip >= |NewestFirst(db, personId)| then 0 else Min(limit, |NewestFirst(db, personId)| - skip)
    ensures Descending(page, db.conversations)
    ensures forall k :: 0 <= k < |page| ==> page[k] in Selected(db.conversations, personId)
    ensures forall k :: 0 <= k < |page| ==>
      skip + k < |NewestFirst(db, personId)| && page[k] == NewestFirst(db, personId)[skip + k]
  {
    PageDescending(NewestFirst(db, personId), skip, limit, db.conversations);
    Page(NewestFirst(db, personId), skip, limit)
  }

  /** How many items of the conversation are not completed, as its summary reports. */
  function ActiveItemsCount(db: Session, conversationId: string): nat
    reads db
    requires db.Valid()
  {
    ActiveCount(db.ItemsOf(conversationId))
  }

  /** The keys of the stored items of conversation `cid` that are not completed. */
  ghost function OpenItemKeys(items: map<string, ActionItem>, cid: string): set<string> {
    set k | k in items && items[k].conversationId == cid && IsActive(items[k])
  }

  /** The keys of the open items of a list. */
  ghost function ActiveKeys(r: seq<ActionItem>): set<string> {
    set y | y in r && IsActive(y) :: y.id
  }

  /** In a list that holds each key once, the open-item count is the number of open keys. */
  lemma {:induction false} ActiveCountOfDistinct(r: seq<ActionItem>)
    requires Distinct(KeysOf(r))
    ensures ActiveCount(r) == |ActiveKeys(r)|
  {
    if r != [] {
      KeysOfTail(r);
      ActiveCountOfDistinct(r[1..]);
      ActiveKeysCons(r);
    }
  }

  /** The rest of a list with distinct keys has distinct keys, none of them the head's. */
  lemma KeysOfTail(r: seq<ActionItem>)
    requires r != [] && Distinct(KeysOf(r))
    ensures Distinct(KeysOf(r[1..]))
    ensures forall y :: y in r[1..] ==> y.id != r[0].id
  {
    var tail := r[1..];
    forall i, j | 0 <= i < j < |tail| ensures KeysOf(tail)[i] != KeysOf(tail)[j] {
      assert KeysOf(r)[i + 1] != KeysOf(r)[j + 1];
    }
    forall y | y in tail ensures y.id != r[0].id {
      var k :| 0 <= k < |tail| && tail[k] == y;
      assert KeysOf(r)[0] != KeysOf(r)[k + 1];
    }
  }

  /** The open keys of a non-empty list: the head's, if open, and those of the rest. */
  lemma ActiveKeysCons(r: seq<ActionItem>)
    requires r != []
    ensures ActiveKeys(r) == (if IsActive(r[0]) then {r[0].id} else {}) + ActiveKeys(r[1..])
  {
    var tail := r[1..];
    forall k | k in ActiveKeys(r) ensures k in ActiveKeys(tail) || (IsActive(r[0]) && k == r[0].id) {
      var y :| y in r && IsActive(y) && y.id == k;
      var i :| 0 <= i < |r| && r[i] == y;
      if i > 0 {
        assert tail[i - 1] == y;
      }
    }
    forall k | k in ActiveKeys(tail) ensures k in ActiveKeys(r) {
      var y :| y in tail && IsActive(y) && y.id == k;
      assert y in r;
    }
  }

  /**
   * The count a summary reports is the number of stored items of the conversation that
   * are not completed: one per row, whatever order the relationship lists them in.
   */
  lemma ActiveItemsCountIsStoredRows(db: Session, cid: string)
    requires db.Valid()
    ensures ActiveItemsCount(db, cid) == |OpenItemKeys(db.actionItems, cid)|
  {
    var r := db.ItemsOf(cid);
    ActiveCountOfDistinct(r);
    assert ItemsKeyed(db.actionItems);
    forall k | k in OpenItemKeys(db.actionItems, cid) ensures k in ActiveKeys(r) {
      assert db.actionItems[k] in r;
    }
    assert ActiveKeys(r) == OpenItemKeys(db.actionItems, cid);
  }

  /**
   * `get_conversations`: the listed page, each conversation turned into its summary with
   * the number of its action items that are not completed.
   */
  method GetConversations(db: Session, skip: nat, limit: nat, personId: Option<string>)
    returns (result: seq<ConversationListResponse>)
    requires db.Valid()
    ensures var listed := Listed(db, personId, skip, limit);
      && |result| == |listed|
      && forall k :: 0 <= k < |result| ==>
           (listed[k] in db.conversations
            && result[k] == ToConversationListResponse(db.conversations[listed[k]], ActiveItemsCount(db, listed[k])))
  {
    var conversations := Listed(db, personId, skip, limit);
    result := Summaries(db, conversations);
  }

  /** The loop over the listed conversations: one summary per key, in the listed order. */
  method Summaries(db: Session, conversations: seq<string>) returns (result: seq<ConversationListResponse>)
    requires db.Valid()
    requires forall x :: x in conversations ==> x in db.conversations
    ensures |result| == |conversations|
    ensures forall k :: 0 <= k < |result| ==>
            result[k] == ToConversationListResponse(db.conversations[conversations[k]], ActiveItemsCount(db, conversations[k]))
  {
    result := [];
    for i := 0 to |conversations|
      invariant |result| == i
      invariant forall k :: 0 <= k < i ==>
        result[k] == ToConversationListResponse(db.conversations[conversations[k]], ActiveItemsCount(db, conversations[k]))
    {
      var conv := db.conversations[conversations[i]];
      var activeCount := ActiveItemsCount(db, conversations[i]);
      result := result + [ToConversationListResponse(conv, activeCount)];
    }
  }

  /** `get_conversation`: the stored conversation with each of its items once, or NotFound. */
  method GetConversation(db: Session, conversationId: string) returns (r: Result<ConversationDetail, Error>)
    requires db.Valid()
    ensures conversationId in db.conversations <==> r.Ok?
    ensures r.Ok? ==> r.value.conversation == db.conversations[conversationId]
    ensures r.Ok? ==> r == Ok(db.Detail(conversationId))
    ensures r.Ok? ==> forall y :: y in r.value.actionItems <==> y.id in db.actionItems && db.actionItems[y.id] == y && y.conversationId == conversationId
    ensures r.Ok? ==> Distinct(KeysOf(r.value.actionItems))
    ensures r.Err? ==> r.error == NotFound(Conversations, conversationId)
  {
    if conversationId !in db.conversations {
      return Err(NotFound(Conversations, conversationId));
    }
    r := Ok(db.Detail(conversationId));
  }

  // ----- Updating a conversation -----

  /** The conversation instance while the `setattr` loop runs, and whether a NOT NULL column was given null. */
  datatype PendingConversation = PendingConversation(row: Conversation, nulledColumn: bool)

  /** The entry gives null to one of the NOT NULL columns `title`, `date`, `location`, `summary`, `person_id`. */
  predicate AssignsNull(a: ConversationAssignment) {
    || (a.SetTitle? && a.title.None?)
    || (a.SetDate? && a.date.None?)
    || (a.SetLocation? && a.location.None?)
    || (a.SetSummary? && a.summary.None?)
    || (a.SetPersonId? && a.personId.None?)
  }

  /** One `setattr(db_conversation, field, value)`. */
  function SetAttr(c: PendingConversation, a: ConversationAssignment): (d: PendingConversation)
    ensures d.row.id == c.row.id && d.row.createdAt == c.row.createdAt
    ensures d.nulledColumn <==> c.nulledColumn || AssignsNull(a)
  {
    match a
    case SetTitle(v) => if v.Some? then c.(row := c.row.(title := v.value)) else c.(nulledColumn := true)
    case SetDate(v) => if v.Some? then c.(row := c.row.(date := v.value)) else c.(nulledColumn := true)
    case SetLocation(v) => if v.Some? then c.(row := c.row.(location := v.value)) else c.(nulledColumn := true)
    case SetSummary(v) => if v.Some? then c.(row := c.row.(summary := v.value)) else c.(nulledColumn := true)
    case SetKeyPoints(v) => c.(row := c.row.(keyPoints := v))
    case SetFullTranscript(v) => c.(row := c.row.(fullTranscript := v))
    case SetPersonId(v) => if v.Some? then c.(row := c.row.(personId := v.value)) else c.(nulledColumn := true)
    case SetParticipants(v) => c.(row := c.row.(participants := v))
  }

  /** The loop body run on the dump entries of one field, which are none or one. */
  function SetSent(c: PendingConversation, e: seq<ConversationAssignment>): PendingConversation {
    if e == [] then c else SetAttr(c, e[0])
  }

  /** The loop body run on the entries of `title`, `date`, `location` and `summary`. */
  function SetHeadline(c: PendingConversation, u: ConversationUpdate): PendingConversation {
    var c1 := SetSent(c, if u.title.Supplied? then [SetTitle(u.title.value)] else []);
    var c2 := SetSent(c1, if u.date.Supplied? then [SetDate(u.date.value)] else []);
    var c3 := SetSent(c2, if u.location.Supplied? then [SetLocation(u.location.value)] else []);
    SetSent(c3, if u.summary.Supplied? then [SetSummary(u.summary.value)] else [])
  }

  /** The loop body run on the entries of `key_points`, `full_transcript`, `person_id` and `participants`. */
  function SetDetail(c: PendingConversation, u: ConversationUpdate): PendingConversation {
    var c1 := SetSent(c, if u.keyPoints.Supplied? then [SetKeyPoints(u.keyPoints.value)] else []);
    var c2 := SetSent(c1, if u.fullTranscript.Supplied? then [SetFullTranscript(u.fullTranscript.value)] else []);
    var c3 := SetSent(c2, if u.personId.Supplied? then [SetPersonId(u.personId.value)] else []);
    SetSent(c3, if u.participants.Supplied? then [SetParticipants(u.participants.value)] else [])
  }

  lemma HeadlineLoop(c: PendingConversation, u: ConversationUpdate)
    ensures Fold(SetAttr, c, u.HeadlineEntries()) == SetHeadline(c, u)
  {
    var e1 := if u.title.Supplied? then [SetTitle(u.title.value)] else [];
    var e2 := if u.date.Supplied? then [SetDate(u.date.value)] else [];
    var e3 := if u.location.Supplied? then [SetLocation(u.location.value)] else [];
    var e4 := if u.summary.Supplied? then [SetSummary(u.summary.value)] else [];
    var d1 := e1;
    FoldSent(SetAttr, c, [], e1);
    assert [] + e1 == e1;
    var t1 := SetSent(c, e1);
    assert Fold(SetAttr, c, d1) == t1;
    var d2 := d1 + e2;
    FoldSent(SetAttr, c, d1, e2);
    var t2 := SetSent(t1, e2);
    assert Fold(SetAttr, c, d2) == t2;
    var d3 := d2 + e3;
    FoldSent(SetAttr, c, d2, e3);
    var t3 := SetSent(t2, e3);
    assert Fold(SetAttr, c, d3) == t3;
    var d4 := d3 + e4;
    FoldSent(SetAttr, c, d3, e4);
    var t4 := SetSent(t3, e4);
    assert Fold(SetAttr, c, d4) == t4;
    assert d4 == u.HeadlineEntries();
  }


  lemma DetailLoop(c: PendingConversation, u: ConversationUpdate)
    ensures Fold(SetAttr, c, u.DetailEntries()) == SetDetail(c, u)
  {
    var e1 := if u.keyPoints.Supplied? then [SetKeyPoints(u.keyPoints.value)] else [];
    var e2 := if u.fullTranscript.Supplied? then [SetFullTranscript(u.fullTranscript.value)] else [];
    var e3 := if u.personId.Supplied? then [SetPersonId(u.personId.value)] else [];
    var e4 := if u.participants.Supplied? then [SetParticipants(u.participants.value)] else [];
    var d1 := e1;
    FoldSent(SetAttr, c, [], e1);
    assert [] + e1 == e1;
    var t1 := SetSent(c, e1);
    assert Fold(SetAttr, c, d1) == t1;
    var d2 := d1 + e2;
    FoldSent(SetAttr, c, d1, e2);
    var t2 := SetSent(t1, e2);
    assert Fold(SetAttr, c, d2) == t2;
    var d3 := d2 + e3;
    FoldSent(SetAttr, c, d2, e3);
    var t3 := SetSent(t2, e3);
    assert Fold(SetAttr, c, d3) == t3;
    var d4 := d3 + e4;
    FoldSent(SetAttr, c, d3, e4);
    var t4 := SetSent(t3, e4);
    assert Fold(SetAttr, c, d4) == t4;
    assert d4 == u.DetailEntries();
  }


  /** The loop over the whole dump runs the body on the entries of each field in turn. */
  lemma ConversationLoopByField(c: PendingConversation, u: ConversationUpdate)
    ensures Fold(SetAttr, c, u.ModelDump()) == SetDetail(SetHeadline(c, u), u)
  {
    FoldAppend(SetAttr, c, u.HeadlineEntries(), u.DetailEntries());
    HeadlineLoop(c, u);
    DetailLoop(SetHeadline(c, u), u);
  }

  lemma SetHeadlineEffect(c: PendingConversation, u: ConversationUpdate)
    ensures var t := SetHeadline(c, u);
      && t.nulledColumn == (c.nulledColumn || SendsNull(u.title) || SendsNull(u.date) || SendsNull(u.location) || SendsNull(u.summary))
      && (!(SendsNull(u.title) || SendsNull(u.date) || SendsNull(u.location) || SendsNull(u.summary)) ==>
            t.row == c.row.(title := MergedRequired(u.title, c.row.title), date := MergedRequired(u.date, c.row.date),
                            location := MergedRequired(u.location, c.row.location), summary := MergedRequired(u.summary, c.row.summary)))
  {
  }

  lemma SetDetailEffect(c: PendingConversation, u: ConversationUpdate)
    ensures var t := SetDetail(c, u);
      && t.nulledColumn == (c.nulledColumn || SendsNull(u.personId))
      && (!SendsNull(u.personId) ==>
            t.row == c.row.(keyPoints := Merged(u.keyPoints, c.row.keyPoints), fullTranscript := Merged(u.fullTranscript, c.row.fullTranscript),
                            personId := MergedRequired(u.personId, c.row.personId), participants := Merged(u.participants, c.row.participants)))
  {
  }

  /** The patch sends null for one of the NOT NULL columns `title`, `date`, `location`, `summary`, `person_id`. */
  predicate NullsRequiredColumn(u: ConversationUpdate) {
    SendsNull(u.title) || SendsNull(u.date) || SendsNull(u.location) || SendsNull(u.summary) || SendsNull(u.personId)
  }

  /**
   * The merge-patch a `ConversationUpdate` stands for, field by field: the row it leaves,
   * or the integrity error the commit raises when a NOT NULL column is sent null or
   * `person_id` is set to a key that is not in `people`.
   */
  function PatchConversation(c: Conversation, u: ConversationUpdate, personIds: set<string>): (r: Result<Conversation, Error>)
    ensures NullsRequiredColumn(u) ==> r == Err(IntegrityError(Conversations))
    ensures !NullsRequiredColumn(u) ==> (r.Ok? <==> MergedRequired(u.personId, c.personId) in personIds)
    ensures r.Err? ==> r.error == IntegrityError(Conversations)
    ensures r.Ok? ==> r.value.id == c.id && r.value.createdAt == c.createdAt && r.value.personId in personIds
    ensures r.Ok? ==> (u.title.Unset? ==> r.value.title == c.title) && (u.date.Unset? ==> r.value.date == c.date)
    ensures r.Ok? ==> (u.location.Unset? ==> r.value.location == c.location) && (u.summary.Unset? ==> r.value.summary == c.summary)
    ensures r.Ok? ==> (u.keyPoints.Unset? ==> r.value.keyPoints == c.keyPoints) && (u.fullTranscript.Unset? ==> r.value.fullTranscript == c.fullTranscript)
    ensures r.Ok? ==> (u.personId.Unset? ==> r.value.personId == c.personId) && (u.participants.Unset? ==> r.value.participants == c.participants)
    ensures r.Ok? ==> (u.title.Supplied? ==> Some(r.value.title) == u.title.value) && (u.date.Supplied? ==> Some(r.value.date) == u.date.value)
    ensures r.Ok? ==> (u.location.Supplied? ==> Some(r.value.location) == u.location.value) && (u.summary.Supplied? ==> Some(r.value.summary) == u.summary.value)
    ensures r.Ok? ==> (u.keyPoints.Supplied? ==> r.value.keyPoints == u.keyPoints.value) && (u.fullTranscript.Supplied? ==> r.value.fullTranscript == u.fullTranscript.value)
    ensures r.Ok? ==> (u.personId.Supplied? ==> Some(r.value.personId) == u.personId.value) && (u.participants.Supplied? ==> r.value.participants == u.participants.value)
  {
    if NullsRequiredColumn(u) then Err(IntegrityError(Conversations))
    else
      var row := Conversation(
        c.id,
        MergedRequired(u.personId, c.personId),
        Merged(u.participants, c.participants),
        MergedRequired(u.title, c.title),
        MergedRequired(u.date, c.date),
        MergedRequired(u.location, c.location),
        MergedRequired(u.summary, c.summary),
        Merged(u.keyPoints, c.keyPoints),
        Merged(u.fullTranscript, c.fullTranscript),
        c.createdAt);
      if row.personId in personIds then Ok(row) else Err(IntegrityError(Conversations))
  }

  /** The `setattr` loop over the dumped update, then the commit's checks, is the merge-patch. */
  lemma ConversationSetAttrLoopIsPatch(c: Conversation, u: ConversationUpdate, personIds: set<string>)
    ensures var done := Fold(SetAttr, PendingConversation(c, false), u.ModelDump());
      PatchConversation(c, u, personIds) ==
        if done.nulledColumn || done.row.personId !in personIds then Err(IntegrityError(Conversations)) else Ok(done.row)
  {
    var c0 := PendingConversation(c, false);
    ConversationLoopByField(c0, u);
    SetHeadlineEffect(c0, u);
    SetDetailEffect(SetHeadline(c0, u), u);
  }

  /** Sending the same conversation patch a second time changes nothing more. */
  lemma PatchConversationIdempotent(c: Conversation, u: ConversationUpdate, personIds: set<string>)
    requires PatchConversation(c, u, personIds).Ok?
    ensures PatchConversation(PatchConversation(c, u, personIds).value, u, personIds) == PatchConversation(c, u, personIds)
  {
  }

  /**
   * `update_conversation`: NotFound for an unknown key; otherwise the merge-patch of the
   * sent fields, or an integrity error and no change. Only the conversations table can
   * change: the items and every person's `met_count` and `last_met` stay as they are, even
   * when `date` or `person_id` is changed.
   */
  method UpdateConversation(db: Session, conversationId: string, u: ConversationUpdate)
    returns (r: Result<ConversationDetail, Error>)
    requires db.Valid()
    modifies db`conversations
    ensures db.Valid()
    ensures conversationId !in old(db.conversations) ==>
      r == Err(NotFound(Conversations, conversationId)) && db.conversations == old(db.conversations)
    ensures conversationId in old(db.conversations) ==>
      var patched := PatchConversation(old(db.conversations)[conversationId], u, db.people.Keys);
      && (patched.Err? ==> r == Err(patched.error) && db.conversations == old(db.conversations))
      && (patched.Ok? ==> db.conversations == old(db.conversations)[conversationId := patched.value]
                          && r == Ok(db.Detail(conversationId)))
  {
    if conversationId !in db.conversations {
      return Err(NotFound(Conversations, conversationId));
    }
    var start := PendingConversation(db.conversations[conversationId], false);
    var dbConversation := ApplyConversationUpdate(start, u.ModelDump());
    ConversationSetAttrLoopIsPatch(start.row, u, db.people.Keys);
    if dbConversation.nulledColumn || dbConversation.row.personId !in db.people {
      return Err(IntegrityError(Conversations));
    }
    ghost var people0, personOrder0, conversations0, order0 := db.people, db.personOrder, db.conversations, db.conversationOrder;
    ghost var items0, itemOrder0, clock0 := db.actionItems, db.itemOrder, db.clock;
    db.conversations := db.conversations[conversationId := dbConversation.row];
    assert db.people == people0 && db.personOrder == personOrder0 && db.conversationOrder == order0;
    assert db.actionItems == items0 && db.itemOrder == itemOrder0 && db.clock == clock0;
    UpdatedConsistent(people0, personOrder0, conversations0, order0, items0, itemOrder0, clock0, dbConversation.row, db.conversations);
    r := Ok(db.Detail(conversationId));
  }

  /** The `setattr` loop of `update_conversation` over the dumped fields, in order. */
  method ApplyConversationUpdate(start: PendingConversation, updateData: seq<ConversationAssignment>)
    returns (p: PendingConversation)
    ensures p == Fold(SetAttr, start, updateData)
  {
    p := start;
    for i := 0 to |updateData|
      invariant p == Fold(SetAttr, start, updateData[..i])
    {
      assert updateData[..i + 1][..i] == updateData[..i];
      p := SetAttr(p, updateData[i]);
    }
    assert updateData[..|updateData|] == updateData;
  }

  /** Replacing a conversation by a row with the same key and stamp and a stored person keeps every constraint. */
  lemma UpdatedConsistent(
    people: map<string, Person>, personOrder: seq<string>,
    conversations: map<string, Conversation>, conversationOrder: seq<string>,
    actionItems: map<string, ActionItem>, itemOrder: seq<string>, clock: nat,
    row: Conversation, conversations': map<string, Conversation>)
    requires Consistent(people, personOrder, conversations, conversationOrder, actionItems, itemOrder, clock)
    requires row.id in conversations && row.createdAt == conversations[row.id].createdAt && row.personId in people
    requires conversations' == conversations[row.id := row]
    ensures Consistent(people, personOrder, conversations', conversationOrder, actionItems, itemOrder, clock)
  {
    AscendingStamps(conversationOrder, conversations, conversations');
  }

  // ----- Deleting a conversation -----

  /**
   * `delete_conversation`: NotFound for an unknown key; otherwise the conversation goes
   * and, by the delete-orphan cascade, every item it owns with it. Other conversations,
   * their items and every person are kept.
   */
  method DeleteConversation(db: Session, conversationId: string) returns (r: Result<(), Error>)
    requires db.Valid()
    modifies db`conversations, db`conversationOrder, db`actionItems, db`itemOrder
    ensures db.Valid()
    ensures r.Err? <==> conversationId !in old(db.conversations)
    ensures r.Err? ==>
      && r.error == NotFound(Conversations, conversationId)
      && db.conversations == old(db.conversations) && db.actionItems == old(db.actionItems)
      && db.conversationOrder == old(db.conversationOrder) && db.itemOrder == old(db.itemOrder)
    ensures r.Ok? ==>
      && db.conversations == old(db.conversations) - {conversationId}
      && db.actionItems == WithoutItemsOf(old(db.actionItems), conversationId)
      && db.conversationOrder == Restrict(old(db.conversationOrder), db.conversations.Keys)
      && db.itemOrder == Restrict(old(db.itemOrder), db.actionItems.Keys)
  {
    if conversationId !in db.conversations {
      return Err(NotFound(Conversations, conversationId));
    }
    ghost var conversations0, order0, items0, itemOrder0 := db.conversations, db.conversationOrder, db.actionItems, db.itemOrder;
    db.conversations := db.conversations - {conversationId};
    db.actionItems := WithoutItemsOf(db.actionItems, conversationId);
    db.conversationOrder := Restrict(db.conversationOrder, db.conversations.Keys);
    db.itemOrder := Restrict(db.itemOrder, db.actionItems.Keys);
    DeletedConsistent(db, conversations0, order0, items0, itemOrder0, conversationId);
    r := Ok(());
  }

  /** The tables `delete_conversation` commits keep every constraint: no item is left without its conversation. */
  lemma DeletedConsistent(
    db: Session, conversations: map<string, Conversation>, conversationOrder: seq<string>,
    actionItems: map<string, ActionItem>, itemOrder: seq<string>, cid: string)
    requires Consistent(db.people, db.personOrder, conversations, conversationOrder, actionItems, itemOrder, db.clock)
    requires db.conversations == conversations - {cid} && db.actionItems == WithoutItemsOf(actionItems, cid)
    requires db.conversationOrder == Restrict(conversationOrder, db.conversations.Keys)
    requires db.itemOrder == Restrict(itemOrder, db.actionItems.Keys)
    ensures db.Valid()
  {
    DeletedConversationsConsistent(conversations, conversationOrder, db.clock, cid);
    DeletedItemsConsistent(actionItems, itemOrder, conversations, cid);
  }

  lemma DeletedConversationsConsistent(
    conversations: map<string, Conversation>, conversationOrder: seq<string>, clock: nat, cid: string)
    requires Indexes(conversationOrder, conversations) && ConversationsKeyed(conversations)
    requires Chronological(conversationOrder, conversations, clock)
    ensures var remaining := conversations - {cid};
      && Indexes(Restrict(conversationOrder, remaining.Keys), remaining)
      && Chronological(Restrict(conversationOrder, remaining.Keys), remaining, clock)
  {
    var remaining := conversations - {cid};
    RestrictDistinct(conversationOrder, remaining.Keys);
    RestrictAscending(conversationOrder, remaining.Keys, conversations);
    AscendingStamps(Restrict(conversationOrder, remaining.Keys), conversations, remaining);
  }

  lemma DeletedItemsConsistent(
    actionItems: map<string, ActionItem>, itemOrder: seq<string>, conversations: map<string, Conversation>, cid: string)
    requires Indexes(itemOrder, actionItems) && ItemsHaveConversations(actionItems, conversations)
    ensures var kept := WithoutItemsOf(actionItems, cid);
      && Indexes(Restrict(itemOrder, kept.Keys), kept)
      && ItemsHaveConversations(kept, conversations - {cid})
  {
    RestrictDistinct(itemOrder, WithoutItemsOf(actionItems, cid).Keys);
  }

  // ----- Updating an action item -----

  /** The item instance while the `setattr` loop runs, and whether `text` was given null. */
  datatype PendingItem = PendingItem(row: ActionItem, nulledColumn: bool)

  /** One `setattr(db_action_item, field, value)`; `completed` is nullable, `text` is not. */
  function SetItemAttr(p: PendingItem, a: ActionItemAssignment): (q: PendingItem)
    ensures q.row.id == p.row.id && q.row.conversationId == p.row.conversationId
    ensures q.nulledColumn <==> p.nulledColumn || (a.SetText? && a.text.None?)
  {
    match a
    case SetText(v) => if v.Some? then p.(row := p.row.(text := v.value)) else p.(nulledColumn := true)
    case SetCompleted(v) => p.(row := p.row.(completed := v))
  }

  /**
   * The merge-patch an `ActionItemUpdate` stands for: the row it leaves, or the integrity
   * error the commit raises when `text` is sent null. The key and the owning conversation
   * never change.
   */
  function PatchActionItem(a: ActionItem, u: ActionItemUpdate): (r: Result<ActionItem, Error>)
    ensures r.Err? <==> SendsNull(u.text)
    ensures r.Err? ==> r.error == IntegrityError(ActionItems)
    ensures r.Ok? ==> r.value.id == a.id && r.value.conversationId == a.conversationId
    ensures r.Ok? ==> (u.text.Unset? ==> r.value.text == a.text) && (u.completed.Unset? ==> r.value.completed == a.completed)
    ensures r.Ok? ==> (u.text.Supplied? ==> Some(r.value.text) == u.text.value) && (u.completed.Supplied? ==> r.value.completed == u.completed.value)
  {
    if SendsNull(u.text) then Err(IntegrityError(ActionItems))
    else Ok(a.(text := MergedRequired(u.text, a.text), completed := Merged(u.completed, a.completed)))
  }

  /** The item loop body run on the dump entries of one field, which are none or one. */
  function SetItemSent(p: PendingItem, e: seq<ActionItemAssignment>): PendingItem {
    if e == [] then p else SetItemAttr(p, e[0])
  }

  lemma ItemLoop(p: PendingItem, u: ActionItemUpdate)
    ensures Fold(SetItemAttr, p, u.ModelDump()) ==
      SetItemSent(SetItemSent(p, if u.text.Supplied? then [SetText(u.text.value)] else []),
                  if u.completed.Supplied? then [SetCompleted(u.completed.value)] else [])
  {
    var e1 := if u.text.Supplied? then [SetText(u.text.value)] else [];
    var e2 := if u.completed.Supplied? then [SetCompleted(u.completed.value)] else [];
    var d0: seq<ActionItemAssignment> := [];
    var t1 := SetItemSent(p, e1);
    FoldSent(SetItemAttr, p, d0, e1);
    var d1 := d0 + e1;
    var t2 := SetItemSent(t1, e2);
    FoldSent(SetItemAttr, p, d1, e2);
    assert d1 + e2 == u.ModelDump();
  }

  /** The `setattr` loop over the dumped item update is the merge-patch. */
  lemma ItemSetAttrLoopIsPatch(a: ActionItem, u: ActionItemUpdate)
    ensures var done := Fold(SetItemAttr, PendingItem(a, false), u.ModelDump());
      PatchActionItem(a, u) == if done.nulledColumn then Err(IntegrityError(ActionItems)) else Ok(done.row)
  {
    ItemLoop(PendingItem(a, false), u);
  }

  /** Marking an item completed twice leaves it as marking it once. */
  lemma PatchActionItemIdempotent(a: ActionItem, u: ActionItemUpdate)
    requires PatchActionItem(a, u).Ok?
    ensures PatchActionItem(PatchActionItem(a, u).value, u) == PatchActionItem(a, u)
  {
  }

  /**
   * `toggle_action_item`: NotFound unless `itemId` names an item of conversation
   * `conversationId` (an item of another conversation is NotFound too); otherwise the
   * merge-patch of that one item, and the whole conversation with its refreshed items.
   */
  method ToggleActionItem(db: Session, conversationId: string, itemId: string, u: ActionItemUpdate)
    returns (r: Result<ConversationDetail, Error>)
    requires db.Valid()
    modifies db`actionItems
    ensures db.Valid()
    ensures !(itemId in old(db.actionItems) && old(db.actionItems)[itemId].conversationId == conversationId) ==>
      r == Err(NotFound(ActionItems, itemId)) && db.actionItems == old(db.actionItems)
    ensures itemId in old(db.actionItems) && old(db.actionItems)[itemId].conversationId == conversationId ==>
      var patched := PatchActionItem(old(db.actionItems)[itemId], u);
      && (patched.Err? ==> r == Err(patched.error) && db.actionItems == old(db.actionItems))
      && (patched.Ok? ==> db.actionItems == old(db.actionItems)[itemId := patched.value]
                          && r == Ok(db.Detail(conversationId))
                          && patched.value in r.value.actionItems)
  {
    if !(itemId in db.actionItems && db.actionItems[itemId].conversationId == conversationId) {
      return Err(NotFound(ActionItems, itemId));
    }
    var start := PendingItem(db.actionItems[itemId], false);
    var dbActionItem := ApplyItemUpdate(start, u.ModelDump());
    ItemSetAttrLoopIsPatch(start.row, u);
    if dbActionItem.nulledColumn {
      return Err(IntegrityError(ActionItems));
    }
    ghost var people0, personOrder0, conversations0, order0 := db.people, db.personOrder, db.conversations, db.conversationOrder;
    ghost var items0, itemOrder0, clock0 := db.actionItems, db.itemOrder, db.clock;
    db.actionItems := db.actionItems[itemId := dbActionItem.row];
    assert db.people == people0 && db.personOrder == personOrder0 && db.conversations == conversations0;
    assert db.conversationOrder == order0 && db.itemOrder == itemOrder0 && db.clock == clock0;
    ItemUpdatedConsistent(people0, personOrder0, conversations0, order0, items0, itemOrder0, clock0, dbActionItem.row, db.actionItems);
    r := Ok(db.Detail(conversationId));
  }

  /** The `setattr` loop of `toggle_action_item` over the dumped fields, in order. */
  method ApplyItemUpdate(start: PendingItem, updateData: seq<ActionItemAssignment>) returns (p: PendingItem)
    ensures p == Fold(SetItemAttr, start, updateData)
  {
    p := start;
    for i := 0 to |updateData|
      invariant p == Fold(SetItemAttr, start, updateData[..i])
    {
      assert updateData[..i + 1][..i] == updateData[..i];
      p := SetItemAttr(p, updateData[i]);
    }
    assert updateData[..|updateData|] == updateData;
  }

  /** Replacing an item by a row with the same key and conversation keeps every constraint. */
  lemma ItemUpdatedConsistent(
    people: map<string, Person>, personOrder: seq<string>,
    conversations: map<string, Conversation>, conversationOrder: seq<string>,
    actionItems: map<string, ActionItem>, itemOrder: seq<string>, clock: nat,
    row: ActionItem, actionItems': map<string, ActionItem>)
    requires Consistent(people, personOrder, conversations, conversationOrder, actionItems, itemOrder, clock)
    requires row.id in actionItems && row.conversationId == actionItems[row.id].conversationId
    requires actionItems' == actionItems[row.id := row]
    ensures Consistent(people, personOrder, conversations, conversationOrder, actionItems', itemOrder, clock)
    ensures row.conversationId in conversations
  {
  }
}
