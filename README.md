# ConversaBE record store, modelled in Dafny

ConversaBE is a FastAPI/SQLAlchemy back end that records people and the conversations
held with them. This project models its store and its handlers:

- **People.** Handlers to list, read, create, merge-patch and delete people.
- **Conversations.** Handlers to list, read, create, merge-patch and delete
  conversations, and to patch one action item of a conversation.
- **Declarations.** The model and schema declarations that fix the record shapes,
  defaults and key formats.
- **CORS setting.** The validator that turns a comma-separated CORS origin setting into
  a list.

The model is split into these modules, one per source file it models:

| module | models |
|---|---|
| `Database` | the store as a class `Session`. It holds three keyed tables (`people`, `conversations`, `action_items`), the row order of each, and a creation clock. Its invariant `Valid` holds the constraints the tables declare: keys match rows, every conversation references a stored person, and every action item references a stored conversation, so the delete-orphan cascade leaves no orphans. It also holds the bookkeeping that conversations are kept in creation order. |
| `PeopleRouter`, `ConversationsRouter` | each handler as a method on `Session`. A handler's single `commit` is one state transition, specified against the old state. Merge-patches run the handler's own `setattr` loop over `model_dump(exclude_unset=True)`, and that loop is proved equal to a field-by-field patch function. |
| `PersonModel`, `ConversationModel`, `Ids` | the row datatypes, the column defaults, the `p`/`c`/`a` + 8 hex digit key format, and the open-item count. |
| `PersonSchemas`, `ConversationSchemas` | the request, patch and response shapes. A patch field is `Unset` or `Supplied(v)`, where `v` may itself be null. |
| `Text`, `Config` | Python's `split(sep)` and `strip()`, the shared "split, then strip every piece" helper, and `parse_cors_origins` with the default origin list. |

Outcomes:
- The 404 responses are `Err(NotFound(table, id))`.
- A commit that the database would reject is `Err(IntegrityError(table))` and leaves the
  store unchanged. This happens when:
  - a NOT NULL column is sent an explicit null;
  - `person_id` is set to an unknown person;
  - a person who still has conversations is deleted.
- A commit that writes a value too large for an `Integer` column is
  `Err(OutOfRange(table))` and also leaves the store unchanged. PostgreSQL's `integer`
  holds 4 bytes, so creating a conversation for a person whose `met_count` is already
  2147483647 fails this way (app/models/person.py:20, app/routers/conversations.py:107-110).

Two behaviours of the code are worth knowing before reading the contracts:
- **`last_met` is always stripped.** When the date label has no bullet, the code
  (app/routers/conversations.py:108) still strips the whole label; it is not used
  verbatim. `ConversationsRouter.LastMetWithoutBullet` states this.
- **`met_count` is not the number of the person's conversations.**
  - create adds 1 (app/routers/conversations.py:107);
  - delete does not subtract;
  - an update may move a conversation to another person without touching either
    counter.

  The model proves what the code does: +1 on create, unchanged by every other handler.

## Model

| member | source | states |
|---|---|---|
| Config.ParseCorsOrigins | app/core/config.py:26-31 | A string is split on "," and each piece is stripped. There is one origin per comma plus one, none with surrounding whitespace or a comma. A list value is returned unchanged. |
| Config.CorsOrigins | app/core/config.py:19-24 | Without an override the setting is exactly the four declared localhost origins; with one it is the parsed override. |
| Config.ParseJoined | app/core/config.py:28-31 | Parsing the comma-joined text of stripped, comma-free origins gives back exactly those origins. |
| Config.DefaultOriginsClean | app/core/config.py:19-24 | No declared default origin has surrounding whitespace or a comma. |
| Config.DefaultOriginsRoundTrip | app/core/config.py:19-31 | The default origins written as one comma-separated string parse back to the same four origins, in order. |
| Text.AsciiSpaces | app/core/config.py:30 | Among ASCII characters, `IsSpace` (the set `str.strip()` removes) is exactly space, tab, newline, carriage return, vertical tab, form feed and 0x1c-0x1f; a comma is never whitespace. |
| Text.LeadingSpaces | app/core/config.py:30 | The number of leading whitespace characters: all of them are whitespace and the next character is not. |
| Text.TrailingSpaces | app/core/config.py:30 | The number of trailing whitespace characters: all of them are whitespace and the one before is not. |
| Text.TrimStart | app/core/config.py:30 | `lstrip()`: the result is a suffix of the input, everything cut off is whitespace, and it does not start with whitespace. |
| Text.TrimEnd | app/core/config.py:30 | `rstrip()`: the result is a prefix of the input, everything cut off is whitespace, and it does not end with whitespace. |
| Text.Strip | app/core/config.py:30 | `strip()`: the result is no longer than the input and neither starts nor ends with whitespace. |
| Text.StripCutsSpace | app/core/config.py:30 | What `strip()` keeps is a contiguous part of the input with only whitespace before and after it. |
| Text.StripStripped | app/core/config.py:30 | Stripping a string without surrounding whitespace returns it unchanged. |
| Text.StripPadded | app/routers/conversations.py:108 | Whitespace on both sides of a stripped string is exactly what `strip()` removes. |
| Text.TrimStartSpaces | app/core/config.py:30 | Leading whitespace before a non-whitespace character is exactly what `lstrip()` removes. |
| Text.TrimEndSpaces | app/core/config.py:30 | Trailing whitespace after a non-whitespace character is exactly what `rstrip()` removes. |
| Text.IndexOf | app/routers/conversations.py:108 | The position of the first occurrence of a character, or the length when it is absent. Nothing before that position is the character. |
| Text.Split | app/core/config.py:30 | `split(sep)` yields at least one piece and no piece contains the separator. |
| Text.SplitCount | app/core/config.py:30 | Splitting yields exactly one piece more than there are separators. |
| Text.JoinSplit | app/core/config.py:30 | Joining the pieces with the separator restores the input. |
| Text.SplitJoin | app/core/config.py:30 | Splitting a join of separator-free pieces returns the pieces. |
| Text.FirstPiece | app/routers/conversations.py:108 | `split(sep)[0]` is everything before the first separator, or the whole string when there is none. |
| Text.SplitStrip | app/core/config.py:30 | One stripped, separator-free piece per piece of `split(sep)`, in order, each the `strip()` of that piece. |
| Ids.NewId | app/models/person.py:12 | A generated key is the kind prefix followed by exactly 8 lower-case hex digits, the first 8 of the UUID's hex text. |
| Ids.NewIdCollision | app/models/conversation.py:33 | Two generated keys of one kind coincide exactly when their UUIDs share the first 8 hex digits. |
| PersonModel.NewPersonId | app/models/person.py:12 | A person key is "p" followed by 8 hex digits. |
| PersonModel.NewPerson | app/models/person.py:12-20 | A new person keeps the given key, name, role and context. `avatar_color` defaults to "bg-indigo-200" and the two lists default to empty. `last_met` is unset and `met_count` is 0. |
| ConversationModel.NewConversationId | app/models/conversation.py:12 | A conversation key is "c" followed by 8 hex digits. |
| ConversationModel.NewActionItemId | app/models/conversation.py:33 | An action-item key is "a" followed by 8 hex digits. |
| ConversationModel.NewActionItemIds | app/models/conversation.py:33 | One generated action-item key per UUID text, in order, each "a" followed by 8 hex digits. |
| ConversationModel.NewConversation | app/models/conversation.py:12-20 | A new conversation keeps every given column. `participants` and `key_points` default to empty lists. |
| ConversationModel.NewActionItem | app/models/conversation.py:33-36 | A new action item keeps its key, conversation and text; `completed` defaults to false. |
| ConversationModel.ActiveCount | app/routers/conversations.py:37 | The open-item count is at most the number of items, and equals it exactly when every item is open. |
| ConversationModel.ActiveCountIsCardinality | app/routers/conversations.py:37 | The count equals the number of positions holding an item that is not completed. |
| ConversationModel.ActivePositionsCons | app/routers/conversations.py:37 | The open positions of a list are the head's, then the tail's moved one place right. |
| ConversationModel.ActiveCountExample | app/routers/conversations.py:37 | Three items, one completed, one false and one null, count two open. |
| ConversationSchemas.ActionItemDraft | app/schemas/conversation.py:6-12 | A draft sending only its text is not completed. |
| ConversationSchemas.ActionItemUpdate.ModelDump | app/schemas/conversation.py:15-17 | The dump of an item patch has at most two entries, for `text` and `completed`, and is empty exactly when neither was sent. |
| ConversationSchemas.ConversationCreateWithDefaults | app/schemas/conversation.py:27-39 | A create body sending only the required fields has no participants, key points or action items, and no transcript. |
| ConversationSchemas.ConversationUpdate.ModelDump | app/schemas/conversation.py:42-50 | The dump of a conversation patch is empty exactly when no field was sent. |
| ConversationSchemas.ToConversationListResponse | app/routers/conversations.py:38-48 | A summary copies the listed columns, reads null participants as empty, and carries the open-item count instead of the items. |
| PersonSchemas.PersonCreateWithDefaults | app/schemas/person.py:6-18 | A create body sending only the required fields has empty interests and follow-ups and no face fields. |
| PersonSchemas.PersonUpdate.ModelDump | app/schemas/person.py:21-30 | The dump of a person patch is empty exactly when no field was sent. |
| PersonSchemas.ToPersonResponse | app/schemas/person.py:33-43 | A response copies every stored column. `has_face_data` is false and `physical_description` absent. |
| PersonSchemas.ToPersonListResponse | app/schemas/person.py:46-57 | A list summary exposes exactly id, name, role, avatar_color, last_met, met_count and context, with `has_face_data` false. |
| PersonSchemas.ResponseDeterminesRow | app/schemas/person.py:33-43 | Two stored people with the same response are the same row. |
| Database.Session.constructor | app/models/conversation.py:9-42 | An empty store satisfies every table constraint. |
| Database.Session.ItemsOf | app/models/conversation.py:27 | The `action_items` relationship holds exactly the stored items whose `conversation_id` is the conversation, each exactly once. |
| Database.ItemsInDistinct | app/models/conversation.py:27 | Listing every key at most once lists every item row at most once. |
| Database.Session.Detail | app/routers/conversations.py:182-183 | A conversation as returned: the stored row and its items. |
| Database.InsertAll | app/routers/conversations.py:98-104 | The `db.add` of each row keeps every old key and stores a row under every new row's key. |
| Database.InsertAllContents | app/routers/conversations.py:98-104 | Adding rows with distinct keys stores each new row under its key and keeps every other row. |
| Database.WithoutItemsOf | app/models/conversation.py:27 | The cascade removes exactly the items of the deleted conversation and keeps every other item unchanged. |
| Database.Page | app/routers/people.py:19 | `offset(skip).limit(limit)`: at most `limit` rows, the k-th being row `skip + k`, none when `skip` is past the end. |
| Database.PageDescending | app/routers/conversations.py:32 | A page of a newest-first list is newest first. |
| Database.NewestFirstOf | app/routers/conversations.py:28-32 | The selected keys in reverse creation order: each exactly once, each newer than the ones after it. |
| PeopleRouter.GetPeople | app/routers/people.py:12-20 | The page of at most `limit` people starting at `skip`, each as its list summary. |
| PeopleRouter.GetPerson | app/routers/people.py:23-35 | The stored person exactly when the key is known, otherwise NotFound. Nothing changes. |
| PeopleRouter.CreatePerson | app/routers/people.py:38-55 | Exactly one new person, under the generated key. It holds the six sent fields, with `met_count` 0 and `last_met` unset; no other person changes. |
| PeopleRouter.SetAttr | app/routers/people.py:74 | One `setattr` never changes `id`, `met_count` or `last_met`. It records a NOT NULL violation exactly when the entry gives null to `name`, `role`, `avatar_color` or `context`. A face field changes nothing, and only `physical_description` touches that instance attribute. |
| PeopleRouter.PatchPerson | app/routers/people.py:72-74 | Sent fields overwrite, with the sent value, and unsent fields are kept. `id`, `met_count` and `last_met` never change. An explicit null on a NOT NULL column is an integrity error. |
| PeopleRouter.UpdatedResponse | app/routers/people.py:76-78 | The response after an update carries every stored column of the row and the sent `physical_description`; `has_face_data` is false. |
| PeopleRouter.SetRequiredColumnsEffect | app/routers/people.py:73-74 | The loop over the NOT NULL columns' entries merges them, or records an explicit null. |
| PeopleRouter.SetOtherFieldsEffect | app/routers/people.py:73-74 | The loop over the other entries merges the two lists and keeps the face fields off the row. |
| PeopleRouter.SetAttrLoopByField | app/routers/people.py:73-74 | The loop over the whole dump applies the entries field group by field group. |
| PeopleRouter.RequiredColumnsLoop | app/routers/people.py:73-74 | The loop over the NOT NULL columns' entries equals applying each sent field in turn. |
| PeopleRouter.OtherFieldsLoop | app/routers/people.py:73-74 | The loop over the other entries equals applying each sent field in turn. |
| PeopleRouter.SetAttrLoopIsPatch | app/routers/people.py:72-74 | The `setattr` loop over `model_dump(exclude_unset=True)` leaves exactly the merge-patched row, or marks the NOT NULL violation. |
| PeopleRouter.PatchPersonIdempotent | app/routers/people.py:72-74 | Applying the same person patch twice gives the same row as applying it once. |
| PeopleRouter.EmptyPatchKeepsRow | app/routers/people.py:72-74 | A patch that sends nothing leaves the row as it is. |
| PeopleRouter.NameOnlyPatch | app/routers/people.py:72-74 | A patch sending only `name` changes only the name. |
| PeopleRouter.UpdatePerson | app/routers/people.py:58-78 | Unknown key: NotFound, nothing changes. Otherwise only that person becomes its merge-patch; or an integrity error with nothing changed. |
| PeopleRouter.DeletePerson | app/routers/people.py:81-96 | Unknown key: NotFound. A person with conversations: an integrity error. Either way nothing changes. Otherwise exactly that person is removed and the other people keep their order. |
| ConversationsRouter.LastMet | app/routers/conversations.py:108 | `last_met` is the stripped part of the date label before its first bullet. It has no surrounding whitespace and no bullet. |
| ConversationsRouter.LastMetWithoutBullet | app/routers/conversations.py:108 | A label without a bullet becomes `last_met` as a whole, stripped. |
| ConversationsRouter.LastMetOfDayAndTime | app/routers/conversations.py:108 | A label "<day> • <time>", such as "Jan 16 • 2:30 PM", records the day alone ("Jan 16"). |
| ConversationsRouter.RecordMeeting | app/routers/conversations.py:107-108 | `met_count` goes up by exactly 1 and `last_met` becomes the day; every other column is kept. This is Python's unbounded `+= 1`: whether the result fits the column is checked by `CreateConversation`. |
| ConversationsRouter.DraftedItems | app/routers/conversations.py:98-104 | One row per draft, in input order, under its generated key. Each is bound to the new conversation and carries the draft's text and completion. |
| ConversationsRouter.ConversationFromBody | app/routers/conversations.py:84-93 | The new conversation carries every input field of the create body. |
| ConversationsRouter.CreateConversation | app/routers/conversations.py:69-112 | Unknown person: NotFound, and no table, order or clock changes. A person whose `met_count` + 1 does not fit a 4-byte integer: OutOfRange, and again nothing changes. Otherwise one atomic step: exactly one new conversation with the input fields, under the key generated from its UUID text; exactly the drafted items added, in input order; and only the referenced person changes, with `met_count` + 1 and `last_met` from the date. It returns the conversation with its items. |
| ConversationsRouter.CommitCreated | app/routers/conversations.py:106-110 | The commit makes the conversation, its items and the meeting visible together, keeps every constraint, and lists exactly the new rows as the conversation's items. |
| ConversationsRouter.AddItems | app/routers/conversations.py:97-104 | The loop over the drafts adds exactly the drafted rows, with their keys appended in input order. |
| ConversationsRouter.CreatedConsistent | app/routers/conversations.py:94-110 | The tables after a create keep every constraint. The new conversation's listed items are exactly the new rows. |
| ConversationsRouter.CreatedItemsListed | app/routers/conversations.py:98-104 | Items listed for the new conversation are the new rows, in input order. |
| ConversationsRouter.CreatedConversationConsistent | app/routers/conversations.py:84-95 | Inserting the new conversation keeps keys, the person reference and creation order. |
| ConversationsRouter.CreatedItemsConsistent | app/routers/conversations.py:97-104 | Inserting the new items keeps keys and the conversation reference, and leaves old items untouched. |
| ConversationsRouter.Selected | app/routers/conversations.py:26-29 | A non-empty person filter selects exactly that person's conversations; a missing or empty one selects all. |
| ConversationsRouter.NewestFirst | app/routers/conversations.py:28-32 | `order_by(created_at.desc())` over the filter: every selected conversation exactly once, and nothing else, newest first. |
| ConversationsRouter.Listed | app/routers/conversations.py:28-32 | A listed page holds `limit` conversations, or fewer when the selection runs out after `skip` (none when `skip` is past its end). All of them match the filter, newest first. Its k-th entry is entry `skip + k` of the newest-first selection. |
| ConversationsRouter.GetConversations | app/routers/conversations.py:18-51 | One summary per listed conversation, in listed order, each with its count of open items. |
| ConversationsRouter.ActiveCountOfDistinct | app/routers/conversations.py:37 | In a list holding each item key once, the open-item count is the number of keys of open items. |
| ConversationsRouter.ActiveItemsCountIsStoredRows | app/routers/conversations.py:36-47 | A summary's `active_action_items_count` is the number of stored items of that conversation whose `completed` is not true, counted one per row. |
| ConversationsRouter.Summaries | app/routers/conversations.py:35-49 | The result-building loop yields one summary per key, in order. |
| ConversationsRouter.GetConversation | app/routers/conversations.py:54-66 | When the key is known, the stored conversation as `Session.Detail` gives it: its row and each of its stored items exactly once. Otherwise NotFound. |
| ConversationsRouter.HeadlineLoop | app/routers/conversations.py:130-131 | The loop over the title, date, location and summary entries applies each sent field in turn. |
| ConversationsRouter.DetailLoop | app/routers/conversations.py:130-131 | The loop over the key points, transcript, person and participants entries applies each sent field in turn. |
| ConversationsRouter.ConversationLoopByField | app/routers/conversations.py:130-131 | The loop over the whole dump applies the entries field group by field group. |
| ConversationsRouter.SetHeadlineEffect | app/routers/conversations.py:130-131 | The headline entries merge into the row, or an explicit null is recorded. |
| ConversationsRouter.SetDetailEffect | app/routers/conversations.py:130-131 | The other entries merge into the row, or an explicit null `person_id` is recorded. |
| ConversationsRouter.SetAttr | app/routers/conversations.py:131 | One `setattr` never changes the key or the creation stamp. It records a NOT NULL violation exactly when the entry gives null to `title`, `date`, `location`, `summary` or `person_id`. |
| ConversationsRouter.PatchConversation | app/routers/conversations.py:129-133 | Sent fields overwrite, with the sent value, and unsent fields are kept; key and creation stamp never change. An explicit null on a NOT NULL column, or an unknown `person_id`, is an integrity error. |
| ConversationsRouter.ConversationSetAttrLoopIsPatch | app/routers/conversations.py:129-133 | The `setattr` loop followed by the commit's checks gives exactly the merge-patch. |
| ConversationsRouter.PatchConversationIdempotent | app/routers/conversations.py:129-131 | Applying the same conversation patch twice gives the same row as applying it once. |
| ConversationsRouter.UpdateConversation | app/routers/conversations.py:115-135 | Unknown key: NotFound. Otherwise only that conversation becomes its merge-patch; or an integrity error with nothing changed. Items and every person's counters are untouched, even when `date` or `person_id` change. |
| ConversationsRouter.ApplyConversationUpdate | app/routers/conversations.py:129-131 | The `setattr` loop applies the dumped entries in order. |
| ConversationsRouter.UpdatedConsistent | app/routers/conversations.py:129-133 | Replacing a conversation by a row with the same key and stamp and a stored person keeps every constraint. |
| ConversationsRouter.DeleteConversation | app/routers/conversations.py:138-153 | Unknown key: NotFound, nothing changes. Otherwise exactly that conversation and every item it owns go. Other conversations, their items and every person are kept, and row order is preserved. |
| ConversationsRouter.DeletedConsistent | app/routers/conversations.py:151-152 | The tables after a delete keep every constraint; no item outlives its conversation. |
| ConversationsRouter.DeletedConversationsConsistent | app/routers/conversations.py:151 | Removing a conversation keeps the rest in creation order. |
| ConversationsRouter.DeletedItemsConsistent | app/models/conversation.py:27 | After the cascade every remaining item references a remaining conversation. |
| ConversationsRouter.SetItemAttr | app/routers/conversations.py:177 | One `setattr` on an item never changes its key or its conversation. It records a NOT NULL violation exactly when `text` is given null. |
| ConversationsRouter.PatchActionItem | app/routers/conversations.py:175-179 | Sent `text`/`completed` overwrite and unsent ones are kept. The key and the owning conversation never change. An explicit null `text` is an integrity error. |
| ConversationsRouter.ItemLoop | app/routers/conversations.py:176-177 | The loop over the item dump applies the sent `text`, then the sent `completed`. |
| ConversationsRouter.ItemSetAttrLoopIsPatch | app/routers/conversations.py:175-177 | The `setattr` loop over the dumped item update is exactly the item merge-patch. |
| ConversationsRouter.PatchActionItemIdempotent | app/routers/conversations.py:175-177 | Applying the same item patch twice gives the same row as applying it once. |
| ConversationsRouter.ToggleActionItem | app/routers/conversations.py:156-183 | NotFound unless the item exists and belongs to that conversation; an item of another conversation is NotFound too. Otherwise only that item becomes its merge-patch, and the returned conversation's items include the patched row; or an integrity error with nothing changed. |
| ConversationsRouter.ApplyItemUpdate | app/routers/conversations.py:175-177 | The item `setattr` loop applies the dumped entries in order. |
| ConversationsRouter.ItemUpdatedConsistent | app/routers/conversations.py:175-179 | Replacing an item by a row with the same key and conversation keeps every constraint. |

## Left out

- **HTTP plumbing.** FastAPI routing, status codes, session injection, `refresh`, response validation and the CORS middleware are left out. A 404 is `NotFound` and a 204 is `Ok(())`.
- **Timestamps.** `created_at` and `updated_at` come from the database clock. The model keeps a counter that grows by one per created conversation; `updated_at` is not modelled.
- **Random keys.** The UUID text behind each key comes from a library, so `CreatePerson` and `CreateConversation` take the UUID hex texts as parameters. They build the keys from them as the column defaults do. The built keys are required to be new to their table, and new item keys to differ from each other; the database's reaction to a colliding key is not modelled.
- **Order of people.** The database gives people no defined order. The model lists them in insertion order.
- **Order of action items.** The `action_items` relationship has no `order_by`, so the database gives a conversation's items no defined order; it does give each stored item exactly once, and so does the model. `Session.ItemsOf` and `Session.Detail` list them in insertion order. The "input order" that `CreateConversation`, `CreatedItemsListed` and `ToggleActionItem` promise is this choice of the model.
- **Query defaults.** `skip = 0` and `limit = 100` (app/routers/people.py:14-15, app/routers/conversations.py:20-21) are filled in by the request layer; the handlers take `skip` and `limit` as arguments.
- **Negative `skip`/`limit`.** The database rejects these; the model takes them as natural numbers.
- **Face fields.** Face matching, embeddings, thumbnails and their base64 handling are left out. The stored model has no columns for them: `create_person` drops them, and `update_person` sets them on the instance only. Only the declared default `has_face_data = False` is modelled.
- **`met_count` as the number of conversations.** This invariant is not modelled because the code does not keep it (see above). Only "+1 on create, unchanged otherwise" is proved.
- **Deleting a person who still has conversations.** The relationship has no cascade and `person_id` is NOT NULL. The model treats this delete as an integrity error that changes nothing; it does not cascade.
- **Concurrency.** Lost updates between concurrent requests are not modelled; the store has a single writer.
- **Other settings.** `Settings` fields other than `CORS_ORIGINS`, loading from `.env`, and `app/main.py` are not part of this model.
