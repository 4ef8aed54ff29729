/** The request and response shapes of app/schemas/conversation.py. */
module ConversationSchemas {
  import opened Wrappers
  import opened ConversationModel

  /** `ActionItemCreate`: a draft item; `completed` defaults to false. */
  datatype ActionItemCreate = ActionItemCreate(text: string, completed: bool)

  /** A draft that sends only its text. */
  function ActionItemDraft(text: string): (d: ActionItemCreate)
    ensures d.text == text && !d.completed
  {
    ActionItemCreate(text, false)
  }

  /**
   * `ActionItemUpdate`: only `text` and `completed`, both optional and nullable; there is
   * no `conversation_id`, so an item can never be moved to another conversation.
   */
  datatype ActionItemUpdate = ActionItemUpdate(text: Patch<Option<string>>, completed: Patch<Option<bool>>)
  {
    /** `model_dump(exclude_unset=True)`: the sent fields, in declaration order. */
    function ModelDump(): (d: seq<ActionItemAssignment>)
      ensures |d| <= 2 && (d == [] <==> text.Unset? && completed.Unset?)
    {
      (if text.Supplied? then [SetText(text.value)] else [])
      + (if completed.Supplied? then [SetCompleted(completed.value)] else [])
    }
  }

  datatype ActionItemAssignment =
    | SetText(text: Option<string>)
    | SetCompleted(completed: Option<bool>)

  /**
   * `ConversationCreate` (with the `ConversationBase` fields): `key_points`,
   * `participants` and `action_items` default to empty, `full_transcript` to null.
   */
  datatype ConversationCreate = ConversationCreate(
    personId: string,
    participants: seq<string>,
    title: string,
    date: string,
    location: string,
    summary: string,
    keyPoints: seq<string>,
    fullTranscript: Option<string>,
    actionItems: seq<ActionItemCreate>)

  /** A `ConversationCreate` body that sends only the required fields. */
  function ConversationCreateWithDefaults(
    personId: string, title: string, date: string, location: string, summary: string): (c: ConversationCreate)
    ensures c.participants == [] && c.keyPoints == [] && c.actionItems == [] && c.fullTranscript.None?
  {
    ConversationCreate(personId, [], title, date, location, summary, [], None, [])
  }

  /**
   * `ConversationUpdate`: every field optional and nullable; there is no
   * `action_items` field, so an update cannot touch the items.
   */
  datatype ConversationUpdate = ConversationUpdate(
    title: Patch<Option<string>>,
    date: Patch<Option<string>>,
    location: Patch<Option<string>>,
    summary: Patch<Option<string>>,
    keyPoints: Patch<Option<seq<string>>>,
    fullTranscript: Patch<Option<string>>,
    personId: Patch<Option<string>>,
    participants: Patch<Option<seq<string>>>)
  {
    /**
     * `model_dump(exclude_unset=True)`: one `(field, value)` entry per field the caller
     * sent, in declaration order, explicit nulls included.
     */
    function ModelDump(): (d: seq<ConversationAssignment>)
      ensures d == [] <==> this == NoConversationChanges
    {
      HeadlineEntries() + DetailEntries()
    }

    /** The entries of `title`, `date`, `location` and `summary`, all NOT NULL columns. */
    function HeadlineEntries(): seq<ConversationAssignment> {
      (if title.Supplied? then [SetTitle(title.value)] else [])
      + (if date.Supplied? then [SetDate(date.value)] else [])
      + (if location.Supplied? then [SetLocation(location.value)] else [])
      + (if summary.Supplied? then [SetSummary(summary.value)] else [])
    }

    /** The entries of `key_points`, `full_transcript`, `person_id` and `participants`. */
    function DetailEntries(): seq<ConversationAssignment> {
      (if keyPoints.Supplied? then [SetKeyPoints(keyPoints.value)] else [])
      + (if fullTranscript.Supplied? then [SetFullTranscript(fullTranscript.value)] else [])
      + (if personId.Supplied? then [SetPersonId(personId.value)] else [])
      + (if participants.Supplied? then [SetParticipants(participants.value)] else [])
    }
  }

  const NoConversationChanges: ConversationUpdate :=
    ConversationUpdate(Unset, Unset, Unset, Unset, Unset, Unset, Unset, Unset)

  datatype ConversationAssignment =
    | SetTitle(title: Option<string>)
    | SetDate(date: Option<string>)
    | SetLocation(location: Option<string>)
    | SetSummary(summary: Option<string>)
    | SetKeyPoints(keyPoints: Option<seq<string>>)
    | SetFullTranscript(fullTranscript: Option<string>)
    | SetPersonId(personId: Option<string>)
    | SetParticipants(participants: Option<seq<string>>)

  /**
   * `ConversationListResponse`: the listing summary, which carries the number of open
   * action items instead of the items, the key points or the transcript.
   */
  datatype ConversationListResponse = ConversationListResponse(
    id: string,
    personId: string,
    participants: seq<string>,
    title: string,
    date: string,
    location: string,
    summary: string,
    activeActionItemsCount: nat)

  /**
   * The summary `get_conversations` builds for one stored conversation; a null
   * participant list reads as empty (`conv.participants or []`).
   */
  function ToConversationListResponse(c: Conversation, activeCount: nat): (r: ConversationListResponse)
    ensures r.id == c.id && r.personId == c.personId && r.title == c.title && r.date == c.date
    ensures r.location == c.location && r.summary == c.summary && r.activeActionItemsCount == activeCount
    ensures r.participants == (if c.participants.Some? then c.participants.value else [])
  {
    ConversationListResponse(c.id, c.personId, c.participants.GetOr([]), c.title, c.date, c.location,
                             c.summary, activeCount)
  }
}
