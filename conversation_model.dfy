/** The `conversations` and `action_items` tables of app/models/conversation.py. */
module ConversationModel {
  import opened Wrappers
  import Ids

  const ConversationIdPrefix: char := 'c'
  const ActionItemIdPrefix: char := 'a'

  /**
   * One row of `conversations`. `person_id`, `title`, `date`, `location` and `summary`
   * are NOT NULL; `participants`, `key_points` and `full_transcript` are nullable.
   * `createdAt` stands for the `created_at` server timestamp: a creation counter that
   * only grows.
   */
  datatype Conversation = Conversation(
    id: string,
    personId: string,
    participants: Option<seq<string>>,
    title: string,
    date: string,
    location: string,
    summary: string,
    keyPoints: Option<seq<string>>,
    fullTranscript: Option<string>,
    createdAt: nat)

  /**
   * One row of `action_items`. `conversation_id` and `text` are NOT NULL; the Boolean
   * `completed` column has a default but is nullable.
   */
  datatype ActionItem = ActionItem(
    id: string,
    conversationId: string,
    text: string,
    completed: Option<bool>)

  function NewConversationId(uuidHex: string): (id: string)
    requires Ids.IsUuidHex(uuidHex)
    ensures Ids.IsGeneratedId(id, ConversationIdPrefix) && id[1..] == uuidHex[..8]
  {
    Ids.NewId(ConversationIdPrefix, uuidHex)
  }

  function NewActionItemId(uuidHex: string): (id: string)
    requires Ids.IsUuidHex(uuidHex)
    ensures Ids.IsGeneratedId(id, ActionItemIdPrefix) && id[1..] == uuidHex[..8]
  {
    Ids.NewId(ActionItemIdPrefix, uuidHex)
  }

  /** The keys the `id` column default generates for a run of new items, one per UUID text. */
  function NewActionItemIds(uuidHexes: seq<string>): (ids: seq<string>)
    requires forall k :: 0 <= k < |uuidHexes| ==> Ids.IsUuidHex(uuidHexes[k])
    ensures |ids| == |uuidHexes|
    ensures forall k :: 0 <= k < |ids| ==> ids[k] == NewActionItemId(uuidHexes[k]) && Ids.IsGeneratedId(ids[k], ActionItemIdPrefix)
  {
    seq(|uuidHexes|, k requires 0 <= k < |uuidHexes| => NewActionItemId(uuidHexes[k]))
  }

  /**
   * `Conversation(...)` followed by the insert; a list keyword given as `None` here is
   * one left out of the call, so the `default=list` of its column applies.
   */
  function NewConversation(
    id: string, personId: string, participants: Option<seq<string>>, title: string,
    date: string, location: string, summary: string, keyPoints: Option<seq<string>>,
    fullTranscript: Option<string>, createdAt: nat): (c: Conversation)
    ensures c.id == id && c.personId == personId && c.title == title && c.date == date
    ensures c.location == location && c.summary == summary
    ensures c.fullTranscript == fullTranscript && c.createdAt == createdAt
    ensures c.participants == Some(if participants.Some? then participants.value else [])
    ensures c.keyPoints == Some(if keyPoints.Some? then keyPoints.value else [])
  {
    Conversation(id, personId, Some(participants.GetOr([])), title, date, location, summary,
                 Some(keyPoints.GetOr([])), fullTranscript, createdAt)
  }

  /** `ActionItem(...)` followed by the insert; `completed` left out means false. */
  function NewActionItem(id: string, conversationId: string, text: string, completed: Option<bool>): (a: ActionItem)
    ensures a.id == id && a.conversationId == conversationId && a.text == text
    ensures a.completed == Some(if completed.Some? then completed.value else false)
  {
    ActionItem(id, conversationId, text, Some(completed.GetOr(false)))
  }

  /** Python's `not item.completed`: an item is open unless it is stored as true (null counts as open). */
  predicate IsActive(item: ActionItem) {
    item.completed != Some(true)
  }

  /** `sum(1 for item in items if not item.completed)`. */
  function ActiveCount(items: seq<ActionItem>): (n: nat)
    ensures n <= |items|
    ensures n == |items| <==> forall k :: 0 <= k < |items| ==> IsActive(items[k])
  {
    if items == [] then 0
    else (if IsActive(items[0]) then 1 else 0) + ActiveCount(items[1..])
  }

  /** The positions of the open items: an independent description of the count. */
  function ActivePositions(items: seq<ActionItem>): set<nat> {
    set k: nat | k < |items| && IsActive(items[k])
  }

  /** The count equals the number of positions holding an open item. */
  lemma {:induction false} ActiveCountIsCardinality(items: seq<ActionItem>)
    ensures ActiveCount(items) == |ActivePositions(items)|
  {
    if items != [] {
      var tail := ActivePositions(items[1..]);
      ActiveCountIsCardinality(items[1..]);
      ShiftCardinality(tail);
      ActivePositionsCons(items);
      assert 0 !in Shift(tail);
    }
  }

  /** The open positions of a non-empty list: the head's, then the tail's moved right by one. */
  lemma ActivePositionsCons(items: seq<ActionItem>)
    requires items != []
    ensures ActivePositions(items) == (if IsActive(items[0]) then {0} else {}) + Shift(ActivePositions(items[1..]))
  {
    var tail := ActivePositions(items[1..]);
    var here: set<nat> := if IsActive(items[0]) then {0} else {};
    forall k: nat | k in ActivePositions(items) ensures k in here + Shift(tail) {
      if k > 0 {
        assert items[1..][k - 1] == items[k];
        assert k - 1 in tail;
      }
    }
    forall k: nat | k in here + Shift(tail) ensures k in ActivePositions(items) {
      if k in Shift(tail) {
        var j :| j in tail && k == j + 1;
        assert items[1..][j] == items[k];
      }
    }
  }

  /** Every position moved one place to the right. */
  function Shift(s: set<nat>): set<nat> {
    set k | k in s :: k + 1
  }

  lemma ShiftCardinality(s: set<nat>)
    ensures |Shift(s)| == |s|
  {
    if s != {} {
      var x :| x in s;
      var rest := s - {x};
      ShiftCardinality(rest);
      assert Shift(s) == Shift(rest) + {x + 1} by {
        forall y | y in Shift(s) ensures y in Shift(rest) + {x + 1} {
          var k :| k in s && y == k + 1;
          if k != x { assert k in rest; }
        }
      }
      assert x + 1 !in Shift(rest);
    }
  }

  /** Three items of which one is completed leave two that are active. */
  lemma ActiveCountExample(c: string)
    ensures ActiveCount([ActionItem("a1", c, "Send deck", Some(false)),
                         ActionItem("a2", c, "Intro to Marcus", Some(true)),
                         ActionItem("a3", c, "Book review", None)]) == 2
  {
  }
}
