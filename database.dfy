/**
 * The record store behind the routers: the three tables, kept in memory. A `Session`
 * stands for the SQLAlchemy session each handler receives; every router method below
 * is one handler whose single `commit` is one state transition of the session.
 */
module Database {
  import opened Wrappers
  import opened PersonModel
  import opened ConversationModel

  datatype Table = People | Conversations | ActionItems

  /**
   * The ways a handler fails: a key that does not resolve (the 404 responses); a
   * commit the database rejects because a NOT NULL or FOREIGN KEY constraint of the
   * named table would be broken; or a commit that writes a value too large for an
   * integer column of the named table.
   */
  datatype Error =
    | NotFound(table: Table, id: string)
    | IntegrityError(table: Table)
    | OutOfRange(table: Table)

  /** A conversation row together with its `action_items` relationship, as handlers return it. */
  datatype ConversationDetail = ConversationDetail(conversation: Conversation, actionItems: seq<ActionItem>)

  predicate Distinct(s: seq<string>) {
    forall i, j :: 0 <= i < j < |s| ==> s[i] != s[j]
  }

  /** `order` lists every key of `m` exactly once: the table's row order. */
  ghost predicate Indexes<T>(order: seq<string>, m: map<string, T>) {
    Distinct(order) && forall k :: k in m <==> k in order
  }

  ghost predicate PeopleKeyed(people: map<string, Person>) {
    forall k :: k in people ==> people[k].id == k
  }

  ghost predicate ConversationsKeyed(conversations: map<string, Conversation>) {
    forall k :: k in conversations ==> conversations[k].id == k
  }

  ghost predicate ItemsKeyed(items: map<string, ActionItem>) {
    forall k :: k in items ==> items[k].id == k
  }

  /** `conversations.person_id` is NOT NULL and references `people.id`. */
  ghost predicate ConversationsHavePeople(conversations: map<string, Conversation>, people: map<string, Person>) {
    forall k :: k in conversations ==> conversations[k].personId in people
  }

  /**
   * `action_items.conversation_id` is NOT NULL and references `conversations.id`; with
   * the delete-orphan cascade no item outlives its conversation.
   */
  ghost predicate ItemsHaveConversations(items: map<string, ActionItem>, conversations: map<string, Conversation>) {
    forall k :: k in items ==> items[k].conversationId in conversations
  }

  /** The keys of `order` name stored conversations, each created after the one before it. */
  ghost predicate Ascending(order: seq<string>, conversations: map<string, Conversation>) {
    && (forall x :: x in order ==> x in conversations)
    && (forall i, j :: 0 <= i < j < |order| ==> Stamp(conversations, order[i]) < Stamp(conversations, order[j]))
  }

  /** The `created_at` of a stored conversation. */
  function Stamp(conversations: map<string, Conversation>, k: string): int {
    if k in conversations then conversations[k].createdAt else -1
  }

  /** Rows are kept in creation order and every `created_at` lies before the clock. */
  ghost predicate Chronological(order: seq<string>, conversations: map<string, Conversation>, clock: nat) {
    && Ascending(order, conversations)
    && (forall k :: k in conversations ==> conversations[k].createdAt < clock)
  }

  /** A key older than every key of an ascending list can go in front of it. */
  lemma ConsAscending(x: string, rest: seq<string>, conversations: map<string, Conversation>)
    requires x in conversations && Ascending(rest, conversations)
    requires forall y :: y in rest ==> Stamp(conversations, x) < Stamp(conversations, y)
    ensures Ascending([x] + rest, conversations)
  {
    var r := [x] + rest;
    forall i, j | 0 <= i < j < |r| ensures Stamp(conversations, r[i]) < Stamp(conversations, r[j]) {
      assert r[j] == rest[j - 1];
      if i > 0 {
        assert r[i] == rest[i - 1];
      }
    }
  }

  /** The keys of `order` that are in `keep`, in their order. */
  function Restrict(order: seq<string>, keep: set<string>): (r: seq<string>)
    ensures forall x :: x in r <==> x in order && x in keep
    ensures |r| <= |order|
  {
    if order == [] then []
    else (if order[0] in keep then [order[0]] else []) + Restrict(order[1..], keep)
  }

  lemma {:induction false} RestrictDistinct(order: seq<string>, keep: set<string>)
    requires Distinct(order)
    ensures Distinct(Restrict(order, keep))
  {
    if order != [] {
      RestrictDistinct(order[1..], keep);
      assert order[0] !in order[1..];
    }
  }

  /** Picking keys out of a creation-ordered list keeps it creation-ordered. */
  lemma {:induction false} RestrictAscending(order: seq<string>, keep: set<string>, conversations: map<string, Conversation>)
    requires Ascending(order, conversations)
    ensures Ascending(Restrict(order, keep), conversations)
  {
    if order != [] {
      var tail := order[1..];
      assert Ascending(tail, conversations) by {
        forall i, j | 0 <= i < j < |tail| ensures Stamp(conversations, tail[i]) < Stamp(conversations, tail[j]) {
          assert tail[i] == order[i + 1] && tail[j] == order[j + 1];
        }
      }
      var rest := Restrict(tail, keep);
      RestrictAscending(tail, keep, conversations);
      if order[0] in keep {
        forall y | y in rest ensures Stamp(conversations, order[0]) < Stamp(conversations, y) {
          var j :| 0 <= j < |tail| && tail[j] == y;
          assert order[j + 1] == y;
        }
        ConsAscending(order[0], rest, conversations);
      }
    }
  }

  /** A key newer than every key of an ascending list can go at its end. */
  lemma SnocAscending(order: seq<string>, x: string, conversations: map<string, Conversation>)
    requires x in conversations && Ascending(order, conversations)
    requires forall y :: y in order ==> Stamp(conversations, y) < Stamp(conversations, x)
    ensures Ascending(order + [x], conversations)
  {
    var r := order + [x];
    forall i, j | 0 <= i < j < |r| ensures Stamp(conversations, r[i]) < Stamp(conversations, r[j]) {
      assert r[i] == order[i] && r[i] in order;
      if j < |order| {
        assert r[j] == order[j];
      }
    }
  }

  /** An ascending list that stays stored under a map with the same stamps stays ascending. */
  lemma AscendingStamps(order: seq<string>, before: map<string, Conversation>, after: map<string, Conversation>)
    requires Ascending(order, before)
    requires forall x :: x in order ==> x in after && after[x].createdAt == before[x].createdAt
    ensures Ascending(order, after)
  {
    forall i, j | 0 <= i < j < |order| ensures Stamp(after, order[i]) < Stamp(after, order[j]) {
      assert Stamp(before, order[i]) < Stamp(before, order[j]);
    }
  }

  /** `s` back to front. */
  function Reversed<T>(s: seq<T>): (r: seq<T>)
    ensures |r| == |s|
    ensures forall k :: 0 <= k < |s| ==> r[k] == s[|s| - 1 - k]
  {
    seq(|s|, k requires 0 <= k < |s| => s[|s| - 1 - k])
  }

  /** The keys name stored conversations, each created before the one before it. */
  ghost predicate Descending(order: seq<string>, conversations: map<string, Conversation>) {
    && (forall x :: x in order ==> x in conversations)
    && (forall i, j :: 0 <= i < j < |order| ==> Stamp(conversations, order[i]) > Stamp(conversations, order[j]))
  }

  lemma ReversedAscending(order: seq<string>, conversations: map<string, Conversation>)
    requires Ascending(order, conversations)
    ensures Descending(Reversed(order), conversations)
  {
    var r := Reversed(order);
    var n := |order|;
    forall x | x in r ensures x in conversations {
      var k :| 0 <= k < n && r[k] == x;
      assert order[n - 1 - k] == x;
    }
    forall i, j | 0 <= i < j < n ensures Stamp(conversations, r[i]) > Stamp(conversations, r[j]) {
      assert r[i] == order[n - 1 - i] && r[j] == order[n - 1 - j];
    }
  }

  lemma DistinctSnoc(order: seq<string>, x: string)
    requires Distinct(order) && x !in order
    ensures Distinct(order + [x])
  {
    var r := order + [x];
    forall i, j | 0 <= i < j < |r| ensures r[i] != r[j] {
      assert r[i] == order[i] && r[i] in order;
    }
  }

  lemma DistinctAppend(a: seq<string>, b: seq<string>)
    requires Distinct(a) && Distinct(b) && forall x :: x in b ==> x !in a
    ensures Distinct(a + b)
  {
    var r := a + b;
    forall i, j | 0 <= i < j < |r| ensures r[i] != r[j] {
      if j < |a| {
        assert r[i] == a[i] && r[j] == a[j];
      } else if i < |a| {
        assert r[i] == a[i] && r[j] == b[j - |a|] && r[j] in b;
      } else {
        assert r[i] == b[i - |a|] && r[j] == b[j - |a|];
      }
    }
  }

  lemma ReversedMembers<T>(s: seq<T>)
    ensures forall x :: x in Reversed(s) <==> x in s
  {
    var r := Reversed(s);
    forall x | x in r ensures x in s {
      var i :| 0 <= i < |r| && r[i] == x;
      assert s[|s| - 1 - i] == x;
    }
    forall x | x in s ensures x in r {
      var i :| 0 <= i < |s| && s[i] == x;
      assert r[|s| - 1 - i] == x;
    }
  }

  lemma ReversedDistinct(s: seq<string>)
    requires Distinct(s)
    ensures Distinct(Reversed(s))
  {
    var r := Reversed(s);
    forall i, j | 0 <= i < j < |r| ensures r[i] != r[j] {
      assert r[i] == s[|s| - 1 - i] && r[j] == s[|s| - 1 - j];
    }
  }

  /**
   * The keys of a creation-ordered list that are in `keep`, newest first: each once,
   * each created after the ones that follow it.
   */
  lemma NewestFirstOf(order: seq<string>, keep: set<string>, conversations: map<string, Conversation>)
    requires Distinct(order) && Ascending(order, conversations)
    ensures forall x :: x in Reversed(Restrict(order, keep)) <==> x in order && x in keep
    ensures Descending(Reversed(Restrict(order, keep)), conversations)
    ensures Distinct(Reversed(Restrict(order, keep)))
  {
    var ascending := Restrict(order, keep);
    RestrictAscending(order, keep, conversations);
    RestrictDistinct(order, keep);
    ReversedAscending(ascending, conversations);
    ReversedMembers(ascending);
    ReversedDistinct(ascending);
  }

  /**
   * `m` with each row of `rows` added under its own key, in order: the `db.add` of
   * every row, as the loop that adds them leaves the table.
   */
  function InsertAll(m: map<string, ActionItem>, rows: seq<ActionItem>): (r: map<string, ActionItem>)
    ensures m.Keys <= r.Keys
    ensures forall k :: 0 <= k < |rows| ==> rows[k].id in r
    decreases |rows|
  {
    if rows == [] then m
    else
      var last := rows[|rows| - 1];
      InsertAll(m, rows[..|rows| - 1])[last.id := last]
  }

  /** The keys of a sequence of rows, in order. */
  function KeysOf(rows: seq<ActionItem>): (ks: seq<string>)
    ensures |ks| == |rows| && forall k :: 0 <= k < |rows| ==> ks[k] == rows[k].id
  {
    seq(|rows|, k requires 0 <= k < |rows| => rows[k].id)
  }

  /** Inserting rows with distinct keys keeps the old rows they do not collide with and adds each new one. */
  lemma {:induction false} InsertAllContents(m: map<string, ActionItem>, rows: seq<ActionItem>)
    requires Distinct(KeysOf(rows))
    ensures forall x :: x in InsertAll(m, rows) <==> x in m || x in KeysOf(rows)
    ensures forall k :: 0 <= k < |rows| ==> InsertAll(m, rows)[rows[k].id] == rows[k]
    ensures forall x :: x in m && x !in KeysOf(rows) ==> InsertAll(m, rows)[x] == m[x]
    decreases |rows|
  {
    if rows != [] {
      var init := rows[..|rows| - 1];
      assert KeysOf(init) == KeysOf(rows)[..|rows| - 1];
      InsertAllContents(m, init);
      assert KeysOf(rows) == KeysOf(init) + [rows[|rows| - 1].id];
    }
  }

  /** The items of `items` listed in `order` that belong to conversation `cid`, in that order. */
  function ItemsIn(order: seq<string>, items: map<string, ActionItem>, cid: string): (r: seq<ActionItem>)
    requires forall x :: x in order ==> x in items
    ensures |r| <= |order|
    ensures forall k :: 0 <= k < |r| ==> r[k].conversationId == cid
  {
    if order == [] then []
    else
      var item := items[order[0]];
      (if item.conversationId == cid then [item] else []) + ItemsIn(order[1..], items, cid)
  }

  lemma {:induction false} ItemsInAppend(a: seq<string>, b: seq<string>, items: map<string, ActionItem>, cid: string)
    requires forall x :: x in a + b ==> x in items
    ensures ItemsIn(a + b, items, cid) == ItemsIn(a, items, cid) + ItemsIn(b, items, cid)
  {
    if a != [] {
      var ab := a + b;
      assert ab[0] == a[0] && ab[1..] == a[1..] + b;
      ItemsInAppend(a[1..], b, items, cid);
      var head := if items[a[0]].conversationId == cid then [items[a[0]]] else [];
      assert ItemsIn(ab, items, cid) == head + ItemsIn(a[1..] + b, items, cid);
      assert ItemsIn(a, items, cid) == head + ItemsIn(a[1..], items, cid);
    } else {
      assert a + b == b;
    }
  }

  /** No listed item belongs to `cid`: the conversation has no items. */
  lemma {:induction false} ItemsInNone(order: seq<string>, items: map<string, ActionItem>, cid: string)
    requires forall x :: x in order ==> x in items && items[x].conversationId != cid
    ensures ItemsIn(order, items, cid) == []
  {
    if order != [] {
      ItemsInNone(order[1..], items, cid);
    }
  }

  /** Listing each key at most once lists each row at most once. */
  lemma {:induction false} ItemsInDistinct(order: seq<string>, items: map<string, ActionItem>, cid: string)
    requires forall x :: x in order ==> x in items
    requires Distinct(order) && ItemsKeyed(items)
    ensures Distinct(KeysOf(ItemsIn(order, items, cid)))
  {
    if order != [] {
      var rest := ItemsIn(order[1..], items, cid);
      ItemsInDistinct(order[1..], items, cid);
      ItemsInListed(order[1..], items, cid);
      var head := if items[order[0]].conversationId == cid then [items[order[0]]] else [];
      assert ItemsIn(order, items, cid) == head + rest;
      assert KeysOf(head + rest) == KeysOf(head) + KeysOf(rest);
    }
  }

  /** With rows keyed by their ids, every listed item's key is one of `order`. */
  lemma {:induction false} ItemsInListed(order: seq<string>, items: map<string, ActionItem>, cid: string)
    requires forall x :: x in order ==> x in items
    requires ItemsKeyed(items)
    ensures forall k :: 0 <= k < |ItemsIn(order, items, cid)| ==> ItemsIn(order, items, cid)[k].id in order
  {
    if order != [] {
      ItemsInListed(order[1..], items, cid);
    }
  }

  /**
   * With rows keyed by their ids, the listed items of `cid` are exactly the rows of
   * `cid` whose key is listed.
   */
  lemma {:induction false} ItemsInMembers(order: seq<string>, items: map<string, ActionItem>, cid: string)
    requires forall x :: x in order ==> x in items
    requires ItemsKeyed(items)
    ensures forall y :: y in ItemsIn(order, items, cid) <==> y.id in order && y.id in items && items[y.id] == y && y.conversationId == cid
  {
    if order != [] {
      ItemsInMembers(order[1..], items, cid);
    }
  }

  /** Rows stored under their own keys and all of `cid` are listed back, in order, by their keys. */
  lemma {:induction false} ItemsInKeysOf(rows: seq<ActionItem>, items: map<string, ActionItem>, cid: string)
    requires forall k :: 0 <= k < |rows| ==> rows[k].id in items && items[rows[k].id] == rows[k] && rows[k].conversationId == cid
    ensures forall x :: x in KeysOf(rows) ==> x in items
    ensures ItemsIn(KeysOf(rows), items, cid) == rows
  {
    if rows != [] {
      var ks := KeysOf(rows);
      assert ks[1..] == KeysOf(rows[1..]);
      ItemsInKeysOf(rows[1..], items, cid);
      assert ItemsIn(ks, items, cid) == [rows[0]] + ItemsIn(ks[1..], items, cid);
      assert rows == [rows[0]] + rows[1..];
    }
  }

  /** The rows left once the delete-orphan cascade has removed the items of conversation `cid`. */
  function WithoutItemsOf(items: map<string, ActionItem>, cid: string): (r: map<string, ActionItem>)
    ensures forall k :: k in r <==> k in items && items[k].conversationId != cid
    ensures forall k :: k in r ==> r[k] == items[k]
  {
    map k | k in items && items[k].conversationId != cid :: items[k]
  }

  function Min(a: nat, b: nat): nat {
    if a <= b then a else b
  }

  /** SQL `OFFSET skip LIMIT limit` over the rows `s`. */
  function Page<T>(s: seq<T>, skip: nat, limit: nat): (r: seq<T>)
    ensures |r| == if skip >= |s| then 0 else Min(limit, |s| - skip)
    ensures forall k :: 0 <= k < |r| ==> skip + k < |s| && r[k] == s[skip + k]
  {
    if skip >= |s| then [] else s[skip..skip + Min(limit, |s| - skip)]
  }

  /** A page of a newest-first list is newest first. */
  lemma PageDescending(s: seq<string>, skip: nat, limit: nat, conversations: map<string, Conversation>)
    requires Descending(s, conversations)
    ensures Descending(Page(s, skip, limit), conversations)
  {
    var r := Page(s, skip, limit);
    forall x | x in r ensures x in conversations {
      var k :| 0 <= k < |r| && r[k] == x;
      assert s[skip + k] == x;
    }
    forall i, j | 0 <= i < j < |r| ensures Stamp(conversations, r[i]) > Stamp(conversations, r[j]) {
      assert r[i] == s[skip + i] && r[j] == s[skip + j];
    }
  }

  /** The constraints the three tables declare, plus the bookkeeping of row order and of the clock. */
  ghost predicate Consistent(
    people: map<string, Person>, personOrder: seq<string>,
    conversations: map<string, Conversation>, conversationOrder: seq<string>,
    actionItems: map<string, ActionItem>, itemOrder: seq<string>, clock: nat)
  {
    && Indexes(personOrder, people) && PeopleKeyed(people)
    && Indexes(conversationOrder, conversations) && ConversationsKeyed(conversations)
    && Indexes(itemOrder, actionItems) && ItemsKeyed(actionItems)
    && ConversationsHavePeople(conversations, people)
    && ItemsHaveConversations(actionItems, conversations)
    && Chronological(conversationOrder, conversations, clock)
  }

  class Session {
    var people: map<string, Person>
    var personOrder: seq<string>
    var conversations: map<string, Conversation>
    var conversationOrder: seq<string>
    var actionItems: map<string, ActionItem>
    var itemOrder: seq<string>
    /** The next `created_at` value the database clock hands out. */
    var clock: nat

    /** The constraints the three tables declare, plus the bookkeeping of row order. */
    ghost predicate Valid()
      reads this
    {
      Consistent(people, personOrder, conversations, conversationOrder, actionItems, itemOrder, clock)
    }

    /** An empty database. */
    constructor ()
      ensures Valid()
      ensures people == map[] && conversations == map[] && actionItems == map[]
      ensures personOrder == [] && conversationOrder == [] && itemOrder == [] && clock == 0
    {
      people, conversations, actionItems := map[], map[], map[];
      personOrder, conversationOrder, itemOrder := [], [], [];
      clock := 0;
    }

    /** The `action_items` relationship of a conversation: every item stored for it, each once. */
    function ItemsOf(conversationId: string): (r: seq<ActionItem>)
      reads this
      requires Valid()
      ensures forall y :: y in r <==> y.id in actionItems && actionItems[y.id] == y && y.conversationId == conversationId
      ensures Distinct(KeysOf(r))
    {
      ItemsInMembers(itemOrder, actionItems, conversationId);
      ItemsInDistinct(itemOrder, actionItems, conversationId);
      ItemsIn(itemOrder, actionItems, conversationId)
    }

    /** A stored conversation together with its items. */
    function Detail(conversationId: string): (d: ConversationDetail)
      reads this
      requires Valid() && conversationId in conversations
      ensures d.conversation == conversations[conversationId] && d.actionItems == ItemsOf(conversationId)
    {
      ConversationDetail(conversations[conversationId], ItemsOf(conversationId))
    }
  }
}
