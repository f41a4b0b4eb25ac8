/** The pure side of the conversation binding service: the row shape of the
    `user_conversations` table, the three `where` clauses the service selects
    with, the `update ... where id` it writes with, the metadata tag and ids of
    remote conversations, and the provider's item listing. */
module ConversationTable {
  import opened Wrappers
  import opened Strings
  import opened Features

  type UserId = string
  type ConversationId = string
  type ItemId = string
  /** A `new Date()` reading, supplied by the caller. */
  type Timestamp = nat

  /** One row of `user_conversations`; `id` stands for the random uuid key. */
  datatype Row = Row(
    id: nat,
    userId: UserId,
    conversationId: ConversationId,
    featureType: FeatureType,
    isActive: bool,
    deletedAt: Option<Timestamp>)

  /** What the service throws. `ProviderFailed` is whatever a provider call throws. */
  datatype Error = UserNotFound | ConversationNotFound | ConversationIsActive | ProviderFailed

  /** The message the service puts into each error it throws itself. */
  function ErrorMessage(e: Error): (m: Option<string>)
    ensures m.Some? <==> e != ProviderFailed
    ensures m.Some? ==> m.value != ""
  {
    match e
    case UserNotFound => Some("User not found")
    case ConversationNotFound => Some("Conversation not found")
    case ConversationIsActive => Some("Conversation is active cannot be deleted")
    case ProviderFailed => None
  }

  // ---------------------------------------------------------------------------
  // Selects

  /** The `where` clauses of the service's selects on the table. */
  datatype Query =
    | ActiveOf(userId: UserId, featureType: FeatureType)
    | ConversationOf(conversationId: ConversationId, userId: UserId)
    | OfType(userId: UserId, featureType: FeatureType)

  predicate Matches(q: Query, r: Row)
  {
    match q
    case ActiveOf(u, t) => r.userId == u && r.featureType == t && r.isActive
    case ConversationOf(c, u) => r.conversationId == c && r.userId == u
    case OfType(u, t) => r.userId == u && r.featureType == t
  }

  /** The index of the row the service takes as `[0]` of a select's result
      (the first match in table order), or None when the result is empty. */
  function FirstWhere(rows: seq<Row>, q: Query): (r: Option<nat>)
    ensures r.Some? ==> r.value < |rows| && Matches(q, rows[r.value])
    ensures r.Some? ==> forall j :: 0 <= j < r.value ==> !Matches(q, rows[j])
    ensures r.None? <==> forall j :: 0 <= j < |rows| ==> !Matches(q, rows[j])
  {
    if |rows| == 0 then None
    else if Matches(q, rows[0]) then Some(0)
    else
      match FirstWhere(rows[1..], q)
      case None => None
      case Some(i) => Some(i + 1)
  }

  /** Appending a row leaves an existing first match alone and otherwise makes
      the new row the first match if it matches. */
  lemma {:induction false} FirstWhereAppend(rows: seq<Row>, x: Row, q: Query)
    ensures FirstWhere(rows + [x], q) ==
      if FirstWhere(rows, q).Some? then FirstWhere(rows, q)
      else if Matches(q, x) then Some(|rows|)
      else None
  {
    if |rows| > 0 {
      assert (rows + [x])[0] == rows[0];
      assert (rows + [x])[1..] == rows[1..] + [x];
      FirstWhereAppend(rows[1..], x, q);
    }
  }

  /** A select depends only on which rows match its clause. */
  lemma {:induction false} FirstWhereStable(a: seq<Row>, b: seq<Row>, q: Query)
    requires |a| == |b|
    requires forall j :: 0 <= j < |a| ==> (Matches(q, a[j]) <==> Matches(q, b[j]))
    ensures FirstWhere(a, q) == FirstWhere(b, q)
  {
    if |a| > 0 {
      FirstWhereStable(a[1..], b[1..], q);
    }
  }

  /** The number of rows a select returns. */
  function CountWhere(rows: seq<Row>, q: Query): (n: nat)
    ensures n <= |rows|
  {
    if |rows| == 0 then 0
    else (if Matches(q, rows[0]) then 1 else 0) + CountWhere(rows[1..], q)
  }

  lemma {:induction false} CountWhereAppend(rows: seq<Row>, x: Row, q: Query)
    ensures CountWhere(rows + [x], q) == CountWhere(rows, q) + (if Matches(q, x) then 1 else 0)
  {
    if |rows| > 0 {
      assert (rows + [x])[0] == rows[0];
      assert (rows + [x])[1..] == rows[1..] + [x];
      CountWhereAppend(rows[1..], x, q);
    }
  }

  /** A select is empty exactly when it counts no rows. */
  lemma {:induction false} CountWhereZero(rows: seq<Row>, q: Query)
    ensures CountWhere(rows, q) == 0 <==> FirstWhere(rows, q).None?
  {
    if |rows| > 0 {
      CountWhereZero(rows[1..], q);
    }
  }

  // ---------------------------------------------------------------------------
  // Updates

  /** The `set` of an update statement. */
  datatype Assignment = SetActive(isActive: bool) | SetDeletedAt(at: Timestamp)

  function Apply(a: Assignment, r: Row): Row
  {
    match a
    case SetActive(b) => r.(isActive := b)
    case SetDeletedAt(t) => r.(deletedAt := Some(t))
  }

  /** `update user_conversations set a where id = key`. */
  function UpdateWhereId(rows: seq<Row>, key: nat, a: Assignment): (r: seq<Row>)
    ensures |r| == |rows|
  {
    if |rows| == 0 then []
    else [if rows[0].id == key then Apply(a, rows[0]) else rows[0]] + UpdateWhereId(rows[1..], key, a)
  }

  /** The primary key: no two rows share an id. */
  ghost predicate UniqueIds(rows: seq<Row>)
  {
    forall i, j :: 0 <= i < j < |rows| ==> rows[i].id != rows[j].id
  }

  lemma {:induction false} UpdateMissingId(rows: seq<Row>, key: nat, a: Assignment)
    requires forall j :: 0 <= j < |rows| ==> rows[j].id != key
    ensures UpdateWhereId(rows, key, a) == rows
  {
    if |rows| > 0 {
      UpdateMissingId(rows[1..], key, a);
    }
  }

  /** Updating by a row's primary key changes that row and no other. */
  lemma {:induction false} UpdateOnlyThatRow(rows: seq<Row>, i: nat, a: Assignment)
    requires UniqueIds(rows)
    requires i < |rows|
    ensures UpdateWhereId(rows, rows[i].id, a) == rows[i := Apply(a, rows[i])]
  {
    var key := rows[i].id;
    var tail := rows[1..];
    assert UpdateWhereId(rows, key, a)
        == [if rows[0].id == key then Apply(a, rows[0]) else rows[0]] + UpdateWhereId(tail, key, a);
    if i == 0 {
      assert forall j :: 0 <= j < |tail| ==> tail[j].id != key by {
        forall j | 0 <= j < |tail| ensures tail[j].id != key {
          assert tail[j] == rows[j + 1];
        }
      }
      UpdateMissingId(tail, key, a);
      assert rows[i := Apply(a, rows[i])] == [Apply(a, rows[0])] + tail;
    } else {
      assert rows[0].id != key;
      assert UniqueIds(tail) by {
        forall p, q | 0 <= p < q < |tail| ensures tail[p].id != tail[q].id {
          assert tail[p] == rows[p + 1] && tail[q] == rows[q + 1];
        }
      }
      assert tail[i - 1] == rows[i];
      UpdateOnlyThatRow(tail, i - 1, a);
      assert rows[i := Apply(a, rows[i])] == [rows[0]] + tail[i - 1 := Apply(a, rows[i])];
    }
  }

  // ---------------------------------------------------------------------------
  // Remote conversations

  const TOPIC_PREFIX := "conversation__"

  /** The `topic` metadata a remote conversation is created with. */
  function Topic(t: FeatureType, u: UserId): (topic: string)
    ensures TOPIC_PREFIX + TypeName(t) <= topic
    ensures |topic| > |u| && topic[|topic| - |u|..] == u
  {
    TOPIC_PREFIX + TypeName(t) + "__" + u
  }

  /** The topic names the binding it was created for: distinct (type, user)
      pairs never share a topic. */
  lemma TopicIdentifiesBinding(t1: FeatureType, u1: UserId, t2: FeatureType, u2: UserId)
    requires Topic(t1, u1) == Topic(t2, u2)
    ensures t1 == t2 && u1 == u2
  {
    var s := Topic(t1, u1);
    assert s[|TOPIC_PREFIX|] == TypeName(t1)[0];
    assert Topic(t2, u2)[|TOPIC_PREFIX|] == TypeName(t2)[0];
    assert t1 == t2;
    var lead := TOPIC_PREFIX + TypeName(t1) + "__";
    assert s == lead + u1 && s == lead + u2;
    assert s[|lead|..] == u1;
  }

  const PROVIDER_ID_PREFIX := "conv_"

  /** The id the provider gives the `n`-th conversation it creates. */
  function ProviderId(n: nat): (id: ConversationId)
    ensures PROVIDER_ID_PREFIX <= id && |id| > |PROVIDER_ID_PREFIX|
    ensures forall i :: |PROVIDER_ID_PREFIX| <= i < |id| ==> IsDigit(id[i])
  {
    PROVIDER_ID_PREFIX + NatToString(n)
  }

  /** The provider never hands out the same id twice. */
  lemma ProviderIdsDistinct(a: nat, b: nat)
    requires a != b
    ensures ProviderId(a) != ProviderId(b)
  {
    if ProviderId(a) == ProviderId(b) {
      assert ProviderId(a)[|PROVIDER_ID_PREFIX|..] == NatToString(a);
      assert ProviderId(b)[|PROVIDER_ID_PREFIX|..] == NatToString(b);
      NatToStringInjective(a, b);
    }
  }

  /** No row refers to an id the provider will hand out from `n` on. */
  ghost predicate FreshFrom(rows: seq<Row>, n: nat)
  {
    forall i, k :: 0 <= i < |rows| && n <= k ==> rows[i].conversationId != ProviderId(k)
  }

  /** No two rows refer to the same remote conversation. The schema does not
      demand it; it follows from the service only ever inserting ids the
      provider has just created. */
  ghost predicate UniqueConversations(rows: seq<Row>)
  {
    forall i, j :: 0 <= i < j < |rows| ==> rows[i].conversationId != rows[j].conversationId
  }

  /** With distinct conversation ids, the select on (conversationId, userId)
      returns at most one row, so which row a select's `[0]` is does not
      depend on the order the rows come back in. */
  lemma {:induction false} ConversationSelectAtMostOne(rows: seq<Row>, c: ConversationId, u: UserId)
    requires UniqueConversations(rows)
    ensures CountWhere(rows, ConversationOf(c, u)) <= 1
  {
    if |rows| > 0 {
      var q := ConversationOf(c, u);
      var tail := rows[1..];
      assert UniqueConversations(tail) by {
        forall p, r | 0 <= p < r < |tail| ensures tail[p].conversationId != tail[r].conversationId {
          assert tail[p] == rows[p + 1] && tail[r] == rows[r + 1];
        }
      }
      if Matches(q, rows[0]) {
        assert forall j :: 0 <= j < |tail| ==> !Matches(q, tail[j]) by {
          forall j | 0 <= j < |tail| ensures !Matches(q, tail[j]) {
            assert tail[j] == rows[j + 1];
          }
        }
        CountWhereZero(tail, q);
      } else {
        ConversationSelectAtMostOne(tail, c, u);
      }
    }
  }

  /** With distinct conversation ids, the row a (conversationId, userId)
      select picks is the one row that matches, wherever it stands. */
  lemma ConversationSelectPicks(rows: seq<Row>, c: ConversationId, u: UserId, i: nat)
    requires UniqueConversations(rows)
    requires i < |rows| && Matches(ConversationOf(c, u), rows[i])
    ensures FirstWhere(rows, ConversationOf(c, u)) == Some(i)
  {
  }

  /** An update changes neither a row's key nor its binding. */
  lemma UpdateKeepsBindings(rows: seq<Row>, i: nat, a: Assignment)
    requires UniqueConversations(rows) && i < |rows|
    ensures UniqueConversations(rows[i := Apply(a, rows[i])])
  {
    var updated := rows[i := Apply(a, rows[i])];
    assert forall j :: 0 <= j < |rows| ==> updated[j].conversationId == rows[j].conversationId;
  }

  /** Appending a row with the next row id and the next provider id keeps
      row ids unique and below the counter, conversation ids distinct, and
      later provider ids fresh. */
  lemma InsertKeepsFresh(rows: seq<Row>, row: Row, nextRowId: nat, n: nat)
    requires UniqueIds(rows) && (forall i :: 0 <= i < |rows| ==> rows[i].id < nextRowId)
    requires UniqueConversations(rows)
    requires FreshFrom(rows, n)
    requires row.id == nextRowId && row.conversationId == ProviderId(n)
    ensures UniqueIds(rows + [row])
    ensures UniqueConversations(rows + [row])
    ensures forall i :: 0 <= i < |rows + [row]| ==> (rows + [row])[i].id < nextRowId + 1
    ensures FreshFrom(rows + [row], n + 1)
    ensures forall i :: 0 <= i < |rows| ==> rows[i].conversationId != ProviderId(n)
  {
    forall k | n + 1 <= k
      ensures row.conversationId != ProviderId(k)
    {
      ProviderIdsDistinct(n, k);
    }
  }

  /** The provider holds no conversation under an id it will hand out from
      `n` on. */
  ghost predicate FreshKeys(store: map<ConversationId, seq<ItemId>>, n: nat)
  {
    forall k :: n <= k ==> ProviderId(k) !in store
  }

  /** Creating the `n`-th conversation adds a key the provider did not hold,
      and keeps the ids after it fresh. */
  lemma CreateKeepsFreshKeys(store: map<ConversationId, seq<ItemId>>, n: nat)
    requires FreshKeys(store, n)
    ensures ProviderId(n) !in store
    ensures FreshKeys(store[ProviderId(n) := []], n + 1)
  {
    forall k | n + 1 <= k
      ensures ProviderId(k) != ProviderId(n)
    {
      ProviderIdsDistinct(k, n);
    }
  }

  // ---------------------------------------------------------------------------
  // Provider calls and items

  /** A table write or a provider call, as the service issues them. */
  datatype Effect =
    | DbInsert(row: Row)
    | DbUpdate(rowId: nat, assignment: Assignment)
    | CreateConversation(topic: string)
    | DeleteRequest(path: string)
    | ListItems(conversationId: ConversationId, limit: nat)
    | DeleteItem(itemId: ItemId, conversationId: ConversationId)

  /** The page size of the item listing. */
  const PAGE_LIMIT: nat := 100

  /** The items the provider holds for a conversation, in listing order. */
  function ItemsOf(store: map<ConversationId, seq<ItemId>>, c: ConversationId): seq<ItemId>
  {
    if c in store then store[c] else []
  }

  /** What one listing call returns: the first `limit` items. */
  function FirstPage(items: seq<ItemId>, limit: nat): (page: seq<ItemId>)
    ensures page <= items
    ensures |page| == if |items| <= limit then |items| else limit
  {
    if |items| <= limit then items else items[..limit]
  }

  ghost predicate NoDup(s: seq<ItemId>)
  {
    forall i, j :: 0 <= i < j < |s| ==> s[i] != s[j]
  }

  /** The provider's item list after deleting item `x`. */
  function RemoveItem(s: seq<ItemId>, x: ItemId): (r: seq<ItemId>)
    ensures x !in r
    ensures forall y :: y != x ==> (y in r <==> y in s)
  {
    if |s| == 0 then []
    else if s[0] == x then RemoveItem(s[1..], x)
    else [s[0]] + RemoveItem(s[1..], x)
  }

  lemma {:induction false} RemoveAbsentItem(s: seq<ItemId>, x: ItemId)
    requires x !in s
    ensures RemoveItem(s, x) == s
  {
    if |s| > 0 {
      RemoveAbsentItem(s[1..], x);
    }
  }

  /** With unique item ids, deleting the first listed item drops exactly it. */
  lemma RemoveFirstItem(s: seq<ItemId>)
    requires NoDup(s)
    requires |s| > 0
    ensures RemoveItem(s, s[0]) == s[1..]
  {
    assert s[0] !in s[1..];
    RemoveAbsentItem(s[1..], s[0]);
  }

  /** One item-delete call per listed item, in listing order. */
  function DeleteItemCalls(page: seq<ItemId>, c: ConversationId): (calls: seq<Effect>)
    ensures |calls| == |page|
  {
    if |page| == 0 then [] else [DeleteItem(page[0], c)] + DeleteItemCalls(page[1..], c)
  }

  lemma {:induction false} DeleteItemCallsSnoc(page: seq<ItemId>, x: ItemId, c: ConversationId)
    ensures DeleteItemCalls(page + [x], c) == DeleteItemCalls(page, c) + [DeleteItem(x, c)]
  {
    if |page| > 0 {
      assert (page + [x])[0] == page[0];
      assert (page + [x])[1..] == page[1..] + [x];
      DeleteItemCallsSnoc(page[1..], x, c);
    }
  }

  /** The calls of a clear that lists page after page until a listing comes
      back empty. */
  function ClearPagesTrace(items: seq<ItemId>, c: ConversationId): (trace: seq<Effect>)
    ensures |trace| >= 1 && trace[0] == ListItems(c, PAGE_LIMIT)
    ensures trace[|trace| - 1] == ListItems(c, PAGE_LIMIT)
    decreases |items|
  {
    var page := FirstPage(items, PAGE_LIMIT);
    [ListItems(c, PAGE_LIMIT)] + DeleteItemCalls(page, c)
      + (if |items| == 0 then [] else ClearPagesTrace(items[|page|..], c))
  }

  /** The items a run of calls deletes, in the order it deletes them. */
  function DeletedItems(effects: seq<Effect>): (items: seq<ItemId>)
    ensures |items| <= |effects|
  {
    if |effects| == 0 then []
    else (if effects[0].DeleteItem? then [effects[0].itemId] else []) + DeletedItems(effects[1..])
  }

  lemma {:induction false} DeletedItemsConcat(a: seq<Effect>, b: seq<Effect>)
    ensures DeletedItems(a + b) == DeletedItems(a) + DeletedItems(b)
  {
    if |a| == 0 {
      assert a + b == b;
    } else {
      var head := if a[0].DeleteItem? then [a[0].itemId] else [];
      assert (a + b)[0] == a[0];
      assert (a + b)[1..] == a[1..] + b;
      assert DeletedItems(a + b) == head + DeletedItems(a[1..] + b);
      assert DeletedItems(a) == head + DeletedItems(a[1..]);
      DeletedItemsConcat(a[1..], b);
      ConcatAssoc(head, DeletedItems(a[1..]), DeletedItems(b));
    }
  }

  /** Deleting a page deletes exactly its items, in order. */
  lemma {:induction false} DeletedItemsOfPage(page: seq<ItemId>, c: ConversationId)
    ensures DeletedItems(DeleteItemCalls(page, c)) == page
  {
    if |page| > 0 {
      DeletedItemsConcat([DeleteItem(page[0], c)], DeleteItemCalls(page[1..], c));
      DeletedItemsOfPage(page[1..], c);
    }
  }

  /** The paged clear deletes every item of the conversation, once each and
      in listing order. */
  lemma {:induction false} ClearPagesDeletesAll(items: seq<ItemId>, c: ConversationId)
    ensures DeletedItems(ClearPagesTrace(items, c)) == items
    decreases |items|
  {
    var page := FirstPage(items, PAGE_LIMIT);
    var listed := [ListItems(c, PAGE_LIMIT)] + DeleteItemCalls(page, c);
    if |items| == 0 {
      assert ClearPagesTrace(items, c) == listed + [];
      ListedPageDeletes(page, c);
      assert listed + [] == listed;
    } else {
      var rest := ClearPagesTrace(items[|page|..], c);
      assert ClearPagesTrace(items, c) == listed + rest;
      ListedPageDeletes(page, c);
      DeletedItemsConcat(listed, rest);
      ClearPagesDeletesAll(items[|page|..], c);
      PrefixThenRest(items, page);
    }
  }

  /** A listing followed by the deletions of its page deletes that page. */
  lemma ListedPageDeletes(page: seq<ItemId>, c: ConversationId)
    ensures DeletedItems([ListItems(c, PAGE_LIMIT)] + DeleteItemCalls(page, c)) == page
  {
    DeletedItemsConcat([ListItems(c, PAGE_LIMIT)], DeleteItemCalls(page, c));
    DeletedItemsOfPage(page, c);
  }

  /** Proof step: a prefix followed by what comes after it is the whole. */
  lemma PrefixThenRest<T>(s: seq<T>, p: seq<T>)
    requires p <= s
    ensures p + s[|p|..] == s
  {
  }

  /** A single listing followed by its deletions deletes only the first page. */
  lemma SinglePageDeletes(items: seq<ItemId>, c: ConversationId)
    ensures DeletedItems([ListItems(c, PAGE_LIMIT)] + DeleteItemCalls(FirstPage(items, PAGE_LIMIT), c))
      == FirstPage(items, PAGE_LIMIT)
    ensures |items| > PAGE_LIMIT ==>
      DeletedItems([ListItems(c, PAGE_LIMIT)] + DeleteItemCalls(FirstPage(items, PAGE_LIMIT), c)) != items
  {
    ListedPageDeletes(FirstPage(items, PAGE_LIMIT), c);
  }

  /** Proof step: a later overwrite of the same conversation's items wins. */
  lemma OverwriteTwice(store: map<ConversationId, seq<ItemId>>, c: ConversationId, first: seq<ItemId>, second: seq<ItemId>)
    ensures store[c := first][c := second] == store[c := second]
  {
  }
}
