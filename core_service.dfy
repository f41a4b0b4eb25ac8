/** The conversation binding service: binds a (user, feature type) pair to a
    conversation hosted by the AI provider, toggles and soft-deletes bindings,
    and purges the items of a bound conversation. The `users` and
    `user_conversations` tables and the provider's side are fields of one
    object; every write and provider call is appended to a ghost trace so that
    contracts can speak about what was issued and in which order. */
module Core {
  import opened Wrappers
  import opened Features
  import opened ConversationTable

  class CoreService {
    /** Ids of the rows of the `users` table. */
    var users: set<UserId>
    /** The `user_conversations` table, in table order; a select's `[0]` is
        taken to be the first match (FirstWhere). */
    var rows: seq<Row>
    /** The key the table gives the next inserted row (its random uuid default). */
    var nextRowId: nat
    /** Provider side: the counter behind the id of the next conversation it creates. */
    var nextConversation: nat
    /** Provider side: the items of each conversation, in listing order. */
    var remoteItems: map<ConversationId, seq<ItemId>>
    /** Every table write and provider call, in the order they were issued. */
    ghost var trace: seq<Effect>

    ghost predicate Valid()
      reads this
    {
      TableValid() && ItemsValid()
    }

    /** Row ids are unique and below the counter, no two rows share a
        conversation id, and later provider ids are fresh. */
    ghost predicate TableValid()
      reads this`rows, this`nextRowId, this`nextConversation
    {
      && UniqueIds(rows)
      && UniqueConversations(rows)
      && (forall i :: 0 <= i < |rows| ==> rows[i].id < nextRowId)
      && FreshFrom(rows, nextConversation)
    }

    /** No conversation lists an item twice, and the provider holds nothing
        under the ids it has yet to hand out. */
    ghost predicate ItemsValid()
      reads this`remoteItems, this`nextConversation
    {
      && (forall c :: c in remoteItems ==> NoDup(remoteItems[c]))
      && FreshKeys(remoteItems, nextConversation)
    }

    /** A service over an empty conversation table. */
    constructor (users: set<UserId>, remoteItems: map<ConversationId, seq<ItemId>>)
      requires forall c :: c in remoteItems ==> NoDup(remoteItems[c])
      requires FreshKeys(remoteItems, 0)
      ensures Valid()
      ensures this.users == users && this.remoteItems == remoteItems
      ensures rows == [] && trace == []
    {
      this.users := users;
      this.remoteItems := remoteItems;
      rows := [];
      nextRowId := 0;
      nextConversation := 0;
      trace := [];
    }

    /** Returns the conversation bound to (userId, featureType), creating the
        remote conversation and the binding row when no active row exists.
        `providerUp` is whether the provider's create call succeeds. */
    method CreateConversationId(userId: UserId, featureType: FeatureType, providerUp: bool)
      returns (r: Result<ConversationId, Error>)
      requires Valid()
      modifies this
      ensures Valid()
      ensures users == old(users)
      ensures userId !in old(users) ==> r == Failure(UserNotFound) && unchanged(this)
      // an active binding exists: its id, and nothing written or called
      ensures userId in old(users) && FirstWhere(old(rows), ActiveOf(userId, featureType)).Some? ==>
        && r == Success(old(rows)[FirstWhere(old(rows), ActiveOf(userId, featureType)).value].conversationId)
        && unchanged(this)
      // no active binding and the provider fails: one create call, no row
      ensures userId in old(users) && FirstWhere(old(rows), ActiveOf(userId, featureType)).None? && !providerUp ==>
        && r == Failure(ProviderFailed)
        && rows == old(rows) && nextRowId == old(nextRowId)
        && nextConversation == old(nextConversation) && remoteItems == old(remoteItems)
        && trace == old(trace) + [CreateConversation(Topic(featureType, userId))]
      // no active binding: one create call, then one inserted active row with the new id
      ensures userId in old(users) && FirstWhere(old(rows), ActiveOf(userId, featureType)).None? && providerUp ==>
        var id := ProviderId(old(nextConversation));
        var row := Row(old(nextRowId), userId, id, featureType, true, None);
        && r == Success(id)
        && rows == old(rows) + [row]
        && trace == old(trace) + [CreateConversation(Topic(featureType, userId)), DbInsert(row)]
        && nextRowId == old(nextRowId) + 1
        && nextConversation == old(nextConversation) + 1
        && remoteItems == old(remoteItems)[id := []]
        && id !in old(remoteItems)
        && (forall i :: 0 <= i < |old(rows)| ==> old(rows)[i].conversationId != id)
      // afterwards the pair resolves to the returned id
      ensures r.Success? ==>
        var f := FirstWhere(rows, ActiveOf(userId, featureType));
        f.Some? && rows[f.value].conversationId == r.value
      // no second active row is ever added
      ensures r.Success? ==>
        CountWhere(rows, ActiveOf(userId, featureType)) ==
          if CountWhere(old(rows), ActiveOf(userId, featureType)) == 0 then 1
          else CountWhere(old(rows), ActiveOf(userId, featureType))
    {
      var q := ActiveOf(userId, featureType);
      CountWhereZero(rows, q);
      if userId !in users {
        return Failure(UserNotFound);
      }
      var existing := FirstWhere(rows, q);
      if existing.Some? {
        return Success(rows[existing.value].conversationId);
      }
      trace := trace + [CreateConversation(Topic(featureType, userId))];
      if !providerUp {
        return Failure(ProviderFailed);
      }
      var id := BindNewConversation(userId, featureType);
      return Success(id);
    }

    /** The success path of CreateConversationId once the provider has
        answered: takes the next provider id for the new, empty remote
        conversation and inserts its active binding row. */
    method BindNewConversation(userId: UserId, featureType: FeatureType) returns (id: ConversationId)
      requires Valid()
      requires FirstWhere(rows, ActiveOf(userId, featureType)).None?
      modifies this
      ensures Valid()
      ensures users == old(users)
      ensures id == ProviderId(old(nextConversation))
      ensures
        var row := Row(old(nextRowId), userId, id, featureType, true, None);
        && rows == old(rows) + [row]
        && trace == old(trace) + [DbInsert(row)]
      ensures nextRowId == old(nextRowId) + 1 && nextConversation == old(nextConversation) + 1
      ensures remoteItems == old(remoteItems)[id := []] && id !in old(remoteItems)
      ensures forall i :: 0 <= i < |old(rows)| ==> old(rows)[i].conversationId != id
      ensures FirstWhere(rows, ActiveOf(userId, featureType)) == Some(|old(rows)|)
      ensures CountWhere(rows, ActiveOf(userId, featureType)) == CountWhere(old(rows), ActiveOf(userId, featureType)) + 1
    {
      var q := ActiveOf(userId, featureType);
      id := ProviderId(nextConversation);
      var row := Row(nextRowId, userId, id, featureType, true, None);
      InsertKeepsFresh(rows, row, nextRowId, nextConversation);
      CreateKeepsFreshKeys(remoteItems, nextConversation);
      FirstWhereAppend(rows, row, q);
      CountWhereAppend(rows, row, q);
      nextConversation := nextConversation + 1;
      remoteItems := remoteItems[id := []];
      nextRowId := nextRowId + 1;
      rows := rows + [row];
      trace := trace + [DbInsert(row)];
    }

    /** Flips `isActive` of the binding row for (conversationId, userId). */
    method SetUserConversationAvailable(userId: UserId, conversationId: ConversationId)
      returns (r: Result<(), Error>)
      requires Valid()
      modifies this
      ensures Valid()
      ensures userId !in old(users) ==> r == Failure(UserNotFound) && unchanged(this)
      ensures userId in old(users) && FirstWhere(old(rows), ConversationOf(conversationId, userId)).None? ==>
        r == Failure(ConversationNotFound) && unchanged(this)
      ensures userId in old(users) && FirstWhere(old(rows), ConversationOf(conversationId, userId)).Some? ==>
        var i := FirstWhere(old(rows), ConversationOf(conversationId, userId)).value;
        var was := old(rows)[i];
        && r == Success(())
        && rows == old(rows)[i := was.(isActive := !was.isActive)]
        && trace == old(trace) + [DbUpdate(was.id, SetActive(!was.isActive))]
        && users == old(users) && nextRowId == old(nextRowId)
        && nextConversation == old(nextConversation) && remoteItems == old(remoteItems)
    {
      if userId !in users {
        return Failure(UserNotFound);
      }
      var found := FirstWhere(rows, ConversationOf(conversationId, userId));
      if found.None? {
        return Failure(ConversationNotFound);
      }
      var conversation := rows[found.value];
      var status := !conversation.isActive;
      UpdateOnlyThatRow(rows, found.value, SetActive(status));
      UpdateKeepsBindings(rows, found.value, SetActive(status));
      rows := UpdateWhereId(rows, conversation.id, SetActive(status));
      trace := trace + [DbUpdate(conversation.id, SetActive(status))];
      return Success(());
    }

    /** Soft-deletes an inactive binding row, then asks the provider to delete
        the conversation. `providerUp` is whether that request succeeds; when
        it fails the row stays soft-deleted. */
    method DeleteUserConversation(userId: UserId, conversationId: ConversationId, now: Timestamp, providerUp: bool)
      returns (r: Result<(), Error>)
      requires Valid()
      modifies this
      ensures Valid()
      ensures userId !in old(users) ==> r == Failure(UserNotFound) && unchanged(this)
      ensures userId in old(users) && FirstWhere(old(rows), ConversationOf(conversationId, userId)).None? ==>
        r == Failure(ConversationNotFound) && unchanged(this)
      ensures userId in old(users) && FirstWhere(old(rows), ConversationOf(conversationId, userId)).Some? ==>
        var i := FirstWhere(old(rows), ConversationOf(conversationId, userId)).value;
        var was := old(rows)[i];
        if was.isActive then
          r == Failure(ConversationIsActive) && unchanged(this)
        else
          && r == (if providerUp then Success(()) else Failure(ProviderFailed))
          && rows == old(rows)[i := was.(deletedAt := Some(now))]
          // the local write is issued before the provider call
          && trace == old(trace) + [DbUpdate(was.id, SetDeletedAt(now)), DeleteRequest(conversationId)]
          && users == old(users) && nextRowId == old(nextRowId)
          && nextConversation == old(nextConversation) && remoteItems == old(remoteItems)
    {
      if userId !in users {
        return Failure(UserNotFound);
      }
      var found := FirstWhere(rows, ConversationOf(conversationId, userId));
      if found.None? {
        return Failure(ConversationNotFound);
      }
      var conversation := rows[found.value];
      if conversation.isActive {
        return Failure(ConversationIsActive);
      }
      UpdateOnlyThatRow(rows, found.value, SetDeletedAt(now));
      UpdateKeepsBindings(rows, found.value, SetDeletedAt(now));
      rows := UpdateWhereId(rows, conversation.id, SetDeletedAt(now));
      trace := trace + [DbUpdate(conversation.id, SetDeletedAt(now))];
      trace := trace + [DeleteRequest(conversation.conversationId)];
      if !providerUp {
        return Failure(ProviderFailed);
      }
      return Success(());
    }

    /** Deletes the listed items of conversation `c`, one provider call per
        item, in listing order. */
    method DeletePage(c: ConversationId, page: seq<ItemId>)
      requires ItemsValid()
      requires page <= ItemsOf(remoteItems, c)
      modifies this`remoteItems, this`trace
      ensures ItemsValid()
      ensures trace == old(trace) + DeleteItemCalls(page, c)
      ensures remoteItems ==
        if page == [] then old(remoteItems)
        else old(remoteItems)[c := ItemsOf(old(remoteItems), c)[|page|..]]
    {
      ghost var items := ItemsOf(remoteItems, c);
      var k := 0;
      while k < |page|
        invariant 0 <= k <= |page|
        invariant ItemsValid()
        invariant trace == old(trace) + DeleteItemCalls(page[..k], c)
        invariant remoteItems == if k == 0 then old(remoteItems) else old(remoteItems)[c := items[k..]]
      {
        assert c in remoteItems && remoteItems[c] == items[k..];
        assert page[k] == items[k..][0];
        RemoveFirstItem(items[k..]);
        assert items[k..][1..] == items[k + 1..];
        remoteItems := remoteItems[c := RemoveItem(ItemsOf(remoteItems, c), page[k])];
        DeleteItemCallsSnoc(page[..k], page[k], c);
        assert page[..k + 1] == page[..k] + [page[k]];
        trace := trace + [DeleteItem(page[k], c)];
        k := k + 1;
      }
      assert page[..k] == page;
    }

    /** Lists the items of the first conversation bound to (userId,
        conversationType), one page of at most PAGE_LIMIT items, and deletes
        each listed item. Table rows are left alone. */
    method ClearAllConversation(userId: UserId, conversationType: FeatureType)
      returns (r: Result<(), Error>)
      requires Valid()
      modifies this
      ensures Valid()
      ensures userId !in old(users) ==> r == Failure(UserNotFound) && unchanged(this)
      ensures userId in old(users) && FirstWhere(old(rows), OfType(userId, conversationType)).None? ==>
        r == Failure(ConversationNotFound) && unchanged(this)
      ensures userId in old(users) && FirstWhere(old(rows), OfType(userId, conversationType)).Some? ==>
        var c := old(rows)[FirstWhere(old(rows), OfType(userId, conversationType)).value].conversationId;
        var items := ItemsOf(old(remoteItems), c);
        var page := FirstPage(items, PAGE_LIMIT);
        && r == Success(())
        && users == old(users) && rows == old(rows)
        && nextRowId == old(nextRowId) && nextConversation == old(nextConversation)
        && trace == old(trace) + [ListItems(c, PAGE_LIMIT)] + DeleteItemCalls(page, c)
        && remoteItems == (if page == [] then old(remoteItems) else old(remoteItems)[c := items[|page|..]])
    {
      if userId !in users {
        return Failure(UserNotFound);
      }
      var found := FirstWhere(rows, OfType(userId, conversationType));
      if found.None? {
        return Failure(ConversationNotFound);
      }
      var c := rows[found.value].conversationId;
      var page := FirstPage(ItemsOf(remoteItems, c), PAGE_LIMIT);
      trace := trace + [ListItems(c, PAGE_LIMIT)];
      DeletePage(c, page);
      return Success(());
    }

    /** The clear as intended: keeps listing and deleting pages until the
        listing comes back empty, so no item of the conversation survives. */
    method ClearAllConversationPaged(userId: UserId, conversationType: FeatureType)
      returns (r: Result<(), Error>)
      requires Valid()
      modifies this
      ensures Valid()
      ensures userId !in old(users) ==> r == Failure(UserNotFound) && unchanged(this)
      ensures userId in old(users) && FirstWhere(old(rows), OfType(userId, conversationType)).None? ==>
        r == Failure(ConversationNotFound) && unchanged(this)
      ensures userId in old(users) && FirstWhere(old(rows), OfType(userId, conversationType)).Some? ==>
        var c := old(rows)[FirstWhere(old(rows), OfType(userId, conversationType)).value].conversationId;
        && r == Success(())
        && users == old(users) && rows == old(rows)
        && nextRowId == old(nextRowId) && nextConversation == old(nextConversation)
        && trace == old(trace) + ClearPagesTrace(ItemsOf(old(remoteItems), c), c)
        && ItemsOf(remoteItems, c) == []
        && remoteItems == (if c in old(remoteItems) then old(remoteItems)[c := []] else old(remoteItems))
    {
      if userId !in users {
        return Failure(UserNotFound);
      }
      var found := FirstWhere(rows, OfType(userId, conversationType));
      if found.None? {
        return Failure(ConversationNotFound);
      }
      var c := rows[found.value].conversationId;
      DeleteAllPages(c);
      return Success(());
    }

    /** Lists and deletes pages of conversation `c` until a listing is empty. */
    method DeleteAllPages(c: ConversationId)
      requires ItemsValid()
      modifies this`remoteItems, this`trace
      ensures ItemsValid()
      ensures trace == old(trace) + ClearPagesTrace(ItemsOf(old(remoteItems), c), c)
      ensures remoteItems == (if c in old(remoteItems) then old(remoteItems)[c := []] else old(remoteItems))
      decreases |ItemsOf(remoteItems, c)|
    {
      ghost var items := ItemsOf(remoteItems, c);
      var page := FirstPage(ItemsOf(remoteItems, c), PAGE_LIMIT);
      trace := trace + [ListItems(c, PAGE_LIMIT)];
      if page == [] {
        assert ClearPagesTrace(items, c) == [ListItems(c, PAGE_LIMIT)];
        assert c in old(remoteItems) ==> remoteItems == old(remoteItems)[c := []];
        return;
      }
      DeletePage(c, page);
      DeleteAllPages(c);
      OverwriteTwice(old(remoteItems), c, items[|page|..], []);
      assert ClearPagesTrace(items, c)
        == [ListItems(c, PAGE_LIMIT)] + DeleteItemCalls(page, c) + ClearPagesTrace(items[|page|..], c);
    }
  }

  /** Resolving the same pair twice gives the same id, and the second call
      writes nothing and calls nothing. */
  method CreateTwice(svc: CoreService, userId: UserId, featureType: FeatureType, providerUp: bool)
    returns (first: Result<ConversationId, Error>, second: Result<ConversationId, Error>,
             ghost rowsBetween: seq<Row>, ghost traceBetween: seq<Effect>)
    requires svc.Valid()
    modifies svc
    ensures svc.Valid()
    ensures first.Success? ==> second == first
    ensures first.Success? ==> svc.rows == rowsBetween && svc.trace == traceBetween
  {
    first := svc.CreateConversationId(userId, featureType, providerUp);
    rowsBetween, traceBetween := svc.rows, svc.trace;
    second := svc.CreateConversationId(userId, featureType, providerUp);
  }

  /** Toggling the same binding twice gives back the table it started from. */
  method ToggleTwice(svc: CoreService, userId: UserId, conversationId: ConversationId)
    returns (first: Result<(), Error>, second: Result<(), Error>)
    requires svc.Valid()
    modifies svc
    ensures svc.Valid()
    ensures second == first
    ensures svc.rows == old(svc.rows)
  {
    var q := ConversationOf(conversationId, userId);
    ghost var rows0 := svc.rows;
    first := svc.SetUserConversationAvailable(userId, conversationId);
    if first.Success? {
      FirstWhereStable(rows0, svc.rows, q);
    }
    second := svc.SetUserConversationAvailable(userId, conversationId);
  }

  /** A fresh binding is created active and its deletion is refused. */
  method CreateThenDelete(svc: CoreService, userId: UserId, featureType: FeatureType, now: Timestamp)
    returns (created: Result<ConversationId, Error>, refused: Result<(), Error>)
    requires svc.Valid()
    requires userId in svc.users
    requires FirstWhere(svc.rows, ActiveOf(userId, featureType)).None?
    modifies svc
    ensures svc.Valid() && svc.users == old(svc.users)
    ensures created.Success? && refused == Failure(ConversationIsActive)
    ensures
      var row := Row(old(svc.nextRowId), userId, created.value, featureType, true, None);
      && svc.rows == old(svc.rows) + [row]
      && svc.trace == old(svc.trace) + [CreateConversation(Topic(featureType, userId)), DbInsert(row)]
      && FirstWhere(svc.rows, ConversationOf(created.value, userId)) == Some(|old(svc.rows)|)
  {
    ghost var rows0, key := svc.rows, svc.nextRowId;
    created := svc.CreateConversationId(userId, featureType, true);
    ghost var row := Row(key, userId, created.value, featureType, true, None);
    var q := ConversationOf(created.value, userId);
    assert FirstWhere(rows0, q).None?;
    FirstWhereAppend(rows0, row, q);
    refused := svc.DeleteUserConversation(userId, created.value, now, true);
  }

  /** Deactivating an active binding makes it deletable: the row is
      soft-deleted and the provider is asked exactly once to delete it. */
  method DeactivateThenDelete(svc: CoreService, userId: UserId, conversationId: ConversationId, now: Timestamp)
    returns (toggled: Result<(), Error>, deleted: Result<(), Error>)
    requires svc.Valid()
    requires userId in svc.users
    requires FirstWhere(svc.rows, ConversationOf(conversationId, userId)).Some?
    requires svc.rows[FirstWhere(svc.rows, ConversationOf(conversationId, userId)).value].isActive
    modifies svc
    ensures svc.Valid()
    ensures toggled == Success(()) && deleted == Success(())
    ensures
      var i := FirstWhere(old(svc.rows), ConversationOf(conversationId, userId)).value;
      var was := old(svc.rows)[i];
      && svc.rows == old(svc.rows)[i := was.(isActive := false, deletedAt := Some(now))]
      && svc.trace == old(svc.trace) + [
           DbUpdate(was.id, SetActive(false)),
           DbUpdate(was.id, SetDeletedAt(now)),
           DeleteRequest(conversationId)]
  {
    var q := ConversationOf(conversationId, userId);
    ghost var rows0 := svc.rows;
    toggled := svc.SetUserConversationAvailable(userId, conversationId);
    FirstWhereStable(rows0, svc.rows, q);
    deleted := svc.DeleteUserConversation(userId, conversationId, now, true);
  }

  /** The life of a fresh binding: created active, refused deletion while
      active, deactivated, then soft-deleted with exactly one provider delete. */
  method BindingLifecycle(svc: CoreService, userId: UserId, featureType: FeatureType, now: Timestamp)
    returns (created: Result<ConversationId, Error>, refused: Result<(), Error>,
             toggled: Result<(), Error>, deleted: Result<(), Error>)
    requires svc.Valid()
    requires userId in svc.users
    requires FirstWhere(svc.rows, ActiveOf(userId, featureType)).None?
    modifies svc
    ensures svc.Valid()
    ensures created.Success?
    ensures refused == Failure(ConversationIsActive)
    ensures toggled == Success(()) && deleted == Success(())
    ensures
      var row := Row(old(svc.nextRowId), userId, created.value, featureType, false, Some(now));
      && svc.rows == old(svc.rows) + [row]
      && svc.trace == old(svc.trace) + [
           CreateConversation(Topic(featureType, userId)),
           DbInsert(row.(isActive := true, deletedAt := None)),
           DbUpdate(row.id, SetActive(false)),
           DbUpdate(row.id, SetDeletedAt(now)),
           DeleteRequest(created.value)]
  {
    created, refused := CreateThenDelete(svc, userId, featureType, now);
    toggled, deleted := DeactivateThenDelete(svc, userId, created.value, now);
  }

  /** What the single-page clear leaves behind: with more than PAGE_LIMIT items
      in the conversation, all but the first PAGE_LIMIT survive. */
  method ClearAllLeavesOverflow(svc: CoreService, userId: UserId, conversationType: FeatureType)
    returns (r: Result<(), Error>)
    requires svc.Valid()
    requires userId in svc.users
    requires FirstWhere(svc.rows, OfType(userId, conversationType)).Some?
    requires |ItemsOf(svc.remoteItems, svc.rows[FirstWhere(svc.rows, OfType(userId, conversationType)).value].conversationId)| > PAGE_LIMIT
    modifies svc
    ensures r == Success(())
    ensures
      var c := old(svc.rows)[FirstWhere(old(svc.rows), OfType(userId, conversationType)).value].conversationId;
      && ItemsOf(svc.remoteItems, c) == ItemsOf(old(svc.remoteItems), c)[PAGE_LIMIT..]
      && |ItemsOf(svc.remoteItems, c)| > 0
  {
    r := svc.ClearAllConversation(userId, conversationType);
  }
}
