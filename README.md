# english-buddy: conversation bindings and prompt shaping, in Dafny

This project models the two pieces of logic in the english-buddy server.

- **The conversation binding service** (`CoreService`). It binds a (user, feature type) pair to a conversation hosted by the AI provider. It can also toggle a binding's `isActive` flag, soft-delete an inactive binding together with its remote conversation, and purge the items of a bound conversation.
  - The model is the class `Core.CoreService`. Its fields are:
    - the `users` table, as a set of ids;
    - the `user_conversations` table, as a sequence of rows; a select's first row is taken to be the first matching row of this sequence (see Left out);
    - the counter behind the table's random `uuid` key;
    - the counter behind the provider's fresh conversation ids;
    - the provider's items per conversation;
    - a ghost trace that records every table write and provider call, in order.
  - Each operation is a method with `modifies this`. It returns a `Result`. Its error cases are the service's thrown errors, whose texts are given by `ConversationTable.ErrorMessage`.
- **The translator service.** It builds two prompts: the translate prompt, and the situation prompt with its situation-type instruction. It sends each with its feature's entry of the configuration table through the provider's structured-output call. It then maps the parsed output, or the failure, into the response envelope `{data?, success?, message?, error?}`.
  - The prompt builders, the configuration table and the result mapping are functions with lemmas.
  - `translate` and `situation` are methods over an abstract provider call `respond`. That call either throws, returns no parsed output, or returns the parsed output.

Modules:
- `Wrappers`: `Option` and `Result`.
- `Strings`: JavaScript's `join`/`split` on one character, and decimal numerals.
- `Features`: the feature-type literal union.
- `ConversationTable`: rows, selects, updates, topics, provider ids and item listing, all as values.
- `Core`: the service class, plus client methods that chain its operations.
- `TranslatorConfig`: the per-feature instruction, model, output format and temperature.
- `TranslatorService`: the prompts, the envelope and the two provider-backed operations.

Behaviours of the code that the model keeps:
- **No "at most one active row" invariant.** The code never enforces at most one active row per (user, type). Toggling flips one row without looking at the others, and no select filters on `deletedAt`.
  - So the model carries no such invariant.
  - `CreateConversationId` proves something narrower: it adds an active row only when none exists, so it never raises their count above one by itself.
- **Soft delete comes before the remote delete.** `deleteUserConversation` writes `deletedAt` first and only then calls the provider. The model records the two steps in that order.
- **Users are checked by id only.** Every operation checks that the user id exists and nothing more about the user row. A malformed id fails differently (see Left out).
- **`translate` does not fail on missing output.** When the provider returns no parsed output, `translate` still reports success, with an undefined `translatedText`. Only `situation` turns that case into a failure envelope.
- **No conversation scope on the provider call.** Neither `translate` nor `situation` passes a conversation id to the provider.
- **Conversation ids are never shared.** The schema has no unique constraint on `conversationId`, but the service only inserts ids the provider has just created. So no two rows share one, and the model keeps this as part of its table invariant. The selects on (conversationId, userId) at lines 57 and 80 of `packages/server/src/core/service.ts` therefore return at most one row.
- **Situation languages come from the router's schema.** The service's own request type allows only TH and EN for `situation`. The router checks bodies against the shared request schema, which also allows JA, ZH, VI and ID for both `sourceLanguage` and `targetLanguage`, and passes the body on unchanged. So the situation prompt is modelled over all six codes, while `translate` takes TH or EN only, as both schemas say.
- **One page, not pagination.** `clearAllConversation` lists one page of 100 items and deletes only those (see Findings).

## Model

| member | source | states |
|---|---|---|
| Core.CoreService.constructor | packages/server/src/core/service.ts:15-21 | a new service holds the given users and provider items, an empty conversation table and an empty trace, and satisfies the class invariant; the given items must be duplicate-free and must not sit under an id the provider will hand out |
| Core.CoreService.CreateConversationId | packages/server/src/core/service.ts:23-48 | unknown user: fails with UserNotFound and nothing changes; an active row for (user, type) exists: returns the first one's conversationId with no write and no provider call; otherwise one create call tagged `conversation__<type>__<user>`, and if it fails nothing else happens; if it succeeds one active row {user, type, new id} is appended, every other row is kept, the same id is returned, and that id is new both to the table and to the provider, which now holds it with no items; afterwards the pair resolves to the returned id, and the count of active rows for the pair is 1 if it was 0 and unchanged otherwise |
| Core.CoreService.BindNewConversation | packages/server/src/core/service.ts:42-48 | appends exactly one row with the next key, the user, the type, the fresh id, `isActive` true (the column default) and no `deletedAt`, and keeps the table invariant; the provider gains an empty conversation under an id it did not hold; the new row becomes the first active match for the pair |
| Core.CoreService.SetUserConversationAvailable | packages/server/src/core/service.ts:51-72 | unknown user or no row for (conversationId, user): the matching error and nothing changes; otherwise exactly the first matching row has `isActive` negated, every other row and the provider are untouched, and one update keyed by that row's id is issued |
| Core.CoreService.DeleteUserConversation | packages/server/src/core/service.ts:74-94 | unknown user or no matching row: the matching error and nothing changes; an active row: ConversationIsActive and nothing changes; otherwise only that row gets `deletedAt := now`, and then exactly one provider delete of its conversation id is issued, the table write first; when the provider call fails the row stays soft-deleted |
| Core.CoreService.DeletePage | packages/server/src/core/service.ts:117-121 | one item-delete call per listed item, scoped to the conversation and in listing order; the listed items leave the provider's store |
| Core.CoreService.ClearAllConversation | packages/server/src/core/service.ts:96-124 | unknown user or no row of (user, type): the matching error and nothing changes; otherwise the first such row's conversation gets one listing call capped at 100, then one delete per listed item in order and none for an empty listing; table rows are untouched |
| Core.CoreService.DeleteAllPages | packages/server/src/core/service.ts:113-121 | lists and deletes page after page until a listing is empty; the issued calls are exactly `ClearPagesTrace` of the conversation's items, and the conversation ends with no items |
| Core.CoreService.ClearAllConversationPaged | packages/server/src/core/service.ts:96-124 | the clear as intended: same error cases as the clear as written; on success no item of the conversation survives, and the calls are the paged trace |
| Core.CreateTwice | packages/server/src/core/service.ts:30-48 | a second call with the same (user, type) after a successful one returns the same id, and writes and calls nothing |
| Core.ToggleTwice | packages/server/src/core/service.ts:57-69 | toggling the same binding twice returns the same result both times and gives back the original table |
| Core.CreateThenDelete | packages/server/src/core/service.ts:35-48 | a freshly created binding is active, so deleting it is refused with ConversationIsActive |
| Core.DeactivateThenDelete | packages/server/src/core/service.ts:67-92 | deactivating an active binding and then deleting it succeeds: the row ends inactive and soft-deleted, after exactly two updates and one provider delete |
| Core.BindingLifecycle | packages/server/src/core/service.ts:23-94 | create, refused delete, deactivate, delete: the row goes active, then inactive, then soft-deleted, with the five calls in that order |
| Core.ClearAllLeavesOverflow | packages/server/src/core/service.ts:113-121 | with more than 100 items, the clear as written leaves every item after the first 100 in place |
| ConversationTable.FirstWhere | packages/server/src/core/service.ts:30-32 | the result is the index of a matching row with no earlier match, and is None exactly when no row matches |
| ConversationTable.ErrorMessage | packages/server/src/core/service.ts:27-87 | the service puts a message into each error it throws itself (user not found, conversation not found, conversation active) and none into a provider failure; no message is empty |
| ConversationTable.FirstWhereAppend | packages/server/src/core/service.ts:42-46 | appending a row keeps an existing first match, and otherwise the new row is the first match exactly when it matches |
| ConversationTable.FirstWhereStable | packages/server/src/core/service.ts:57-65 | two tables of equal length whose rows match the same where clause give the same first match |
| ConversationTable.CountWhere | packages/server/src/core/service.ts:30-31 | a select returns at most as many rows as the table holds |
| ConversationTable.CountWhereAppend | packages/server/src/core/service.ts:42-46 | appending a row raises the number of matches by one exactly when it matches |
| ConversationTable.CountWhereZero | packages/server/src/core/service.ts:30-31 | there are no matches exactly when the select's first row is absent |
| ConversationTable.UpdateWhereId | packages/server/src/core/service.ts:69 | an update keyed by id keeps the table's length |
| ConversationTable.UpdateMissingId | packages/server/src/core/service.ts:69 | an update whose key no row holds changes nothing |
| ConversationTable.UpdateOnlyThatRow | packages/server/src/core/service.ts:69 | with unique keys, an update keyed by one row's id changes that row and no other |
| ConversationTable.Topic | packages/server/src/core/service.ts:36-38 | the topic opens with `conversation__<type>` and ends with the user id |
| ConversationTable.ConversationSelectAtMostOne | packages/server/src/core/service.ts:57-62 | while no two rows share a conversation id, the select on (conversationId, userId) returns at most one row |
| ConversationTable.ConversationSelectPicks | packages/server/src/core/service.ts:57-62 | while no two rows share a conversation id, the row that select picks is the one matching row, wherever it stands in the table |
| ConversationTable.UpdateKeepsBindings | packages/server/src/core/service.ts:69 | an update of `isActive` or `deletedAt` keeps conversation ids distinct |
| ConversationTable.TopicIdentifiesBinding | packages/server/src/core/service.ts:36-38 | different (type, user) pairs never share a topic tag |
| ConversationTable.ProviderId | packages/server/src/core/service.ts:35-39 | a provider id is `conv_` followed by a non-empty run of digits |
| ConversationTable.ProviderIdsDistinct | packages/server/src/core/service.ts:35-39 | the provider never gives two creates the same id |
| ConversationTable.InsertKeepsFresh | packages/server/src/core/service.ts:42-46 | inserting with the next key and the next provider id keeps keys unique and below the counter, conversation ids distinct, and later ids fresh |
| ConversationTable.CreateKeepsFreshKeys | packages/server/src/core/service.ts:35-39 | when the provider holds nothing under the ids it has yet to hand out, a create adds a conversation it did not hold and keeps the later ids unused |
| ConversationTable.FirstPage | packages/server/src/core/service.ts:113-115 | a listing returns a prefix of the items, of length at most the limit and all of them when fewer |
| ConversationTable.RemoveItem | packages/server/src/core/service.ts:118-120 | a deleted item is gone and every other item is kept |
| ConversationTable.RemoveFirstItem | packages/server/src/core/service.ts:118-120 | deleting the first listed item of a duplicate-free list leaves the rest in order |
| ConversationTable.DeleteItemCalls | packages/server/src/core/service.ts:117-121 | one call per listed item |
| ConversationTable.DeleteItemCallsSnoc | packages/server/src/core/service.ts:117-121 | one more loop iteration adds exactly one delete call, for that item |
| ConversationTable.DeletedItemsOfPage | packages/server/src/core/service.ts:117-121 | the calls for a page delete exactly that page's items, in order |
| ConversationTable.ClearPagesTrace | packages/server/src/core/service.ts:113-121 | a paged clear opens with a listing of up to 100 items, and its last call is a listing |
| ConversationTable.SinglePageDeletes | packages/server/src/core/service.ts:113-121 | the clear as written deletes exactly the first page, and so not all items when there are more than 100 |
| ConversationTable.ClearPagesDeletesAll | packages/server/src/core/service.ts:113-121 | the paged clear deletes every item exactly once, in listing order |
| Strings.SplitJoin | packages/server/src/translator/service.ts:54 | splitting a `join` at the separator gives back the parts, as long as no part contains it |
| Strings.SplitConcat | packages/server/src/translator/service.ts:54 | splitting at a separator splits the two sides independently |
| Strings.NatToString | packages/server/src/core/service.ts:35-39 | a numeral is non-empty and all digits |
| Strings.ParseNatToString | packages/server/src/core/service.ts:35-39 | reading a numeral back gives the number it was written from |
| TranslatorConfig.MappingInstruction | packages/server/src/translator/constant/instruction.ts:74-103 | Translator, Situation and UsageExplanation have an entry and KeywordDetect has none; every entry has temperature 0.7 |
| TranslatorService.DescriptionOrDefault | packages/server/src/translator/service.ts:54 | a non-empty description is kept; a missing or empty one becomes "Think by AI Teacher"; so the result is never empty |
| TranslatorService.SituationLine | packages/server/src/translator/service.ts:54 | a type's line opens with `- <type>: `, and is a single line whenever its description is |
| TranslatorService.SituationLines | packages/server/src/translator/service.ts:54 | one line per situation type, in request order |
| TranslatorService.InstructionLines | packages/server/src/translator/service.ts:52-55 | for a non-empty list of types none of whose descriptions holds a line break, the instruction read line by line is exactly one `- <type>: <description>` line per requested type, in request order |
| TranslatorService.SituationTypesInstruction | packages/server/src/translator/service.ts:52-55 | the instruction is empty exactly when no types, or an empty list, were sent, and otherwise opens with the first type's line |
| TranslatorService.SituationSection | packages/server/src/translator/service.ts:52-69 | the prompt says "All Declarative" exactly when no types, or an empty list, were sent, and carries the instruction otherwise |
| TranslatorService.TranslatePrompt | packages/server/src/translator/service.ts:26 | the translate prompt opens with the instruction naming the target language and ends with the text, unchanged |
| TranslatorService.TranslatePromptDetermines | packages/server/src/translator/service.ts:26 | the translate prompt determines both the target language and the text |
| TranslatorService.SituationRequestLine | packages/server/src/translator/service.ts:67 | the request line is indented and asks for a situation based on the text, which follows the lead unchanged |
| TranslatorService.SituationPrompt | packages/server/src/translator/service.ts:66-70 | the situation prompt opens with a line break, the request line and the order line, and ends with the template's indentation |
| TranslatorService.SituationPromptLines | packages/server/src/translator/service.ts:66-70 | read line by line, the situation prompt is: an empty line; the request line naming the text and both languages; the order line; one line per requested type (the first indented) or the single fallback line; and the closing indentation |
| TranslatorService.TranslationCall | packages/server/src/translator/service.ts:18-32 | a translate call uses the Translator entry: its instruction, model, format and temperature 0.7, and one user message holding the translate prompt |
| TranslatorService.SituationCall | packages/server/src/translator/service.ts:50-76 | a situation call uses the Situation entry: its instruction, model, format and temperature 0.7, and one user message holding the situation prompt |
| TranslatorService.DropUsageExplanations | packages/server/src/translator/service.ts:79-82 | the response has the same length and order as the parsed data, and each element keeps `situation` and `translatedSituation` |
| TranslatorService.Translate | packages/server/src/translator/service.ts:16-46 | on parsed output, the data carries the parsed `translatedText`; with no parsed output, the data has no `translatedText` and the call does not fail; on a throw, `success` is false, there is no data, the message is "Failed to translate text" and the error is what was thrown; `success` is false exactly when there is no data |
| TranslatorService.GenerateSituations | packages/server/src/translator/service.ts:48-91 | on parsed output, the data is the parsed list without usage explanations; with no parsed output or a throw, `success` is false, there is no data and the message is "Failed to generate situation"; `success` is false exactly when there is no data |

## Left out

- Routers, the server entry point, the user service, the client and the proof-of-concept scripts are not part of this model. These are the HTTP wiring, the UI and one-off scripts.
- The translator router calls `usageExplanation`, `keywordDetect`, `fileTranslation` and `conversation`. None of them exists in the translator service, so none is modelled.
- `SetUserConversationAvailableRequest` and `ClearAllConversationRequest` do not appear in the shared request models. The model takes their fields, (userId, conversationId) and (userId, conversationType), as plain parameters.
- Request and response validation is not modelled. This includes the `success` default of `true` that the response schema declares; the model leaves `success` absent where the service omits it.
- Postgres and the OpenAI SDK are replaced by abstract state:
  - the tables are class fields;
  - the random `uuid` key is a counter;
  - the provider's fresh conversation ids are `conv_<n>` from a counter;
  - `new Date()` is a `now` parameter;
  - the model names read from the environment are the `Environment` parameter;
  - the structured-output call is the `respond` parameter.
- Core.CoreService.CreateConversationId: provider failure is a `providerUp` flag. Database failures are not modelled.
- Core.CoreService.DeleteUserConversation: the provider call is `openai.delete(conversationId)`, a raw DELETE request on the bare id path. The model records it as `DeleteRequest(conversationId)` in the trace. What the provider does with that request is not modelled, so `remoteItems` is left unchanged.
- Core.CoreService.ClearAllConversation: a failing list or item-delete call is not modelled. Listing a conversation the provider does not know returns no items.
- ConversationTable.FirstWhere: the selects behind `createConversationId` and `clearAllConversation` have no `ORDER BY`, and several rows can match them. Postgres may return those rows in any order, and an update may change that order. The model always takes the first match in table order and keeps updated rows in place. So where several rows match, which one the code picks is not modelled, and the guarantee of Core.CreateTwice rests on this fixed choice. The selects of `setUserConversationAvailable` and `deleteUserConversation` match at most one row (ConversationTable.ConversationSelectAtMostOne), so their choice does not depend on order.
- Core.CoreService.CreateConversationId, SetUserConversationAvailable, DeleteUserConversation and ClearAllConversation: user ids are taken to be well-formed uuids. The `users.id` column is a `uuid`, while the request accepts any string. A malformed id makes the user select fail with a database error, which these operations throw instead of "User not found". The model answers UserNotFound for every id not in `users`.
- The shared situation request schema also carries `difficultyLevel` and a per-type `style`. The service never reads them, so the model has no field for them.
- The concurrent-create race is not modelled. Each operation runs as one atomic sequential step.
- Logging (`console.log`) is not modelled.
- Timestamps other than `deletedAt` are not modelled.
- The older situation instruction, which the configuration table does not reference, is not modelled.
- The instruction texts are written out in `TranslatorConfig`. The output formats are modelled by their field structure, not as zod schema objects.
- TranslatorService.SituationPromptLines: requires that the text and the descriptions contain no line break, since splitting a prompt into lines cannot otherwise recover them.

## Findings

| source | as written | input that shows it | evidently intended | confidence | as-written member | corrected member |
|---|---|---|---|---|---|---|
| packages/server/src/core/service.ts:113-121 | `clearAllConversation` lists one page (`limit: 100`) and deletes only the items on that page | a bound conversation with 101 items: the 101st item survives the clear | clear every item, listing page after page until a listing is empty | medium, not executed | Core.ClearAllLeavesOverflow | Core.CoreService.ClearAllConversationPaged |
