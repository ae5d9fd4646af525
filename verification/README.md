# Account webhook server: ingestion pipeline model

This project models the webhook ingestion core of an account service in Dafny. The service receives webhook notifications about account changes. Each notification carries a caller-supplied idempotency key (`eventId`). The service records every notification once in an event table. It then applies the change to an account table and closes the event record as DONE or FAILED.

The model is functional. Each table is a `map` from its unique key to the rest of its row. Each repository operation is a pure step from the table before to the table after, and the dispatcher is a total function `ReceiveWebhook(stores, eventId, request, now, serialize) -> (stores', response)`.

Modules follow the source layout:

- `Common` (`common.dfy`): the three enumerations (`EventStatus`, `EventType`, `AccountStatus`), `Option`/`Result`, and the frame predicate `AgreeExcept`.
- `Entity` (`entity.dfy`): the rows of `webhook_event` and `account`, their insert defaults, and the row invariant `ConsistentEvent`.
- `ApiModel` (`api_model.dfy`): the request and response shapes.
- `WebhookEventRepository` and `AccountRepository`: the two stores.
- `AccountService` and `EventService`: the query services.
- `WebhookService`: the dispatcher and its three handlers.
- `Redelivery`: sequences of deliveries, and idempotency stated over whole histories.
- `Scenarios`: the end-to-end walk-throughs.

Thrown exceptions become `Result` values. A repository insert on a taken key yields `Err(Duplicate…)`, which is what the table's unique index does. A handler failure yields `Err(message)`, and the dispatcher records that message on a FAILED row. The clock and the JSON serialiser are parameters. `now` is the single clock reading for a request. `serialize` produces the stored payload.

Modelling choices:

- `model/WebhookRequest.kt` declares `eventType` as a `String`. The dispatcher reads `.name` from it and matches it exhaustively over the three event kinds, and the tests build requests from the enum. The model therefore uses the closed datatype `EventType`.
- The event view (`EventResponse`) carries neither the payload nor the error message. The model's view has the same fields.
- The code does not handle two concurrent deliveries of the same `eventId`: the second insert fails on the unique index. The model is sequential, so the existence check always guards the insert, and `ReceiveWebhook` proves the insert-failure branch unreachable.
- Here the model departs from the code. Both tables declare `createdAt` with a default evaluated once, when the table object is loaded (see Findings). The stores and everything built on them use the corrected per-insert default, so a new row's `createdAt` is the instant of its insert. The members that state `createdAt` are listed under "## Left out".

## Model

| member | source | states |
|---|---|---|
| `Common.ParseEventType` | src/main/kotlin/com/service/accountwebhookserver/model/WebhookRequest.kt:5 | Decoding the body's `eventType` field yields only the event type whose constant name it is, and every string that is not one of the three names is rejected |
| `Common.EventTypeNameInjective` | src/main/kotlin/com/service/accountwebhookserver/service/WebhookService.kt:28 | Distinct event types are stored under distinct names, so the stored `eventType` string identifies the request's type |
| `Common.EventTypeNameRoundTrip` | src/main/kotlin/com/service/accountwebhookserver/service/WebhookService.kt:28 | Reading a stored type name back gives the type it was written from |
| `Entity.EventCreatedAtFrozenAsWritten` | src/main/kotlin/com/service/accountwebhookserver/entity/WebhookEvents.kt:15 | As declared, two events inserted at different instants get the same `createdAt`, and neither gets its own insertion time (see Findings) |
| `Entity.AccountCreatedAtFrozenAsWritten` | src/main/kotlin/com/service/accountwebhookserver/entity/Accounts.kt:13 | As declared, an account created at instant 7 in a process whose table was loaded at instant 0 reports `createdAt` 0, the table-load instant, and not its own creation instant (see Findings) |
| `Entity.EventCreatedAtIsInsertTime` | src/main/kotlin/com/service/accountwebhookserver/entity/WebhookEvents.kt:13-16 | Corrected defaults: a new event row is RECEIVED with no error message and no `processedAt`, and its `createdAt` is its own insertion time, so rows inserted at different instants differ |
| `Entity.AccountCreatedAtIsInsertTime` | src/main/kotlin/com/service/accountwebhookserver/entity/Accounts.kt:12-14 | Corrected defaults: a new account is ACTIVE, has no `updatedAt`, and its `createdAt` is its own creation time |
| `WebhookEventRepository.FindByEventId` | src/main/kotlin/com/service/accountwebhookserver/repository/WebhookEventRepository.kt:44-59 | An event is found exactly when `existsByEventId` holds. The view found carries the key asked for and that row's type, status, `createdAt` and `processedAt` |
| `WebhookEventRepository.Save` | src/main/kotlin/com/service/accountwebhookserver/repository/WebhookEventRepository.kt:18-27 | Fails on the unique index exactly when the key is present. Otherwise it adds exactly one key and leaves every other row unchanged. The new row is RECEIVED with no error and no `processedAt`, holds the given type and payload, and is the row returned |
| `WebhookEventRepository.UpdateStatus` | src/main/kotlin/com/service/accountwebhookserver/repository/WebhookEventRepository.kt:29-42 | An unknown key answers none and changes nothing. On a known key the call sets status and error message to the arguments, so a missing message clears the old one. `processedAt` is stamped for DONE/FAILED and kept otherwise. Type, payload, `createdAt` and all other rows stay as they were, and the row returned is the stored one |
| `WebhookEventRepository.SaveThenFind` | src/main/kotlin/com/service/accountwebhookserver/repository/WebhookEventRepository.kt:18-27 | After a save, the key exists and reads back as RECEIVED with the given type and no `processedAt`. Every other key reads as before |
| `WebhookEventRepository.SaveTwiceRejected` | src/main/kotlin/com/service/accountwebhookserver/entity/WebhookEvents.kt:10 | The unique `eventId` index refuses a second insert under the same key |
| `WebhookEventRepository.ProcessedAtNeverCleared` | src/main/kotlin/com/service/accountwebhookserver/repository/WebhookEventRepository.kt:37-39 | Once `processedAt` is set, no status update removes it |
| `WebhookEventRepository.ReopenedRowKeepsProcessedAt` | src/main/kotlin/com/service/accountwebhookserver/repository/WebhookEventRepository.kt:37-39 | The store alone does not tie `processedAt` to terminal statuses: a DONE row moved back to PROCESSING keeps its `processedAt` |
| `WebhookEventRepository.UpdateWithoutMessageClearsError` | src/main/kotlin/com/service/accountwebhookserver/repository/WebhookEventRepository.kt:32-36 | An update without an error message clears the stored one |
| `AccountRepository.FindByAccountKey` | src/main/kotlin/com/service/accountwebhookserver/repository/AccountRepository.kt:43-58 | An account is found exactly when `existsByAccountKey` holds. The view carries the key asked for and that row's email and status |
| `AccountRepository.Save` | src/main/kotlin/com/service/accountwebhookserver/repository/AccountRepository.kt:18-25 | Fails on the unique index exactly when the key is present. Otherwise it adds exactly that key, as ACTIVE with the given email and no `updatedAt`, and leaves every other account unchanged. The returned view is the stored one |
| `AccountRepository.UpdateEmail` | src/main/kotlin/com/service/accountwebhookserver/repository/AccountRepository.kt:27-33 | An absent key answers none and changes nothing. A present key gets the new email and a stamped `updatedAt`, with status and `createdAt` kept. Other accounts are unchanged, and the returned view is the post-update row |
| `AccountRepository.UpdateStatus` | src/main/kotlin/com/service/accountwebhookserver/repository/AccountRepository.kt:35-41 | An absent key answers none and changes nothing. A present key gets the new status from any status, with a stamped `updatedAt`, and keeps its email and `createdAt`. Other accounts are unchanged, and the returned view is the post-update row |
| `AccountRepository.SaveThenFind` | src/main/kotlin/com/service/accountwebhookserver/repository/AccountRepository.kt:18-25 | A saved account reads back as ACTIVE with its email. Every other key reads as before |
| `AccountRepository.UpdateEmailThenFind` | src/main/kotlin/com/service/accountwebhookserver/repository/AccountRepository.kt:27-33 | After an email update, a lookup yields the new email with the old status, and it equals the record the update returned |
| `AccountRepository.StatusLastWriteWins` | src/main/kotlin/com/service/accountwebhookserver/repository/AccountRepository.kt:35-41 | Two status writes in a row leave the second status and the second `updatedAt`. No transition order is enforced |
| `AccountService.CreateAccount` | src/main/kotlin/com/service/accountwebhookserver/service/AccountService.kt:13-15 | Creation is the store's insert of the request's key and email. It fails exactly when the key is taken, and otherwise returns the account as ACTIVE |
| `AccountService.GetAccount` | src/main/kotlin/com/service/accountwebhookserver/service/AccountService.kt:17-19 | A lookup is the store's find. It answers none exactly for an absent key, and otherwise returns that account's email and status |
| `AccountService.CreateThenGet` | src/main/kotlin/com/service/accountwebhookserver/service/AccountService.kt:13-19 | A created account is then served by the lookup as ACTIVE with its email |
| `EventService.GetEvent` | src/main/kotlin/com/service/accountwebhookserver/service/EventService.kt:12-14 | A lookup is the store's find. It answers none exactly for an absent key, and otherwise returns that event's status |
| `EventService.ReportedProcessedAtMatchesStatus` | src/test/kotlin/com/service/accountwebhookserver/service/EventServiceTest.kt:64-81 | In a consistent table, an event reported as PROCESSING or RECEIVED has no `processedAt`, and a DONE or FAILED one has one |
| `WebhookService.EmailOf` | src/main/kotlin/com/service/accountwebhookserver/service/WebhookService.kt:52 | An email is extracted exactly when the data is present, has an `email` entry, and that entry is a string, and it is that string |
| `WebhookService.HandleEmailForwardingChanged` | src/main/kotlin/com/service/accountwebhookserver/service/WebhookService.kt:51-56 | A missing string email fails with "email이 필요합니다" before the account is looked up. A missing account fails with the not-found message. Otherwise only that account's email and `updatedAt` change |
| `WebhookService.HandleAccountDeleted` | src/main/kotlin/com/service/accountwebhookserver/service/WebhookService.kt:58-61 | A missing account fails with "계정을 찾을 수 없습니다: " plus the key. Otherwise only that account's status becomes DELETED, with `updatedAt` stamped |
| `WebhookService.HandleAppleAccountDeleted` | src/main/kotlin/com/service/accountwebhookserver/service/WebhookService.kt:63-66 | A missing account fails with the not-found message. Otherwise only that account's status becomes APPLE_DELETED, with `updatedAt` stamped |
| `WebhookService.Handle` | src/main/kotlin/com/service/accountwebhookserver/service/WebhookService.kt:37-42 | The dispatch fails exactly when the reference failure definition says so, with the same message. Otherwise it performs exactly the reference mutation for the event type |
| `WebhookService.ProcessEvent` | src/main/kotlin/com/service/accountwebhookserver/service/WebhookService.kt:34-49 | The row ends terminal with `processedAt` stamped and with type, payload and `createdAt` kept. It is DONE exactly when the reply is "processed", and FAILED with the failure's message exactly when the reply is "failed" (prefixed "이벤트 처리 실패: "). On failure the accounts are untouched. An unknown key leaves the event table unchanged |
| `WebhookService.ReceiveWebhook` | src/main/kotlin/com/service/accountwebhookserver/service/WebhookService.kt:20-49 | The reply is "duplicated" exactly for a known key, and then both tables are untouched. A new key adds exactly one row (type name, serialised request, terminal, `processedAt` set) and leaves other rows alone. The reply is "processed" iff DONE and "failed" iff FAILED, and the accounts change exactly as the event type prescribes, or not at all on failure |
| `WebhookService.ReplayIsDuplicate` | src/main/kotlin/com/service/accountwebhookserver/service/WebhookService.kt:22-24 | Redelivering a just-received key, with any body at any time, answers "duplicated" and changes neither table |
| `WebhookService.MissingAccountFails` | src/main/kotlin/com/service/accountwebhookserver/service/WebhookService.kt:54-65 | Any event type against a missing account fails. Unless it is a forwarding change without a string email, which fails with "email이 필요합니다" (`MissingEmailFails`), the FAILED row holds "계정을 찾을 수 없습니다: " plus the key, the accounts are untouched, and a replay is "duplicated" with no change |
| `WebhookService.MissingEmailFails` | src/main/kotlin/com/service/accountwebhookserver/service/WebhookService.kt:52-53 | A forwarding change with no data, no `email` or a non-string `email` fails with "email이 필요합니다" whether or not the account exists, and the accounts are untouched |
| `WebhookService.ReceivePreservesConsistency` | src/main/kotlin/com/service/accountwebhookserver/service/WebhookService.kt:35-47 | One delivery keeps every row consistent: `processedAt` is present iff the status is terminal, and an error message appears only on FAILED |
| `Redelivery.ReceiveAll` | src/main/kotlin/com/service/accountwebhookserver/service/WebhookService.kt:20-32 | Deliveries handled one after another get exactly one reply each, and an empty run leaves the tables as given. Which reply answers which delivery is `ReplyAnswersItsDelivery` |
| `Redelivery.ReplyAnswersItsDelivery` | src/main/kotlin/com/service/accountwebhookserver/service/WebhookService.kt:20-32 | Reply `i` of a run is exactly the answer to delivery `i` against the tables left by deliveries `0..i-1` |
| `Redelivery.ReceiveAllKeys` | src/main/kotlin/com/service/accountwebhookserver/service/WebhookService.kt:22-28 | Rows are never deleted. After any run of deliveries, the table's keys are the old keys plus the delivered ones |
| `Redelivery.ReceiveAllKeepsExistingRows` | src/main/kotlin/com/service/accountwebhookserver/service/WebhookService.kt:20-32 | A row present before a run is identical after it, so closed rows are never reopened |
| `Redelivery.ReceiveAllPreservesConsistency` | src/main/kotlin/com/service/accountwebhookserver/service/WebhookService.kt:34-48 | Every run keeps all rows consistent |
| `Redelivery.ProcessedExactlyOnce` | src/test/kotlin/com/service/accountwebhookserver/integration/WebhookIntegrationTest.kt:150-190 | Over any run, a key already stored is processed zero times. A new key delivered any number of times is processed exactly once, and every other delivery under it is "duplicated" |
| `Redelivery.DeliveredKeysClosed` | src/main/kotlin/com/service/accountwebhookserver/service/WebhookService.kt:20-48 | Every key a run delivers ends with a row that is DONE or FAILED with `processedAt` set, provided any row it already had was closed. An open row from before the run stays open, since its redelivery is "duplicated" |
| `Scenarios.CreateThenDelete` | src/test/kotlin/com/service/accountwebhookserver/integration/WebhookIntegrationTest.kt:46-104 | Creating `acc-1` answers ACTIVE and it reads back ACTIVE with its email. ACCOUNT_DELETED under `evt-1` is "processed", the account then reads DELETED and the event reads DONE |
| `Scenarios.DeleteThenRedeliver` | src/test/kotlin/com/service/accountwebhookserver/integration/WebhookIntegrationTest.kt:150-190 | ACCOUNT_DELETED under `evt-1` is "processed". The same delivery again answers "duplicated" with the duplicate message, leaves the event table unchanged, and the account stays DELETED |
| `Scenarios.UnknownAccountRecordedAsFailed` | src/test/kotlin/com/service/accountwebhookserver/integration/WebhookIntegrationTest.kt:213-243 | A webhook for a never-created account is "failed", and the event reads FAILED with `processedAt` and the not-found message |

## Left out

- Signature verification (`util/SignatureValidator.kt`, `config/SignatureInterceptor.kt`, `config/CachedBodyHttpServletRequest.kt`, `config/WebConfig.kt`): this is HMAC-SHA256 and Base64 through a foreign crypto library plus servlet plumbing. The model starts after a request has been authenticated.
- HTTP controllers (`AccountController.kt`, `WebhookController.kt`, `InboxController.kt`): they only map results to 200/201/404. Their effect is visible in the services' `Option`/`Result` results.
- Bootstrap and schema creation (`DatabaseConfig.kt`, `AccountWebhookServerApplication.kt`, `build.gradle.kts`): wiring only.
- Concurrency and transactions: each store call is one step, and requests are handled one after another. The race between the existence check and the insert under concurrent identical deliveries is not modelled. Sequentially, the check always guards the insert.
- JSON serialisation: the serialiser is a parameter, `serialize`. JSON values other than strings in `data` are one case, `JNonString`, because the code only asks whether the `email` entry is a string.
- WebhookService.ReceiveWebhook: the source reads the wall clock separately for the account update (`updatedAt`) and for the closing DONE/FAILED update (`processedAt`); the insert and the PROCESSING update read no clock. The model uses one reading, `now`, for the whole request. Its `createdAt == now` follows the corrected per-insert default, not the load-time instant the code stores (see Findings).
- WebhookEventRepository.Save: the new row's `createdAt` is the insert time `now`, the corrected default. The code as written stores the instant the table object was loaded (see Findings).
- WebhookEventRepository.SaveThenFind: reads back the corrected `createdAt`, the insert time, rather than the table-load instant the code stores (see Findings).
- AccountRepository.Save: the new account's `createdAt` is the insert time `now`, the corrected default. The code as written stores the table-load instant (see Findings).
- Scenarios.CreateThenDelete: the event view's `createdAt` of 2 is the corrected default. The code as written would report the table-load instant (see Findings).
- Scenarios.UnknownAccountRecordedAsFailed: the event view's `createdAt` of 5 is the corrected default. The code as written would report the table-load instant (see Findings).
- Surrogate `id` columns of both tables: no operation reads them.
- Column widths (`varchar(255)`, `varchar(100)`, `varchar(50)`): strings are unbounded in the model. One observable outcome is lost: a forwarding change whose `data.email` is longer than 255 characters makes `updateEmail` throw inside `processEvent`'s `try` (WebhookService.kt:37-47), so the source answers "failed" with a FAILED row and the storage library's message, where the model answers "processed". Over-long keys or type names would likewise fail at the insert, outside the `try`.
- Storage failures: a failing database call is not modelled. This includes a failure of the DONE update, which the source's `try` block would turn into a FAILED outcome.
- A `null` exception message: every exception the handlers raise carries a message, so the "null" text in the failure reply cannot arise.
- Status columns hold the enum constant's name. The model stores and reports the enum value itself, because only the repositories write these columns and they always write an enum's name.
- The existence checks are the predicates `WebhookEventRepository.ExistsByEventId` (`existsByEventId`, WebhookEventRepository.kt:48-52) and `AccountRepository.ExistsByAccountKey` (`existsByAccountKey`). Each holds exactly when the key is a key of its table. They have no rows of their own because a bare predicate carries no contract. `ExistsByEventId` is the duplicate check the dispatcher makes at WebhookService.kt:22, and its meaning is stated by the rows that use it: `FindByEventId` (found iff it holds), `Save` (fails iff it holds) and `ReceiveWebhook` ("duplicated" iff it holds). `existsByAccountKey` is never called by the core; `FindByAccountKey` is found exactly when it holds.

## Findings

| source | as written | input that shows it | evidently intended | confidence | as-written member | corrected member |
|---|---|---|---|---|---|---|
| src/main/kotlin/com/service/accountwebhookserver/entity/WebhookEvents.kt:15 | `createdAt` defaults to a value computed once, when the table object is loaded, so every inserted event gets that same instant | the table is loaded at instant 0, then two events are saved at instants 1 and 2: both rows report `createdAt` 0 | each row's `createdAt` is its own insertion time (a per-insert default) | medium; not executed, depends on the storage library evaluating the default value once | `Entity.EventCreatedAtFrozenAsWritten` | `Entity.EventCreatedAtIsInsertTime` |
| src/main/kotlin/com/service/accountwebhookserver/entity/Accounts.kt:13 | the same single-evaluation default for `createdAt` of accounts | the table is loaded at instant 0, then an account is created at instant 7: it reports `createdAt` 0 | each account's `createdAt` is its creation time | medium; not executed, as above | `Entity.AccountCreatedAtFrozenAsWritten` | `Entity.AccountCreatedAtIsInsertTime` |
