/**
 The webhook dispatcher: duplicate check, insert as RECEIVED, move to
 PROCESSING, run the handler for the event type against the account store,
 then close the event as DONE or FAILED and answer accordingly.

 Handler exceptions become `Err(message)` results; the dispatcher turns them
 into a FAILED row carrying the message, never into an error reply.
 */
module WebhookService {
  import opened Common
  import opened Entity
  import opened ApiModel
  import Events = WebhookEventRepository
  import Accounts = AccountRepository

  const DuplicatedMessage: string := "이미 수신된 이벤트입니다"
  const ProcessedMessage: string := "이벤트 처리 완료"
  const FailedPrefix: string := "이벤트 처리 실패: "
  const EmailRequired: string := "email이 필요합니다"
  const AccountNotFoundPrefix: string := "계정을 찾을 수 없습니다: "

  /** The message of the not-found failure for `accountKey`. */
  function AccountNotFound(accountKey: string): string {
    AccountNotFoundPrefix + accountKey
  }

  /** Both tables the dispatcher works on. */
  datatype Stores = Stores(events: EventTable, accounts: AccountTable)

  /** The tables after one request, and the reply to it. */
  datatype Outcome = Outcome(stores: Stores, response: WebhookResponse)

  function Duplicated(): WebhookResponse { WebhookResponse("duplicated", DuplicatedMessage) }
  function Processed(): WebhookResponse { WebhookResponse("processed", ProcessedMessage) }
  function FailedWith(message: string): WebhookResponse { WebhookResponse("failed", FailedPrefix + message) }

  /** The `email` entry of the request's data, when there is data, the entry
      exists and it is a JSON string. */
  function EmailOf(request: WebhookRequest): (email: Option<string>)
    ensures email.Some? <==>
      && request.data.Some?
      && "email" in request.data.value
      && request.data.value["email"].JString?
    ensures email.Some? ==> request.data.value["email"] == JString(email.value)
  {
    match request.data
    case None => None
    case Some(fields) =>
      if "email" in fields && fields["email"].JString? then Some(fields["email"].text) else None
  }

  // ---------------------------------------------------------------------------
  // Reference definitions of what a request should do, stated from the
  // request and the account table alone.
  // ---------------------------------------------------------------------------

  /** `accounts'` is `accounts` with only `accountKey`'s email replaced and its
      update time stamped. */
  predicate EmailChanged(accounts: AccountTable, accounts': AccountTable, accountKey: string, email: string, now: Time) {
    && accountKey in accounts
    && accounts'.Keys == accounts.Keys
    && AgreeExcept(accounts, accounts', accountKey)
    && accounts'[accountKey] == accounts[accountKey].(email := email, updatedAt := Some(now))
  }

  /** `accounts'` is `accounts` with only `accountKey`'s status replaced and
      its update time stamped. */
  predicate StatusChanged(accounts: AccountTable, accounts': AccountTable, accountKey: string, status: AccountStatus, now: Time) {
    && accountKey in accounts
    && accounts'.Keys == accounts.Keys
    && AgreeExcept(accounts, accounts', accountKey)
    && accounts'[accountKey] == accounts[accountKey].(status := status, updatedAt := Some(now))
  }

  /** The failure a request meets, if any: a forwarding change without a
      string email is refused before the account is looked up; otherwise a
      missing account is the failure. */
  function ExpectedFailure(accounts: AccountTable, request: WebhookRequest): Option<string> {
    if request.eventType == EmailForwardingChanged && EmailOf(request).None? then Some(EmailRequired)
    else if request.accountKey !in accounts then Some(AccountNotFound(request.accountKey))
    else None
  }

  /** The account mutation a request that meets no failure performs. */
  predicate AppliedEffect(accounts: AccountTable, accounts': AccountTable, request: WebhookRequest, now: Time) {
    match request.eventType
    case EmailForwardingChanged =>
      EmailOf(request).Some? && EmailChanged(accounts, accounts', request.accountKey, EmailOf(request).value, now)
    case AccountDeleted => StatusChanged(accounts, accounts', request.accountKey, Deleted, now)
    case AppleAccountDeleted => StatusChanged(accounts, accounts', request.accountKey, AppleDeleted, now)
  }

  // ---------------------------------------------------------------------------
  // Handlers
  // ---------------------------------------------------------------------------

  /** EMAIL_FORWARDING_CHANGED: requires a string `email`, then updates the
      account's email, failing when the account does not exist. */
  function HandleEmailForwardingChanged(accounts: AccountTable, request: WebhookRequest, now: Time)
    : (r: Result<AccountTable, string>)
    ensures EmailOf(request).None? ==> r == Err(EmailRequired)
    ensures EmailOf(request).Some? && request.accountKey !in accounts ==> r == Err(AccountNotFound(request.accountKey))
    ensures EmailOf(request).Some? && request.accountKey in accounts ==>
      r.Ok? && EmailChanged(accounts, r.value, request.accountKey, EmailOf(request).value, now)
  {
    match EmailOf(request)
    case None => Err(EmailRequired)
    case Some(email) =>
      var updated := Accounts.UpdateEmail(accounts, request.accountKey, email, now);
      if updated.response.None? then Err(AccountNotFound(request.accountKey)) else Ok(updated.accounts)
  }

  /** ACCOUNT_DELETED: sets the account's status to DELETED, failing when the
      account does not exist. */
  function HandleAccountDeleted(accounts: AccountTable, request: WebhookRequest, now: Time)
    : (r: Result<AccountTable, string>)
    ensures request.accountKey !in accounts ==> r == Err(AccountNotFound(request.accountKey))
    ensures request.accountKey in accounts ==>
      r.Ok? && StatusChanged(accounts, r.value, request.accountKey, Deleted, now)
  {
    var updated := Accounts.UpdateStatus(accounts, request.accountKey, Deleted, now);
    if updated.response.None? then Err(AccountNotFound(request.accountKey)) else Ok(updated.accounts)
  }

  /** APPLE_ACCOUNT_DELETED: sets the account's status to APPLE_DELETED,
      failing when the account does not exist. */
  function HandleAppleAccountDeleted(accounts: AccountTable, request: WebhookRequest, now: Time)
    : (r: Result<AccountTable, string>)
    ensures request.accountKey !in accounts ==> r == Err(AccountNotFound(request.accountKey))
    ensures request.accountKey in accounts ==>
      r.Ok? && StatusChanged(accounts, r.value, request.accountKey, AppleDeleted, now)
  {
    var updated := Accounts.UpdateStatus(accounts, request.accountKey, AppleDeleted, now);
    if updated.response.None? then Err(AccountNotFound(request.accountKey)) else Ok(updated.accounts)
  }

  /** The exhaustive dispatch on the event type. It fails exactly when the
      reference definition says so, with the same message, and otherwise
      performs exactly the reference mutation. */
  function Handle(accounts: AccountTable, request: WebhookRequest, now: Time): (r: Result<AccountTable, string>)
    ensures r.Err? <==> ExpectedFailure(accounts, request).Some?
    ensures r.Err? ==> r.error == ExpectedFailure(accounts, request).value
    ensures r.Ok? ==> AppliedEffect(accounts, r.value, request, now)
  {
    match request.eventType
    case EmailForwardingChanged => HandleEmailForwardingChanged(accounts, request, now)
    case AccountDeleted => HandleAccountDeleted(accounts, request, now)
    case AppleAccountDeleted => HandleAppleAccountDeleted(accounts, request, now)
  }

  // ---------------------------------------------------------------------------
  // Dispatcher
  // ---------------------------------------------------------------------------

  /** Moves the event to PROCESSING, runs the handler, then closes the event
      as DONE (no message) or FAILED (with the handler's message). When no row
      has `eventId`, the status updates are no-ops but the handler still runs. */
  function ProcessEvent(s: Stores, eventId: string, request: WebhookRequest, now: Time): (o: Outcome)
    ensures o.response.status == "processed" <==> ExpectedFailure(s.accounts, request).None?
    ensures o.response.status != "duplicated"
    ensures ExpectedFailure(s.accounts, request).None? ==>
      o.response == Processed() && AppliedEffect(s.accounts, o.stores.accounts, request, now)
    ensures ExpectedFailure(s.accounts, request).Some? ==>
      o.response == FailedWith(ExpectedFailure(s.accounts, request).value) && o.stores.accounts == s.accounts
    ensures eventId !in s.events ==> o.stores.events == s.events
    ensures eventId in s.events ==>
      && o.stores.events.Keys == s.events.Keys
      && AgreeExcept(s.events, o.stores.events, eventId)
    ensures eventId in s.events ==>
      var before, after := s.events[eventId], o.stores.events[eventId];
      && after.eventType == before.eventType
      && after.payload == before.payload
      && after.createdAt == before.createdAt
      && after.status.IsTerminal()
      && after.processedAt == Some(now)
      && (after.status == Done <==> o.response.status == "processed")
      && (after.status == Failed <==> o.response.status == "failed")
      && after.errorMessage == ExpectedFailure(s.accounts, request)
  {
    var processing := Events.UpdateStatus(s.events, eventId, Processing, None, now).events;
    match Handle(s.accounts, request, now)
    case Ok(accounts') =>
      var done := Events.UpdateStatus(processing, eventId, Done, None, now).events;
      Outcome(Stores(done, accounts'), Processed())
    case Err(message) =>
      var failed := Events.UpdateStatus(processing, eventId, Failed, Some(message), now).events;
      Outcome(Stores(failed, s.accounts), FailedWith(message))
  }

  /** Receives one webhook delivery under idempotency key `eventId` at time
      `now`; `serialize` is the JSON serialiser that produces the stored payload.

      A known key is answered "duplicated" with both tables untouched. A new
      key gets exactly one new row, holding the request's type name and its
      serialisation, closed as DONE or FAILED with `processedAt` stamped; the
      reply is "processed" exactly when the row is DONE and "failed" exactly
      when it is FAILED, and the account table changes exactly as the event
      type prescribes, or not at all on failure. */
  function ReceiveWebhook(s: Stores, eventId: string, request: WebhookRequest, now: Time, serialize: WebhookRequest -> string)
    : (o: Outcome)
    ensures o.response.status == "duplicated" <==> Events.ExistsByEventId(s.events, eventId)
    ensures Events.ExistsByEventId(s.events, eventId) ==> o == Outcome(s, Duplicated())
    ensures !Events.ExistsByEventId(s.events, eventId) ==>
      && o.stores.events.Keys == s.events.Keys + {eventId}
      && AgreeExcept(s.events, o.stores.events, eventId)
    ensures !Events.ExistsByEventId(s.events, eventId) ==>
      var e := o.stores.events[eventId];
      && e.eventType == request.eventType.Name()
      && e.payload == serialize(request)
      && e.createdAt == now
      && e.status.IsTerminal()
      && e.processedAt == Some(now)
      && (e.status == Done <==> o.response.status == "processed")
      && (e.status == Failed <==> o.response.status == "failed")
      && e.errorMessage == ExpectedFailure(s.accounts, request)
    ensures !Events.ExistsByEventId(s.events, eventId) ==>
      match ExpectedFailure(s.accounts, request)
      case None =>
        o.response == Processed() && AppliedEffect(s.accounts, o.stores.accounts, request, now)
      case Some(message) =>
        o.response == FailedWith(message) && o.stores.accounts == s.accounts
  {
    if Events.ExistsByEventId(s.events, eventId) then
      Outcome(s, Duplicated())
    else
      match Events.Save(s.events, eventId, request.eventType.Name(), serialize(request), now)
      case Err(_) =>
        assert false;
        Outcome(s, Duplicated())
      case Ok(saved) =>
        ProcessEvent(Stores(saved.events, s.accounts), eventId, request, now)
  }

  // ---------------------------------------------------------------------------
  // Properties relating several calls
  // ---------------------------------------------------------------------------

  /** Redelivering a key that was just received, with any request at any time,
      answers "duplicated" and changes nothing. */
  lemma ReplayIsDuplicate(
    s: Stores, eventId: string, request: WebhookRequest, now: Time,
    replay: WebhookRequest, later: Time, serialize: WebhookRequest -> string)
    ensures var first := ReceiveWebhook(s, eventId, request, now, serialize);
            ReceiveWebhook(first.stores, eventId, replay, later, serialize) == Outcome(first.stores, Duplicated())
  {
  }

  /** A request against a missing account fails with the not-found message
      whatever its type, as long as it is not a forwarding change without an
      email; the account table is untouched, and a replay changes nothing. */
  lemma MissingAccountFails(s: Stores, eventId: string, request: WebhookRequest, now: Time, serialize: WebhookRequest -> string)
    requires eventId !in s.events
    requires request.accountKey !in s.accounts
    requires request.eventType != EmailForwardingChanged || EmailOf(request).Some?
    ensures var o := ReceiveWebhook(s, eventId, request, now, serialize);
            && o.response == WebhookResponse("failed", FailedPrefix + AccountNotFoundPrefix + request.accountKey)
            && o.stores.events[eventId].status == Failed
            && o.stores.events[eventId].errorMessage == Some(AccountNotFound(request.accountKey))
            && o.stores.accounts == s.accounts
            && ReceiveWebhook(o.stores, eventId, request, now, serialize) == Outcome(o.stores, Duplicated())
  {
  }

  /** A forwarding change without a string email fails with the
      missing-email message, whether or not the account exists, and leaves
      the account table untouched. */
  lemma MissingEmailFails(s: Stores, eventId: string, request: WebhookRequest, now: Time, serialize: WebhookRequest -> string)
    requires eventId !in s.events
    requires request.eventType == EmailForwardingChanged
    requires request.data.None? || "email" !in request.data.value || !request.data.value["email"].JString?
    ensures var o := ReceiveWebhook(s, eventId, request, now, serialize);
            && o.response == FailedWith(EmailRequired)
            && o.stores.events[eventId].status == Failed
            && o.stores.events[eventId].errorMessage == Some(EmailRequired)
            && o.stores.accounts == s.accounts
  {
  }

  /** Receiving one webhook keeps every row consistent: the new row is closed
      with `processedAt` set and carries a message only when FAILED, and every
      other row is left as it was. */
  lemma ReceivePreservesConsistency(s: Stores, eventId: string, request: WebhookRequest, now: Time, serialize: WebhookRequest -> string)
    requires ConsistentEvents(s.events)
    ensures ConsistentEvents(ReceiveWebhook(s, eventId, request, now, serialize).stores.events)
  {
  }
}
