/**
 The two persisted tables. Each table has a unique index on its external key
 (`event_id`, `account_key`), so a table is a map from that key to the rest
 of the row; the surrogate `id` column is never read by the core and is not
 modelled.
 */
module Entity {
  import opened Common

  /** A row of `webhook_event`, without its `event_id` key. */
  datatype WebhookEvent = WebhookEvent(
    eventType: string,
    payload: string,
    status: EventStatus,
    errorMessage: Option<string>,
    createdAt: Time,
    processedAt: Option<Time>)

  /** `webhook_event`, keyed by the caller-supplied idempotency key. */
  type EventTable = map<string, WebhookEvent>

  /** A row of `account`, without its `account_key` key. */
  datatype Account = Account(
    email: string,
    status: AccountStatus,
    createdAt: Time,
    updatedAt: Option<Time>)

  /** `account`, keyed by the external account key. */
  type AccountTable = map<string, Account>

  /** The row an insert of (eventId, eventType, payload) at time `now` stores:
      every other column takes its default, and `createdAt` is the insertion time. */
  function NewEvent(eventType: string, payload: string, now: Time): WebhookEvent {
    WebhookEvent(eventType, payload, Received, None, now, None)
  }

  /** The row an insert of (accountKey, email) at time `now` stores. */
  function NewAccount(email: string, now: Time): Account {
    Account(email, Active, now, None)
  }

  /** A freshly inserted event row: RECEIVED, no error, not yet processed. */
  predicate IsFreshEvent(e: WebhookEvent) {
    e.status == Received && e.errorMessage.None? && e.processedAt.None?
  }

  /** The row-level invariant the ingestion pipeline maintains: `processedAt`
      is present exactly when the status is terminal, and only a FAILED row
      carries an error message. */
  predicate ConsistentEvent(e: WebhookEvent) {
    && (e.processedAt.Some? <==> e.status.IsTerminal())
    && (e.errorMessage.Some? ==> e.status == Failed)
  }

  /** Every row of the table is consistent. */
  predicate ConsistentEvents(events: EventTable) {
    forall id :: id in events ==> ConsistentEvent(events[id])
  }

  // ---------------------------------------------------------------------------
  // The `createdAt` default as the table declarations write it.
  //
  // Both tables declare `createdAt` with a default VALUE computed by one call
  // to the clock when the table object is first loaded, not with a default
  // computed per insert. Every row inserted during the life of the process
  // therefore receives the same instant, `loadedAt`. The members below model
  // that behaviour and exhibit the discrepancy; the rest of the model uses the
  // corrected `NewEvent` / `NewAccount`, whose `createdAt` is the insert time.
  // ---------------------------------------------------------------------------

  /** An event row inserted at time `now` by the code as written: `createdAt`
      is the instant `loadedAt` the table object was loaded, and `now` is
      not consulted. */
  function NewEventAsWritten(eventType: string, payload: string, loadedAt: Time, now: Time): WebhookEvent {
    WebhookEvent(eventType, payload, Received, None, loadedAt, None)
  }

  /** An account row inserted at time `now` by the code as written. */
  function NewAccountAsWritten(email: string, loadedAt: Time, now: Time): Account {
    Account(email, Active, loadedAt, None)
  }

  /** As written, two events inserted at different instants (1 and 2) after the
      table object was loaded (at 0) carry the same `createdAt`, and neither
      carries its own insertion time. */
  lemma EventCreatedAtFrozenAsWritten()
    ensures var first := NewEventAsWritten("ACCOUNT_DELETED", "{}", 0, 1);
            var second := NewEventAsWritten("ACCOUNT_DELETED", "{}", 0, 2);
            first.createdAt == second.createdAt && first.createdAt != 1 && second.createdAt != 2
  {
  }

  /** As written, an account created at instant 7 in a process whose table
      object was loaded at instant 0 reports `createdAt` 0. */
  lemma AccountCreatedAtFrozenAsWritten()
    ensures NewAccountAsWritten("e@x.com", 0, 7).createdAt == 0
    ensures NewAccountAsWritten("e@x.com", 0, 7).createdAt != 7
  {
  }

  /** Corrected: an event row records its own insertion time, so rows inserted
      at different instants are told apart by `createdAt`. */
  lemma EventCreatedAtIsInsertTime(eventType: string, payload: string, t1: Time, t2: Time)
    ensures NewEvent(eventType, payload, t1).createdAt == t1
    ensures t1 != t2 ==> NewEvent(eventType, payload, t1).createdAt != NewEvent(eventType, payload, t2).createdAt
    ensures IsFreshEvent(NewEvent(eventType, payload, t1))
  {
  }

  /** Corrected: an account row records its own creation time, starts ACTIVE
      and has never been updated. */
  lemma AccountCreatedAtIsInsertTime(email: string, t1: Time, t2: Time)
    ensures NewAccount(email, t1).createdAt == t1
    ensures t1 != t2 ==> NewAccount(email, t1).createdAt != NewAccount(email, t2).createdAt
    ensures NewAccount(email, t1).status == Active && NewAccount(email, t1).updatedAt.None?
  {
  }
}
