/**
 The event store: the idempotent ledger of received webhooks. Each operation
 runs in its own single-row transaction, so each is one pure step from the
 table before to the table after.
 */
module WebhookEventRepository {
  import opened Common
  import opened Entity
  import opened ApiModel

  /** The unique index on `event_id` refuses a second row with the same key. */
  datatype SaveError = DuplicateEventId(eventId: string)

  /** The table after an insert, and the inserted row as read back. */
  datatype Saved = Saved(events: EventTable, response: EventResponse)

  /** The table after an update, and the updated row as read back (`None` when no row matched). */
  datatype Updated = Updated(events: EventTable, response: Option<EventResponse>)

  /** The view of a stored row. */
  function ToEventResponse(eventId: string, e: WebhookEvent): EventResponse {
    EventResponse(eventId, e.eventType, e.status, e.createdAt, e.processedAt)
  }

  /** Whether a row with this idempotency key exists. */
  predicate ExistsByEventId(events: EventTable, eventId: string) {
    eventId in events
  }

  /** Reads the row with this key, if any. */
  function FindByEventId(events: EventTable, eventId: string): (r: Option<EventResponse>)
    ensures r.Some? <==> ExistsByEventId(events, eventId)
    ensures r.Some? ==> r.value.eventId == eventId
    ensures r.Some? ==>
      && r.value.eventType == events[eventId].eventType
      && r.value.status == events[eventId].status
      && r.value.createdAt == events[eventId].createdAt
      && r.value.processedAt == events[eventId].processedAt
  {
    if eventId in events then Some(ToEventResponse(eventId, events[eventId])) else None
  }

  /** Inserts a row for `eventId` with the given type and payload at time `now`;
      fails on the unique index when the key is already present. */
  function Save(events: EventTable, eventId: string, eventType: string, payload: string, now: Time)
    : (r: Result<Saved, SaveError>)
    ensures r.Err? <==> ExistsByEventId(events, eventId)
    ensures r.Err? ==> r.error == DuplicateEventId(eventId)
    ensures r.Ok? ==> r.value.events.Keys == events.Keys + {eventId}
    ensures r.Ok? ==> AgreeExcept(events, r.value.events, eventId)
    ensures r.Ok? ==> var e := r.value.events[eventId];
                      && IsFreshEvent(e)
                      && e.eventType == eventType
                      && e.payload == payload
                      && e.createdAt == now
    ensures r.Ok? ==> Some(r.value.response) == FindByEventId(r.value.events, eventId)
  {
    if eventId in events then
      Err(DuplicateEventId(eventId))
    else
      var events' := events[eventId := NewEvent(eventType, payload, now)];
      Ok(Saved(events', ToEventResponse(eventId, events'[eventId])))
  }

  /** Sets the status and error message of the row for `eventId`, stamping
      `processedAt` with `now` only for DONE and FAILED; a no-op answering
      `None` when no row has that key. */
  function UpdateStatus(events: EventTable, eventId: string, status: EventStatus, errorMessage: Option<string>, now: Time)
    : (r: Updated)
    ensures !ExistsByEventId(events, eventId) ==> r.events == events && r.response.None?
    ensures ExistsByEventId(events, eventId) ==>
      && r.events.Keys == events.Keys
      && AgreeExcept(events, r.events, eventId)
      && r.response == FindByEventId(r.events, eventId)
    ensures ExistsByEventId(events, eventId) ==>
      var before, after := events[eventId], r.events[eventId];
      && after.status == status
      && after.errorMessage == errorMessage
      && after.eventType == before.eventType
      && after.payload == before.payload
      && after.createdAt == before.createdAt
      && (status.IsTerminal() ==> after.processedAt == Some(now))
      && (!status.IsTerminal() ==> after.processedAt == before.processedAt)
  {
    if eventId !in events then
      Updated(events, None)
    else
      var e := events[eventId];
      var stamped := if status == Done || status == Failed then Some(now) else e.processedAt;
      var e' := e.(status := status, errorMessage := errorMessage, processedAt := stamped);
      var events' := events[eventId := e'];
      Updated(events', Some(ToEventResponse(eventId, e')))
  }

  /** A saved row is found under its key, reports RECEIVED without `processedAt`,
      and every other key reads as before. */
  lemma SaveThenFind(events: EventTable, eventId: string, eventType: string, payload: string, now: Time, other: string)
    requires !ExistsByEventId(events, eventId)
    ensures Save(events, eventId, eventType, payload, now).Ok?
    ensures var saved := Save(events, eventId, eventType, payload, now).value;
            && ExistsByEventId(saved.events, eventId)
            && FindByEventId(saved.events, eventId)
               == Some(EventResponse(eventId, eventType, Received, now, None))
            && (other != eventId ==> FindByEventId(saved.events, other) == FindByEventId(events, other))
  {
  }

  /** Saving twice under one key fails the second time and leaves the first row. */
  lemma SaveTwiceRejected(events: EventTable, eventId: string, t1: string, p1: string, n1: Time, t2: string, p2: string, n2: Time)
    requires !ExistsByEventId(events, eventId)
    ensures var first := Save(events, eventId, t1, p1, n1);
            && first.Ok?
            && Save(first.value.events, eventId, t2, p2, n2) == Err(DuplicateEventId(eventId))
  {
  }

  /** `processedAt`, once stamped, survives any later status update. */
  lemma ProcessedAtNeverCleared(events: EventTable, eventId: string, status: EventStatus, errorMessage: Option<string>, now: Time)
    requires ExistsByEventId(events, eventId) && events[eventId].processedAt.Some?
    ensures UpdateStatus(events, eventId, status, errorMessage, now).events[eventId].processedAt.Some?
  {
  }

  /** The store alone does not tie `processedAt` to the terminal statuses:
      moving a DONE row back to PROCESSING keeps its `processedAt`. Only the
      dispatcher, which never revisits a row, keeps the two in step. */
  lemma ReopenedRowKeepsProcessedAt(events: EventTable, eventId: string, t1: Time, t2: Time)
    requires ExistsByEventId(events, eventId)
    ensures var done := UpdateStatus(events, eventId, Done, None, t1).events;
            var reopened := UpdateStatus(done, eventId, Processing, None, t2).events;
            && reopened[eventId].status == Processing
            && reopened[eventId].processedAt == Some(t1)
  {
  }

  /** An update clears a previous error message unless it supplies a new one. */
  lemma UpdateWithoutMessageClearsError(events: EventTable, eventId: string, status: EventStatus, now: Time)
    requires ExistsByEventId(events, eventId) && events[eventId].errorMessage.Some?
    ensures UpdateStatus(events, eventId, status, None, now).events[eventId].errorMessage.None?
  {
  }
}
