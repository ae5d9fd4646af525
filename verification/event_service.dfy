/**
 Event queries: thin delegation to the event store.
 */
module EventService {
  import opened Common
  import opened ApiModel
  import opened Entity
  import Events = WebhookEventRepository

  /** Looks an event up by its idempotency key; absent keys answer `None`.
      The table is only read. */
  function GetEvent(events: EventTable, eventId: string): (r: Option<EventResponse>)
    ensures r == Events.FindByEventId(events, eventId)
    ensures r.None? <==> eventId !in events
    ensures r.Some? ==> r.value.eventId == eventId && r.value.status == events[eventId].status
  {
    Events.FindByEventId(events, eventId)
  }

  /** In a table whose rows keep `processedAt` in step with the terminal
      statuses, an event reported as PROCESSING (or RECEIVED) carries no
      `processedAt`, and a DONE or FAILED one always does. */
  lemma ReportedProcessedAtMatchesStatus(events: EventTable, eventId: string)
    requires ConsistentEvents(events)
    requires GetEvent(events, eventId).Some?
    ensures var v := GetEvent(events, eventId).value;
            v.processedAt.Some? <==> v.status.IsTerminal()
  {
  }
}
