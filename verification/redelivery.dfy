/**
 A run of webhook deliveries handled one after another, as the server handles
 them (each request is a fresh read-modify-write over the two tables). This
 is where the idempotency promise is stated over whole histories: each key is
 effectively processed at most once, rows are never deleted, and closed rows
 are never reopened.
 */
module Redelivery {
  import opened Common
  import opened Entity
  import opened ApiModel
  import opened WebhookService

  /** One inbound delivery: the idempotency key header, the body, and the
      clock reading while it is handled. */
  datatype Delivery = Delivery(eventId: string, request: WebhookRequest, now: Time)

  /** The tables after a run and the reply to each delivery, in order. */
  datatype Run = Run(stores: Stores, responses: seq<WebhookResponse>)

  /** Handles the deliveries in order: the first delivery is answered against
      the tables as given, and each later one against the tables the earlier
      ones left (`ReplyAnswersItsDelivery`). */
  function ReceiveAll(s: Stores, ds: seq<Delivery>, serialize: WebhookRequest -> string): (r: Run)
    ensures |r.responses| == |ds|
    ensures |ds| == 0 ==> r.stores == s
    decreases |ds|
  {
    if |ds| == 0 then Run(s, [])
    else
      var first := ReceiveWebhook(s, ds[0].eventId, ds[0].request, ds[0].now, serialize);
      var rest := ReceiveAll(first.stores, ds[1..], serialize);
      Run(rest.stores, [first.response] + rest.responses)
  }

  /** The tables before delivery `i` are those the first delivery leaves,
      carried through deliveries 1 to `i - 1`. */
  lemma PrefixStores(s: Stores, ds: seq<Delivery>, serialize: WebhookRequest -> string, i: nat)
    requires 0 < i <= |ds|
    ensures var first := ReceiveWebhook(s, ds[0].eventId, ds[0].request, ds[0].now, serialize);
            ReceiveAll(s, ds[..i], serialize).stores == ReceiveAll(first.stores, ds[1..][..i - 1], serialize).stores
  {
    var pre := ds[..i];
    assert pre[0] == ds[0];
    assert pre[1..] == ds[1..][..i - 1];
  }

  /** Reply `i` answers delivery `i`: it is exactly what `ReceiveWebhook`
      answers to that delivery against the tables left by the deliveries
      before it. */
  lemma {:induction false} ReplyAnswersItsDelivery(s: Stores, ds: seq<Delivery>, serialize: WebhookRequest -> string, i: nat)
    requires i < |ds|
    ensures var before := ReceiveAll(s, ds[..i], serialize).stores;
            ReceiveAll(s, ds, serialize).responses[i]
            == ReceiveWebhook(before, ds[i].eventId, ds[i].request, ds[i].now, serialize).response
    decreases i
  {
    if i == 0 {
      assert ds[..i] == [];
    } else {
      var first := ReceiveWebhook(s, ds[0].eventId, ds[0].request, ds[0].now, serialize);
      var tail := ds[1..];
      ReplyAnswersItsDelivery(first.stores, tail, serialize, i - 1);
      PrefixStores(s, ds, serialize, i);
      assert tail[i - 1] == ds[i];
    }
  }

  /** The idempotency keys a run carries. */
  function DeliveredIds(ds: seq<Delivery>): set<string>
    decreases |ds|
  {
    if |ds| == 0 then {} else {ds[0].eventId} + DeliveredIds(ds[1..])
  }

  /** How many deliveries under `eventId` were answered with anything but
      "duplicated", that is, how many times that key was actually processed. */
  function EffectiveCount(ds: seq<Delivery>, rs: seq<WebhookResponse>, eventId: string): nat
    requires |rs| == |ds|
    decreases |ds|
  {
    if |ds| == 0 then 0
    else
      (if ds[0].eventId == eventId && rs[0].status != "duplicated" then 1 else 0)
      + EffectiveCount(ds[1..], rs[1..], eventId)
  }

  /** Rows are never deleted: after a run the table holds exactly the keys it
      held before plus the keys delivered. */
  lemma {:induction false} ReceiveAllKeys(s: Stores, ds: seq<Delivery>, serialize: WebhookRequest -> string)
    ensures ReceiveAll(s, ds, serialize).stores.events.Keys == s.events.Keys + DeliveredIds(ds)
    decreases |ds|
  {
    if |ds| > 0 {
      var first := ReceiveWebhook(s, ds[0].eventId, ds[0].request, ds[0].now, serialize);
      ReceiveAllKeys(first.stores, ds[1..], serialize);
    }
  }

  /** Rows are never revisited: a row present before a run reads the same
      after it, so a DONE or FAILED row stays exactly as it was closed. */
  lemma {:induction false} ReceiveAllKeepsExistingRows(s: Stores, ds: seq<Delivery>, serialize: WebhookRequest -> string, eventId: string)
    requires eventId in s.events
    ensures eventId in ReceiveAll(s, ds, serialize).stores.events
    ensures ReceiveAll(s, ds, serialize).stores.events[eventId] == s.events[eventId]
    decreases |ds|
  {
    if |ds| > 0 {
      var first := ReceiveWebhook(s, ds[0].eventId, ds[0].request, ds[0].now, serialize);
      assert first.stores.events[eventId] == s.events[eventId];
      ReceiveAllKeepsExistingRows(first.stores, ds[1..], serialize, eventId);
    }
  }

  /** Every row stays consistent through a run: no row is left RECEIVED or
      PROCESSING with a `processedAt`, and every closed row has one. */
  lemma {:induction false} ReceiveAllPreservesConsistency(s: Stores, ds: seq<Delivery>, serialize: WebhookRequest -> string)
    requires ConsistentEvents(s.events)
    ensures ConsistentEvents(ReceiveAll(s, ds, serialize).stores.events)
    decreases |ds|
  {
    if |ds| > 0 {
      var first := ReceiveWebhook(s, ds[0].eventId, ds[0].request, ds[0].now, serialize);
      ReceivePreservesConsistency(s, ds[0].eventId, ds[0].request, ds[0].now, serialize);
      ReceiveAllPreservesConsistency(first.stores, ds[1..], serialize);
    }
  }

  /** Exactly-once processing: a key already stored is never processed again,
      and a new key that the run delivers, however many times, is processed
      exactly once; every other delivery under it is answered "duplicated". */
  lemma {:induction false} ProcessedExactlyOnce(s: Stores, ds: seq<Delivery>, serialize: WebhookRequest -> string, eventId: string)
    ensures var r := ReceiveAll(s, ds, serialize);
            EffectiveCount(ds, r.responses, eventId)
            == if eventId in s.events || eventId !in DeliveredIds(ds) then 0 else 1
    decreases |ds|
  {
    if |ds| > 0 {
      var first := ReceiveWebhook(s, ds[0].eventId, ds[0].request, ds[0].now, serialize);
      var rest := ReceiveAll(first.stores, ds[1..], serialize);
      var r := ReceiveAll(s, ds, serialize);
      assert r.responses == [first.response] + rest.responses;
      assert r.responses[1..] == rest.responses;
      assert r.responses[0] == first.response;
      ProcessedExactlyOnce(first.stores, ds[1..], serialize, eventId);
      assert DeliveredIds(ds) == {ds[0].eventId} + DeliveredIds(ds[1..]);
      if ds[0].eventId != eventId {
        assert eventId in first.stores.events <==> eventId in s.events;
      } else {
        assert eventId in first.stores.events;
      }
    }
  }

  /** The row for `eventId` exists and is closed. */
  predicate Closed(events: EventTable, eventId: string) {
    eventId in events && events[eventId].status.IsTerminal() && events[eventId].processedAt.Some?
  }

  /** Status-transition closure over a run: every key the run delivers ends
      with a row closed as DONE or FAILED with `processedAt` set, provided a
      row it already had was closed. No delivery is left RECEIVED or PROCESSING. */
  lemma {:induction false} DeliveredKeysClosed(s: Stores, ds: seq<Delivery>, serialize: WebhookRequest -> string, eventId: string)
    requires eventId in DeliveredIds(ds)
    requires eventId in s.events ==> Closed(s.events, eventId)
    ensures Closed(ReceiveAll(s, ds, serialize).stores.events, eventId)
    decreases |ds|
  {
    var first := ReceiveWebhook(s, ds[0].eventId, ds[0].request, ds[0].now, serialize);
    if ds[0].eventId == eventId {
      assert Closed(first.stores.events, eventId);
      ReceiveAllKeepsExistingRows(first.stores, ds[1..], serialize, eventId);
    } else {
      assert eventId in DeliveredIds(ds[1..]);
      assert eventId in first.stores.events ==> first.stores.events[eventId] == s.events[eventId];
      DeliveredKeysClosed(first.stores, ds[1..], serialize, eventId);
    }
  }
}
