/**
 The end-to-end walk-throughs the service is meant to support, stated on the
 model: create an account, delete it by webhook, read both resources back,
 and redeliver the same webhook.
 */
module Scenarios {
  import opened Common
  import opened Entity
  import opened ApiModel
  import opened WebhookService
  import AccountService
  import EventService

  /** Create `acc-1` and read it back ACTIVE with its email; deliver
      ACCOUNT_DELETED under `evt-1`: the reply is "processed", the account
      reads DELETED and the event reads DONE. */
  lemma CreateThenDelete(serialize: WebhookRequest -> string)
    ensures
      var created := AccountService.CreateAccount(map[], CreateAccountRequest("acc-1", "e@x.com"), 1);
      && created.Ok?
      && created.value.response == AccountResponse("acc-1", "e@x.com", Active)
      && AccountService.GetAccount(created.value.accounts, "acc-1") == Some(AccountResponse("acc-1", "e@x.com", Active))
      && var s := Stores(map[], created.value.accounts);
         var request := WebhookRequest("acc-1", AccountDeleted, None);
         var o := ReceiveWebhook(s, "evt-1", request, 2, serialize);
         && o.response.status == "processed"
         && AccountService.GetAccount(o.stores.accounts, "acc-1") == Some(AccountResponse("acc-1", "e@x.com", Deleted))
         && EventService.GetEvent(o.stores.events, "evt-1")
            == Some(EventResponse("evt-1", "ACCOUNT_DELETED", Done, 2, Some(2)))
  {
  }

  /** Create `acc-1`, deliver ACCOUNT_DELETED under `evt-1` ("processed"),
      then deliver the same webhook again: the second reply is "duplicated",
      the event row is unchanged and the account stays DELETED. */
  lemma DeleteThenRedeliver(serialize: WebhookRequest -> string)
    ensures
      var created := AccountService.CreateAccount(map[], CreateAccountRequest("acc-1", "e@x.com"), 1);
      && created.Ok?
      && var s := Stores(map[], created.value.accounts);
         var request := WebhookRequest("acc-1", AccountDeleted, None);
         var first := ReceiveWebhook(s, "evt-1", request, 2, serialize);
         var second := ReceiveWebhook(first.stores, "evt-1", request, 3, serialize);
         && first.response.status == "processed"
         && second.response == WebhookResponse("duplicated", DuplicatedMessage)
         && second.stores.events == first.stores.events
         && AccountService.GetAccount(second.stores.accounts, "acc-1") == Some(AccountResponse("acc-1", "e@x.com", Deleted))
  {
  }

  /** A webhook for an account that was never created is acknowledged as
      "failed" and the event reads FAILED with `processedAt` set. */
  lemma UnknownAccountRecordedAsFailed(serialize: WebhookRequest -> string)
    ensures
      var s := Stores(map[], map[]);
      var request := WebhookRequest("acc-404", AccountDeleted, None);
      var o := ReceiveWebhook(s, "evt-9", request, 5, serialize);
      && o.response.status == "failed"
      && EventService.GetEvent(o.stores.events, "evt-9")
         == Some(EventResponse("evt-9", "ACCOUNT_DELETED", Failed, 5, Some(5)))
      && o.stores.events["evt-9"].errorMessage == Some(AccountNotFound("acc-404"))
  {
  }
}
