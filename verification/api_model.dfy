/**
 The request and response shapes that cross the core's boundary.
 */
module ApiModel {
  import opened Common

  /** A JSON value inside a webhook's `data` object. The dispatcher only asks
      whether a value is a string, so every other JSON value (number, boolean,
      null, array, object) is one case. */
  datatype Json = JString(text: string) | JNonString

  /** A deserialised webhook body. `data` is absent when the body omits it. */
  datatype WebhookRequest = WebhookRequest(
    accountKey: string,
    eventType: EventType,
    data: Option<map<string, Json>>)

  /** The body of an account-creation request. */
  datatype CreateAccountRequest = CreateAccountRequest(accountKey: string, email: string)

  /** What the webhook endpoint answers: a status word and a message. */
  datatype WebhookResponse = WebhookResponse(status: string, message: string)

  /** The event view the event store hands out; payload and error message are not part of it. */
  datatype EventResponse = EventResponse(
    eventId: string,
    eventType: string,
    status: EventStatus,
    createdAt: Time,
    processedAt: Option<Time>)

  /** The account view the account store hands out. */
  datatype AccountResponse = AccountResponse(accountKey: string, email: string, status: AccountStatus)
}
