/**
 The enumerations shared by the stores and the dispatcher, and the small
 failure-compatible wrappers the model uses in place of nullable results and
 thrown exceptions.
 */
module Common {

  /** An instant read from the wall clock. Only equality and presence matter. */
  type Time = nat

  /** A nullable value: `None` stands for Kotlin's `null`. */
  datatype Option<+T> = None | Some(value: T)

  /** An operation that either yields a value or fails with an error. */
  datatype Result<+T, +E> = Ok(value: T) | Err(error: E)

  /** Lifecycle of a stored webhook event. */
  datatype EventStatus = Received | Processing | Done | Failed
  {
    /** DONE and FAILED are terminal: the pipeline never moves a record out of them. */
    predicate IsTerminal() {
      this == Done || this == Failed
    }
  }

  /** The closed set of webhook kinds the dispatcher understands. */
  datatype EventType = EmailForwardingChanged | AccountDeleted | AppleAccountDeleted
  {
    /** The enum constant's name, which is what the event store records. */
    function Name(): string {
      match this
      case EmailForwardingChanged => "EMAIL_FORWARDING_CHANGED"
      case AccountDeleted => "ACCOUNT_DELETED"
      case AppleAccountDeleted => "APPLE_ACCOUNT_DELETED"
    }
  }

  /** Decodes the `eventType` field of a webhook body into the event type
      whose constant name it is; any other string is not a webhook kind. */
  function ParseEventType(name: string): (t: Option<EventType>)
    ensures t.Some? ==> t.value.Name() == name
    ensures t.None? ==>
      name != EmailForwardingChanged.Name() && name != AccountDeleted.Name() && name != AppleAccountDeleted.Name()
  {
    if name == "EMAIL_FORWARDING_CHANGED" then Some(EmailForwardingChanged)
    else if name == "ACCOUNT_DELETED" then Some(AccountDeleted)
    else if name == "APPLE_ACCOUNT_DELETED" then Some(AppleAccountDeleted)
    else None
  }

  /** Every stored type name reads back as the type it was written from,
      so the stored name identifies the event type. */
  lemma EventTypeNameRoundTrip(t: EventType)
    ensures ParseEventType(t.Name()) == Some(t)
  {
  }

  /** Distinct event types have distinct stored names. */
  lemma EventTypeNameInjective(a: EventType, b: EventType)
    ensures a.Name() == b.Name() <==> a == b
  {
  }

  /** Status of an account; any status may overwrite any other. */
  datatype AccountStatus = Active | Deleted | AppleDeleted

  /** `m'` agrees with `m` on every key other than `k`: the same keys are
      present and they map to the same values. */
  predicate AgreeExcept<K, V(==)>(m: map<K, V>, m': map<K, V>, k: K) {
    && m.Keys - {k} == m'.Keys - {k}
    && forall x :: x in m && x != k ==> x in m' && m'[x] == m[x]
  }
}
