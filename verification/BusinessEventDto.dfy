/** The validated payload of one marketing business event.
 *
 *  Hashes are injective in the model: two payloads share a content hash exactly when their
 *  contents are equal, so contents are compared directly.
 */
module BusinessEventDto {
  import opened Common

  datatype EventClass = Lifecycle | Revenue

  /** LifecycleFact stands for the ten lifecycle types, none of which carries an amount. */
  datatype EventType =
    | LifecycleFact(name: string)
    | InvoicePosted
    | InvoicePostingReversed
    | CreditNotePosted
    | CreditNotePostingReversed
    | OrderConfirmed
    | OrderCancelled
    | PaymentAllocated
    | PaymentAllocationReversed

  /** A business key is an opaque text.  The two formats written by the accounting adapter are
   *  kept apart from free texts so that the injectivity of their formatting is visible. */
  datatype EventKey =
    | External(text: string)
    | MovePosting(move: nat, stamp: Option<int>, sequence: nat)
    | MoveUnposting(move: nat, posting: EventKey)

  /** Namespaced extensions: those the accounting adapter writes on document events, or any others.
   *  details stands for the document's name, type, journal, partner and totals. */
  datatype Extensions =
    | Opaque(text: string)
    | DocumentExtensions(
        details: string, reversedMoveId: Option<nat>, creditReason: string, basis: string, destination: string)

  /** Everything the content hash covers. */
  datatype Content = Content(
    eventClass: EventClass,
    eventType: EventType,
    sourceSystem: string,
    sourceModel: string,
    sourceResId: nat,
    key: EventKey,
    occurredAt: int,
    evidenceLevel: string,
    amountMicros: Option<int>,
    currency: string,
    reversesKey: Option<EventKey>,
    extensions: Extensions)
  {
    function Micros(): int {
      amountMicros.GetOr(0)
    }
  }

  datatype Payload = Payload(content: Content, observedAt: int, evidenceRef: string)

  const MAX_ABS_MICROS: int := 999_999_999_999_999_999_999

  function ClassOf(t: EventType): EventClass {
    if t.LifecycleFact? then Lifecycle else Revenue
  }

  /** The type cancelled by an exact posting counterevent. */
  function PostingReversed(t: EventType): Option<EventType> {
    match t
    case InvoicePostingReversed => Some(InvoicePosted)
    case CreditNotePostingReversed => Some(CreditNotePosted)
    case _ => None
  }

  /** The type cancelled by a required, exactly negating reversal. */
  function RequiredReversed(t: EventType): Option<EventType> {
    match t
    case OrderCancelled => Some(OrderConfirmed)
    case PaymentAllocationReversed => Some(PaymentAllocated)
    case _ => PostingReversed(t)
  }

  /** The type an event of type t may refer to; a credit may refer to an invoice posting. */
  function ReversedType(t: EventType): Option<EventType> {
    if t.CreditNotePosted? then Some(InvoicePosted) else RequiredReversed(t)
  }

  predicate IsPosting(t: EventType) {
    t.InvoicePosted? || t.CreditNotePosted?
  }

  predicate IsPostingReversal(t: EventType) {
    PostingReversed(t).Some?
  }

  predicate IsRequiredReversal(t: EventType) {
    RequiredReversed(t).Some?
  }

  predicate PositiveType(t: EventType) {
    t.InvoicePosted? || t.CreditNotePostingReversed? || t.OrderConfirmed? || t.PaymentAllocated?
  }

  predicate ValidCurrency(code: string) {
    |code| == 3 && forall c | c in code :: 'A' <= c <= 'Z'
  }

  predicate ValidContent(c: Content) {
    && c.eventClass == ClassOf(c.eventType)
    && c.sourceResId > 0
    && (c.amountMicros.Some? <==> c.currency != "")
    && (c.currency != "" ==> ValidCurrency(c.currency))
    && (c.eventClass.Revenue? <==> c.amountMicros.Some?)
    && Abs(c.Micros()) <= MAX_ABS_MICROS
    && (c.eventClass.Revenue? ==> if PositiveType(c.eventType) then c.Micros() >= 0 else c.Micros() <= 0)
    && c.reversesKey != Some(c.key)
    && (IsRequiredReversal(c.eventType) ==> c.reversesKey.Some?)
    && (c.reversesKey.Some? ==> ReversedType(c.eventType).Some?)
  }
}
