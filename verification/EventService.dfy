/** The ledger service as the program writes it: one object whose tables grow in place. */
module EventService {
  import opened Common
  import opened BusinessEventDto
  import opened Ledger
  import opened LedgerTheorems

  class EventLedger {
    var events: seq<Event>
    var observations: seq<Observation>

    function Tables(): State
      reads this
    {
      State(events, observations)
    }

    predicate Valid()
      reads this
    {
      WellFormed(events) && WithinBudget(events) && ObservationsTruthful(Tables())
    }

    constructor ()
      ensures Valid() && Tables() == EMPTY
    {
      events, observations := [], [];
    }

    /** Accepts, deduplicates or refuses one payload; a refusal changes nothing. */
    method IngestEvent(company: nat, currencies: set<string>, payload: Payload)
      returns (r: Result<Disposition, Rejection>)
      requires Valid()
      modifies this
      ensures Valid() && old(events) <= events
      ensures Ingest(old(Tables()), company, currencies, payload)
           == if r.Ok? then Ok((Tables(), r.value)) else Err(r.error)
      ensures r.Err? ==> Tables() == old(Tables())
    {
      IngestKeeps(Tables(), company, currencies, payload);
      IngestObserves(Tables(), company, currencies, payload);
      var c := payload.content;
      if !ValidContent(c) {
        return Err(InvalidPayload);
      }
      var ref := EventRef(company, c.sourceSystem, c.key);
      var existing := Find(events, ref);
      if existing.Some? {
        var d := if existing.value.content == c then Duplicate else Conflict;
        RecordObservation(ref, payload, d);
        return Ok(d);
      }
      if c.currency != "" && c.currency !in currencies {
        return Err(UnknownCurrency);
      }
      var reversed := ReversedEvent(events, company, c);
      if reversed.Err? {
        return Err(reversed.error);
      }
      var event := NewEvent(company, c, reversed.value);
      if reversed.value.Some? && !ChainValid(event, reversed.value.value) {
        return Err(InvalidChain);
      }
      events := events + [event];
      RecordObservation(ref, payload, Accepted);
      return Ok(Accepted);
    }

    /** One row per event, evidence reference and content. */
    method RecordObservation(event: Ref, payload: Payload, d: Disposition)
      modifies this`observations
      ensures observations == Observe(old(observations), event, payload, d)
    {
      var i := 0;
      while i < |observations|
        invariant 0 <= i <= |observations| && observations == old(observations)
        invariant forall o | o in observations[..i] ::
          !(o.event == event && o.evidenceRef == payload.evidenceRef && o.content == payload.content)
      {
        var o := observations[i];
        if o.event == event && o.evidenceRef == payload.evidenceRef && o.content == payload.content {
          return;
        }
        i := i + 1;
      }
      observations := observations + [Observation(event, payload.observedAt, payload.evidenceRef, payload.content, d)];
    }
  }
}
