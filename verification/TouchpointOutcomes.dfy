/** What one ingestion and one erasure do to the revisions of a key, field by field. */
module TouchpointOutcomes {
  import opened Common
  import opened Touchpoints

  /** Revisions that are told apart only by their evidence. */
  predicate SameBeside(x: Revision, y: Revision) {
    && y.sequence == x.sequence && y.hash == x.hash && y.private == x.private
    && y.identifiers == x.identifiers && y.erasedAt == x.erasedAt
  }

  predicate Attested(x: Revision, p: Payload) {
    exists e | e in x.evidence ::
      e.ref == p.evidenceRef && e.content == p.content && e.mappingVersion == p.mappingVersion
  }

  /** What a new revision is reported as. */
  predicate ReportedAs(kind: RevisionKind, first: bool, d: Disposition) {
    match kind
    case ExplicitConflict => d == Conflict
    case Correction => d == if first then Accepted else Revised
    case Enrichment => d == if first then Accepted else Enriched
    case Observation => d == if first then Accepted else Conflict
  }

  /** An erased key takes nothing; content that repeats the latest revision only adds evidence that
   *  is not there yet; any other content is the next revision, with its first evidence. */
  lemma IngestionOutcome(log: seq<Revision>, p: Payload)
    ensures var (log', d) := Ingested(log, p);
      if exists i | 0 <= i < |log| :: log[i].erasedAt != None then log' == log && d == Duplicate
      else if |log| > 0 && log[|log| - 1].hash == p.content then
        var last := |log| - 1;
        && d == Duplicate && |log'| == |log| && (forall i | 0 <= i < last :: log'[i] == log[i])
        && SameBeside(log[last], log'[last])
        && log'[last].evidence == if Attested(log[last], p) then log[last].evidence
             else log[last].evidence + [Evidence(p.evidenceRef, p.content, p.mappingVersion, p.observedAt, Duplicate)]
      else
        && ReportedAs(p.content.kind, log == [], d)
        && log' == log + [Revision(|log| + 1, p.content, p.content.private, p.content.identifiers, None,
             [Evidence(p.evidenceRef, p.content, p.mappingVersion, p.observedAt, d)])]
  {
    var d := RevisionDisposition(p.content.kind, |log| == 0);
    var e := Evidence(p.evidenceRef, p.content, p.mappingVersion, p.observedAt, d);
    assert NewRevision(log, p).evidence == [] + [e] == [e];
  }

  /** The private text of a touchpoint is gone. */
  predicate Blanked(x: Private) {
    && x.landingUrl == "" && x.referrerUrl == "" && x.extensions == ""
    && x.utmSource == "" && x.utmMedium == "" && x.utmCampaign == "" && x.utmContent == "" && x.utmTerm == ""
  }

  /** An identifier keeps what it is and loses its value, once. */
  predicate Forgotten(x: Identifier, y: Identifier, place: nat, now: int, draw: nat) {
    if x.erasedAt != None then y == x
    else
      && y.namespace == x.namespace && y.role == x.role
      && y.comparison == Tombstone(draw, place) && y.maskedValue == "" && y.valueRef == "" && y.erasedAt == Some(now)
  }

  /** Erasure blanks every revision of the keys that is not blank yet, and touches nothing else:
   *  hashes, numbers and evidence stay, and so does every other key. */
  lemma ErasureOutcome(l: Ledger, keys: set<Key>, now: int, draw: nat)
    ensures var l' := Step(l, Erase(keys, now, draw));
      && l'.Keys == l.Keys
      && (forall key | key in l && key !in keys :: l'[key] == l[key])
      && (forall key | key in l && key in keys :: |l'[key]| == |l[key]|)
      && (forall key, i | key in l && key in keys && 0 <= i < |l[key]| ::
            var (x, y) := (l[key][i], l'[key][i]);
            if x.erasedAt != None then y == x
            else
              && y.sequence == x.sequence && y.hash == x.hash && y.evidence == x.evidence
              && y.erasedAt == Some(now) && Blanked(y.private) && |y.identifiers| == |x.identifiers|
              && forall k | 0 <= k < |x.identifiers| :: Forgotten(x.identifiers[k], y.identifiers[k], k, now, draw))
  {
    var l' := Step(l, Erase(keys, now, draw));
    forall key, i | key in l && key in keys && 0 <= i < |l[key]|
      ensures l'[key][i] == ErasedRevision(l[key][i], now, draw) {}
    hide ErasedLog;
  }

  /** Erasing one identifier forgets that one, if it exists, and nothing else. */
  lemma IdentifierOutcome(l: Ledger, key: Key, revision: nat, place: nat, now: int, draw: nat)
    ensures var l' := Step(l, EraseIdentifier(key, revision, place, now, draw));
      if key in l && revision < |l[key]| && place < |l[key][revision].identifiers| then
        && l'.Keys == l.Keys && (forall k | k in l && k != key :: l'[k] == l[k])
        && |l'[key]| == |l[key]| && (forall i | 0 <= i < |l[key]| && i != revision :: l'[key][i] == l[key][i])
        && var (x, y) := (l[key][revision], l'[key][revision]);
           && y.sequence == x.sequence && y.hash == x.hash && y.private == x.private && y.erasedAt == x.erasedAt
           && y.evidence == x.evidence && |y.identifiers| == |x.identifiers|
           && Forgotten(x.identifiers[place], y.identifiers[place], place, now, draw)
           && forall k | 0 <= k < |x.identifiers| && k != place :: y.identifiers[k] == x.identifiers[k]
      else l' == l
  {
    if key in l && !(revision < |l[key]| && place < |l[key][revision].identifiers|) {
      assert l[key := l[key]] == l;
    }
  }

  /** An ingestion writes the log of its own key only. */
  lemma OtherKeysStay(l: Ledger, p: Payload, key: Key)
    requires key != p.key
    ensures var l' := Step(l, Ingest(p));
      && (key in l' <==> key in l) && (key in l ==> l'[key] == l[key])
      && p.key in l' && l'[p.key] == Ingested(if p.key in l then l[p.key] else [], p).0
  {
    hide Ingested;
  }

  predicate Attests(x: Revision) {
    exists e | e in x.evidence :: e.disposition == Accepted || e.disposition == Enriched || e.disposition == Revised
  }

  lemma AttestsIsEligible(x: Revision)
    ensures Eligible(x) <==> Attests(x)
  {}

  /** Readers see the last revision that some observation accepted, enriched or revised. */
  lemma EffectiveOutcome(log: seq<Revision>)
    ensures match Effective(log)
      case Some(i) => i < |log| && Attests(log[i]) && forall j | i < j < |log| :: !Attests(log[j])
      case None => forall j | 0 <= j < |log| :: !Attests(log[j])
  {
    forall j | 0 <= j < |log| ensures Eligible(log[j]) <==> Attests(log[j]) { AttestsIsEligible(log[j]); }
    hide Eligible, Attests;
  }
}
