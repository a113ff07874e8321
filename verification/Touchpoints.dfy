/** Marketing touchpoints: append-only revisions, their evidence, the effective revision and
 *  erasure.  A content hash is injective in the model, so it is the observed content itself. */
module Touchpoints {
  import opened Common

  datatype Key = Key(company: nat, canonical: string)

  datatype RevisionKind = Observation | Enrichment | Correction | ExplicitConflict

  /** Free-form acquisition data, which erasure blanks. */
  datatype Private = Private(
    landingUrl: string, referrerUrl: string, utmSource: string, utmMedium: string, utmCampaign: string,
    utmContent: string, utmTerm: string, extensions: string)

  const BLANK := Private("", "", "", "", "", "", "", "")

  /** A tombstone is a digest drawn at random when its identifier was erased; draws never collide,
   *  and one erasure draws for every place among a revision's identifiers. */
  datatype Comparison = Digest(text: string) | Tombstone(draw: nat, place: nat)

  datatype Identifier = Identifier(namespace: string, role: string, comparison: Comparison, maskedValue: string,
    valueRef: string, erasedAt: Option<int>)

  /** The observed content; public stands for the fields that survive an erasure. */
  datatype Content = Content(kind: RevisionKind, public: string, private: Private, identifiers: seq<Identifier>)

  datatype Payload = Payload(key: Key, content: Content, evidenceRef: string, mappingVersion: nat, observedAt: int)

  datatype Disposition = Accepted | Enriched | Revised | Conflict | Duplicate

  datatype Evidence = Evidence(ref: string, content: Content, mappingVersion: nat, observedAt: int,
    disposition: Disposition)

  /** A stored revision keeps the hash of what was observed, next to the values an erasure blanks. */
  datatype Revision = Revision(
    sequence: nat, hash: Content, private: Private, identifiers: seq<Identifier>, erasedAt: Option<int>,
    evidence: seq<Evidence>)

  type Ledger = map<Key, seq<Revision>>

  function Log(l: Ledger, key: Key): seq<Revision> {
    if key in l then l[key] else []
  }

  // ---------- Ingestion ----------

  function RevisionDisposition(kind: RevisionKind, first: bool): Disposition {
    if kind.ExplicitConflict? then Conflict
    else if first then Accepted
    else match kind
      case Correction => Revised
      case Enrichment => Enriched
      case _ => Conflict
  }

  /** Evidence is recorded once per reference, content and mapping version. */
  function WithEvidence(x: Revision, p: Payload, d: Disposition): Revision {
    if exists e | e in x.evidence ::
      e.ref == p.evidenceRef && e.content == p.content && e.mappingVersion == p.mappingVersion then x
    else x.(evidence := x.evidence + [Evidence(p.evidenceRef, p.content, p.mappingVersion, p.observedAt, d)])
  }

  predicate Erased(log: seq<Revision>) {
    exists i | 0 <= i < |log| :: log[i].erasedAt.Some?
  }

  function NewRevision(log: seq<Revision>, p: Payload): Revision {
    WithEvidence(Revision(|log| + 1, p.content, p.content.private, p.content.identifiers, None, []), p,
      RevisionDisposition(p.content.kind, |log| == 0))
  }

  /** One observation against the revisions of its key: an erased key stays closed, a repeat of
   *  the latest revision only adds evidence, and anything else is a new revision. */
  function Ingested(log: seq<Revision>, p: Payload): (seq<Revision>, Disposition) {
    if Erased(log) then (log, Duplicate)
    else if |log| > 0 && log[|log| - 1].hash == p.content then
      (log[|log| - 1 := WithEvidence(log[|log| - 1], p, Duplicate)], Duplicate)
    else (log + [NewRevision(log, p)], RevisionDisposition(p.content.kind, |log| == 0))
  }

  // ---------- Erasure ----------

  function ErasedIdentifier(x: Identifier, place: nat, now: int, draw: nat): Identifier {
    if x.erasedAt.Some? then x
    else x.(comparison := Tombstone(draw, place), maskedValue := "", valueRef := "", erasedAt := Some(now))
  }

  function ErasedRevision(x: Revision, now: int, draw: nat): Revision {
    if x.erasedAt.Some? then x
    else x.(private := BLANK, erasedAt := Some(now),
            identifiers := seq(|x.identifiers|,
              i requires 0 <= i < |x.identifiers| => ErasedIdentifier(x.identifiers[i], i, now, draw)))
  }

  function ErasedLog(log: seq<Revision>, now: int, draw: nat): seq<Revision> {
    seq(|log|, i requires 0 <= i < |log| => ErasedRevision(log[i], now, draw))
  }

  /** Erases one identifier whose own retention has ended, and leaves its revision otherwise. */
  function IdentifierGone(log: seq<Revision>, revision: nat, place: nat, now: int, draw: nat): seq<Revision> {
    if revision < |log| && place < |log[revision].identifiers| then
      var xs := log[revision].identifiers;
      log[revision := log[revision].(identifiers := xs[place := ErasedIdentifier(xs[place], place, now, draw)])]
    else log
  }

  // ---------- The effective revision ----------

  predicate Counts(d: Disposition) {
    d.Accepted? || d.Enriched? || d.Revised?
  }

  predicate Eligible(x: Revision) {
    exists e | e in x.evidence :: Counts(e.disposition)
  }

  /** The projection: the last revision with counting evidence. */
  function Effective(log: seq<Revision>): (i: Option<nat>)
    ensures i.Some? ==> i.value < |log| && Eligible(log[i.value]) && forall j | i.value < j < |log| :: !Eligible(log[j])
    ensures i.None? ==> forall j | 0 <= j < |log| :: !Eligible(log[j])
  {
    if |log| == 0 then None
    else if Eligible(log[|log| - 1]) then Some(|log| - 1)
    else Effective(log[..|log| - 1])
  }

  // ---------- Histories ----------

  datatype Action =
    | Ingest(payload: Payload)
    | Erase(keys: set<Key>, now: int, draw: nat)
    | EraseIdentifier(key: Key, revision: nat, place: nat, now: int, draw: nat)

  function Step(l: Ledger, a: Action): Ledger {
    match a
    case Ingest(p) => l[p.key := Ingested(Log(l, p.key), p).0]
    case Erase(keys, now, draw) => map key | key in l :: if key in keys then ErasedLog(l[key], now, draw) else l[key]
    case EraseIdentifier(key, revision, place, now, draw) =>
      if key in l then l[key := IdentifierGone(l[key], revision, place, now, draw)] else l
  }

  function Steps(l: Ledger, actions: seq<Action>): Ledger {
    if |actions| == 0 then l else Step(Steps(l, actions[..|actions| - 1]), actions[|actions| - 1])
  }

  /** The revision changes what its key currently says: the first one unless it is an explicit
   *  conflict, and later ones only as a correction or an enrichment. */
  predicate Selects(kind: RevisionKind, i: nat) {
    if i == 0 then !kind.ExplicitConflict? else kind.Correction? || kind.Enrichment?
  }

  predicate BlankIdentifier(x: Identifier) {
    x.maskedValue == "" && x.valueRef == "" && x.comparison.Tombstone? && x.erasedAt.Some?
  }

  predicate BlankRevision(x: Revision) {
    && x.private == BLANK && x.erasedAt.Some?
    && forall i | 0 <= i < |x.identifiers| :: BlankIdentifier(x.identifiers[i])
  }

  /** No touchpoint has the same identifier twice, as the table's index demands. */
  predicate DistinctIdentifiers(xs: seq<Identifier>) {
    forall i, j | 0 <= i < j < |xs| ::
      xs[i].namespace != xs[j].namespace || xs[i].role != xs[j].role || xs[i].comparison != xs[j].comparison
  }

  /** What a payload's identifiers satisfy. */
  predicate FreshIdentifiers(xs: seq<Identifier>) {
    && DistinctIdentifiers(xs)
    && forall i | 0 <= i < |xs| :: xs[i].erasedAt.None? && xs[i].comparison.Digest?
  }

  /** Each identifier is as it was observed or blank, and none occurs twice. */
  predicate IdentifiersSound(xs: seq<Identifier>) {
    && DistinctIdentifiers(xs)
    && forall i | 0 <= i < |xs| ::
         if xs[i].erasedAt.Some? then BlankIdentifier(xs[i]) && xs[i].comparison.place == i
         else xs[i].comparison.Digest?
  }

  /** What every log keeps: numbering, differing neighbours, truthful eligibility, distinct
   *  identifiers, and erasure of all revisions or of none. */
  ghost predicate LogSound(log: seq<Revision>) {
    && (forall i | 0 <= i < |log| :: log[i].sequence == i + 1)
    && (forall i | 0 <= i < |log| - 1 :: log[i].hash != log[i + 1].hash)
    && (forall i | 0 <= i < |log| :: Eligible(log[i]) == Selects(log[i].hash.kind, i))
    && (forall i | 0 <= i < |log| :: IdentifiersSound(log[i].identifiers))
    && (Erased(log) ==> forall i | 0 <= i < |log| :: BlankRevision(log[i]))
  }

  lemma DuplicateNeverCounts(x: Revision, p: Payload)
    ensures Eligible(WithEvidence(x, p, Duplicate)) == Eligible(x)
  {
    var y := WithEvidence(x, p, Duplicate);
    forall e | e in x.evidence ensures e in y.evidence {}
  }

  lemma NewEligible(log: seq<Revision>, p: Payload)
    ensures Eligible(NewRevision(log, p)) == Selects(p.content.kind, |log|)
  {
    var x := NewRevision(log, p);
    assert x.evidence == [Evidence(p.evidenceRef, p.content, p.mappingVersion, p.observedAt,
      RevisionDisposition(p.content.kind, |log| == 0))];
  }

  lemma IngestSound(log: seq<Revision>, p: Payload)
    requires LogSound(log) && FreshIdentifiers(p.content.identifiers)
    ensures LogSound(Ingested(log, p).0)
  {
    if !Erased(log) {
      if |log| > 0 && log[|log| - 1].hash == p.content {
        DuplicateNeverCounts(log[|log| - 1], p);
        hide Eligible;
      } else {
        NewEligible(log, p);
        hide Eligible;
        var log' := Ingested(log, p).0;
        assert forall i | 0 <= i < |log| :: log'[i] == log[i];
        assert log'[|log|].erasedAt.None?;
      }
    }
  }

  /** Erasing a revision never makes two of its identifiers equal. */
  lemma ErasedIdentifiersSound(x: Revision, now: int, draw: nat)
    requires IdentifiersSound(x.identifiers)
    ensures IdentifiersSound(ErasedRevision(x, now, draw).identifiers)
  {
    if x.erasedAt.None? {
      var xs, ys := x.identifiers, ErasedRevision(x, now, draw).identifiers;
      assert forall i | 0 <= i < |ys| :: ys[i] == ErasedIdentifier(xs[i], i, now, draw);
      assert forall i | 0 <= i < |ys| :: BlankIdentifier(ys[i]) && ys[i].comparison.place == i;
    }
  }

  lemma EraseSound(log: seq<Revision>, now: int, draw: nat)
    requires LogSound(log)
    ensures LogSound(ErasedLog(log, now, draw)) && (|log| > 0 ==> Erased(ErasedLog(log, now, draw)))
  {
    var log' := ErasedLog(log, now, draw);
    forall i | 0 <= i < |log|
      ensures BlankRevision(log'[i]) && IdentifiersSound(log'[i].identifiers) && Eligible(log'[i]) == Eligible(log[i])
    {
      ErasedIdentifiersSound(log[i], now, draw);
    }
    if |log| > 0 { assert log'[0].erasedAt.Some?; }
  }

  lemma OneGoneSound(xs: seq<Identifier>, place: nat, now: int, draw: nat)
    requires IdentifiersSound(xs) && place < |xs|
    ensures IdentifiersSound(xs[place := ErasedIdentifier(xs[place], place, now, draw)])
  {}

  lemma GoneSound(log: seq<Revision>, revision: nat, place: nat, now: int, draw: nat)
    requires LogSound(log)
    ensures var log' := IdentifierGone(log, revision, place, now, draw);
      && LogSound(log') && |log'| == |log| && Effective(log') == Effective(log)
      && (Erased(log) ==> log' == log) && (Erased(log') ==> Erased(log))
  {
    var log' := IdentifierGone(log, revision, place, now, draw);
    if revision < |log| && place < |log[revision].identifiers| {
      OneGoneSound(log[revision].identifiers, place, now, draw);
      hide IdentifiersSound, BlankIdentifier;
      assert forall i | 0 <= i < |log| :: log'[i] == log[i].(identifiers := log'[i].identifiers);
      forall i | 0 <= i < |log| ensures Eligible(log'[i]) == Eligible(log[i]) {}
      if Erased(log) { GoneAlready(log, revision, place, now, draw); }
    }
    SameEligible(log, log');
  }

  lemma GoneAlready(log: seq<Revision>, revision: nat, place: nat, now: int, draw: nat)
    requires revision < |log| && place < |log[revision].identifiers| && BlankRevision(log[revision])
    ensures IdentifierGone(log, revision, place, now, draw) == log
  {
    var xs := log[revision].identifiers;
    assert xs[place].erasedAt.Some?;
    assert xs[place := xs[place]] == xs;
    assert log[revision].(identifiers := xs) == log[revision];
    assert log[revision := log[revision]] == log;
  }

  ghost predicate Sound(l: Ledger) {
    forall key | key in l :: LogSound(l[key])
  }

  predicate FreshPayload(a: Action) {
    a.Ingest? ==> FreshIdentifiers(a.payload.content.identifiers)
  }

  lemma StepSound(l: Ledger, a: Action)
    requires Sound(l) && FreshPayload(a)
    ensures Sound(Step(l, a))
  {
    hide LogSound, Ingested, ErasedLog, IdentifierGone, FreshIdentifiers;
    match a {
      case Ingest(p) =>
        EmptySound();
        IngestSound(Log(l, p.key), p);
      case Erase(keys, now, draw) =>
        forall key | key in l ensures LogSound(Step(l, a)[key]) { EraseSound(l[key], now, draw); }
      case EraseIdentifier(key, revision, place, now, draw) =>
        if key in l { GoneSound(l[key], revision, place, now, draw); }
    }
  }

  /** Every history of ingestions and erasures keeps each key's log sound. */
  lemma {:induction false} AlwaysSound(l: Ledger, actions: seq<Action>)
    requires Sound(l) && forall a | a in actions :: FreshPayload(a)
    ensures Sound(Steps(l, actions))
  {
    hide Sound, FreshPayload, Step;
    if |actions| > 0 {
      AlwaysSound(l, actions[..|actions| - 1]);
      StepSound(Steps(l, actions[..|actions| - 1]), actions[|actions| - 1]);
    }
  }

  lemma EmptySound()
    ensures LogSound([])
  {}

  // ---------- What readers see ----------

  /** The effective revision is the last one that selects itself by its kind. */
  lemma EffectiveIsLastSelecting(log: seq<Revision>, i: nat)
    requires LogSound(log) && i < |log|
    ensures Effective(log) == Some(i) <==>
      Selects(log[i].hash.kind, i) && forall j | i < j < |log| :: !Selects(log[j].hash.kind, j)
  {}

  /** A differing plain observation is stored, but never displaces what a key currently says. */
  lemma ObservationNeverDisplaces(log: seq<Revision>, p: Payload)
    requires LogSound(log) && |log| > 0 && p.content.kind.Observation?
    ensures Effective(Ingested(log, p).0) == Effective(log)
    ensures !Erased(log) && log[|log| - 1].hash != p.content ==>
      |Ingested(log, p).0| == |log| + 1 && Ingested(log, p).1 == Conflict
  {
    var log' := Ingested(log, p).0;
    if !Erased(log) {
      if log[|log| - 1].hash == p.content {
        DuplicateNeverCounts(log[|log| - 1], p);
        SameEligible(log, log');
      } else {
        NewEligible(log, p);
        assert log'[..|log|] == log;
      }
    }
  }

  lemma {:induction false} SameEligible(log: seq<Revision>, log': seq<Revision>)
    requires |log| == |log'| && forall i | 0 <= i < |log| :: Eligible(log[i]) == Eligible(log'[i])
    ensures Effective(log) == Effective(log')
  {
    if |log| > 0 { SameEligible(log[..|log| - 1], log'[..|log| - 1]); }
  }

  lemma StepKeepsErased(l: Ledger, a: Action, key: Key)
    requires key in l && LogSound(l[key]) && Erased(l[key])
    ensures key in Step(l, a) && |Step(l, a)[key]| == |l[key]| && LogSound(Step(l, a)[key]) && Erased(Step(l, a)[key])
  {
    if a.Erase? && key in a.keys { EraseSound(l[key], a.now, a.draw); }
    if a.EraseIdentifier? && key == a.key { GoneSound(l[key], a.revision, a.place, a.now, a.draw); }
  }

  /** Once a key is erased, all its revisions stay blank and it never gets a new one, whatever
   *  is ingested or erased afterwards. */
  lemma {:induction false} ErasureIsFinal(l: Ledger, key: Key, now: int, draw: nat, keys: set<Key>,
                                          actions: seq<Action>)
    requires key in l && key in keys && |l[key]| > 0 && LogSound(l[key])
    ensures var later := Steps(Step(l, Erase(keys, now, draw)), actions);
      && key in later && |later[key]| == |l[key]| && Erased(later[key]) && LogSound(later[key])
      && forall i | 0 <= i < |later[key]| :: BlankRevision(later[key][i])
  {
    if |actions| == 0 {
      EraseSound(l[key], now, draw);
    } else {
      ErasureIsFinal(l, key, now, draw, keys, actions[..|actions| - 1]);
      StepKeepsErased(Steps(Step(l, Erase(keys, now, draw)), actions[..|actions| - 1]), actions[|actions| - 1], key);
    }
  }

  // ---------- The ledger ----------

  class TouchpointLedger {
    var logs: Ledger

    constructor ()
      ensures logs == map[]
    {
      logs := map[];
    }

    /** Stores one observation of a touchpoint. */
    method IngestTouchpoint(p: Payload) returns (d: Disposition)
      modifies this
      ensures logs == Step(old(logs), Ingest(p))
      ensures d == Ingested(Log(old(logs), p.key), p).1
    {
      var existing := Log(logs, p.key);
      if Erased(existing) {
        logs := logs[p.key := existing];
        return Duplicate;
      }
      if |existing| > 0 && existing[|existing| - 1].hash == p.content {
        var latest := WithEvidence(existing[|existing| - 1], p, Duplicate);
        logs := logs[p.key := existing[|existing| - 1 := latest]];
        return Duplicate;
      }
      d := RevisionDisposition(p.content.kind, |existing| == 0);
      var row := Revision(|existing| + 1, p.content, p.content.private, p.content.identifiers, None, []);
      row := WithEvidence(row, p, d);
      logs := logs[p.key := existing + [row]];
    }

    /** Blanks the private values of every revision of the given touchpoints. */
    method ErasePrivateValues(keys: set<Key>, now: int, draw: nat)
      modifies this
      ensures logs == Step(old(logs), Erase(keys, now, draw))
    {
      ghost var before := logs;
      var todo := keys;
      while todo != {}
        invariant todo <= keys && logs.Keys == before.Keys
        invariant forall key | key in before ::
          logs[key] == if key in keys && key !in todo then ErasedLog(before[key], now, draw) else before[key]
        decreases todo
      {
        var key :| key in todo;
        if key in logs {
          var rows := EraseRows(logs[key], now, draw);
          logs := logs[key := rows];
        }
        todo := todo - {key};
      }
    }

    /** Erases one identifier on its own. */
    method EraseOneIdentifier(key: Key, revision: nat, place: nat, now: int, draw: nat)
      modifies this
      ensures logs == Step(old(logs), EraseIdentifier(key, revision, place, now, draw))
    {
      if key in logs && revision < |logs[key]| && place < |logs[key][revision].identifiers| {
        var xs := logs[key][revision].identifiers;
        if xs[place].erasedAt.None? {
          var blank := xs[place].(comparison := Tombstone(draw, place), maskedValue := "", valueRef := "");
          xs := xs[place := blank.(erasedAt := Some(now))];
        }
        assert xs == old(logs)[key][revision].identifiers[place :=
          ErasedIdentifier(old(logs)[key][revision].identifiers[place], place, now, draw)];
        logs := logs[key := logs[key][revision := logs[key][revision].(identifiers := xs)]];
      }
    }

    /** Overwrites the revisions that are not erased yet, one after the other. */
    static method EraseRows(log: seq<Revision>, now: int, draw: nat) returns (rows: seq<Revision>)
      ensures rows == ErasedLog(log, now, draw)
    {
      rows := log;
      for i := 0 to |log|
        invariant |rows| == |log|
        invariant forall k | 0 <= k < |log| :: rows[k] == if k < i then ErasedRevision(log[k], now, draw) else log[k]
      {
        if rows[i].erasedAt.None? {
          var identifiers := EraseIdentifiers(rows[i].identifiers, now, draw);
          rows := rows[i := rows[i].(private := BLANK, erasedAt := Some(now), identifiers := identifiers)];
        }
      }
    }

    static method EraseIdentifiers(xs: seq<Identifier>, now: int, draw: nat) returns (ys: seq<Identifier>)
      ensures |ys| == |xs| && forall i | 0 <= i < |xs| :: ys[i] == ErasedIdentifier(xs[i], i, now, draw)
    {
      ys := xs;
      for i := 0 to |xs|
        invariant |ys| == |xs|
        invariant forall k | 0 <= k < |xs| :: ys[k] == if k < i then ErasedIdentifier(xs[k], k, now, draw) else xs[k]
      {
        if ys[i].erasedAt.None? {
          var blank := ys[i].(comparison := Tombstone(draw, i), maskedValue := "", valueRef := "");
          ys := ys[i := blank.(erasedAt := Some(now))];
        }
      }
    }
  }
}
