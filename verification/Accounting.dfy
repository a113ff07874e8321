/** The accounting adapter as functions on a book: native documents, the ledger they feed, and
 *  the typed links from credits to the invoices they reverse. */
module Accounting {
  import opened Common
  import opened BusinessEventDto
  import opened Ledger

  const SYSTEM := "odoo.account"
  const MODEL := "account.move"

  datatype MoveType = OutInvoice | OutRefund | OtherMove

  datatype MoveState = Draft | Posted | Cancel

  /** The terms a user may edit on a document; details stands for those that events only copy. */
  datatype Terms = Terms(
    moveType: MoveType, currency: string, untaxedMicros: int, documentDate: int, reversedEntry: Option<nat>,
    details: string)

  datatype Move = Move(company: nat, terms: Terms, state: MoveState, sequence: nat) {
    predicate Outgoing() {
      !terms.moveType.OtherMove?
    }
  }

  datatype LinkRole = SourceDocument | ReversedInvoice

  /** A typed link from an event to a native document. */
  datatype MoveLink = MoveLink(event: Ref, move: nat, role: LinkRole)

  datatype Target = Target(move: nat, role: LinkRole)

  datatype Book = Book(moves: map<nat, Move>, ledger: State, links: set<MoveLink>, currencies: set<string>) {
    function Events(): seq<Event> {
      ledger.events
    }
  }

  datatype CreditReason =
    | Linked | Independent | TargetNotCustomerInvoice | TargetNotPosted | DifferentCurrency | ExceedsActiveInvoiceAmount

  predicate Closed(b: Book) {
    forall id | id in b.moves && b.moves[id].terms.reversedEntry.Some? ::
      b.moves[id].terms.reversedEntry.value in b.moves
  }

  /** Only event sequences differ, and they only grow. */
  predicate SameDocuments(b: Book, b': Book) {
    && b'.moves.Keys == b.moves.Keys
    && (forall id | id in b.moves ::
          && b'.moves[id] == b.moves[id].(sequence := b'.moves[id].sequence)
          && b.moves[id].sequence <= b'.moves[id].sequence)
    && b'.currencies == b.currencies
  }

  predicate MoveEvent(e: Event) {
    e.content.sourceSystem == SYSTEM && e.content.sourceModel == MODEL
  }

  /** The document a credit event, or the counterevent of one, is linked to. */
  function LinkedMove(e: Event): Option<nat> {
    if (e.Type().CreditNotePosted? || e.Type().CreditNotePostingReversed?) && e.content.extensions.DocumentExtensions?
    then e.content.extensions.reversedMoveId else None
  }

  function PostingType(t: MoveType): EventType
    requires !t.OtherMove?
  {
    if t.OutInvoice? then InvoicePosted else CreditNotePosted
  }

  predicate ActiveFor(l: seq<Event>, e: Event, id: nat, t: EventType) {
    MoveEvent(e) && e.content.sourceResId == id && e.Type() == t && ActivePosting(l, e)
  }

  /** The last selected event by time of occurrence, then by order of insertion. */
  function Latest(l: seq<Event>, p: Event -> bool): (r: Option<Event>)
    ensures r.Some? ==> r.value in l && p(r.value)
    ensures r.None? ==> forall e | e in l :: !p(e)
  {
    if |l| == 0 then None
    else
      var before, e := Latest(l[..|l| - 1], p), l[|l| - 1];
      if p(e) && (before.None? || before.value.content.occurredAt <= e.content.occurredAt) then Some(e) else before
  }

  function ActivePostingOf(b: Book, id: nat): (r: Option<Event>)
    requires id in b.moves && b.moves[id].Outgoing()
    ensures r.Some? ==>
      r.value in b.Events() && ActiveFor(b.Events(), r.value, id, PostingType(b.moves[id].terms.moveType))
    ensures r.None? ==> forall e | e in b.Events() ::
      !ActiveFor(b.Events(), e, id, PostingType(b.moves[id].terms.moveType))
  {
    var t := PostingType(b.moves[id].terms.moveType);
    Latest(b.Events(), e => ActiveFor(b.Events(), e, id, t))
  }

  function NextSequence(b: Book, id: nat): Book
    requires id in b.moves
  {
    b.(moves := b.moves[id := b.moves[id].(sequence := b.moves[id].sequence + 1)])
  }

  function Amount(terms: Terms): int {
    if terms.moveType.OutRefund? then -Abs(terms.untaxedMicros) else Abs(terms.untaxedMicros)
  }

  /** What the time of occurrence of a posting rests on. */
  function BasisOf(level: string): string {
    if level == "imported" then "document_date" else "observed_transition"
  }

  function PostingContent(b: Book, id: nat, key: EventKey, occurredAt: int, level: string,
                          reversesKey: Option<EventKey>, reason: string): Content
    requires id in b.moves && b.moves[id].Outgoing()
  {
    var terms := b.moves[id].terms;
    Content(Revenue, PostingType(terms.moveType), SYSTEM, MODEL, id, key, occurredAt, level,
      Some(Amount(terms)), terms.currency, reversesKey,
      DocumentExtensions(terms.details, terms.reversedEntry, reason, BasisOf(level), ""))
  }

  function LinksTo(event: Ref, targets: set<Target>): set<MoveLink> {
    set x | x in targets :: MoveLink(event, x.move, x.role)
  }

  /** Hands one payload to the ledger and links its event to the given documents. */
  function Record(b: Book, company: nat, c: Content, targets: set<Target>): Result<(Book, Option<Event>), Rejection> {
    match Ingest(b.ledger, company, b.currencies, Payload(c, c.occurredAt, ""))
    case Err(rejection) => Err(rejection)
    case Ok(r) =>
      var ref := EventRef(company, c.sourceSystem, c.key);
      Ok((b.(ledger := r.0, links := b.links + LinksTo(ref, targets)), Find(r.0.events, ref)))
  }

  /** The documents a posting event is linked to: its own, and for a credit the reversed one. */
  function TargetsOf(id: nat, terms: Terms): set<Target> {
    {Target(id, SourceDocument)} +
    if terms.moveType.OutRefund? && terms.reversedEntry.Some?
    then {Target(terms.reversedEntry.value, ReversedInvoice)} else {}
  }

  function ReasonText(reason: CreditReason): string {
    match reason
    case Linked => "linked"
    case Independent => "independent"
    case TargetNotCustomerInvoice => "target_not_customer_invoice"
    case TargetNotPosted => "target_not_posted"
    case DifferentCurrency => "different_currency"
    case ExceedsActiveInvoiceAmount => "exceeds_active_invoice_amount"
  }

  /** A replay keeps the reason its event was recorded with. */
  function RecordedReason(e: Event): string {
    if e.content.extensions.DocumentExtensions? then e.content.extensions.creditReason
    else ReasonText(if e.reverses.Some? then Linked else Independent)
  }

  function Rank(b: Book, id: nat): nat
    requires id in b.moves
  {
    if b.moves[id].terms.moveType.OutRefund? then 1 else 0
  }

  /** Emits the posting event of a posted outgoing document. */
  function EmitMoveEvent(b: Book, id: nat, key: EventKey, occurredAt: int, level: string)
    : (r: Result<(Book, Option<Event>), Rejection>)
    requires Closed(b) && id in b.moves
    ensures r.Ok? ==> SameDocuments(b, r.value.0)
    decreases Rank(b, id), 1
  {
    var move := b.moves[id];
    var targets := TargetsOf(id, move.terms);
    if !move.state.Posted? || !move.Outgoing() then Ok((b, None))
    else if move.terms.moveType.OutRefund? && move.terms.reversedEntry.Some? then
      match Find(b.Events(), EventRef(move.company, SYSTEM, key))
      case Some(existing) =>
        var reversesKey := if existing.reverses.Some? then Some(existing.reverses.value.key) else None;
        var c := PostingContent(b, id, key, occurredAt, level, reversesKey, RecordedReason(existing));
        if b.moves[move.terms.reversedEntry.value].company != move.company then Err(CrossCompany)
        else Record(b, move.company, c, targets)
      case None =>
        (match CreditReversalTarget(b, id, Amount(move.terms))
         case Err(rejection) => Err(rejection)
         case Ok(found) =>
           var reversesKey := if found.1.Some? then Some(found.1.value.content.key) else None;
           var c := PostingContent(found.0, id, key, occurredAt, level, reversesKey, ReasonText(found.2));
           Record(found.0, move.company, c, targets))
    else Record(b, move.company, PostingContent(b, id, key, occurredAt, level, None, ""), targets)
  }

  /** Uncancelled credits linked to a native invoice, across all of its postings. */
  function LinkedCredit(b: Book, invoice: nat, company: nat, currency: string): int {
    SumIf(b.Events(), e => LinkedCreditEvent(b, e, invoice, company, currency) && ActivePosting(b.Events(), e))
  }

  predicate LinkedCreditEvent(b: Book, e: Event, invoice: nat, company: nat, currency: string) {
    && e.company == company
    && e.Type().CreditNotePosted?
    && e.content.currency == currency
    && MoveLink(e.Id(), invoice, ReversedInvoice) in b.links
  }

  /** The invoice posting a credit may be charged to, or why it stays independent. */
  function CreditReversalTarget(b: Book, id: nat, amount: int)
    : (r: Result<(Book, Option<Event>, CreditReason), Rejection>)
    requires Closed(b) && id in b.moves && b.moves[id].terms.moveType.OutRefund?
      && b.moves[id].terms.reversedEntry.Some?
    ensures r.Ok? ==> SameDocuments(b, r.value.0)
    decreases Rank(b, id), 0
  {
    var move := b.moves[id];
    var originalId := move.terms.reversedEntry.value;
    var original := b.moves[originalId];
    if original.company != move.company then Err(CrossCompany)
    else if !original.terms.moveType.OutInvoice? then Ok((b, None, TargetNotCustomerInvoice))
    else if !original.state.Posted? then Ok((b, None, TargetNotPosted))
    else
      match EnsureMoveEvent(b, originalId, "imported")
      case Err(rejection) => Err(rejection)
      case Ok(ensured) =>
        var b', target := ensured.0, ensured.1;
        if target.None? || target.value.content.currency != move.terms.currency then Ok((b', None, DifferentCurrency))
        else
          var credited := LinkedCredit(b', originalId, move.company, target.value.content.currency);
          if Abs(credited + amount) > Abs(target.value.Micros()) then Ok((b', None, ExceedsActiveInvoiceAmount))
          else Ok((b', target, Linked))
  }

  predicate OfDocument(e: Event, id: nat, company: nat) {
    MoveEvent(e) && e.content.sourceResId == id && e.company == company
  }

  function SourceLinks(l: seq<Event>, id: nat, company: nat): set<MoveLink> {
    set e | e in l && OfDocument(e, id, company) :: MoveLink(e.Id(), id, SourceDocument)
  }

  /** Links every event of a document to it, as each search for them does. */
  function LinkSources(b: Book, id: nat): Book
    requires id in b.moves
  {
    b.(links := b.links + SourceLinks(b.Events(), id, b.moves[id].company))
  }

  /** The active posting event of a posted document, emitted now if nothing recorded it before. */
  function EnsureMoveEvent(b: Book, id: nat, level: string): (r: Result<(Book, Option<Event>), Rejection>)
    requires Closed(b) && id in b.moves
    ensures r.Ok? ==> SameDocuments(b, r.value.0)
    decreases Rank(b, id), 2
  {
    var move, linked := b.moves[id], LinkSources(b, id);
    if !move.state.Posted? || !move.Outgoing() then Ok((linked, None))
    else
      var matching := ActivePostingOf(linked, id);
      if matching.Some? then Ok((linked, matching))
      else
        var b' := NextSequence(linked, id);
        var key := MovePosting(id, Some(move.terms.documentDate), b'.moves[id].sequence);
        EmitMoveEvent(b', id, key, move.terms.documentDate, level)
  }

  function DestinationText(destination: MoveState): string {
    match destination
    case Draft => "draft"
    case Posted => "posted"
    case Cancel => "cancel"
  }

  /** The extensions of a counterevent: those of the posting, with what happened to its document. */
  function Departed(x: Extensions, destination: MoveState): Extensions {
    if x.DocumentExtensions? then x.(basis := "observed_transition", destination := DestinationText(destination)) else x
  }

  /** The documents an event is linked to, in all roles. */
  function LinkTargets(links: set<MoveLink>, event: Ref): set<Target> {
    set k | k in links && k.event == event :: Target(k.move, k.role)
  }

  /** The exact counterevent of a posting whose document has left the posted state. */
  function EmitPostingReversal(b: Book, id: nat, posting: Event, destination: MoveState,
                               now: int): Result<Book, Rejection>
    requires id in b.moves
  {
    if !IsPosting(posting.Type()) || posting.company != b.moves[id].company || !MoveEvent(posting)
       || posting.content.sourceResId != id || destination.Posted?
    then Err(InvalidPostingReversal)
    else
      var reversal := if posting.Type().InvoicePosted? then InvoicePostingReversed else CreditNotePostingReversed;
      if ReversedBy(b.Events(), posting.Id(), reversal) then Ok(b)
      else
        var c := Content(
          Revenue, reversal, SYSTEM, MODEL, id, MoveUnposting(id, posting.content.key), now, "first_party",
          Some(-posting.Micros()), posting.content.currency, Some(posting.content.key),
          Departed(posting.content.extensions, destination));
        match Record(b, b.moves[id].company, c, LinkTargets(b.links, posting.Id()))
        case Err(rejection) => Err(rejection)
        case Ok(r) => Ok(r.0)
  }

  // ---------- Transitions of batches of documents ----------

  function Candidates(b: Book, ids: seq<nat>, posted: bool): (r: seq<nat>)
    requires forall id | id in ids :: id in b.moves
    ensures forall id :: id in r <==> id in ids && b.moves[id].Outgoing() && b.moves[id].state.Posted? == posted
  {
    if |ids| == 0 then []
    else
      var id := ids[|ids| - 1];
      Candidates(b, ids[..|ids| - 1], posted) +
        if b.moves[id].Outgoing() && b.moves[id].state.Posted? == posted then [id] else []
  }

  function NativePost(b: Book, ids: set<nat>): Book {
    b.(moves := map id | id in b.moves :: if id in ids then b.moves[id].(state := Posted) else b.moves[id])
  }

  /** Records one occurrence per document that the native posting really posted. */
  function PostEach(b: Book, ids: seq<nat>, now: int): (r: Result<Book, Rejection>)
    requires Closed(b) && forall id | id in ids :: id in b.moves
    ensures r.Ok? ==> SameDocuments(b, r.value)
  {
    if |ids| == 0 then Ok(b)
    else
      match PostEach(b, ids[..|ids| - 1], now)
      case Err(rejection) => Err(rejection)
      case Ok(b') => PostOne(b', ids[|ids| - 1], now)
  }

  function PostOne(b: Book, id: nat, now: int): (r: Result<Book, Rejection>)
    requires Closed(b) && id in b.moves
    ensures r.Ok? ==> SameDocuments(b, r.value)
  {
    if !b.moves[id].state.Posted? then Ok(b)
    else
      var b' := NextSequence(b, id);
      match EmitMoveEvent(b', id, MovePosting(id, None, b'.moves[id].sequence), now, "first_party")
      case Err(rejection) => Err(rejection)
      case Ok(r) => Ok(r.0)
  }

  function EnsureEach(b: Book, ids: seq<nat>): (r: Result<(Book, seq<Option<Event>>), Rejection>)
    requires Closed(b) && forall id | id in ids :: id in b.moves
    ensures r.Ok? ==> SameDocuments(b, r.value.0) && |r.value.1| == |ids|
  {
    if |ids| == 0 then Ok((b, []))
    else
      match EnsureEach(b, ids[..|ids| - 1])
      case Err(rejection) => Err(rejection)
      case Ok(done) =>
        (match EnsureMoveEvent(done.0, ids[|ids| - 1], "imported")
         case Err(rejection) => Err(rejection)
         case Ok(r) => Ok((r.0, done.1 + [r.1])))
  }

  function NativeUnpost(b: Book, ids: set<nat>, destination: MoveState, after: map<nat, Terms>): Book {
    b.(moves := map id | id in b.moves ::
      if id in ids
      then Move(b.moves[id].company, if id in after then after[id] else b.moves[id].terms, destination,
                b.moves[id].sequence)
      else b.moves[id])
  }

  function ReverseEach(b: Book, ids: seq<nat>, postings: seq<Option<Event>>, destination: MoveState, now: int)
    : (r: Result<Book, Rejection>)
    requires |ids| == |postings| && forall id | id in ids :: id in b.moves
    ensures r.Ok? ==> r.value.moves == b.moves
  {
    if |ids| == 0 then Ok(b)
    else
      var n := |ids| - 1;
      match ReverseEach(b, ids[..n], postings[..n], destination, now)
      case Err(rejection) => Err(rejection)
      case Ok(b') =>
        if postings[n].None? then Ok(b') else EmitPostingReversal(b', ids[n], postings[n].value, destination, now)
  }

  datatype MoveOp =
    | PostBatch(ids: seq<nat>, deferred: set<nat>, now: int)
    | Unpost(ids: seq<nat>, destination: MoveState, after: map<nat, Terms>, now: int)
    | Backfill(id: nat)
    | Edit(id: nat, terms: Terms)
    | Create(id: nat, company: nat, terms: Terms)

  predicate Distinct(ids: seq<nat>) {
    forall i, j | 0 <= i < j < |ids| :: ids[i] != ids[j]
  }

  predicate TermsOk(b: Book, terms: Terms) {
    && terms.currency in b.currencies
    && ValidCurrency(terms.currency)
    && Abs(terms.untaxedMicros) <= MAX_ABS_MICROS
    && (terms.reversedEntry.Some? ==> terms.reversedEntry.value in b.moves)
  }

  /** What the native application lets users do: a posted document keeps its type and the
   *  document it reverses. */
  predicate Allowed(b: Book, op: MoveOp) {
    match op
    case PostBatch(ids, deferred, now) => Distinct(ids) && forall id | id in ids :: id in b.moves
    case Unpost(ids, destination, after, now) =>
      && Distinct(ids)
      && (forall id | id in ids :: id in b.moves)
      && !destination.Posted?
      && (forall id | id in after :: TermsOk(b, after[id]))
    case Backfill(id) => id in b.moves
    case Edit(id, terms) =>
      && id in b.moves
      && TermsOk(b, terms)
      && (b.moves[id].state.Posted? ==>
            terms.moveType == b.moves[id].terms.moveType && terms.reversedEntry == b.moves[id].terms.reversedEntry)
    case Create(id, company, terms) => id > 0 && id !in b.moves && TermsOk(b, terms)
  }

  function ToSet(ids: seq<nat>): set<nat> {
    set id | id in ids
  }

  /** One operation; a rejection rolls the whole operation back. */
  function Apply(b: Book, op: MoveOp): Result<Book, Rejection>
    requires Closed(b) && Allowed(b, op)
  {
    match op
    case PostBatch(ids, deferred, now) =>
      PostEach(NativePost(b, ToSet(ids) - deferred), Candidates(b, ids, false), now)
    case Unpost(ids, destination, after, now) =>
      var departing := Candidates(b, ids, true);
      (match EnsureEach(b, departing)
       case Err(rejection) => Err(rejection)
       case Ok(done) => ReverseEach(NativeUnpost(done.0, ToSet(ids), destination, after), departing, done.1,
         destination, now))
    case Backfill(id) =>
      (match EnsureMoveEvent(b, id, "imported")
       case Err(rejection) => Err(rejection)
       case Ok(r) => Ok(r.0))
    case Edit(id, terms) => Ok(b.(moves := b.moves[id := b.moves[id].(terms := terms)]))
    case Create(id, company, terms) => Ok(b.(moves := b.moves[id := Move(company, terms, Draft, 0)]))
  }
}
