/** The accounting adapter as the program writes it: it changes documents, links and the ledger
 *  step by step, and a rejection rolls the whole operation back. */
module AccountingService {
  import opened Common
  import opened BusinessEventDto
  import opened Ledger
  import opened EventService
  import A = Accounting

  class Adapter {
    var moves: map<nat, A.Move>
    var links: set<A.MoveLink>
    const ledger: EventLedger
    const currencies: set<string>

    function Book(): A.Book
      reads this, ledger
    {
      A.Book(moves, ledger.Tables(), links, currencies)
    }

    predicate Valid()
      reads this, ledger
    {
      ledger.Valid() && A.Closed(Book())
    }

    constructor (moves: map<nat, A.Move>, ledger: EventLedger, currencies: set<string>)
      requires ledger.Valid() && A.Closed(A.Book(moves, ledger.Tables(), {}, currencies))
      ensures Valid() && this.ledger == ledger && Book() == A.Book(moves, ledger.Tables(), {}, currencies)
    {
      this.moves, this.links, this.ledger, this.currencies := moves, {}, ledger, currencies;
    }

    /** The next transition number of a document, written back to its row. */
    method NextSequence(id: nat) returns (sequence: nat)
      requires Valid() && id in moves
      modifies this`moves
      ensures Valid() && Book() == A.NextSequence(old(Book()), id) && sequence == moves[id].sequence
    {
      sequence := moves[id].sequence + 1;
      moves := moves[id := moves[id].(sequence := sequence)];
    }

    /** Hands one payload to the ledger service and links its event; a refusal changes nothing. */
    method Record(company: nat, c: Content, targets: set<A.Target>) returns (r: Result<Option<Event>, Rejection>)
      requires Valid()
      modifies this`links, ledger
      ensures Valid()
      ensures A.Record(old(Book()), company, c, targets) == if r.Ok? then Ok((Book(), r.value)) else Err(r.error)
      ensures r.Err? ==> Book() == old(Book())
    {
      var ingested := ledger.IngestEvent(company, currencies, Payload(c, c.occurredAt, ""));
      if ingested.Err? {
        return Err(ingested.error);
      }
      var ref := EventRef(company, c.sourceSystem, c.key);
      links := links + set x | x in targets :: A.MoveLink(ref, x.move, x.role);
      return Ok(Find(ledger.events, ref));
    }

    /** Emits the posting event of a posted outgoing document. */
    method EmitMoveEvent(id: nat, key: EventKey, occurredAt: int, level: string)
      returns (r: Result<Option<Event>, Rejection>)
      requires Valid() && id in moves
      modifies this, ledger
      ensures Valid()
      ensures A.EmitMoveEvent(old(Book()), id, key, occurredAt, level) == if r.Ok? then Ok((Book(), r.value))
        else Err(r.error)
      decreases A.Rank(Book(), id), 1
    {
      var move := moves[id];
      if !move.state.Posted? || !move.Outgoing() {
        return Ok(None);
      }
      if !move.terms.moveType.OutRefund? || move.terms.reversedEntry.None? {
        var plain := A.PostingContent(Book(), id, key, occurredAt, level, None, "");
        r := Record(move.company, plain, A.TargetsOf(id, move.terms));
        return;
      }
      var reversesKey, reason := None, "";
      var existing := Find(ledger.events, EventRef(move.company, A.SYSTEM, key));
      if existing.Some? {
        reason := A.RecordedReason(existing.value);
        if existing.value.reverses.Some? {
          reversesKey := Some(existing.value.reverses.value.key);
        }
        if moves[move.terms.reversedEntry.value].company != move.company {
          return Err(CrossCompany);
        }
      } else {
        var found := CreditReversalTarget(id, A.Amount(move.terms));
        if found.Err? {
          return Err(found.error);
        }
        reason := A.ReasonText(found.value.1);
        if found.value.0.Some? {
          reversesKey := Some(found.value.0.value.content.key);
        }
      }
      var c := A.PostingContent(Book(), id, key, occurredAt, level, reversesKey, reason);
      r := Record(move.company, c, A.TargetsOf(id, move.terms));
    }

    method CreditReversalTarget(id: nat, amount: int) returns (r: Result<(Option<Event>, A.CreditReason), Rejection>)
      requires Valid() && id in moves && moves[id].terms.moveType.OutRefund? && moves[id].terms.reversedEntry.Some?
      modifies this, ledger
      ensures Valid()
      ensures A.CreditReversalTarget(old(Book()), id, amount)
           == if r.Ok? then Ok((Book(), r.value.0, r.value.1)) else Err(r.error)
      decreases A.Rank(Book(), id), 0
    {
      var move := moves[id];
      var originalId := move.terms.reversedEntry.value;
      var original := moves[originalId];
      if original.company != move.company {
        return Err(CrossCompany);
      }
      if !original.terms.moveType.OutInvoice? {
        return Ok((None, A.TargetNotCustomerInvoice));
      }
      if !original.state.Posted? {
        return Ok((None, A.TargetNotPosted));
      }
      var target := EnsureMoveEvent(originalId, "imported");
      if target.Err? {
        return Err(target.error);
      }
      if target.value.None? || target.value.value.content.currency != move.terms.currency {
        return Ok((None, A.DifferentCurrency));
      }
      var credited := A.LinkedCredit(Book(), originalId, move.company, target.value.value.content.currency);
      if Abs(credited + amount) > Abs(target.value.value.Micros()) {
        return Ok((None, A.ExceedsActiveInvoiceAmount));
      }
      return Ok((target.value, A.Linked));
    }

    /** Links every event of a document to it, unless it is linked already. */
    method LinkSources(id: nat)
      requires Valid() && id in moves
      modifies this`links
      ensures Valid() && Book() == A.LinkSources(old(Book()), id)
    {
      hide A.Closed, A.SourceLinks, A.OfDocument;
      ghost var before := links;
      var company := moves[id].company;
      NoSourceLinks(id, company);
      assert ledger.events[..0] == [];
      for i := 0 to |ledger.events|
        invariant links == before + A.SourceLinks(ledger.events[..i], id, company)
      {
        var e := ledger.events[i];
        SourceLinksAppend(ledger.events[..i], e, id, company);
        assert ledger.events[..i + 1] == ledger.events[..i] + [e];
        if A.OfDocument(e, id, company) && A.MoveLink(e.Id(), id, A.SourceDocument) !in links {
          links := links + {A.MoveLink(e.Id(), id, A.SourceDocument)};
        }
      }
      assert ledger.events[..|ledger.events|] == ledger.events;
      SameMovesClosed(old(Book()), Book());
    }

    lemma SameMovesClosed(b: A.Book, b': A.Book)
      requires b'.moves == b.moves && A.Closed(b)
      ensures A.Closed(b')
    {}

    lemma NoSourceLinks(id: nat, company: nat)
      ensures A.SourceLinks([], id, company) == {}
    {}

    lemma SourceLinksAppend(l: seq<Event>, e: Event, id: nat, company: nat)
      ensures A.SourceLinks(l + [e], id, company) == A.SourceLinks(l, id, company)
        + if A.OfDocument(e, id, company) then {A.MoveLink(e.Id(), id, A.SourceDocument)} else {}
    {
      hide A.OfDocument;
      assert forall x :: x in l + [e] <==> x in l || x == e;
    }

    method EnsureMoveEvent(id: nat, level: string) returns (r: Result<Option<Event>, Rejection>)
      requires Valid() && id in moves
      modifies this, ledger
      ensures Valid()
      ensures A.EnsureMoveEvent(old(Book()), id, level) == if r.Ok? then Ok((Book(), r.value)) else Err(r.error)
      decreases A.Rank(Book(), id), 2
    {
      var move := moves[id];
      LinkSources(id);
      if !move.state.Posted? || !move.Outgoing() {
        return Ok(None);
      }
      var matching := A.ActivePostingOf(Book(), id);
      if matching.Some? {
        return Ok(matching);
      }
      var sequence := NextSequence(id);
      r := EmitMoveEvent(id, MovePosting(id, Some(move.terms.documentDate), sequence), move.terms.documentDate, level);
    }

    method EmitPostingReversal(id: nat, posting: Event, destination: A.MoveState, now: int)
      returns (r: Result<(), Rejection>)
      requires Valid() && id in moves
      modifies this`links, ledger
      ensures Valid()
      ensures A.EmitPostingReversal(old(Book()), id, posting, destination, now) == if r.Ok? then Ok(Book())
        else Err(r.error)
    {
      if !IsPosting(posting.Type()) || posting.company != moves[id].company || !A.MoveEvent(posting)
         || posting.content.sourceResId != id || destination.Posted? {
        return Err(InvalidPostingReversal);
      }
      var reversal := if posting.Type().InvoicePosted? then InvoicePostingReversed else CreditNotePostingReversed;
      if ReversedBy(ledger.events, posting.Id(), reversal) {
        return Ok(());
      }
      var c := Content(
        Revenue, reversal, A.SYSTEM, A.MODEL, id, MoveUnposting(id, posting.content.key), now, "first_party",
        Some(-posting.Micros()), posting.content.currency, Some(posting.content.key),
        A.Departed(posting.content.extensions, destination));
      var recorded := Record(moves[id].company, c, A.LinkTargets(links, posting.Id()));
      if recorded.Err? {
        return Err(recorded.error);
      }
      return Ok(());
    }

    method PostEach(candidates: seq<nat>, now: int) returns (r: Result<(), Rejection>)
      requires Valid() && forall id | id in candidates :: id in moves
      modifies this, ledger
      ensures Valid()
      ensures A.PostEach(old(Book()), candidates, now) == if r.Ok? then Ok(Book()) else Err(r.error)
    {
      ghost var before := Book();
      for i := 0 to |candidates|
        invariant Valid() && A.PostEach(before, candidates[..i], now) == Ok(Book())
      {
        assert candidates[..i + 1][..i] == candidates[..i];
        var id := candidates[i];
        if moves[id].state.Posted? {
          var sequence := NextSequence(id);
          var emitted := EmitMoveEvent(id, MovePosting(id, None, sequence), now, "first_party");
          if emitted.Err? {
            ErrStays(before, candidates, i + 1, now);
            return Err(emitted.error);
          }
        }
      }
      assert candidates[..|candidates|] == candidates;
      return Ok(());
    }

    lemma {:induction false} ErrStays(b: A.Book, ids: seq<nat>, n: nat, now: int)
      requires A.Closed(b) && (forall id | id in ids :: id in b.moves) && n <= |ids|
      requires A.PostEach(b, ids[..n], now).Err?
      ensures A.PostEach(b, ids, now) == A.PostEach(b, ids[..n], now)
      decreases |ids|
    {
      if n == |ids| {
        assert ids[..n] == ids;
      } else {
        assert ids[..|ids| - 1][..n] == ids[..n];
        ErrStays(b, ids[..|ids| - 1], n, now);
      }
    }

    /** The transaction of one batch posting. */
    method Post(ids: seq<nat>, deferred: set<nat>, now: int) returns (r: Result<(), Rejection>)
      requires Valid() && A.Allowed(Book(), A.PostBatch(ids, deferred, now))
      modifies this, ledger
      ensures Valid()
      ensures A.Apply(old(Book()), A.PostBatch(ids, deferred, now)) == if r.Ok? then Ok(Book()) else Err(r.error)
      ensures r.Err? ==> Book() == old(Book())
    {
      var savedMoves, savedLinks, savedEvents, savedObservations := moves, links, ledger.events, ledger.observations;
      var candidates := A.Candidates(Book(), ids, false);
      var posted := A.ToSet(ids) - deferred;
      moves := map id | id in moves :: if id in posted then moves[id].(state := A.Posted) else moves[id];
      r := PostEach(candidates, now);
      if r.Err? {
        moves, links := savedMoves, savedLinks;
        ledger.events, ledger.observations := savedEvents, savedObservations;
      }
    }

    method EnsureEach(departing: seq<nat>) returns (r: Result<seq<Option<Event>>, Rejection>)
      requires Valid() && forall id | id in departing :: id in moves
      modifies this, ledger
      ensures Valid()
      ensures A.EnsureEach(old(Book()), departing) == if r.Ok? then Ok((Book(), r.value)) else Err(r.error)
    {
      ghost var before := Book();
      var postings := [];
      for i := 0 to |departing|
        invariant Valid() && A.EnsureEach(before, departing[..i]) == Ok((Book(), postings))
      {
        assert departing[..i + 1][..i] == departing[..i];
        var posting := EnsureMoveEvent(departing[i], "imported");
        if posting.Err? {
          EnsureErrStays(before, departing, i + 1);
          return Err(posting.error);
        }
        postings := postings + [posting.value];
      }
      assert departing[..|departing|] == departing;
      return Ok(postings);
    }

    lemma {:induction false} EnsureErrStays(b: A.Book, ids: seq<nat>, n: nat)
      requires A.Closed(b) && (forall id | id in ids :: id in b.moves) && n <= |ids|
      requires A.EnsureEach(b, ids[..n]).Err?
      ensures A.EnsureEach(b, ids) == A.EnsureEach(b, ids[..n])
      decreases |ids|
    {
      if n == |ids| {
        assert ids[..n] == ids;
      } else {
        assert ids[..|ids| - 1][..n] == ids[..n];
        EnsureErrStays(b, ids[..|ids| - 1], n);
      }
    }

    method ReverseEach(departing: seq<nat>, postings: seq<Option<Event>>, destination: A.MoveState, now: int)
      returns (r: Result<(), Rejection>)
      requires Valid() && |postings| == |departing| && forall id | id in departing :: id in moves
      modifies this`links, ledger
      ensures Valid()
      ensures A.ReverseEach(old(Book()), departing, postings, destination, now) == if r.Ok? then Ok(Book())
        else Err(r.error)
    {
      ghost var before := Book();
      for i := 0 to |departing|
        invariant Valid() && A.ReverseEach(before, departing[..i], postings[..i], destination, now) == Ok(Book())
      {
        assert departing[..i + 1][..i] == departing[..i] && postings[..i + 1][..i] == postings[..i];
        if postings[i].Some? {
          var reversed := EmitPostingReversal(departing[i], postings[i].value, destination, now);
          if reversed.Err? {
            ReverseErrStays(before, departing, postings, i + 1, destination, now);
            return Err(reversed.error);
          }
        }
      }
      assert departing[..|departing|] == departing && postings[..|departing|] == postings;
      return Ok(());
    }

    lemma {:induction false} ReverseErrStays(b: A.Book, ids: seq<nat>, postings: seq<Option<Event>>, n: nat,
                                             destination: A.MoveState, now: int)
      requires |ids| == |postings| && (forall id | id in ids :: id in b.moves) && n <= |ids|
      requires A.ReverseEach(b, ids[..n], postings[..n], destination, now).Err?
      ensures A.ReverseEach(b, ids, postings, destination, now)
        == A.ReverseEach(b, ids[..n], postings[..n], destination, now)
      decreases |ids|
    {
      hide A.EmitPostingReversal;
      if n == |ids| {
        assert ids[..n] == ids && postings[..n] == postings;
      } else {
        var m := |ids| - 1;
        assert ids[..m][..n] == ids[..n] && postings[..m][..n] == postings[..n];
        ReverseErrStays(b, ids[..m], postings[..m], n, destination, now);
      }
    }

    /** The transaction of one write that moves documents to draft or cancelled. */
    method Unpost(ids: seq<nat>, destination: A.MoveState, after: map<nat, A.Terms>, now: int)
      returns (r: Result<(), Rejection>)
      requires Valid() && A.Allowed(Book(), A.Unpost(ids, destination, after, now))
      modifies this, ledger
      ensures Valid()
      ensures A.Apply(old(Book()), A.Unpost(ids, destination, after, now)) == if r.Ok? then Ok(Book()) else Err(r.error)
      ensures r.Err? ==> Book() == old(Book())
    {
      var savedMoves, savedLinks, savedEvents, savedObservations := moves, links, ledger.events, ledger.observations;
      var departing := A.Candidates(Book(), ids, true);
      var ensured := EnsureEach(departing);
      if ensured.Err? {
        r := Err(ensured.error);
      } else {
        var leaving := A.ToSet(ids);
        moves := map id | id in moves ::
          if id in leaving
          then A.Move(moves[id].company, if id in after then after[id] else moves[id].terms, destination,
                      moves[id].sequence)
          else moves[id];
        assert Book() == A.NativeUnpost(A.EnsureEach(old(Book()), departing).value.0, leaving, destination, after);
        r := ReverseEach(departing, ensured.value, destination, now);
      }
      if r.Err? {
        moves, links := savedMoves, savedLinks;
        ledger.events, ledger.observations := savedEvents, savedObservations;
      }
    }
  }
}
