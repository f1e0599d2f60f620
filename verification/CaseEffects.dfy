// What the operations of a case do to its invoices, one by one and over whole runs: what becomes of an invoice, what it
// holds, and when paying settles a case.
module CaseEffects {
  import opened Wrappers
  import opened Money
  import opened Invoicing
  import opened InvoiceLines
  import opened InvoicingLaws
  import opened CaseBilling
  import opened CaseBillingSafety
  import opened CaseStatusSafety
  import opened CaseRankSafety

  // ---------------------------------------------------------------------------------------------------
  // One operation
  // ---------------------------------------------------------------------------------------------------

  /** `after` is `before` with the status of one invoice set. */
  predicate OnlyStatusSet(before: Case, after: Case, i: nat, status: InvoiceStatus) {
    && after.quotes == before.quotes && |after.invoices| == |before.invoices| && i < |before.invoices|
    && after.invoices[i] == before.invoices[i].(status := status)
    && forall j | 0 <= j < |before.invoices| && j != i :: after.invoices[j] == before.invoices[j]
  }

  /** `after` is `before` with one invoice added. */
  predicate OnlyAdded(before: Case, after: Case, added: Invoice) {
    after.quotes == before.quotes && after.invoices == before.invoices + [added]
  }

  /** An invoice is created exactly on a case that is to be invoiced, on one of its quotes, which has lines, for a
      request that the quote can take on top of what is engaged on it. */
  lemma CreateTakesEffect(c: Case, q: nat, request: Request, draft: bool)
    ensures Step(c, Create(q, request, draft)).Ok? <==>
              && c.billingStatus in {ToInvoice, InvoiceDraft, PartiallyInvoiced}
              && q < |c.quotes| && c.quotes[q].lines != []
              && IsAcceptable(c.quotes[q], request, Engaged(c, q))
    ensures Step(c, Create(q, request, draft)).Ok? ==>
              exists invoice: Invoice ::
                && OnlyAdded(c, After(c, Create(q, request, draft)), invoice)
                && invoice.quoteId == q && invoice.kind == request.kind
                && invoice.status == (if draft then Draft else Finalized)
                && invoice.amountHt == BilledCents(c.quotes[q], request, Engaged(c, q))
    ensures Step(c, Create(q, request, draft)).Err? ==> After(c, Create(q, request, draft)) == c
  {
    SelectedSumIsExact(c.invoices, OnQuote(q));
    assert QuoteInvoicedHt(c.invoices, q) == Euros(Engaged(c, q));
    hide Recompute, BuildInvoiceLinesFromQuote, IsAcceptable, BilledCents, QuoteInvoicedHt, LastSituationNumber;
    if q < |c.quotes| && c.quotes[q].lines != [] {
      if request.kind.CreditNote? {
        CreditNotesAreNotCreated(c.quotes[q], request, Engaged(c, q));
      } else {
        RequestIsAcceptedExactly(c.quotes[q], request, Engaged(c, q));
      }
    }
    if Step(c, Create(q, request, draft)).Ok? {
      assert OnlyAdded(c, After(c, Create(q, request, draft)), CreatedInvoice(c, q, request, draft).value);
    }
  }

  lemma CreditNotesAreNotCreated(quote: Quote, request: Request, already: int)
    requires request.kind.CreditNote?
    ensures !IsAcceptable(quote, request, already)
  {
  }

  /** The cents that a credit takes back: the given amount, or all of the original. */
  function CreditedCents(original: Invoice, amountHt: Option<real>): int {
    if amountHt.Some? then Cents(amountHt.value)
    else if original.amountHt < 0 then -original.amountHt else original.amountHt
  }

  /** Exactly the issued invoices can be credited, for at least a cent and at most their amount. */
  lemma CreditTakesEffect(c: Case, i: nat, amountHt: Option<real>)
    ensures Step(c, Credit(i, amountHt)).Ok? <==>
              && i < |c.invoices| && c.invoices[i].status in {Finalized, Paid}
              && 1 <= CreditedCents(c.invoices[i], amountHt)
              && (CreditedCents(c.invoices[i], amountHt) <= c.invoices[i].amountHt
                  || CreditedCents(c.invoices[i], amountHt) <= -c.invoices[i].amountHt)
    ensures Step(c, Credit(i, amountHt)).Ok? ==>
              exists note: Invoice ::
                && OnlyAdded(c, After(c, Credit(i, amountHt)), note)
                && note.quoteId == c.invoices[i].quoteId && note.kind == CreditNote && note.status == Finalized
                && note.amountHt == -CreditedCents(c.invoices[i], amountHt) && note.situationNumber.None?
    ensures Step(c, Credit(i, amountHt)).Err? ==> After(c, Credit(i, amountHt)) == c
  {
    hide Recompute, BuildCreditNoteLines;
    if i < |c.invoices| {
      var original := c.invoices[i];
      var cents := if original.amountHt < 0 then -original.amountHt else original.amountHt;
      assert Abs(Euros(original.amountHt)) == Euros(cents);
      CreditNoteLinesDrift(original.lines, cents, amountHt);
      CentsOfEuros(cents);
    }
    if Step(c, Credit(i, amountHt)).Ok? {
      assert OnlyAdded(c, After(c, Credit(i, amountHt)), CreditNoteFor(c.invoices[i], amountHt).value);
    }
  }

  /** Exactly the drafts are finalized, and become so. */
  lemma FinalizeTakesEffect(c: Case, i: nat)
    ensures Step(c, Finalize(i)).Ok? <==> i < |c.invoices| && c.invoices[i].status == Draft
    ensures Step(c, Finalize(i)).Ok? ==> OnlyStatusSet(c, After(c, Finalize(i)), i, Finalized)
    ensures Step(c, Finalize(i)).Err? ==> After(c, Finalize(i)) == c
  {
    hide Recompute;
  }

  /** Exactly the issued invoices are paid, once or again, and become so. */
  lemma MarkPaidTakesEffect(c: Case, i: nat)
    ensures Step(c, MarkPaid(i)).Ok? <==>
              i < |c.invoices| && (c.invoices[i].status == Finalized || c.invoices[i].status == Paid)
    ensures Step(c, MarkPaid(i)).Ok? ==> OnlyStatusSet(c, After(c, MarkPaid(i)), i, Paid)
    ensures Step(c, MarkPaid(i)).Err? ==> After(c, MarkPaid(i)) == c
  {
    hide Recompute;
  }

  /** Exactly the drafts are cancelled, and become so. */
  lemma CancelTakesEffect(c: Case, i: nat)
    ensures Step(c, Cancel(i)).Ok? <==> i < |c.invoices| && c.invoices[i].status == Draft
    ensures Step(c, Cancel(i)).Ok? ==> OnlyStatusSet(c, After(c, Cancel(i)), i, Cancelled)
    ensures Step(c, Cancel(i)).Err? ==> After(c, Cancel(i)) == c
  {
    hide Recompute;
  }

  // ---------------------------------------------------------------------------------------------------
  // What becomes of an invoice
  // ---------------------------------------------------------------------------------------------------

  /** Drafts are finalized or cancelled, finalized invoices are paid; nothing leads back. */
  predicate LeadsTo(before: InvoiceStatus, after: InvoiceStatus) {
    before == after || (before == Draft) || (before == Finalized && after == Paid)
  }

  /** The same invoice later on: every field as it was, the status at most further. */
  predicate IsLater(before: Invoice, after: Invoice) {
    after == before.(status := after.status) && LeadsTo(before.status, after.status)
  }

  lemma StepKeepsInvoices(c: Case, event: Event)
    ensures |After(c, event).invoices| >= |c.invoices|
    ensures forall i | 0 <= i < |c.invoices| :: IsLater(c.invoices[i], After(c, event).invoices[i])
  {
    hide Recompute, CreatedInvoice, CreditNoteFor;
    match event
    case Create(_, _, _) =>
    case Credit(_, _) =>
    case Finalize(i) => FinalizeTakesEffect(c, i);
    case MarkPaid(i) => MarkPaidTakesEffect(c, i);
    case Cancel(i) => CancelTakesEffect(c, i);
  }

  /** Over every run each invoice keeps its place, its amount, its lines and its number for ever, and its status only
      moves from draft to finalized to paid, or from draft to cancelled. */
  lemma {:induction false} InvoicesAreKept(c: Case, events: seq<Event>)
    ensures |Run(c, events).invoices| >= |c.invoices|
    ensures forall i | 0 <= i < |c.invoices| :: IsLater(c.invoices[i], Run(c, events).invoices[i])
    decreases |events|
  {
    if events != [] {
      hide After;
      var next := After(c, events[0]);
      StepKeepsInvoices(c, events[0]);
      InvoicesAreKept(next, events[1..]);
      forall i | 0 <= i < |c.invoices| ensures IsLater(c.invoices[i], Run(c, events).invoices[i]) {
        assert IsLater(c.invoices[i], next.invoices[i]);
      }
    }
  }

  // ---------------------------------------------------------------------------------------------------
  // Paying everything
  // ---------------------------------------------------------------------------------------------------

  function Payments(n: nat): (events: seq<Event>)
    ensures OnlyForward(events)
  {
    if n == 0 then [] else Payments(n - 1) + [MarkPaid(n - 1)]
  }

  lemma {:induction false} RunAfter(c: Case, events: seq<Event>, last: Event)
    ensures Run(c, events + [last]) == After(Run(c, events), last)
  {
    var all := events + [last];
    RunPrefix(c, all, |events|);
    assert all[..|events|] == events && all[..|events| + 1] == all;
  }

  /** The first `n` invoices once they are paid as far as they are issued. */
  predicate PaidUpTo(c: Case, after: Case, n: nat) {
    && after.quotes == c.quotes && |after.invoices| == |c.invoices|
    && forall i | 0 <= i < |c.invoices| ::
         after.invoices[i] == if i < n && Issued.Has(c.invoices[i]) then c.invoices[i].(status := Paid)
                              else c.invoices[i]
  }

  lemma {:induction false} PaymentsPay(c: Case, n: nat)
    requires n <= |c.invoices|
    ensures PaidUpTo(c, Run(c, Payments(n)), n)
    ensures TotalCents(Run(c, Payments(n)).invoices, Issued) == TotalCents(c.invoices, Issued)
  {
    if n > 0 {
      var before := Run(c, Payments(n - 1));
      PaymentsPay(c, n - 1);
      RunAfter(c, Payments(n - 1), MarkPaid(n - 1));
      assert Payments(n) == Payments(n - 1) + [MarkPaid(n - 1)];
      hide Payments, After, Run, PaidUpTo, TotalCents;
      PaymentPaysNext(c, before, n - 1);
    }
  }

  lemma PaymentPaysNext(c: Case, before: Case, i: nat)
    requires i < |c.invoices| && PaidUpTo(c, before, i)
    ensures PaidUpTo(c, After(before, MarkPaid(i)), i + 1)
    ensures TotalCents(After(before, MarkPaid(i)).invoices, Issued) == TotalCents(before.invoices, Issued)
  {
    MarkPaidTakesEffect(before, i);
    var after := After(before, MarkPaid(i));
    hide After, Step;
    if Issued.Has(before.invoices[i]) {
      TotalOfUpdated(before.invoices, i, after.invoices[i], Issued);
      assert after.invoices == before.invoices[i := after.invoices[i]];
    }
  }

  lemma StatusesWhilePaying(c: Case, after: Case, n: nat)
    requires n <= |c.invoices| && PaidUpTo(c, after, n)
    ensures AnyStatus(after.invoices, Draft) <==> AnyStatus(c.invoices, Draft)
    ensures AnyIssued(after.invoices) <==> AnyIssued(c.invoices)
    ensures n == |c.invoices| ==> !AnyStatus(after.invoices, Finalized)
  {
    AnyByIndex(after.invoices);
    AnyByIndex(c.invoices);
    hide AnyStatus, AnyIssued;
    forall i | 0 <= i < |c.invoices|
      ensures after.invoices[i].status == Draft <==> c.invoices[i].status == Draft
      ensures Issued.Has(after.invoices[i]) <==> Issued.Has(c.invoices[i])
    {
    }
  }

  lemma CanSettleWhilePaying(c: Case, after: Case, n: nat)
    requires n <= |c.invoices| && PaidUpTo(c, after, n)
    requires TotalCents(after.invoices, Issued) == TotalCents(c.invoices, Issued)
    ensures CanSettle(after) <==> CanSettle(c)
  {
    StatusesWhilePaying(c, after, n);
    hide AnyStatus, AnyIssued, TotalCents, PaidUpTo;
  }

  lemma AnyByIndex(invoices: seq<Invoice>)
    ensures AnyStatus(invoices, Draft) <==> exists i :: 0 <= i < |invoices| && invoices[i].status == Draft
    ensures AnyStatus(invoices, Finalized) <==> exists i :: 0 <= i < |invoices| && invoices[i].status == Finalized
    ensures AnyIssued(invoices) <==> exists i :: 0 <= i < |invoices| && Issued.Has(invoices[i])
  {
    assert forall i | 0 <= i < |invoices| :: invoices[i] in invoices;
  }

  /** All that was invoiced is issued, and it covers the quotes. */
  predicate CanSettle(c: Case) {
    && AnyIssued(c.invoices) && !AnyStatus(c.invoices, Draft)
    && !HasRemaining(c.invoices, QuotesTotalHt(c.quotes))
  }

  /** The stored status after an accepted payment. */
  lemma PaymentStatus(c: Case, i: nat)
    requires Step(c, MarkPaid(i)).Ok?
    ensures var next := After(c, MarkPaid(i));
            next.billingStatus == PaidInFull <==>
              c.billingStatus == PaidInFull || (CanSettle(next) && !AnyStatus(next.invoices, Finalized))
  {
    var next := After(c, MarkPaid(i));
    MarkPaidTakesEffect(c, i);
    AnyByIndex(next.invoices);
    FullStatusTable(next.invoices, QuotesTotalHt(c.quotes));
    hide AggregateBillingStatus, AnyStatus, HasRemaining;
  }

  predicate IssuedBelow(c: Case, n: nat) {
    exists i :: 0 <= i < n && i < |c.invoices| && Issued.Has(c.invoices[i])
  }

  lemma {:induction false} PaymentsSettle(c: Case, n: nat)
    requires n <= |c.invoices| && c.billingStatus != PaidInFull
    ensures var after := Run(c, Payments(n));
            after.billingStatus == PaidInFull <==>
              CanSettle(c) && !AnyStatus(after.invoices, Finalized) && IssuedBelow(c, n)
  {
    hide After, Step, AnyStatus, CanSettle, PaidUpTo, TotalCents;
    if n > 0 {
      var before := Run(c, Payments(n - 1));
      PaymentsSettle(c, n - 1);
      PaymentsPay(c, n - 1);
      PaymentsPay(c, n);
      RunAfter(c, Payments(n - 1), MarkPaid(n - 1));
      assert Run(c, Payments(n)) == After(before, MarkPaid(n - 1));
      hide Run, Payments, IssuedBelow;
      OnePaymentSettles(c, before, After(before, MarkPaid(n - 1)), n - 1);
    }
  }

  /** One more payment: the state `before` it has `i` invoices paid. */
  lemma OnePaymentSettles(c: Case, before: Case, after: Case, i: nat)
    requires i < |c.invoices| && after == After(before, MarkPaid(i))
    requires PaidUpTo(c, before, i) && PaidUpTo(c, after, i + 1)
    requires TotalCents(after.invoices, Issued) == TotalCents(c.invoices, Issued)
    requires before.billingStatus == PaidInFull <==>
               CanSettle(c) && !AnyStatus(before.invoices, Finalized) && IssuedBelow(c, i)
    ensures after.billingStatus == PaidInFull <==>
              CanSettle(c) && !AnyStatus(after.invoices, Finalized) && IssuedBelow(c, i + 1)
  {
    assert before.invoices[i] == c.invoices[i];
    MarkPaidTakesEffect(before, i);
    if Issued.Has(c.invoices[i]) {
      assert IssuedBelow(c, i + 1);
      PaymentStatus(before, i);
      CanSettleWhilePaying(c, after, i + 1);
      NotSettledBefore(before, i, after);
    } else {
      assert IssuedBelow(c, i) <==> IssuedBelow(c, i + 1);
    }
    hide After, Step, AnyStatus, CanSettle, IssuedBelow, TotalCents, PaidUpTo;
  }

  lemma NotSettledBefore(before: Case, i: nat, after: Case)
    requires OnlyStatusSet(before, after, i, Paid)
    ensures !AnyStatus(before.invoices, Finalized) ==> !AnyStatus(after.invoices, Finalized)
  {
    AnyByIndex(before.invoices);
    AnyByIndex(after.invoices);
  }

  /** Paying every issued invoice, one after the other, pays them all, and marks the case as paid in full exactly when
      something was issued, nothing is left in draft, and the issued invoices cover the quotes. */
  lemma PayingAllSettlesExactly(c: Case)
    requires c.billingStatus != PaidInFull
    ensures var paid := Run(c, Payments(|c.invoices|));
            && PaidUpTo(c, paid, |c.invoices|)
            && (paid.billingStatus == PaidInFull <==> CanSettle(c))
  {
    var n := |c.invoices|;
    PaymentsPay(c, n);
    PaymentsSettle(c, n);
    StatusesWhilePaying(c, Run(c, Payments(n)), n);
    AnyByIndex(c.invoices);
    hide Run, Payments, AnyStatus, PaidUpTo;
  }

  // ---------------------------------------------------------------------------------------------------
  // What an invoice holds
  // ---------------------------------------------------------------------------------------------------

  /** The lines of an invoice say what it is for: those of a full invoice are the quote's, the others recompute to the
      amount to the cent, or, prorated, within the drift of their rounding. A situation by percent keeps its percent. */
  lemma CreatedLinesMatch(c: Case, q: nat, request: Request, draft: bool)
    requires CreatedInvoice(c, q, request, draft).Ok?
    ensures q < |c.quotes|
    ensures var invoice, quote := CreatedInvoice(c, q, request, draft).value, c.quotes[q];
            && (request.kind.Full? ==> invoice.lines == quote.lines)
            && if request.kind.Situation? && request.situationPercent.Some? then
                 && invoice.situationPercent == request.situationPercent
                 && quote.totalHt > 0.0
                 && Near(LineSum(invoice.lines), Euros(invoice.amountHt),
                         0.005 * SumAbsPrices(quote.lines)
                         + Times(Euros(invoice.amountHt) / quote.totalHt, Abs(LineSum(quote.lines) - quote.totalHt)))
               else InvoiceTotalsFromLines(invoice.lines).amountHt == invoice.amountHt
  {
    var quote, already := c.quotes[q], Engaged(c, q);
    SelectedSumIsExact(c.invoices, OnQuote(q));
    assert QuoteInvoicedHt(c.invoices, q) == Euros(already);
    if request.kind.Situation? && request.situationPercent.Some? {
      SituationLinesDrift(quote, already, request.situationPercent.value);
      BuiltPercent(quote, request, already);
      hide BuildSituationByPercent, QuoteInvoicedHt, LineSum, Near, Times, SumAbsPrices;
    } else {
      LinesSumToAmount(quote, request, Euros(already));
      BuiltFull(quote, request, already);
      hide BuildInvoiceLinesFromQuote, QuoteInvoicedHt, InvoiceTotalsFromLines;
    }
  }

  lemma BuiltPercent(quote: Quote, request: Request, already: int)
    requires request.kind.Situation? && request.situationPercent.Some?
    ensures var built := BuildInvoiceLinesFromQuote(quote, request, Euros(already));
            built.Ok? ==> built.value.situationPercent == request.situationPercent
  {
    hide Cents, RemainingQuoteHt, InvoicedQuotePercent;
  }

  lemma BuiltFull(quote: Quote, request: Request, already: int)
    requires !request.kind.CreditNote? && quote.lines != []
    ensures var built := BuildInvoiceLinesFromQuote(quote, request, Euros(already));
            request.kind.Full? && built.Ok? ==> built.value.lines == quote.lines
  {
  }

  lemma {:induction false} CreditLinesKeep(lines: seq<QuoteLine>, ratio: real)
    ensures |CreditLines(lines, ratio)| == |lines|
    ensures forall i | 0 <= i < |lines| ::
              && CreditLines(lines, ratio)[i].quantity == lines[i].quantity
              && CreditLines(lines, ratio)[i].tvaRate == lines[i].tvaRate
  {
    if lines != [] {
      CreditLinesKeep(lines[1..], ratio);
    }
  }

  /** A credit note repeats the lines of its original with their quantities and rates, and they sum to its amount within
      the drift of its unit prices. */
  lemma CreditLinesMatch(original: Invoice, amountHt: Option<real>)
    requires CreditNoteFor(original, amountHt).Ok? && original.amountHt >= 0
    ensures var note := CreditNoteFor(original, amountHt).value;
            && original.amountHt >= 1 && |note.lines| == |original.lines|
            && (forall i | 0 <= i < |note.lines| ::
                  && note.lines[i].quantity == original.lines[i].quantity
                  && note.lines[i].tvaRate == original.lines[i].tvaRate)
            && Near(LineSum(note.lines), Euros(note.amountHt),
                    0.005 * SumAbsQuantities(original.lines)
                    + Times(-Euros(note.amountHt) / Euros(original.amountHt),
                            Abs(LineSum(original.lines) - Euros(original.amountHt))))
  {
    var originalHt := Euros(original.amountHt);
    assert Abs(originalHt) == originalHt;
    CreditNoteLinesDrift(original.lines, original.amountHt, amountHt);
    var built := BuildCreditNoteLines(original.lines, originalHt, amountHt).value;
    var credit := Cents(if amountHt.Some? then amountHt.value else originalHt);
    assert -Euros(built.amountHt) == Euros(credit);
    CentsOfEuros(original.amountHt);
    var rounded := Round2(if amountHt.Some? then amountHt.value else Round2(originalHt));
    assert built.lines == CreditLines(original.lines, rounded / Round2(originalHt));
    CreditLinesKeep(original.lines, rounded / Round2(originalHt));
    hide BuildCreditNoteLines, CreditLines, LineSum, Near, Times, SumAbsQuantities, Cents;
  }

  // ---------------------------------------------------------------------------------------------------
  // Numbers and the stored status
  // ---------------------------------------------------------------------------------------------------

  /** Situations are numbered from 1, without a gap after the last active one. */
  lemma {:induction false} NextNumberFollowsLast(invoices: seq<Invoice>, q: nat)
    requires NumbersSound(invoices)
    ensures NextSituationNumber(invoices, q) == 1 <==>
              forall i | 0 <= i < |invoices| :: !ActiveSituation(invoices[i], q)
    ensures NextSituationNumber(invoices, q) > 1 ==>
              exists i :: 0 <= i < |invoices| && ActiveSituation(invoices[i], q)
                && invoices[i].situationNumber == Some(NextSituationNumber(invoices, q) - 1)
  {
    NextNumberIsFresh(invoices, q);
    if invoices != [] {
      var front := invoices[..|invoices| - 1];
      assert forall i | 0 <= i < |front| :: front[i] == invoices[i];
      NextNumberFollowsLast(front, q);
    }
  }

  /** Over every run, cancellations and credits included, the stored status never steps down. */
  lemma {:induction false} StoredStatusNeverFalls(c: Case, events: seq<Event>)
    ensures Run(c, events).billingStatus.Rank() >= c.billingStatus.Rank()
    decreases |events|
  {
    if events != [] {
      StoredStatusStep(c, events[0]);
      StoredStatusNeverFalls(After(c, events[0]), events[1..]);
    }
  }

  lemma StoredStatusStep(c: Case, event: Event)
    ensures After(c, event).billingStatus.Rank() >= c.billingStatus.Rank()
  {
    if ApplyToInvoices(c, event).Ok? {
      FullStatusTable(ApplyToInvoices(c, event).value, StatusBase(c, event));
    }
    hide ApplyToInvoices, AggregateBillingStatus, StatusBase;
  }
}
