// The billing of one case: the invoices stored by services/api/src/domain/billing/invoices.service.ts, the
// guards of services/api/src/domain/billing.gateway.service.ts in front of them, and the CRM status that
// packages/shared/src/integrations.ts derives from them.
//
// Every operation is first described on values (Step), then as a method that updates the stored list in
// place. A quote is identified by its position among the accepted quotes of the case.
module CaseBilling {
  import opened Wrappers
  import opened Money
  import opened Invoicing
  import opened InvoiceLines

  // ---------------------------------------------------------------------------------------------------
  // CRM status of the case
  // ---------------------------------------------------------------------------------------------------

  datatype BillingStatus =
    NotApplicable | ToInvoice | InvoiceDraft | PartiallyInvoiced | Invoiced | PaidInFull
  {
    function Rank(): nat {
      match this
      case NotApplicable => 0
      case ToInvoice => 1
      case InvoiceDraft => 2
      case PartiallyInvoiced => 3
      case Invoiced => 4
      case PaidInFull => 5
    }

    predicate AllowsInvoiceCreation() {
      ToInvoice? || InvoiceDraft? || PartiallyInvoiced?
    }
  }

  predicate AnyStatus(invoices: seq<Invoice>, status: InvoiceStatus) {
    exists invoice <- invoices :: invoice.status == status
  }

  function AggregateBillingStatus(invoices: seq<Invoice>, quoteTotalHt: real): Option<BillingStatus> {
    var anyDraft := AnyStatus(invoices, Draft);
    var anyIssued := AnyStatus(invoices, Finalized) || AnyStatus(invoices, Paid);
    if !anyDraft && !anyIssued then None
    else
      var invoicedHt := SumInvoiceAmountsHt(Select(invoices, Issued));
      var remainingHt := Max(0.0, Round2(quoteTotalHt - invoicedHt));
      var hasRemaining := quoteTotalHt > 0.009 && remainingHt > 0.009;
      var allPaid := !anyDraft && !AnyStatus(invoices, Finalized);
      var allIssued := !anyDraft;
      Some(
        if allPaid && !hasRemaining then PaidInFull
        else if hasRemaining && anyIssued then PartiallyInvoiced
        else if allIssued && !hasRemaining then Invoiced
        else if anyDraft && !anyIssued then InvoiceDraft
        else if anyDraft && anyIssued then (if hasRemaining then PartiallyInvoiced else InvoiceDraft)
        else if anyIssued then (if hasRemaining then PartiallyInvoiced else Invoiced)
        else InvoiceDraft)
  }

  predicate ShouldUpgrade(current: BillingStatus, next: BillingStatus) {
    next.Rank() > current.Rank()
  }

  /** The status stored on the case after its invoices changed. */
  function Recompute(current: BillingStatus, invoices: seq<Invoice>, quoteTotalHt: real): BillingStatus {
    match AggregateBillingStatus(invoices, quoteTotalHt)
    case None => current
    case Some(next) =>
      if ShouldUpgrade(current, next) || current.ToInvoice? || (current.InvoiceDraft? && next.PartiallyInvoiced?)
      then next
      else current
  }

  // ---------------------------------------------------------------------------------------------------
  // Operations
  // ---------------------------------------------------------------------------------------------------

  datatype Case = Case(quotes: seq<Quote>, invoices: seq<Invoice>, billingStatus: BillingStatus)

  datatype Event =
    | Create(quoteId: nat, request: Request, draft: bool)
    | Finalize(index: nat)
    | MarkPaid(index: nat)
    | Cancel(index: nat)
    | Credit(index: nat, amountHt: Option<real>)

  /** A case whose quotes have just been accepted. */
  function NewCase(quotes: seq<Quote>): Case {
    Case(quotes, [], ToInvoice)
  }

  function QuotesTotalHt(quotes: seq<Quote>): real {
    if quotes == [] then 0.0 else QuotesTotalHt(quotes[..|quotes| - 1]) + quotes[|quotes| - 1].totalHt
  }

  function MaxOf(a: int, b: int): int {
    if a < b then b else a
  }

  /** The largest active situation number of the quote, 0 when there is none. */
  function LastSituationNumber(invoices: seq<Invoice>, quoteId: nat): int {
    if invoices == [] then 0
    else
      var last := invoices[|invoices| - 1];
      var before := LastSituationNumber(invoices[..|invoices| - 1], quoteId);
      if OnQuote(quoteId).Has(last) && last.kind.Situation? && last.situationNumber.Some?
      then MaxOf(before, last.situationNumber.value)
      else before
  }

  function NextSituationNumber(invoices: seq<Invoice>, quoteId: nat): int {
    LastSituationNumber(invoices, quoteId) + 1
  }

  function CreatedInvoice(c: Case, quoteId: nat, request: Request, draft: bool): Result<Invoice, Refusal> {
    if !c.billingStatus.AllowsInvoiceCreation() then Err(CaseNotInvoiceable)
    else if request.kind.CreditNote? || quoteId >= |c.quotes| then Err(QuoteNotFound)
    else if c.quotes[quoteId].lines == [] then Err(QuoteWithoutLines)
    else
      match BuildInvoiceLinesFromQuote(c.quotes[quoteId], request, QuoteInvoicedHt(c.invoices, quoteId))
      case Err(refusal) => Err(refusal)
      case Ok(built) =>
        var number := if request.kind.Situation? then Some(NextSituationNumber(c.invoices, quoteId)) else None;
        Ok(Invoice(quoteId, request.kind, if draft then Draft else Finalized, built.amountHt, built.lines,
                   number, built.situationPercent))
  }

  function CreditNoteFor(original: Invoice, amountHt: Option<real>): Result<Invoice, Refusal> {
    match BuildCreditNoteLines(original.lines, Abs(Euros(original.amountHt)), amountHt)
    case Err(refusal) => Err(refusal)
    case Ok(built) =>
      Ok(Invoice(original.quoteId, CreditNote, Finalized, built.amountHt, built.lines, None, None))
  }

  /** The invoice list after an event, or the reason why the event is turned down. */
  function ApplyToInvoices(c: Case, event: Event): Result<seq<Invoice>, Refusal> {
    match event
    case Create(quoteId, request, draft) =>
      (match CreatedInvoice(c, quoteId, request, draft)
       case Err(refusal) => Err(refusal)
       case Ok(invoice) => Ok(c.invoices + [invoice]))
    case Finalize(i) =>
      if i >= |c.invoices| || c.invoices[i].status.Cancelled? then Err(InvoiceNotFound)
      else if !c.invoices[i].status.Draft? then Err(WrongStatus)
      else Ok(c.invoices[i := c.invoices[i].(status := Finalized)])
    case MarkPaid(i) =>
      if i >= |c.invoices| || c.invoices[i].status.Cancelled? then Err(InvoiceNotFound)
      else if !Issued.Has(c.invoices[i]) then Err(WrongStatus)
      else Ok(c.invoices[i := c.invoices[i].(status := Paid)])
    case Cancel(i) =>
      if i >= |c.invoices| || c.invoices[i].status.Cancelled? then Err(InvoiceNotFound)
      else if Issued.Has(c.invoices[i]) then Err(WrongStatus)
      else Ok(c.invoices[i := c.invoices[i].(status := Cancelled)])
    case Credit(i, amountHt) =>
      if i >= |c.invoices| || c.invoices[i].status.Cancelled? then Err(InvoiceNotFound)
      else if !Issued.Has(c.invoices[i]) then Err(WrongStatus)
      else
        match CreditNoteFor(c.invoices[i], amountHt)
        case Err(refusal) => Err(refusal)
        case Ok(creditNote) => Ok(c.invoices + [creditNote])
  }

  /** The quote total against which the CRM status is recomputed after an event. */
  function StatusBase(c: Case, event: Event): real {
    if event.Create? && event.quoteId < |c.quotes| then c.quotes[event.quoteId].totalHt
    else QuotesTotalHt(c.quotes)
  }

  function Step(c: Case, event: Event): Result<Case, Refusal> {
    match ApplyToInvoices(c, event)
    case Err(refusal) => Err(refusal)
    case Ok(invoices) =>
      Ok(Case(c.quotes, invoices, Recompute(c.billingStatus, invoices, StatusBase(c, event))))
  }

  /** A refused event leaves the case as it was. */
  function After(c: Case, event: Event): Case {
    match Step(c, event)
    case Err(_) => c
    case Ok(next) => next
  }

  function Run(c: Case, events: seq<Event>): Case
    decreases |events|
  {
    if events == [] then c else Run(After(c, events[0]), events[1..])
  }

  predicate Undoes(event: Event) {
    event.Cancel? || event.Credit?
  }

  /** A run in which nothing is cancelled or credited. */
  predicate OnlyForward(events: seq<Event>) {
    forall event <- events :: !Undoes(event)
  }

  // ---------------------------------------------------------------------------------------------------
  // The stored state
  // ---------------------------------------------------------------------------------------------------

  class CaseLedger {
    const quotes: seq<Quote>
    var invoices: seq<Invoice>
    var billingStatus: BillingStatus

    ghost function State(): Case
      reads this
    {
      Case(quotes, invoices, billingStatus)
    }

    constructor (quotes: seq<Quote>)
      ensures State() == NewCase(quotes)
    {
      this.quotes := quotes;
      invoices := [];
      billingStatus := ToInvoice;
    }

    method RecomputeBillingStatus(quoteTotalHt: real)
      modifies this`billingStatus
      ensures billingStatus == Recompute(old(billingStatus), invoices, quoteTotalHt)
    {
      var next := AggregateBillingStatus(invoices, quoteTotalHt);
      if next == None || next.value == billingStatus {
        return;
      }
      var mayApply := ShouldUpgrade(billingStatus, next.value)
                      || billingStatus == ToInvoice
                      || (billingStatus == InvoiceDraft && next.value == PartiallyInvoiced);
      if mayApply {
        billingStatus := next.value;
      }
    }

    method CreateInvoice(quoteId: nat, request: Request, draft: bool) returns (r: Result<Invoice, Refusal>)
      modifies this`invoices, this`billingStatus
      ensures State() == After(old(State()), Create(quoteId, request, draft))
      ensures r.Ok? <==> Step(old(State()), Create(quoteId, request, draft)).Ok?
      ensures r.Ok? ==> invoices == old(invoices) + [r.value]
    {
      r := CreatedInvoice(Case(quotes, invoices, billingStatus), quoteId, request, draft);
      if r.Ok? {
        invoices := invoices + [r.value];
        RecomputeBillingStatus(quotes[quoteId].totalHt);
      }
    }

    method SetStatus(i: nat, status: InvoiceStatus)
      requires i < |invoices|
      modifies this`invoices, this`billingStatus
      ensures invoices == old(invoices)[i := old(invoices)[i].(status := status)]
      ensures billingStatus == Recompute(old(billingStatus), invoices, QuotesTotalHt(quotes))
    {
      invoices := invoices[i := invoices[i].(status := status)];
      RecomputeBillingStatus(QuotesTotalHt(quotes));
    }

    method FinalizeInvoice(i: nat) returns (ok: bool)
      modifies this`invoices, this`billingStatus
      ensures State() == After(old(State()), Finalize(i))
      ensures ok <==> Step(old(State()), Finalize(i)).Ok?
      ensures ok <==> i < |old(invoices)| && old(invoices)[i].status == Draft
      ensures ok ==> invoices == old(invoices)[i := old(invoices)[i].(status := Finalized)]
    {
      ok := i < |invoices| && invoices[i].status == Draft;
      if ok {
        SetStatus(i, Finalized);
      }
    }

    method MarkInvoicePaid(i: nat) returns (ok: bool)
      modifies this`invoices, this`billingStatus
      ensures State() == After(old(State()), MarkPaid(i))
      ensures ok <==> Step(old(State()), MarkPaid(i)).Ok?
      ensures ok <==> i < |old(invoices)| && old(invoices)[i].status in {Finalized, Paid}
      ensures ok ==> invoices == old(invoices)[i := old(invoices)[i].(status := Paid)]
    {
      ok := i < |invoices| && (invoices[i].status == Finalized || invoices[i].status == Paid);
      if ok {
        SetStatus(i, Paid);
      }
    }

    method CancelInvoice(i: nat) returns (ok: bool)
      modifies this`invoices, this`billingStatus
      ensures State() == After(old(State()), Cancel(i))
      ensures ok <==> Step(old(State()), Cancel(i)).Ok?
      ensures ok <==> i < |old(invoices)| && old(invoices)[i].status == Draft
      ensures ok ==> invoices == old(invoices)[i := old(invoices)[i].(status := Cancelled)]
    {
      ok := i < |invoices| && invoices[i].status == Draft;
      if ok {
        SetStatus(i, Cancelled);
      }
    }

    method CreditInvoice(i: nat, amountHt: Option<real>) returns (ok: bool)
      modifies this`invoices, this`billingStatus
      ensures State() == After(old(State()), Credit(i, amountHt))
      ensures ok <==> Step(old(State()), Credit(i, amountHt)).Ok?
    {
      ok := i < |invoices| && (invoices[i].status == Finalized || invoices[i].status == Paid);
      if ok {
        var creditNote := CreditNoteFor(invoices[i], amountHt);
        ok := creditNote.Ok?;
        if ok {
          invoices := invoices + [creditNote.value];
          RecomputeBillingStatus(QuotesTotalHt(quotes));
        }
      }
    }
  }
}
