// What holds of the billing of a case over whole runs of events: nothing is invoiced, net of credit notes, beyond
// a quote, a closed quote stays closed, situation numbers are distinct.
module CaseBillingSafety {
  import opened Wrappers
  import opened Money
  import opened Invoicing
  import opened InvoiceLines
  import opened CaseBilling

  // ---------------------------------------------------------------------------------------------------
  // No over-invoicing
  // ---------------------------------------------------------------------------------------------------

  function Engaged(c: Case, quoteId: nat): int {
    TotalCents(c.invoices, OnQuote(quoteId))
  }

  /** What the users of a case rely on. The invoiced total of a quote is net of its credit notes. */
  ghost predicate Sound(c: Case) {
    && (forall q: nat :: q < |c.quotes| ==> QuoteInvoicedHt(c.invoices, q) <= c.quotes[q].totalHt)
    && (forall invoice <- c.invoices :: !invoice.kind.CreditNote? ==> invoice.amountHt >= 1)
  }

  ghost predicate SafeCase(c: Case) {
    forall q: nat :: q < |c.quotes| ==> SafeQuote(c.quotes[q])
  }

  ghost predicate GoodInvoice(invoice: Invoice, quotes: seq<Quote>) {
    && invoice.quoteId < |quotes|
    && (if invoice.kind.CreditNote? then Issued.Has(invoice) && invoice.amountHt <= -1 else invoice.amountHt >= 1)
  }

  /** The inductive invariant behind Sound. */
  ghost predicate WithinCaps(c: Case) {
    && (forall invoice <- c.invoices :: GoodInvoice(invoice, c.quotes))
    && (forall q: nat :: q < |c.quotes| ==> Engaged(c, q) <= Cap(c.quotes[q]))
  }

  lemma CreditNoteIsNegative(original: Invoice, amountHt: Option<real>)
    requires CreditNoteFor(original, amountHt).Ok?
    ensures var note := CreditNoteFor(original, amountHt).value;
            && note.amountHt <= -1 && note.kind.CreditNote? && note.status.Finalized?
            && note.quoteId == original.quoteId
  {
    var originalHt := Round2(Abs(Euros(original.amountHt)));
    var credit := Cents(if amountHt.Some? then amountHt.value else originalHt);
    CentsOfEuros(credit);
  }

  lemma CreatedOnItsQuote(c: Case, quoteId: nat, request: Request, draft: bool)
    requires CreatedInvoice(c, quoteId, request, draft).Ok?
    ensures var invoice := CreatedInvoice(c, quoteId, request, draft).value;
            && quoteId < |c.quotes| && invoice.quoteId == quoteId && invoice.kind == request.kind
            && invoice.status == (if draft then Draft else Finalized) && !invoice.kind.CreditNote?
  {
  }

  lemma CreatedStaysWithinCap(c: Case, quoteId: nat, request: Request, draft: bool)
    requires SafeCase(c) && WithinCaps(c) && CreatedInvoice(c, quoteId, request, draft).Ok?
    ensures var invoice := CreatedInvoice(c, quoteId, request, draft).value;
            GoodInvoice(invoice, c.quotes) && invoice.quoteId == quoteId
            && Engaged(c, quoteId) + invoice.amountHt <= Cap(c.quotes[quoteId])
  {
    SelectedSumIsExact(c.invoices, OnQuote(quoteId));
    AcceptedStaysWithinCap(c.quotes[quoteId], request, Engaged(c, quoteId));
  }

  lemma StepKeepsCaps(c: Case, event: Event)
    requires SafeCase(c) && WithinCaps(c)
    ensures SafeCase(After(c, event)) && WithinCaps(After(c, event))
  {
    var next := After(c, event);
    if ApplyToInvoices(c, event).Ok? {
      assert next.quotes == c.quotes && next.invoices == ApplyToInvoices(c, event).value;
      match event
      case Create(quoteId, request, draft) =>
        CreatedStaysWithinCap(c, quoteId, request, draft);
        AppendKeepsCaps(c, next, CreatedInvoice(c, quoteId, request, draft).value);
      case Credit(i, amountHt) =>
        CreditNoteIsNegative(c.invoices[i], amountHt);
        assert GoodInvoice(c.invoices[i], c.quotes);
        AppendKeepsCaps(c, next, CreditNoteFor(c.invoices[i], amountHt).value);
      case Finalize(i) => UpdateKeepsCaps(c, next, i, Finalized);
      case MarkPaid(i) => UpdateKeepsCaps(c, next, i, Paid);
      case Cancel(i) => UpdateKeepsCaps(c, next, i, Cancelled);
    }
  }

  lemma AppendKeepsCaps(c: Case, after: Case, added: Invoice)
    requires WithinCaps(c) && GoodInvoice(added, c.quotes)
    requires after.quotes == c.quotes && after.invoices == c.invoices + [added]
    requires Engaged(c, added.quoteId) + added.amountHt <= Cap(c.quotes[added.quoteId])
    ensures WithinCaps(after)
  {
    forall q: nat | q < |c.quotes| ensures Engaged(after, q) <= Cap(c.quotes[q]) {
      TotalOfAppended(c.invoices, added, OnQuote(q));
    }
  }

  lemma UpdateKeepsCaps(c: Case, after: Case, i: nat, status: InvoiceStatus)
    requires WithinCaps(c) && i < |c.invoices| && !c.invoices[i].status.Cancelled?
    requires after.quotes == c.quotes && after.invoices == c.invoices[i := c.invoices[i].(status := status)]
    requires status.Finalized? || status.Paid? || (status.Cancelled? && c.invoices[i].status.Draft?)
    ensures WithinCaps(after)
  {
    assert GoodInvoice(c.invoices[i], c.quotes);
    forall q: nat | q < |c.quotes| ensures Engaged(after, q) <= Cap(c.quotes[q]) {
      TotalOfUpdated(c.invoices, i, after.invoices[i], OnQuote(q));
    }
  }

  lemma {:induction false} RunKeepsQuotes(c: Case, events: seq<Event>)
    ensures Run(c, events).quotes == c.quotes
    decreases |events|
  {
    if events != [] {
      RunKeepsQuotes(After(c, events[0]), events[1..]);
    }
  }

  lemma {:induction false} RunKeepsCaps(c: Case, events: seq<Event>)
    requires SafeCase(c) && WithinCaps(c)
    ensures SafeCase(Run(c, events)) && WithinCaps(Run(c, events))
    ensures Run(c, events).quotes == c.quotes
    decreases |events|
  {
    if events != [] {
      StepKeepsCaps(c, events[0]);
      RunKeepsCaps(After(c, events[0]), events[1..]);
    }
  }

  lemma CapsImplySound(c: Case)
    requires SafeCase(c) && WithinCaps(c)
    ensures Sound(c)
  {
    forall q: nat | q < |c.quotes| ensures QuoteInvoicedHt(c.invoices, q) <= c.quotes[q].totalHt {
      SelectedSumIsExact(c.invoices, OnQuote(q));
      assert SafeQuote(c.quotes[q]);
    }
    forall invoice <- c.invoices | !invoice.kind.CreditNote? ensures invoice.amountHt >= 1 {
      assert GoodInvoice(invoice, c.quotes);
    }
  }

  /** Over every run of creations of any kind, finalizations, payments, cancellations and credit notes on
      safe quotes, no quote is invoiced, net of credit notes, beyond its total, and no invoice is for less than a
      cent. */
  lemma NoOverInvoicing(quotes: seq<Quote>, events: seq<Event>)
    requires SafeCase(NewCase(quotes))
    ensures Sound(Run(NewCase(quotes), events))
  {
    RunKeepsCaps(NewCase(quotes), events);
    CapsImplySound(Run(NewCase(quotes), events));
  }

  /** A single request that breaks soundness on a quote that is not safe. */
  function OffendingRequest(quote: Quote): Request {
    if quote.totalHt <= 0.0 then Request(Deposit, None, Some(0.01))
    else if Round2(quote.totalHt) > quote.totalHt then Request(Balance, None, None)
    else Request(Full, None, None)
  }

  lemma OffendingAmount(quote: Quote)
    requires quote.lines != [] && !SafeQuote(quote)
    ensures var built := BuildInvoiceLinesFromQuote(quote, OffendingRequest(quote), 0.0);
            built.Ok? && (Euros(built.value.amountHt) > quote.totalHt || built.value.amountHt < 1)
  {
    if quote.totalHt <= 0.0 {
      SmallestDeposit(quote);
    } else if Round2(quote.totalHt) > quote.totalHt {
      BalanceTakesTheRemainder(quote, 0);
    } else {
      CentsOfEuros(Cents(LineSum(quote.lines)));
    }
  }

  lemma SmallestDeposit(quote: Quote)
    requires quote.totalHt <= 0.0
    ensures var built := BuildDeposit(quote, 0.0, Some(0.01));
            built.Ok? && built.value.amountHt == 1
  {
    CentsOfEuros(1);
  }

  /** The first invoice of a case with one quote. */
  lemma FirstInvoice(quote: Quote, request: Request, draft: bool)
    requires quote.lines != [] && !request.kind.CreditNote?
    requires BuildInvoiceLinesFromQuote(quote, request, 0.0).Ok?
    ensures var event := Create(0, request, draft);
            var created := CreatedInvoice(NewCase([quote]), 0, request, draft);
            && created.Ok? && created.value.quoteId == 0 && created.value.kind == request.kind
            && created.value.status == (if draft then Draft else Finalized)
            && created.value.amountHt == BuildInvoiceLinesFromQuote(quote, request, 0.0).value.amountHt
            && After(NewCase([quote]), event).invoices == [created.value]
            && Run(NewCase([quote]), [event]) == After(NewCase([quote]), event)
  {
    hide BuildInvoiceLinesFromQuote, Recompute;
    var c, event := NewCase([quote]), Create(0, request, draft);
    assert QuoteInvoicedHt(c.invoices, 0) == 0.0;
    assert Run(After(c, event), [event][1..]) == After(c, event);
  }

  lemma UnsafeQuoteIsOverInvoiced(quote: Quote)
    requires quote.lines != [] && !SafeQuote(quote)
    ensures !Sound(Run(NewCase([quote]), [Create(0, OffendingRequest(quote), true)]))
  {
    var request := OffendingRequest(quote);
    assert !request.kind.CreditNote?;
    hide OffendingRequest, BuildInvoiceLinesFromQuote, CreatedInvoice, Run, SafeQuote;
    OffendingAmount(quote);
    FirstInvoice(quote, request, true);
    var after := After(NewCase([quote]), Create(0, request, true));
    var invoice := after.invoices[0];
    SelectedSumIsExact(after.invoices, OnQuote(0));
    assert after.invoices == [invoice] && after.quotes == [quote];
    assert Engaged(after, 0) == invoice.amountHt;
    assert invoice in after.invoices;
  }

  /** SafeQuote is the exact condition: a quote with lines can be invoiced by any run without its net total ever
      going over the quote or an empty invoice being issued if and only if it is safe. */
  lemma SafeQuoteIsExact(quote: Quote)
    requires quote.lines != []
    ensures SafeQuote(quote) <==> forall events: seq<Event> :: Sound(Run(NewCase([quote]), events))
  {
    if SafeQuote(quote) {
      forall events: seq<Event> ensures Sound(Run(NewCase([quote]), events)) {
        NoOverInvoicing([quote], events);
      }
    } else {
      UnsafeQuoteIsOverInvoiced(quote);
    }
  }

  // ---------------------------------------------------------------------------------------------------
  // Closing a quote
  // ---------------------------------------------------------------------------------------------------

  /** A balance is accepted exactly when the case may be invoiced and a cent remains; then nothing remains. */
  lemma BalanceClosesTheQuote(c: Case, q: nat, draft: bool)
    requires q < |c.quotes| && c.quotes[q].lines != []
    ensures var balance := Create(q, Request(Balance, None, None), draft);
            && (Step(c, balance).Ok? <==>
                  && c.billingStatus.AllowsInvoiceCreation()
                  && RemainingQuoteHt(c.quotes[q].totalHt, QuoteInvoicedHt(c.invoices, q)) >= 0.01)
            && (Step(c, balance).Ok? ==>
                  && Engaged(After(c, balance), q) == Cap(c.quotes[q])
                  && RemainingQuoteHt(c.quotes[q].totalHt, QuoteInvoicedHt(After(c, balance).invoices, q)) == 0.0)
  {
    var balance := Create(q, Request(Balance, None, None), draft);
    SelectedSumIsExact(c.invoices, OnQuote(q));
    BalanceTakesTheRemainder(c.quotes[q], Engaged(c, q));
    RemainingIsExact(c.quotes[q].totalHt, Engaged(c, q));
    if Step(c, balance).Ok? {
      TotalOfAppended(c.invoices, CreatedInvoice(c, q, balance.request, draft).value, OnQuote(q));
      SelectedSumIsExact(After(c, balance).invoices, OnQuote(q));
    }
  }

  lemma ClosedRefusesCreation(c: Case, q: nat, request: Request, draft: bool)
    requires q < |c.quotes| ==> 1 <= Cap(c.quotes[q]) <= Engaged(c, q)
    ensures Step(c, Create(q, request, draft)).Err?
  {
    SelectedSumIsExact(c.invoices, OnQuote(q));
    if q < |c.quotes| && !request.kind.CreditNote? {
      ClosedQuoteRefusesEverything(c.quotes[q], request, Engaged(c, q));
    }
  }

  /** Once a quote is closed, every kind of invoice on it is refused, through any run that cancels and
      credits nothing. */
  lemma {:induction false} ClosedStaysClosed(c: Case, events: seq<Event>, q: nat, request: Request, draft: bool)
    requires q < |c.quotes| && 1 <= Cap(c.quotes[q]) <= Engaged(c, q) && OnlyForward(events)
    ensures Engaged(Run(c, events), q) == Engaged(c, q)
    ensures Step(Run(c, events), Create(q, request, draft)).Err?
    decreases |events|
  {
    if events == [] {
      ClosedRefusesCreation(c, q, request, draft);
    } else {
      var event, next := events[0], After(c, events[0]);
      if event.Create? && event.quoteId == q {
        ClosedRefusesCreation(c, q, event.request, event.draft);
      } else if ApplyToInvoices(c, event).Ok? {
        assert !Undoes(event);
        assert next.invoices == ApplyToInvoices(c, event).value;
        match event
        case Create(other, r, d) =>
          TotalOfAppended(c.invoices, CreatedInvoice(c, other, r, d).value, OnQuote(q));
        case Finalize(i) => TotalOfUpdated(c.invoices, i, next.invoices[i], OnQuote(q));
        case MarkPaid(i) => TotalOfUpdated(c.invoices, i, next.invoices[i], OnQuote(q));
      }
      ClosedStaysClosed(next, events[1..], q, request, draft);
    }
  }

  /** Cancelling a draft undoes its creation: every quote is engaged as it was before. */
  lemma CancelUndoesCreation(c: Case, quoteId: nat, request: Request, q: nat)
    requires Step(c, Create(quoteId, request, true)).Ok?
    ensures var created := After(c, Create(quoteId, request, true));
            && Step(created, Cancel(|c.invoices|)).Ok?
            && QuoteInvoicedHt(After(created, Cancel(|c.invoices|)).invoices, q) == QuoteInvoicedHt(c.invoices, q)
  {
    var created := After(c, Create(quoteId, request, true));
    var invoice := CreatedInvoice(c, quoteId, request, true).value;
    var cancelled := After(created, Cancel(|c.invoices|));
    assert created.invoices == c.invoices + [invoice];
    assert cancelled.invoices == created.invoices[|c.invoices| := invoice.(status := Cancelled)];
    TotalOfAppended(c.invoices, invoice, OnQuote(q));
    TotalOfUpdated(created.invoices, |c.invoices|, invoice.(status := Cancelled), OnQuote(q));
    SelectedSumIsExact(c.invoices, OnQuote(q));
    SelectedSumIsExact(cancelled.invoices, OnQuote(q));
  }

  // ---------------------------------------------------------------------------------------------------
  // Situation numbers
  // ---------------------------------------------------------------------------------------------------

  predicate ActiveSituation(invoice: Invoice, quoteId: nat) {
    invoice.kind.Situation? && OnQuote(quoteId).Has(invoice)
  }

  ghost predicate NumbersSound(invoices: seq<Invoice>) {
    && (forall i :: 0 <= i < |invoices| && invoices[i].kind.Situation? ==>
          invoices[i].situationNumber.Some? && invoices[i].situationNumber.value >= 1)
    && (forall i, j :: 0 <= i < j < |invoices| && ActiveSituation(invoices[i], invoices[j].quoteId)
                       && ActiveSituation(invoices[j], invoices[j].quoteId) ==>
          invoices[i].situationNumber != invoices[j].situationNumber)
  }

  /** The next number is above every active one, whatever was cancelled. */
  lemma {:induction false} NextNumberIsFresh(invoices: seq<Invoice>, quoteId: nat)
    requires NumbersSound(invoices)
    ensures NextSituationNumber(invoices, quoteId) >= 1
    ensures forall i :: 0 <= i < |invoices| && ActiveSituation(invoices[i], quoteId) ==>
              invoices[i].situationNumber.value < NextSituationNumber(invoices, quoteId)
  {
    if invoices != [] {
      var front := invoices[..|invoices| - 1];
      assert forall i :: 0 <= i < |front| ==> front[i] == invoices[i];
      NextNumberIsFresh(front, quoteId);
    }
  }

  lemma AppendKeepsNumbers(invoices: seq<Invoice>, added: Invoice)
    requires NumbersSound(invoices)
    requires added.kind.Situation? ==> added.situationNumber == Some(NextSituationNumber(invoices, added.quoteId))
    ensures NumbersSound(invoices + [added])
  {
    NextNumberIsFresh(invoices, added.quoteId);
  }

  lemma StepKeepsNumbers(c: Case, event: Event)
    requires NumbersSound(c.invoices)
    ensures NumbersSound(After(c, event).invoices)
  {
    hide NumbersSound;
    if ApplyToInvoices(c, event).Ok? {
      var next := ApplyToInvoices(c, event).value;
      match event
      case Create(quoteId, request, draft) =>
        AppendKeepsNumbers(c.invoices, CreatedInvoice(c, quoteId, request, draft).value);
      case Credit(i, amountHt) => AppendKeepsNumbers(c.invoices, CreditNoteFor(c.invoices[i], amountHt).value);
      case Finalize(i) => UpdateKeepsNumbers(c.invoices, i, Finalized);
      case MarkPaid(i) => UpdateKeepsNumbers(c.invoices, i, Paid);
      case Cancel(i) => UpdateKeepsNumbers(c.invoices, i, Cancelled);
    }
  }

  lemma UpdateKeepsNumbers(invoices: seq<Invoice>, i: nat, status: InvoiceStatus)
    requires NumbersSound(invoices) && i < |invoices| && !invoices[i].status.Cancelled?
    ensures NumbersSound(invoices[i := invoices[i].(status := status)])
  {
  }

  /** Over every run, the active situations of a quote carry positive, pairwise distinct numbers. */
  lemma {:induction false} SituationNumbersAreDistinct(c: Case, events: seq<Event>)
    requires NumbersSound(c.invoices)
    ensures NumbersSound(Run(c, events).invoices)
    decreases |events|
  {
    if events != [] {
      StepKeepsNumbers(c, events[0]);
      SituationNumbersAreDistinct(After(c, events[0]), events[1..]);
    }
  }
}
