// When the rank of the aggregated CRM status goes down without a cancellation or a credit. CaseStatusSafety rules it
// out on safe quotes; here are the exact guard on any case, and a run on quotes of the application that meets it.
module CaseRankSafety {
  import opened Wrappers
  import opened Money
  import opened Invoicing
  import opened InvoiceLines
  import opened CaseBilling
  import opened CaseBillingSafety
  import opened CaseStatusSafety

  // ---------------------------------------------------------------------------------------------------
  // The status of any list of invoices
  // ---------------------------------------------------------------------------------------------------

  predicate AnyIssued(invoices: seq<Invoice>) {
    AnyStatus(invoices, Finalized) || AnyStatus(invoices, Paid)
  }

  /** Whether a cent of the base is still to be issued, as the aggregation decides it. */
  predicate HasRemaining(invoices: seq<Invoice>, quoteTotalHt: real) {
    quoteTotalHt > 0.009 && Open(invoices, quoteTotalHt)
  }

  /** The status in closed form, whatever was invoiced. */
  lemma FullStatusTable(invoices: seq<Invoice>, quoteTotalHt: real)
    ensures AggregateBillingStatus(invoices, quoteTotalHt)
         == if AnyIssued(invoices) && HasRemaining(invoices, quoteTotalHt) then Some(PartiallyInvoiced)
            else if AnyStatus(invoices, Draft) then Some(InvoiceDraft)
            else if AnyStatus(invoices, Finalized) then Some(Invoiced)
            else if AnyStatus(invoices, Paid) then Some(PaidInFull)
            else None
  {
    var issued := TotalCents(invoices, Issued);
    SelectedSumIsExact(invoices, Issued);
    CentsShift(quoteTotalHt, issued);
    var invoicedHt := SumInvoiceAmountsHt(Select(invoices, Issued));
    assert Round2(quoteTotalHt - invoicedHt) == Euros(Cents(quoteTotalHt) - issued);
    assert Max(0.0, Round2(quoteTotalHt - invoicedHt)) > 0.009 <==> Open(invoices, quoteTotalHt);
  }

  /** A partially invoiced case whose remainder vanishes while a draft is left, or a case all issued that gets
      something to issue again, or a case all paid that gets an unpaid invoice. */
  predicate RankFalls(before: seq<Invoice>, after: seq<Invoice>, quoteTotalHt: real) {
    && AnyIssued(before)
    && if HasRemaining(before, quoteTotalHt) then
         !HasRemaining(after, quoteTotalHt) && AnyStatus(after, Draft)
       else
         && !AnyStatus(before, Draft)
         && (|| HasRemaining(after, quoteTotalHt) || AnyStatus(after, Draft)
             || (!AnyStatus(before, Finalized) && AnyStatus(after, Finalized)))
  }

  lemma RankFallsExactly(before: seq<Invoice>, after: seq<Invoice>, quoteTotalHt: real)
    requires AnyIssued(before) ==> AnyIssued(after)
    requires AnyStatus(before, Draft) ==> AnyStatus(after, Draft) || AnyIssued(after)
    ensures RankOf(AggregateBillingStatus(after, quoteTotalHt)) < RankOf(AggregateBillingStatus(before, quoteTotalHt))
            <==> RankFalls(before, after, quoteTotalHt)
  {
    FullStatusTable(before, quoteTotalHt);
    FullStatusTable(after, quoteTotalHt);
    hide AggregateBillingStatus, AnyStatus, HasRemaining;
  }

  // ---------------------------------------------------------------------------------------------------
  // One event
  // ---------------------------------------------------------------------------------------------------

  /** Finalizing a draft lowers the rank exactly when some invoice is issued already, the draft covers all that
      remains to be issued, and another draft is left. */
  lemma FinalizeLowersRankExactly(invoices: seq<Invoice>, i: nat, quoteTotalHt: real)
    requires i < |invoices| && invoices[i].status.Draft?
    ensures var next := invoices[i := invoices[i].(status := Finalized)];
            RankOf(AggregateBillingStatus(next, quoteTotalHt)) < RankOf(AggregateBillingStatus(invoices, quoteTotalHt))
            <==>
              && AnyIssued(invoices) && AnyStatus(next, Draft) && quoteTotalHt > 0.009
              && TotalCents(invoices, Issued) < Cents(quoteTotalHt)
              && Cents(quoteTotalHt) <= TotalCents(invoices, Issued) + invoices[i].amountHt
  {
    var next := invoices[i := invoices[i].(status := Finalized)];
    StatusesAfterUpdate(invoices, i, Finalized);
    TotalOfUpdated(invoices, i, next[i], Issued);
    RankFallsExactly(invoices, next, quoteTotalHt);
    hide AggregateBillingStatus, AnyStatus, TotalCents, Cents;
  }

  lemma StatusesAfterAppend(invoices: seq<Invoice>, added: Invoice)
    ensures forall s :: AnyStatus(invoices + [added], s) <==> AnyStatus(invoices, s) || added.status == s
  {
    assert added in invoices + [added];
    forall s ensures AnyStatus(invoices + [added], s) <==> AnyStatus(invoices, s) || added.status == s {
      assert forall invoice <- invoices :: invoice in invoices + [added];
    }
  }

  /** An invoice issued at creation, of a cent or more, lowers the rank exactly when it covers all that remains to be
      issued beside issued invoices while a draft is left, or when all was issued and paid before. */
  lemma IssuingLowersRankExactly(invoices: seq<Invoice>, added: Invoice, quoteTotalHt: real)
    requires added.status.Finalized? && added.amountHt >= 1
    ensures RankOf(AggregateBillingStatus(invoices + [added], quoteTotalHt))
            < RankOf(AggregateBillingStatus(invoices, quoteTotalHt))
            <==>
              && AnyIssued(invoices)
              && if HasRemaining(invoices, quoteTotalHt) then
                   && AnyStatus(invoices, Draft)
                   && Cents(quoteTotalHt) <= TotalCents(invoices, Issued) + added.amountHt
                 else !AnyStatus(invoices, Draft) && !AnyStatus(invoices, Finalized)
  {
    StatusesAfterAppend(invoices, added);
    TotalOfAppended(invoices, added, Issued);
    RankFallsExactly(invoices, invoices + [added], quoteTotalHt);
    hide AggregateBillingStatus, AnyStatus, TotalCents, Cents;
  }

  /** A draft lowers the rank exactly when all was issued before and nothing remained. */
  lemma DraftingLowersRankExactly(invoices: seq<Invoice>, added: Invoice, quoteTotalHt: real)
    requires added.status.Draft?
    ensures RankOf(AggregateBillingStatus(invoices + [added], quoteTotalHt))
            < RankOf(AggregateBillingStatus(invoices, quoteTotalHt))
            <==> AnyIssued(invoices) && !AnyStatus(invoices, Draft) && !HasRemaining(invoices, quoteTotalHt)
  {
    StatusesAfterAppend(invoices, added);
    TotalOfAppended(invoices, added, Issued);
    RankFallsExactly(invoices, invoices + [added], quoteTotalHt);
    hide AggregateBillingStatus, AnyStatus, TotalCents, Cents;
  }

  lemma PayingNeverLowersRank(invoices: seq<Invoice>, i: nat, quoteTotalHt: real)
    requires i < |invoices| && Issued.Has(invoices[i])
    ensures var next := invoices[i := invoices[i].(status := Paid)];
            RankOf(AggregateBillingStatus(next, quoteTotalHt)) >= RankOf(AggregateBillingStatus(invoices, quoteTotalHt))
  {
    var next := invoices[i := invoices[i].(status := Paid)];
    StatusesAfterUpdate(invoices, i, Paid);
    TotalOfUpdated(invoices, i, next[i], Issued);
    RankFallsExactly(invoices, next, quoteTotalHt);
    hide AggregateBillingStatus, AnyStatus, TotalCents, Cents;
  }

  // ---------------------------------------------------------------------------------------------------
  // Whole runs
  // ---------------------------------------------------------------------------------------------------

  /** What a caller can check before an event that is neither a cancellation nor a credit. */
  predicate LowersRank(c: Case, event: Event) {
    var total := QuotesTotalHt(c.quotes);
    var issued := TotalCents(c.invoices, Issued);
    ApplyToInvoices(c, event).Ok? && AnyIssued(c.invoices) &&
    match event
    case Create(quoteId, request, draft) =>
      var amount := CreatedInvoice(c, quoteId, request, draft).value.amountHt;
      if HasRemaining(c.invoices, total) then
        !draft && AnyStatus(c.invoices, Draft) && issued + amount >= Cents(total)
      else
        && !AnyStatus(c.invoices, Draft)
        && (draft || (total > 0.009 && issued + amount < Cents(total)) || !AnyStatus(c.invoices, Finalized))
    case Finalize(i) =>
      && HasRemaining(c.invoices, total) && issued + c.invoices[i].amountHt >= Cents(total)
      && AnyStatus(c.invoices[i := c.invoices[i].(status := Finalized)], Draft)
    case _ => false
  }

  lemma EventLowersRankExactly(c: Case, event: Event)
    requires !Undoes(event)
    ensures RankOf(Aggregated(After(c, event))) < RankOf(Aggregated(c)) <==> LowersRank(c, event)
  {
    var total := QuotesTotalHt(c.quotes);
    if ApplyToInvoices(c, event).Ok? {
      var next := ApplyToInvoices(c, event).value;
      assert Aggregated(After(c, event)) == AggregateBillingStatus(next, total);
      match event
      case Create(quoteId, request, draft) =>
        CreatedOnItsQuote(c, quoteId, request, draft);
        var added := CreatedInvoice(c, quoteId, request, draft).value;
        StatusesAfterAppend(c.invoices, added);
        TotalOfAppended(c.invoices, added, Issued);
        hide CreatedInvoice, AggregateBillingStatus, AnyStatus, TotalCents, Cents, After;
        RankFallsExactly(c.invoices, next, total);
      case Finalize(i) =>
        hide AggregateBillingStatus, AnyStatus, TotalCents, Cents, After;
        FinalizeLowersRankExactly(c.invoices, i, total);
      case MarkPaid(i) =>
        hide AggregateBillingStatus, AnyStatus, TotalCents, Cents, After;
        PayingNeverLowersRank(c.invoices, i, total);
    }
  }

  lemma {:induction false} RunPrefix(c: Case, events: seq<Event>, k: nat)
    requires k < |events|
    ensures Run(c, events[..k + 1]) == After(Run(c, events[..k]), events[k])
    decreases k
  {
    if k == 0 {
      assert events[..1][1..] == [] && Run(After(c, events[0]), []) == After(c, events[0]);
    } else {
      assert events[..k + 1][1..] == events[1..][..k] && events[..k][1..] == events[1..][..k - 1];
      RunPrefix(After(c, events[0]), events[1..], k - 1);
    }
  }

  predicate FallsAt(c: Case, events: seq<Event>, k: nat)
    requires k < |events|
  {
    RankOf(Aggregated(Run(c, events[..k + 1]))) < RankOf(Aggregated(Run(c, events[..k])))
  }

  predicate GuardMetAt(c: Case, events: seq<Event>, k: nat)
    requires k < |events|
  {
    LowersRank(Run(c, events[..k]), events[k])
  }

  /** From any case, the rank never goes down over a run that cancels and credits nothing exactly when no event of the
      run meets the guard. */
  lemma RankNeverFallsExactly(c: Case, events: seq<Event>)
    requires OnlyForward(events)
    ensures (forall k | 0 <= k < |events| :: !FallsAt(c, events, k))
            <==> forall k | 0 <= k < |events| :: !GuardMetAt(c, events, k)
  {
    hide Run, LowersRank, Aggregated, After;
    forall k | 0 <= k < |events| ensures FallsAt(c, events, k) <==> GuardMetAt(c, events, k) {
      RunPrefix(c, events, k);
      assert events[k] in events;
      EventLowersRankExactly(Run(c, events[..k]), events[k]);
    }
  }

  // ---------------------------------------------------------------------------------------------------
  // A run on quotes of the application
  // ---------------------------------------------------------------------------------------------------

  /** A quote of 9.99, whose full invoice is 10.00, and one of 20.00. */
  function TwoQuotes(): seq<Quote> {
    var line := StoredLine(0.333, 10.01, Tva20);
    [MappedQuote([line, line, line]), MappedQuote([StoredLine(1.0, 20.0, Tva20)])]
  }

  /** A deposit of 19.99 is issued on the second quote, the last cent of it is drafted, a full invoice on the first is
      drafted, and finalized. */
  const FALLING_RUN := [
    Create(1, Request(Deposit, None, Some(19.99)), false),
    Create(1, Request(Deposit, None, Some(0.01)), true),
    Create(0, Request(Full, None, None), true),
    Finalize(2)
  ]

  ghost predicate OnTwoQuotes(c: Case, n: nat, engaged0: int, engaged1: int) {
    && c.quotes == TwoQuotes() && |c.invoices| == n
    && Engaged(c, 0) == engaged0 && Engaged(c, 1) == engaged1
  }

  lemma TwoQuotesTotals()
    ensures TwoQuotes()[0].totalHt == 9.99 && TwoQuotes()[1].totalHt == 20.0
    ensures Cap(TwoQuotes()[1]) == 2000 && Cents(9.99) == 999 && Cents(29.99) == 2999
    ensures TwoQuotes()[0].lines != [] && TwoQuotes()[1].lines != []
    ensures BuildFull(TwoQuotes()[0], 0.0).Ok? && BuildFull(TwoQuotes()[0], 0.0).value.amountHt == 1000
    ensures QuotesTotalHt(TwoQuotes()) == 29.99
    ensures !SafeQuote(TwoQuotes()[0])
  {
    MappedQuoteCanBeUnsafe();
    var line := StoredLine(1.0, 20.0, Tva20);
    assert Times(1.0, 20.0) == 20.0 && RoundedTotal([line]) == 20.0;
    hide BuildFull, RoundedTotal, Billed, LineSum, SafeQuote;
    var quotes := TwoQuotes();
    assert quotes[..1] == [quotes[0]] && quotes[..1][..0] == [];
    assert QuotesTotalHt(quotes[..1]) == 9.99;
  }

  /** A creation on the two quotes, with what it adds up to. */
  lemma Created(c: Case, n: nat, e0: int, e1: int, q: nat, request: Request, draft: bool)
    requires OnTwoQuotes(c, n, e0, e1) && q < 2 && CreatedInvoice(c, q, request, draft).Ok?
    ensures var added := CreatedInvoice(c, q, request, draft).value;
            var next := After(c, Create(q, request, draft));
            && Step(c, Create(q, request, draft)).Ok?
            && next.quotes == c.quotes && next.invoices == c.invoices + [added]
            && added.status == (if draft then Draft else Finalized)
            && TotalCents(next.invoices, Issued)
               == TotalCents(c.invoices, Issued) + (if draft then 0 else added.amountHt)
            && (forall s :: AnyStatus(next.invoices, s) <==> AnyStatus(c.invoices, s) || added.status == s)
            && next.billingStatus == Recompute(c.billingStatus, next.invoices, TwoQuotes()[q].totalHt)
            && if q == 0 then OnTwoQuotes(next, n + 1, e0 + added.amountHt, e1)
               else OnTwoQuotes(next, n + 1, e0, e1 + added.amountHt)
  {
    CreatedOnItsQuote(c, q, request, draft);
    var added := CreatedInvoice(c, q, request, draft).value;
    assert StatusBase(c, Create(q, request, draft)) == TwoQuotes()[q].totalHt;
    hide CreatedInvoice, Recompute, AnyStatus, TwoQuotes, StatusBase, TotalCents;
    TotalOfAppended(c.invoices, added, Issued);
    TotalOfAppended(c.invoices, added, OnQuote(0));
    TotalOfAppended(c.invoices, added, OnQuote(1));
    StatusesAfterAppend(c.invoices, added);
  }

  lemma DepositAccepted(c: Case, n: nat, e0: int, e1: int, amountHt: real, draft: bool)
    requires OnTwoQuotes(c, n, e0, e1) && c.billingStatus.AllowsInvoiceCreation()
    requires 1 <= Cents(amountHt) && e1 + Cents(amountHt) <= 2000
    ensures var created := CreatedInvoice(c, 1, Request(Deposit, None, Some(amountHt)), draft);
            created.Ok? && created.value.amountHt == Cents(amountHt)
  {
    TwoQuotesTotals();
    SelectedSumIsExact(c.invoices, OnQuote(1));
    assert QuoteInvoicedHt(c.invoices, 1) == Euros(e1);
    AmountRequestsAreExact(c.quotes[1], Request(Deposit, None, Some(amountHt)), e1);
    hide BuildInvoiceLinesFromQuote, QuoteInvoicedHt, TwoQuotes;
  }

  lemma FullAccepted(c: Case, n: nat, e1: int)
    requires OnTwoQuotes(c, n, 0, e1) && c.billingStatus.AllowsInvoiceCreation()
    ensures var created := CreatedInvoice(c, 0, Request(Full, None, None), true);
            created.Ok? && created.value.amountHt == 1000
  {
    TwoQuotesTotals();
    SelectedSumIsExact(c.invoices, OnQuote(0));
    assert QuoteInvoicedHt(c.invoices, 0) == 0.0;
    hide BuildFull, QuoteInvoicedHt, TwoQuotes;
  }

  /** Beside an issued invoice and a draft, a partially invoiced case keeps its stored status. */
  lemma DraftKeepsPartial(invoices: seq<Invoice>, quoteTotalHt: real)
    requires AnyStatus(invoices, Draft) && AnyStatus(invoices, Finalized)
    ensures Recompute(PartiallyInvoiced, invoices, quoteTotalHt) == PartiallyInvoiced
  {
    hide AnyStatus, SumInvoiceAmountsHt, Round2, Max;
  }

  /** After the two deposits. */
  ghost predicate Deposited(c: Case) {
    && OnTwoQuotes(c, 2, 0, 2000) && c.billingStatus == PartiallyInvoiced && c.invoices[1].status == Draft
    && TotalCents(c.invoices, Issued) == 1999 && AnyStatus(c.invoices, Finalized)
  }

  lemma AfterTwo() returns (c1: Case, c2: Case)
    ensures c1 == After(NewCase(TwoQuotes()), FALLING_RUN[0]) && Step(NewCase(TwoQuotes()), FALLING_RUN[0]).Ok?
    ensures c2 == After(c1, FALLING_RUN[1]) && Step(c1, FALLING_RUN[1]).Ok?
    ensures Deposited(c2)
  {
    var c0 := NewCase(TwoQuotes());
    TwoQuotesTotals();
    assert OnTwoQuotes(c0, 0, 0, 0);
    assert TotalCents(c0.invoices, Issued) == 0;
    assert Cents(19.99) == 1999 && Cents(0.01) == 1;
    hide TwoQuotes, CreatedInvoice, OnTwoQuotes, Recompute, Cents, After, Step, AnyStatus, TotalCents;
    DepositAccepted(c0, 0, 0, 0, 19.99, false);
    Created(c0, 0, 0, 0, 1, FALLING_RUN[0].request, false);
    c1 := After(c0, FALLING_RUN[0]);
    FirstIsPartial(c1);
    DepositAccepted(c1, 1, 0, 1999, 0.01, true);
    Created(c1, 1, 0, 1999, 1, FALLING_RUN[1].request, true);
    c2 := After(c1, FALLING_RUN[1]);
    DraftKeepsPartial(c2.invoices, 20.0);
  }

  lemma AfterThird(c: Case) returns (next: Case)
    requires Deposited(c)
    ensures next == After(c, FALLING_RUN[2]) && Step(c, FALLING_RUN[2]).Ok?
    ensures next.quotes == TwoQuotes() && TotalCents(next.invoices, Issued) == 1999
    ensures |next.invoices| == 3 && next.invoices[1].status == Draft && next.invoices[2].status == Draft
    ensures next.invoices[2].amountHt == 1000 && AnyStatus(next.invoices, Finalized)
  {
    assert |c.invoices| == 2 && c.quotes == TwoQuotes();
    hide TwoQuotes, CreatedInvoice, OnTwoQuotes, Recompute, Cents, After, Step, AnyStatus, TotalCents;
    FullAccepted(c, 2, 2000);
    Created(c, 2, 0, 2000, 0, FALLING_RUN[2].request, true);
    next := After(c, FALLING_RUN[2]);
  }

  lemma FirstIsPartial(c: Case)
    requires AnyStatus(c.invoices, Finalized) && TotalCents(c.invoices, Issued) == 1999
    ensures Recompute(ToInvoice, c.invoices, 20.0) == PartiallyInvoiced
  {
    FullStatusTable(c.invoices, 20.0);
    assert Cents(20.0) == 2000;
  }

  lemma LastFinalized(c: Case)
    requires c.quotes == TwoQuotes() && TotalCents(c.invoices, Issued) == 1999 && AnyStatus(c.invoices, Finalized)
    requires |c.invoices| == 3 && c.invoices[1].status == Draft && c.invoices[2].status == Draft
    requires c.invoices[2].amountHt == 1000
    ensures Aggregated(c) == Some(PartiallyInvoiced)
    ensures Step(c, Finalize(2)).Ok? && Aggregated(After(c, Finalize(2))) == Some(InvoiceDraft)
  {
    TwoQuotesTotals();
    var next := c.invoices[2 := c.invoices[2].(status := Finalized)];
    assert After(c, Finalize(2)).invoices == next;
    TotalOfUpdated(c.invoices, 2, next[2], Issued);
    StatusesAfterUpdate(c.invoices, 2, Finalized);
    assert next[1] in next;
    hide AggregateBillingStatus, TwoQuotes, TotalCents, Cents;
    FullStatusTable(c.invoices, 29.99);
    FullStatusTable(next, 29.99);
  }

  /** Without safe quotes the rank does fall: on the two quotes every event of the run is accepted, and finalizing the
      full invoice sends the case from PartiallyInvoiced back to InvoiceDraft. */
  lemma UnsafeQuoteLowersRank()
    ensures OnlyForward(FALLING_RUN) && !SafeQuote(TwoQuotes()[0])
    ensures forall k | 0 <= k < |FALLING_RUN| ::
              Step(Run(NewCase(TwoQuotes()), FALLING_RUN[..k]), FALLING_RUN[k]).Ok?
    ensures Aggregated(Run(NewCase(TwoQuotes()), FALLING_RUN[..3])) == Some(PartiallyInvoiced)
    ensures Aggregated(Run(NewCase(TwoQuotes()), FALLING_RUN)) == Some(InvoiceDraft)
  {
    TwoQuotesTotals();
    hide TwoQuotes, After, Step, Aggregated, SafeQuote;
    var c0, events := NewCase(TwoQuotes()), FALLING_RUN;
    var c1, c2 := AfterTwo();
    var c3 := AfterThird(c2);
    LastFinalized(c3);
    assert Run(c0, events[..0]) == c0;
    RunPrefix(c0, events, 0);
    RunPrefix(c0, events, 1);
    RunPrefix(c0, events, 2);
    RunPrefix(c0, events, 3);
    assert events[..4] == events;
    hide Run;
  }
}
