// The CRM status of a case over whole runs: the rank of the aggregated status never goes down while nothing
// is cancelled or credited, the stored status follows it exactly on cases with a single quote, and a case once
// marked as invoiced is never invoiced again.
module CaseStatusSafety {
  import opened Wrappers
  import opened Money
  import opened Invoicing
  import opened CaseBilling
  import opened CaseBillingSafety

  function RankOf(status: Option<BillingStatus>): nat {
    if status.None? then 0 else status.value.Rank()
  }

  // ---------------------------------------------------------------------------------------------------
  // What an aggregated status says about the invoices
  // ---------------------------------------------------------------------------------------------------

  /** Amounts the status theorems rely on: nothing engaged beyond the base, and drafts of at least a cent. */
  ghost predicate Covered(invoices: seq<Invoice>, quoteTotalHt: real) {
    && quoteTotalHt >= 0.01
    && TotalCents(invoices, Active) <= Cents(quoteTotalHt)
    && forall invoice <- invoices :: invoice.status.Draft? ==> invoice.amountHt >= 1
  }

  lemma {:induction false} DraftsAreTheGap(invoices: seq<Invoice>)
    requires forall invoice <- invoices :: invoice.status.Draft? ==> invoice.amountHt >= 1
    ensures TotalCents(invoices, Issued) + (if AnyStatus(invoices, Draft) then 1 else 0)
         <= TotalCents(invoices, Active)
  {
    if invoices != [] {
      DraftsAreTheGap(invoices[1..]);
      assert invoices == [invoices[0]] + invoices[1..];
    }
  }

  /** Whether any cent of the base is still to be issued. */
  predicate Open(invoices: seq<Invoice>, quoteTotalHt: real) {
    TotalCents(invoices, Issued) < Cents(quoteTotalHt)
  }

  /** The status in closed form. The combination "a draft beside an issued invoice with nothing remaining",
      which would send the case back to InvoiceDraft, cannot occur. */
  lemma StatusTable(invoices: seq<Invoice>, quoteTotalHt: real)
    requires Covered(invoices, quoteTotalHt)
    ensures AnyStatus(invoices, Draft) ==> Open(invoices, quoteTotalHt)
    ensures var anyIssued := AnyStatus(invoices, Finalized) || AnyStatus(invoices, Paid);
            AggregateBillingStatus(invoices, quoteTotalHt)
            == if anyIssued && Open(invoices, quoteTotalHt) then Some(PartiallyInvoiced)
               else if AnyStatus(invoices, Finalized) then Some(Invoiced)
               else if AnyStatus(invoices, Paid) then Some(PaidInFull)
               else if AnyStatus(invoices, Draft) then Some(InvoiceDraft)
               else None
  {
    var issued := TotalCents(invoices, Issued);
    DraftsAreTheGap(invoices);
    SelectedSumIsExact(invoices, Issued);
    CentsShift(quoteTotalHt, issued);
    var invoicedHt := SumInvoiceAmountsHt(Select(invoices, Issued));
    assert Round2(quoteTotalHt - invoicedHt) == Euros(Cents(quoteTotalHt) - issued);
    assert Max(0.0, Round2(quoteTotalHt - invoicedHt)) > 0.009 <==> Open(invoices, quoteTotalHt);
  }

  // ---------------------------------------------------------------------------------------------------
  // One step forward
  // ---------------------------------------------------------------------------------------------------

  lemma AppendRaisesRank(invoices: seq<Invoice>, added: Invoice, quoteTotalHt: real)
    requires Covered(invoices, quoteTotalHt) && Covered(invoices + [added], quoteTotalHt)
    requires added.amountHt >= 1 && (added.status.Draft? || added.status.Finalized?)
    ensures RankOf(AggregateBillingStatus(invoices, quoteTotalHt))
         <= RankOf(AggregateBillingStatus(invoices + [added], quoteTotalHt))
  {
    StatusTable(invoices, quoteTotalHt);
    StatusTable(invoices + [added], quoteTotalHt);
    DraftsAreTheGap(invoices);
    TotalOfAppended(invoices, added, Active);
    TotalOfAppended(invoices, added, Issued);
    assert added in invoices + [added];
    assert forall status :: AnyStatus(invoices, status) ==> AnyStatus(invoices + [added], status);
  }

  lemma UpdateRaisesRank(invoices: seq<Invoice>, i: nat, status: InvoiceStatus, quoteTotalHt: real)
    requires i < |invoices|
    requires (invoices[i].status.Draft? && status.Finalized?) || (Issued.Has(invoices[i]) && status.Paid?)
    requires Covered(invoices, quoteTotalHt)
    ensures Covered(invoices[i := invoices[i].(status := status)], quoteTotalHt)
    ensures RankOf(AggregateBillingStatus(invoices, quoteTotalHt))
         <= RankOf(AggregateBillingStatus(invoices[i := invoices[i].(status := status)], quoteTotalHt))
  {
    var changed := invoices[i].(status := status);
    var next := invoices[i := changed];
    TotalOfUpdated(invoices, i, changed, Active);
    TotalOfUpdated(invoices, i, changed, Issued);
    assert Covered(next, quoteTotalHt);
    StatusTable(invoices, quoteTotalHt);
    StatusTable(next, quoteTotalHt);
    StatusesAfterUpdate(invoices, i, status);
    hide AnyStatus, AggregateBillingStatus, Covered, TotalCents;
  }

  /** The statuses present before and after one invoice changes its own. */
  lemma StatusesAfterUpdate(invoices: seq<Invoice>, i: nat, status: InvoiceStatus)
    requires i < |invoices|
    ensures var next := invoices[i := invoices[i].(status := status)];
            && AnyStatus(next, status) && AnyStatus(invoices, invoices[i].status)
            && (forall s | s != status :: AnyStatus(next, s) ==> AnyStatus(invoices, s))
            && (forall s | s != invoices[i].status :: AnyStatus(invoices, s) ==> AnyStatus(next, s))
  {
    var next := invoices[i := invoices[i].(status := status)];
    assert next[i] in next && invoices[i] in invoices;
    forall s | s != invoices[i].status && AnyStatus(invoices, s) ensures AnyStatus(next, s) {
      var invoice :| invoice in invoices && invoice.status == s;
      var j :| 0 <= j < |invoices| && invoices[j] == invoice;
      assert next[j] == invoice;
    }
  }

  // ---------------------------------------------------------------------------------------------------
  // Every reachable case is covered
  // ---------------------------------------------------------------------------------------------------

  function EngagedUpTo(invoices: seq<Invoice>, n: nat): int {
    if n == 0 then 0 else EngagedUpTo(invoices, n - 1) + TotalCents(invoices, OnQuote(n - 1))
  }

  lemma {:induction false} EngagedUpToPeel(invoices: seq<Invoice>, n: nat)
    requires invoices != []
    ensures EngagedUpTo(invoices, n)
         == EngagedUpTo(invoices[1..], n)
            + (if Active.Has(invoices[0]) && invoices[0].quoteId < n then invoices[0].amountHt else 0)
  {
    if n > 0 {
      EngagedUpToPeel(invoices, n - 1);
    }
  }

  lemma {:induction false} NothingEngagedUpTo(n: nat)
    ensures EngagedUpTo([], n) == 0
  {
    if n > 0 {
      NothingEngagedUpTo(n - 1);
    }
  }

  /** What is engaged on the case is the sum of what is engaged on its quotes. */
  lemma {:induction false} ActiveIsSumOverQuotes(invoices: seq<Invoice>, n: nat)
    requires forall invoice <- invoices :: invoice.quoteId < n
    ensures TotalCents(invoices, Active) == EngagedUpTo(invoices, n)
  {
    if invoices == [] {
      NothingEngagedUpTo(n);
    } else {
      ActiveIsSumOverQuotes(invoices[1..], n);
      EngagedUpToPeel(invoices, n);
    }
  }

  lemma {:induction false} EngagedWithinTotals(c: Case, n: nat)
    requires SafeCase(c) && WithinCaps(c) && n <= |c.quotes|
    ensures Euros(EngagedUpTo(c.invoices, n)) <= QuotesTotalHt(c.quotes[..n])
    ensures n > 0 ==> QuotesTotalHt(c.quotes[..n]) >= 0.01
    ensures n == 0 ==> QuotesTotalHt(c.quotes[..n]) == 0.0
  {
    if n > 0 {
      EngagedWithinTotals(c, n - 1);
      assert c.quotes[..n][..n - 1] == c.quotes[..n - 1];
      assert SafeQuote(c.quotes[n - 1]);
      assert Engaged(c, n - 1) <= Cap(c.quotes[n - 1]);
    }
  }

  lemma ReachableIsCovered(c: Case)
    requires SafeCase(c) && WithinCaps(c) && c.quotes != []
    ensures Covered(c.invoices, QuotesTotalHt(c.quotes))
  {
    var n, total := |c.quotes|, QuotesTotalHt(c.quotes);
    assert c.quotes[..n] == c.quotes;
    EngagedWithinTotals(c, n);
    forall invoice <- c.invoices
      ensures invoice.quoteId < n && (invoice.status.Draft? ==> invoice.amountHt >= 1)
    {
      assert GoodInvoice(invoice, c.quotes);
    }
    ActiveIsSumOverQuotes(c.invoices, n);
    var engaged := EngagedUpTo(c.invoices, n);
    Round2Monotone(Euros(engaged), total);
    CentsOfEuros(engaged);
  }

  // ---------------------------------------------------------------------------------------------------
  // Whole runs
  // ---------------------------------------------------------------------------------------------------

  function Aggregated(c: Case): Option<BillingStatus> {
    AggregateBillingStatus(c.invoices, QuotesTotalHt(c.quotes))
  }

  lemma ForwardStepRaisesRank(c: Case, event: Event)
    requires SafeCase(c) && WithinCaps(c) && !Undoes(event)
    ensures RankOf(Aggregated(c)) <= RankOf(Aggregated(After(c, event)))
  {
    var next := After(c, event);
    if ApplyToInvoices(c, event).Ok? {
      StepKeepsCaps(c, event);
      if c.quotes == [] {
        assert forall invoice <- c.invoices :: GoodInvoice(invoice, c.quotes);
      } else {
        ReachableIsCovered(c);
        ReachableIsCovered(next);
        var total := QuotesTotalHt(c.quotes);
        assert next.invoices == ApplyToInvoices(c, event).value;
        match event
        case Create(quoteId, request, draft) =>
          CreatedStaysWithinCap(c, quoteId, request, draft);
          AppendRaisesRank(c.invoices, CreatedInvoice(c, quoteId, request, draft).value, total);
        case Finalize(i) => UpdateRaisesRank(c.invoices, i, Finalized, total);
        case MarkPaid(i) => UpdateRaisesRank(c.invoices, i, Paid, total);
      }
    }
  }

  lemma {:induction false} ForwardRunRaisesRank(c: Case, events: seq<Event>)
    requires SafeCase(c) && WithinCaps(c) && OnlyForward(events)
    ensures RankOf(Aggregated(c)) <= RankOf(Aggregated(Run(c, events)))
    decreases |events|
  {
    if events != [] {
      ForwardStepRaisesRank(c, events[0]);
      StepKeepsCaps(c, events[0]);
      ForwardRunRaisesRank(After(c, events[0]), events[1..]);
    }
  }

  /** From any reachable case, even after cancellations and credit notes, the rank of the aggregated status
      never goes down over a run that cancels and credits nothing. */
  lemma RankNeverFalls(quotes: seq<Quote>, history: seq<Event>, forward: seq<Event>)
    requires SafeCase(NewCase(quotes)) && OnlyForward(forward)
    ensures var c := Run(NewCase(quotes), history);
            RankOf(Aggregated(c)) <= RankOf(Aggregated(Run(c, forward)))
  {
    RunKeepsCaps(NewCase(quotes), history);
    ForwardRunRaisesRank(Run(NewCase(quotes), history), forward);
  }

  /** In no reachable case does a draft stand beside invoices that already cover the quotes. */
  lemma NoDraftOnceCovered(quotes: seq<Quote>, history: seq<Event>)
    requires quotes != [] && SafeCase(NewCase(quotes))
    ensures var c := Run(NewCase(quotes), history);
            AnyStatus(c.invoices, Draft) ==> Open(c.invoices, QuotesTotalHt(quotes))
  {
    RunKeepsCaps(NewCase(quotes), history);
    var c := Run(NewCase(quotes), history);
    ReachableIsCovered(c);
    StatusTable(c.invoices, QuotesTotalHt(quotes));
  }

  // ---------------------------------------------------------------------------------------------------
  // The stored status
  // ---------------------------------------------------------------------------------------------------

  /** The stored status is the aggregated one, or ToInvoice before the first invoice. */
  ghost predicate StatusInStep(c: Case) {
    Aggregated(c) == if c.billingStatus.ToInvoice? then None else Some(c.billingStatus)
  }

  lemma RecomputeFollows(current: BillingStatus, invoices: seq<Invoice>, quoteTotalHt: real,
                         previous: Option<BillingStatus>)
    requires previous == if current.ToInvoice? then None else Some(current)
    requires previous.Some? ==> previous.value.Rank() >= 2
    requires RankOf(previous) <= RankOf(AggregateBillingStatus(invoices, quoteTotalHt))
    ensures var status := Recompute(current, invoices, quoteTotalHt);
            AggregateBillingStatus(invoices, quoteTotalHt) == if status.ToInvoice? then None else Some(status)
  {
  }

  lemma ForwardStepKeepsStatusInStep(c: Case, event: Event)
    requires SafeCase(c) && WithinCaps(c) && !Undoes(event)
    requires |c.quotes| == 1 && StatusInStep(c)
    ensures StatusInStep(After(c, event))
  {
    hide Recompute, ApplyToInvoices, WithinCaps, SafeCase;
    ForwardStepRaisesRank(c, event);
    if ApplyToInvoices(c, event).Ok? {
      var invoices := ApplyToInvoices(c, event).value;
      assert c.quotes[..0] == [];
      assert StatusBase(c, event) == QuotesTotalHt(c.quotes);
      RecomputeFollows(c.billingStatus, invoices, QuotesTotalHt(c.quotes), Aggregated(c));
    }
  }

  lemma {:induction false} ForwardRunKeepsStatusInStep(c: Case, events: seq<Event>)
    requires SafeCase(c) && WithinCaps(c) && OnlyForward(events)
    requires |c.quotes| == 1 && StatusInStep(c)
    ensures StatusInStep(Run(c, events))
    decreases |events|
  {
    if events != [] {
      StepKeepsCaps(c, events[0]);
      ForwardStepKeepsStatusInStep(c, events[0]);
      ForwardRunKeepsStatusInStep(After(c, events[0]), events[1..]);
    }
  }

  /** On a case with one quote the upgrade-only guard never holds anything back: through every run that
      cancels and credits nothing, the stored status is the one its invoices aggregate to. */
  lemma StoredStatusIsAggregated(quote: Quote, events: seq<Event>)
    requires SafeQuote(quote) && OnlyForward(events)
    ensures StatusInStep(Run(NewCase([quote]), events))
  {
    ForwardRunKeepsStatusInStep(NewCase([quote]), events);
  }

  // ---------------------------------------------------------------------------------------------------
  // Several quotes
  // ---------------------------------------------------------------------------------------------------

  lemma {:induction false} TotalExceedsPart(quotes: seq<Quote>, i: nat)
    requires i < |quotes| && forall quote <- quotes :: SafeQuote(quote)
    ensures QuotesTotalHt(quotes) >= quotes[i].totalHt + (if |quotes| >= 2 then 0.01 else 0.0)
  {
    var front, last := quotes[..|quotes| - 1], quotes[|quotes| - 1];
    assert SafeQuote(last) && last.totalHt >= 0.01;
    if i < |front| {
      TotalExceedsPart(front, i);
    } else if front != [] {
      TotalExceedsPart(front, 0);
      assert SafeQuote(front[0]);
    }
  }

  /** A first invoice, issued at once, for the whole of quote `i`. */
  predicate TakesWholeQuote(quotes: seq<Quote>, i: nat, request: Request) {
    && i < |quotes|
    && var created := CreatedInvoice(NewCase(quotes), i, request, false);
       created.Ok? && created.value.amountHt == Cap(quotes[i])
  }

  lemma SingleTotal(invoice: Invoice, selection: Selection)
    ensures TotalCents([invoice], selection) == if selection.Has(invoice) then invoice.amountHt else 0
  {
    assert [invoice] == [] + [invoice];
    TotalOfAppended([], invoice, selection);
  }

  /** The status of a case with a single invoice, which is issued and covers just `quoteTotalHt`, or less. */
  lemma SingleInvoiceStatus(invoice: Invoice, quoteTotalHt: real)
    requires invoice.status.Finalized? && 0.01 <= quoteTotalHt && invoice.amountHt <= Cents(quoteTotalHt)
    ensures AggregateBillingStatus([invoice], quoteTotalHt)
         == Some(if invoice.amountHt < Cents(quoteTotalHt) then PartiallyInvoiced else Invoiced)
  {
    SingleTotal(invoice, Active);
    SingleTotal(invoice, Issued);
    assert Covered([invoice], quoteTotalHt);
    assert invoice in [invoice];
    StatusTable([invoice], quoteTotalHt);
    hide AggregateBillingStatus, Cents, TotalCents;
  }

  lemma SafeQuotesTotal(quotes: seq<Quote>, i: nat)
    requires SafeCase(NewCase(quotes)) && i < |quotes|
    ensures quotes[i].totalHt >= 0.01 && QuotesTotalHt(quotes) >= 0.01
    ensures Cents(QuotesTotalHt(quotes)) >= Cap(quotes[i]) + (if |quotes| >= 2 then 1 else 0)
    ensures |quotes| == 1 ==> QuotesTotalHt(quotes) == quotes[i].totalHt
  {
    forall quote <- quotes ensures SafeQuote(quote) {
      var k :| 0 <= k < |quotes| && quotes[k] == quote;
      assert SafeQuote(NewCase(quotes).quotes[k]);
    }
    assert SafeQuote(quotes[i]);
    TotalExceedsPart(quotes, i);
    CentsShift(quotes[i].totalHt, 1);
    Round2Monotone(quotes[i].totalHt + (if |quotes| >= 2 then 0.01 else 0.0), QuotesTotalHt(quotes));
    if |quotes| == 1 {
      assert quotes[..0] == [];
    }
  }

  lemma WholeQuoteIsInvoiced(quotes: seq<Quote>, i: nat, request: Request)
    requires SafeCase(NewCase(quotes)) && TakesWholeQuote(quotes, i, request)
    ensures var invoice := CreatedInvoice(NewCase(quotes), i, request, false).value;
            var c := After(NewCase(quotes), Create(i, request, false));
            && c == Case(quotes, [invoice], Invoiced)
            && Aggregated(c) == Some(if |quotes| >= 2 then PartiallyInvoiced else Invoiced)
            && TotalCents([invoice], OnQuote(i)) == Cap(quotes[i])
            && forall j: nat | j != i :: TotalCents([invoice], OnQuote(j)) == 0
  {
    var invoice := CreatedInvoice(NewCase(quotes), i, request, false).value;
    CreatedOnItsQuote(NewCase(quotes), i, request, false);
    SafeQuotesTotal(quotes, i);
    hide CreatedInvoice, Cents, SafeCase;
    SingleInvoiceStatus(invoice, quotes[i].totalHt);
    SingleInvoiceStatus(invoice, QuotesTotalHt(quotes));
    hide AggregateBillingStatus, QuotesTotalHt;
    assert [] + [invoice] == [invoice];
    forall j: nat ensures TotalCents([invoice], OnQuote(j)) == if j == i then Cap(quotes[i]) else 0 {
      SingleTotal(invoice, OnQuote(j));
    }
  }

  /** Creating an invoice recomputes the status against its own quote only. So an issued invoice for the whole of one
      quote, whichever, marks the case as invoiced and bars every request on every quote, of which, except for the
      one, nothing has been engaged. */
  lemma SecondQuoteIsBarred(quotes: seq<Quote>, i: nat, first: Request, j: nat, request: Request, draft: bool)
    requires SafeCase(NewCase(quotes)) && TakesWholeQuote(quotes, i, first)
    ensures var c := After(NewCase(quotes), Create(i, first, false));
            && c.billingStatus == Invoiced
            && (|quotes| >= 2 ==> Aggregated(c) == Some(PartiallyInvoiced))
            && (j != i ==> Engaged(c, j) == 0)
            && Step(c, Create(j, request, draft)) == Err(CaseNotInvoiceable)
  {
    WholeQuoteIsInvoiced(quotes, i, first);
  }

  lemma BalanceTakesWholeQuote(quotes: seq<Quote>, i: nat)
    requires SafeCase(NewCase(quotes)) && i < |quotes|
    ensures TakesWholeQuote(quotes, i, Request(Balance, None, None))
  {
    assert SafeQuote(quotes[i]);
    SelectedSumIsExact([], OnQuote(i));
    BalanceTakesTheRemainder(quotes[i], 0);
    assert QuoteInvoicedHt([], i) == Euros(0);
  }

  /** The stored status follows the aggregated one through all runs without cancellation or credit exactly on the
      cases with a single quote. */
  lemma StatusFollowsExactly(quotes: seq<Quote>)
    requires SafeCase(NewCase(quotes)) && quotes != []
    ensures |quotes| == 1 <==>
              forall events: seq<Event> | OnlyForward(events) :: StatusInStep(Run(NewCase(quotes), events))
  {
    if |quotes| == 1 {
      assert quotes == [quotes[0]] && SafeQuote(quotes[0]);
      forall events: seq<Event> | OnlyForward(events) ensures StatusInStep(Run(NewCase(quotes), events)) {
        StoredStatusIsAggregated(quotes[0], events);
      }
    } else {
      var event := Create(0, Request(Balance, None, None), false);
      BalanceTakesWholeQuote(quotes, 0);
      WholeQuoteIsInvoiced(quotes, 0, event.request);
      var c := After(NewCase(quotes), event);
      assert Run(NewCase(quotes), [event]) == c by {
        assert Run(c, [event][1..]) == c;
      }
      assert !StatusInStep(c) && OnlyForward([event]);
    }
  }

  // ---------------------------------------------------------------------------------------------------
  // Invoicing again after a cancellation or a credit
  // ---------------------------------------------------------------------------------------------------

  predicate IsBarred(c: Case) {
    c.billingStatus.Invoiced? || c.billingStatus.PaidInFull?
  }

  /** Once the stored status says that a case is invoiced, nothing brings it back: no cancellation, no credit. */
  lemma {:induction false} BarredForEver(c: Case, events: seq<Event>, q: nat, request: Request, draft: bool)
    requires IsBarred(c)
    ensures IsBarred(Run(c, events))
    ensures Step(Run(c, events), Create(q, request, draft)) == Err(CaseNotInvoiceable)
    decreases |events|
  {
    if events != [] {
      hide ApplyToInvoices, AggregateBillingStatus;
      assert IsBarred(After(c, events[0]));
      BarredForEver(After(c, events[0]), events[1..], q, request, draft);
    }
  }

  lemma {:induction false} StatusIsKnown(c: Case, events: seq<Event>)
    requires !c.billingStatus.NotApplicable?
    ensures !Run(c, events).billingStatus.NotApplicable?
    decreases |events|
  {
    if events != [] {
      hide ApplyToInvoices, StatusBase;
      StatusIsKnown(After(c, events[0]), events[1..]);
    }
  }

  lemma {:induction false} RunConcat(c: Case, first: seq<Event>, second: seq<Event>)
    ensures Run(c, first + second) == Run(Run(c, first), second)
    decreases |first|
  {
    if first == [] {
      assert first + second == second;
    } else {
      RunConcat(After(c, first[0]), first[1..], second);
      assert (first + second)[1..] == first[1..] + second;
    }
  }

  lemma BarredEarlier(c: Case, events: seq<Event>, k: nat)
    requires k <= |events| && IsBarred(Run(c, events[..k]))
    ensures IsBarred(Run(c, events))
  {
    BarredForEver(Run(c, events[..k]), events[k..], 0, Request(Balance, None, None), true);
    RunConcat(c, events[..k], events[k..]);
    assert events[..k] + events[k..] == events;
  }

  /** When a remaining cent of a quote can be invoiced, whatever was cancelled or credited before: exactly as long as
      the case has at no time been marked as invoiced. */
  lemma RemainderIsInvoiceableExactly(quotes: seq<Quote>, events: seq<Event>, q: nat, draft: bool)
    requires q < |quotes| && quotes[q].lines != []
    ensures var c := Run(NewCase(quotes), events);
            && c.quotes == quotes
            && (Step(c, Create(q, Request(Balance, None, None), draft)).Ok? <==>
                  && RemainingQuoteHt(quotes[q].totalHt, QuoteInvoicedHt(c.invoices, q)) >= 0.01
                  && forall k | 0 <= k <= |events| :: !IsBarred(Run(NewCase(quotes), events[..k])))
  {
    var start := NewCase(quotes);
    var c := Run(start, events);
    assert start.quotes == quotes && !start.billingStatus.NotApplicable?;
    hide Run, Step, After, NewCase, QuoteInvoicedHt, RemainingQuoteHt;
    RunKeepsQuotes(start, events);
    BalanceClosesTheQuote(c, q, draft);
    StatusIsKnown(start, events);
    assert events[..|events|] == events;
    forall k | 0 <= k <= |events| && IsBarred(Run(start, events[..k])) ensures IsBarred(c) {
      BarredEarlier(start, events, k);
    }
  }
}
