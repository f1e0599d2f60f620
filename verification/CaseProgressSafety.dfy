// Progress situations over whole runs: what a cumulative percent leaves engaged, and when successive percents
// increase.
module CaseProgressSafety {
  import opened Wrappers
  import opened Money
  import opened Invoicing
  import opened CaseBilling
  import opened CaseBillingSafety

  // ---------------------------------------------------------------------------------------------------
  // Progress by cumulative percent
  // ---------------------------------------------------------------------------------------------------

  function SituationAt(percent: real, amountHt: Option<real>): Request {
    Request(Situation, Some(percent), amountHt)
  }

  /** Whatever deposits, situations and credit notes came before, an accepted situation at `p` percent leaves
      exactly the rounded share `p` of the quote engaged. */
  lemma SituationTelescopes(c: Case, quoteId: nat, p: real, amountHt: Option<real>, draft: bool)
    requires Step(c, Create(quoteId, SituationAt(p, amountHt), draft)).Ok?
    ensures var after := After(c, Create(quoteId, SituationAt(p, amountHt), draft));
            QuoteInvoicedHt(after.invoices, quoteId) == TargetHt(c.quotes[quoteId].totalHt, p)
  {
    hide Recompute, RemainingQuoteHt, InvoicedQuotePercent, TargetCents;
    var invoice := CreatedInvoice(c, quoteId, SituationAt(p, amountHt), draft).value;
    var already, total := Engaged(c, quoteId), c.quotes[quoteId].totalHt;
    SelectedSumIsExact(c.invoices, OnQuote(quoteId));
    SituationReachesTarget(total, already, p);
    var amount := ResolveSituationPeriod(total, Euros(already), p).value.amountHt;
    assert invoice.amountHt == ToFixed2(amount);
    assert amount == Euros(TargetCents(total, p) - already);
    CentsOfEuros(TargetCents(total, p) - already);
    TotalOfAppended(c.invoices, invoice, OnQuote(quoteId));
    SelectedSumIsExact(c.invoices + [invoice], OnQuote(quoteId));
  }

  /** The quotes whose engaged total only a cancellation or a credit can lower: lines that do not sum below zero,
      or something engaged already, which rules out a full invoice. */
  predicate NeverSinks(c: Case, q: nat) {
    q < |c.quotes| && (Cents(LineSum(c.quotes[q].lines)) >= 0 || Engaged(c, q) >= 1)
  }

  lemma CreatedIsNonNegative(c: Case, q: nat, request: Request, draft: bool)
    requires NeverSinks(c, q) && CreatedInvoice(c, q, request, draft).Ok?
    ensures CreatedInvoice(c, q, request, draft).value.amountHt >= 0
  {
    SelectedSumIsExact(c.invoices, OnQuote(q));
    assert QuoteInvoicedHt(c.invoices, q) == Euros(Engaged(c, q));
    hide BuildInvoiceLinesFromQuote, QuoteInvoicedHt;
    AcceptedIsNonNegative(c.quotes[q], request, Engaged(c, q));
  }

  lemma ForwardNeverLowers(c: Case, event: Event, q: nat)
    requires NeverSinks(c, q) && !Undoes(event)
    ensures Engaged(After(c, event), q) >= Engaged(c, q) && NeverSinks(After(c, event), q)
  {
    var next := After(c, event);
    if ApplyToInvoices(c, event).Ok? {
      assert next.invoices == ApplyToInvoices(c, event).value && next.quotes == c.quotes;
      hide CreatedInvoice, Recompute;
      match event
      case Create(quoteId, request, draft) =>
        var invoice := CreatedInvoice(c, quoteId, request, draft).value;
        TotalOfAppended(c.invoices, invoice, OnQuote(q));
        CreatedOnItsQuote(c, quoteId, request, draft);
        if quoteId == q {
          CreatedIsNonNegative(c, q, request, draft);
        }
      case Finalize(i) => TotalOfUpdated(c.invoices, i, next.invoices[i], OnQuote(q));
      case MarkPaid(i) => TotalOfUpdated(c.invoices, i, next.invoices[i], OnQuote(q));
    }
  }

  lemma {:induction false} ForwardRunNeverLowers(c: Case, events: seq<Event>, q: nat)
    requires NeverSinks(c, q) && OnlyForward(events)
    ensures Run(c, events).quotes == c.quotes
    ensures Engaged(Run(c, events), q) >= Engaged(c, q)
    decreases |events|
  {
    if events != [] {
      ForwardNeverLowers(c, events[0], q);
      ForwardRunNeverLowers(After(c, events[0]), events[1..], q);
    }
  }

  lemma HigherTargetNeedsHigherPercent(quoteTotalHt: real, p1: real, p2: real)
    requires quoteTotalHt > 0.0 && TargetHt(quoteTotalHt, p1) < TargetHt(quoteTotalHt, p2)
    ensures p1 < p2
  {
    if p2 <= p1 {
      assert quoteTotalHt * p2 <= quoteTotalHt * p1;
      Round2Monotone(quoteTotalHt * p2 / 100.0, quoteTotalHt * p1 / 100.0);
    }
  }

  lemma LaterSituationIsHigher(c: Case, between: seq<Event>, q: nat, p1: real, p2: real,
                               amountHt: Option<real>, draft: bool)
    requires NeverSinks(c, q) && OnlyForward(between)
    requires QuoteInvoicedHt(c.invoices, q) == TargetHt(c.quotes[q].totalHt, p1)
    requires Step(Run(c, between), Create(q, SituationAt(p2, amountHt), draft)).Ok?
    ensures p1 < p2
  {
    var later, total := Run(c, between), c.quotes[q].totalHt;
    ForwardRunNeverLowers(c, between, q);
    SelectedSumIsExact(c.invoices, OnQuote(q));
    SelectedSumIsExact(later.invoices, OnQuote(q));
    assert ResolveSituationPeriod(total, Euros(Engaged(later, q)), p2).Ok?;
    SituationReachesTarget(total, Engaged(later, q), p2);
    HigherTargetNeedsHigherPercent(total, p1, p2);
  }

  /** From any case, reachable or not, the percents of successive situations of a quote strictly increase as long
      as nothing is cancelled or credited in between. The one quote it takes an exception for has lines that sum
      below zero, and a first situation that rounds to nothing engaged. */
  lemma PercentsIncrease(c: Case, between: seq<Event>, q: nat, p1: real, p2: real,
                         a1: Option<real>, a2: Option<real>, draft1: bool, draft2: bool)
    requires OnlyForward(between) && q < |c.quotes|
    requires Cents(LineSum(c.quotes[q].lines)) >= 0 || TargetCents(c.quotes[q].totalHt, p1) >= 1
    requires var first := Create(q, SituationAt(p1, a1), draft1);
             && Step(c, first).Ok?
             && Step(Run(After(c, first), between), Create(q, SituationAt(p2, a2), draft2)).Ok?
    ensures p1 < p2
  {
    var first := Create(q, SituationAt(p1, a1), draft1);
    var after := After(c, first);
    SituationTelescopes(c, q, p1, a1, draft1);
    SelectedSumIsExact(after.invoices, OnQuote(q));
    assert Euros(Engaged(after, q)) == Euros(TargetCents(c.quotes[q].totalHt, p1));
    LaterSituationIsHigher(after, between, q, p1, p2, a2, draft2);
  }

  // ---------------------------------------------------------------------------------------------------
  // The condition is exact
  // ---------------------------------------------------------------------------------------------------

  // On a quote of that kind enough drafts of full invoices sink the engaged total so far that any percent that rounds
  // to nothing is accepted, and accepted again.

  ghost predicate Sinking(c: Case, quote: Quote) {
    && c.quotes == [quote] && quote.totalHt > 0.0 && quote.lines != [] && Cents(LineSum(quote.lines)) < 0
    && (c.billingStatus == ToInvoice || c.billingStatus == InvoiceDraft)
    && forall invoice <- c.invoices :: invoice.status == Draft
  }

  lemma OnlyDrafts(current: BillingStatus, invoices: seq<Invoice>, quoteTotalHt: real)
    requires current == ToInvoice || current == InvoiceDraft
    requires invoices != [] && forall invoice <- invoices :: invoice.status == Draft
    ensures Recompute(current, invoices, quoteTotalHt) == InvoiceDraft
  {
    assert invoices[0] in invoices;
    assert AnyStatus(invoices, Draft) && !AnyStatus(invoices, Finalized) && !AnyStatus(invoices, Paid);
    hide AnyStatus, SumInvoiceAmountsHt, Round2, Max;
  }

  lemma DraftKeepsSinking(c: Case, quote: Quote, request: Request)
    requires Sinking(c, quote) && CreatedInvoice(c, 0, request, true).Ok?
    ensures var next := After(c, Create(0, request, true));
            && Sinking(next, quote) && Step(c, Create(0, request, true)).Ok?
            && Engaged(next, 0) == Engaged(c, 0) + CreatedInvoice(c, 0, request, true).value.amountHt
  {
    CreatedOnItsQuote(c, 0, request, true);
    var invoice := CreatedInvoice(c, 0, request, true).value;
    TotalOfAppended(c.invoices, invoice, OnQuote(0));
    hide CreatedInvoice, LineSum, Recompute, Cents;
    OnlyDrafts(c.billingStatus, c.invoices + [invoice], quote.totalHt);
  }

  const FULL := Request(Full, None, None)

  function FullInvoices(n: nat): (events: seq<Event>)
    ensures OnlyForward(events)
  {
    if n == 0 then [] else [Create(0, FULL, true)] + FullInvoices(n - 1)
  }

  lemma {:induction false} FullInvoicesSink(c: Case, quote: Quote, n: nat)
    requires Sinking(c, quote) && Engaged(c, 0) <= 0
    ensures Sinking(Run(c, FullInvoices(n)), quote)
    ensures Engaged(Run(c, FullInvoices(n)), 0) <= Engaged(c, 0) - n
    decreases n
  {
    if n > 0 {
      SelectedSumIsExact(c.invoices, OnQuote(0));
      CentsOfEuros(Cents(LineSum(quote.lines)));
      assert QuoteInvoicedHt(c.invoices, 0) == Euros(Engaged(c, 0)) && Euros(Engaged(c, 0)) <= 0.009;
      var created := CreatedInvoice(c, 0, FULL, true);
      assert created.Ok? && created.value.amountHt == Cents(LineSum(quote.lines));
      DraftKeepsSinking(c, quote, FULL);
      hide CreatedInvoice, Cents, LineSum, QuoteInvoicedHt, After;
      var next := After(c, Create(0, FULL, true));
      FullInvoicesSink(next, quote, n - 1);
      assert FullInvoices(n)[1..] == FullInvoices(n - 1);
    }
  }

  /** Once the engaged total is as far below zero as the quote is worth, any percent that rounds to nothing is
      accepted. */
  lemma SunkQuoteAccepts(c: Case, quote: Quote, p: real)
    requires Sinking(c, quote) && 0.0 < p <= 100.0 && TargetCents(quote.totalHt, p) == 0
    requires Engaged(c, 0) <= -1 && Euros(Engaged(c, 0)) <= -quote.totalHt
    ensures CreatedInvoice(c, 0, SituationAt(p, None), true).Ok?
  {
    var already := Euros(Engaged(c, 0));
    SelectedSumIsExact(c.invoices, OnQuote(0));
    assert QuoteInvoicedHt(c.invoices, 0) == already;
    SunkPercent(quote.totalHt, already);
    SituationNeverExceedsRemaining(quote.totalHt, already, p);
    CentsOfEuros(-Engaged(c, 0));
    assert Round2(Max(0.0, TargetHt(quote.totalHt, p) - already)) == -already;
    hide InvoicedQuotePercent, RemainingQuoteHt, TargetCents, QuoteInvoicedHt, Cents;
    assert ResolveSituationPeriod(quote.totalHt, already, p).Ok?;
  }

  lemma SunkPercent(quoteTotalHt: real, already: real)
    requires quoteTotalHt > 0.0 && already <= -quoteTotalHt
    ensures InvoicedQuotePercent(quoteTotalHt, already) <= -100.0
  {
    var share := already / quoteTotalHt;
    assert Times(share, quoteTotalHt) == already;
    ProductDistributes(share, -1.0, quoteTotalHt);
    ProductSign(share - -1.0, quoteTotalHt);
    Round2Monotone(share * 100.0, -100.0);
    CentsOfEuros(-10000);
  }

  lemma SamePercentTwice(quote: Quote, p: real)
    requires quote.totalHt > 0.0 && quote.lines != [] && 0.0 < p <= 100.0
    requires Cents(LineSum(quote.lines)) < 0 && TargetCents(quote.totalHt, p) < 1
    ensures exists history: seq<Event>, between: seq<Event> ::
              OnlyForward(history) && OnlyForward(between) && AcceptedInTurn(quote, history, p, between, p)
  {
    var event, sunk := Create(0, SituationAt(p, None), true), Cap(quote) + 1;
    assert quote.totalHt * p / 100.0 > 0.0;
    assert TargetCents(quote.totalHt, p) == 0 && Euros(-sunk) <= -quote.totalHt && sunk >= 1;
    hide Cap, TargetCents;
    var start, events := NewCase([quote]), FullInvoices(sunk);
    assert Sinking(start, quote) && Engaged(start, 0) == 0;
    hide Sinking, CreatedInvoice, Engaged, Run, After, FullInvoices;
    FullInvoicesSink(start, quote, sunk);
    var c := Run(start, events);
    SunkQuoteAccepts(c, quote, p);
    DraftKeepsSinking(c, quote, event.request);
    var c1 := After(c, event);
    SituationTelescopes(c, 0, p, None, true);
    SinkingOn(c, quote);
    NothingEngaged(c1, quote, p);
    FullInvoicesSink(c1, quote, sunk);
    var c2 := Run(c1, events);
    SunkQuoteAccepts(c2, quote, p);
    DraftKeepsSinking(c2, quote, event.request);
    assert AcceptedInTurn(quote, events, p, events, p);
  }

  lemma SinkingOn(c: Case, quote: Quote)
    requires Sinking(c, quote)
    ensures c.quotes == [quote]
  {
  }

  lemma NothingEngaged(c: Case, quote: Quote, p: real)
    requires QuoteInvoicedHt(c.invoices, 0) == TargetHt(quote.totalHt, p) && TargetCents(quote.totalHt, p) == 0
    ensures Engaged(c, 0) == 0
  {
    SelectedSumIsExact(c.invoices, OnQuote(0));
  }

  /** From the start of a case on the quote alone, after a history, a situation is accepted, and another one after some
      more events. */
  predicate AcceptedInTurn(quote: Quote, history: seq<Event>, p1: real, between: seq<Event>, p2: real) {
    var c := Run(NewCase([quote]), history);
    var first := Create(0, SituationAt(p1, None), true);
    Step(c, first).Ok? && Step(Run(After(c, first), between), Create(0, SituationAt(p2, None), true)).Ok?
  }

  /** The condition of PercentsIncrease is exact for every quote and first percent, over the reachable cases. */
  lemma PercentsIncreaseExactly(quote: Quote, p1: real)
    requires quote.totalHt > 0.0 && quote.lines != [] && 0.0 < p1 <= 100.0
    ensures Cents(LineSum(quote.lines)) >= 0 || TargetCents(quote.totalHt, p1) >= 1 <==>
              forall history: seq<Event>, between: seq<Event>, p2: real |
                OnlyForward(between) && AcceptedInTurn(quote, history, p1, between, p2) :: p1 < p2
  {
    if Cents(LineSum(quote.lines)) >= 0 || TargetCents(quote.totalHt, p1) >= 1 {
      forall history: seq<Event>, between: seq<Event>, p2: real |
        OnlyForward(between) && AcceptedInTurn(quote, history, p1, between, p2)
        ensures p1 < p2
      {
        RunKeepsQuotes(NewCase([quote]), history);
        hide Step, After, Run;
        PercentsIncrease(Run(NewCase([quote]), history), between, 0, p1, p2, None, None, true, true);
      }
    } else {
      SamePercentTwice(quote, p1);
    }
  }

  lemma SituationAmount(already: real, percent: real)
    requires (already == 0.0 && percent == 30.0) || (already == 30.0 && percent == 60.0)
    ensures ResolveSituationPeriod(100.0, already, percent) == Ok(Period(30.0, percent, 30.0))
  {
    TargetOfHundred(percent);
    PercentOfHundred(already);
    PercentOfHundred(30.0);
    assert RemainingQuoteHt(100.0, already) >= 30.0;
    CentsOfEuros(3000);
    hide Cents, TargetCents, InvoicedQuotePercent, RemainingQuoteHt;
  }

  lemma TargetOfHundred(percent: real)
    requires percent == 30.0 || percent == 60.0
    ensures TargetHt(100.0, percent) == percent
  {
  }

  lemma PercentOfHundred(already: real)
    requires already == 0.0 || already == 30.0
    ensures InvoicedQuotePercent(100.0, already) == already
  {
  }

  lemma AcceptedSituation(c: Case, already: real, percent: real)
    requires c.quotes == [Quote(100.0, [QuoteLine(1.0, 10000, Tva20)])] && c.billingStatus.AllowsInvoiceCreation()
    requires QuoteInvoicedHt(c.invoices, 0) == already
    requires (already == 0.0 && percent == 30.0) || (already == 30.0 && percent == 60.0)
    ensures Step(c, Create(0, SituationAt(percent, None), true)).Ok?
    ensures CreatedInvoice(c, 0, SituationAt(percent, None), true).value.amountHt == 3000
  {
    SituationAmount(already, percent);
    hide ResolveSituationPeriod, QuoteInvoicedHt, Recompute;
    CentsOfEuros(3000);
  }

  /** Successive situations do get accepted: 30 % and then 60 % of 100.00 are invoiced for 30.00 each. */
  lemma TwoSituationsAreAccepted()
    ensures var quote := Quote(100.0, [QuoteLine(1.0, 10000, Tva20)]);
            var first, second := Create(0, SituationAt(30.0, None), true), Create(0, SituationAt(60.0, None), true);
            var c := After(NewCase([quote]), first);
            && SafeQuote(quote) && Step(NewCase([quote]), first).Ok? && Step(c, second).Ok?
            && QuoteInvoicedHt(After(c, second).invoices, 0) == 60.0
  {
    var quote := Quote(100.0, [QuoteLine(1.0, 10000, Tva20)]);
    var start := NewCase([quote]);
    var first, second := Create(0, SituationAt(30.0, None), true), Create(0, SituationAt(60.0, None), true);
    assert LineSum(quote.lines) == 100.0;
    SelectedSumIsExact([], OnQuote(0));
    AcceptedSituation(start, 0.0, 30.0);
    SituationTelescopes(start, 0, 30.0, None, true);
    assert TargetHt(100.0, 30.0) == 30.0 && TargetHt(100.0, 60.0) == 60.0;
    var c := After(start, first);
    assert c.billingStatus.AllowsInvoiceCreation();
    AcceptedSituation(c, 30.0, 60.0);
    SituationTelescopes(c, 0, 60.0, None, true);
  }
}
