// What credit notes do to a case. The engaged total of a quote is net of its credit notes, which nothing caps: an
// invoice can be credited more than once, and a credit note can itself be credited.
module CreditSafety {
  import opened Wrappers
  import opened Money
  import opened Invoicing
  import opened InvoiceLines
  import opened CaseBilling
  import opened CaseBillingSafety
  import opened CaseStatusSafety

  // ---------------------------------------------------------------------------------------------------
  // The net issued amount
  // ---------------------------------------------------------------------------------------------------

  /** Issued invoices of a quote less its credit notes, in cents; drafts do not count. */
  function IssuedNet(c: Case, q: nat): int {
    TotalCents(c.invoices, IssuedOn(q))
  }

  function CreditCents(original: Invoice, amountHt: Option<real>): int {
    Cents(if amountHt.Some? then amountHt.value else Abs(Euros(original.amountHt)))
  }

  /** What a caller can check before crediting: the credit is at most what is issued, net, on the quote. */
  predicate CreditIsCovered(c: Case, event: Event) {
    event.Credit? && Step(c, event).Ok? ==>
      var original := c.invoices[event.index];
      CreditCents(original, event.amountHt) <= IssuedNet(c, original.quoteId)
  }

  predicate CreditsAreCovered(c: Case, events: seq<Event>)
    decreases |events|
  {
    events == [] || (CreditIsCovered(c, events[0]) && CreditsAreCovered(After(c, events[0]), events[1..]))
  }

  ghost predicate NetSound(c: Case) {
    forall q: nat :: q < |c.quotes| ==> IssuedNet(c, q) >= 0
  }

  lemma CreditNoteAmount(original: Invoice, amountHt: Option<real>)
    requires CreditNoteFor(original, amountHt).Ok?
    ensures CreditNoteFor(original, amountHt).value.amountHt == -CreditCents(original, amountHt)
    ensures CreditNoteFor(original, amountHt).value.quoteId == original.quoteId
    ensures CreditNoteFor(original, amountHt).value.status == Finalized
  {
    var originalHt := Abs(Euros(original.amountHt));
    CentsOfEuros(if original.amountHt < 0 then -original.amountHt else original.amountHt);
    assert Round2(originalHt) == originalHt;
    CentsOfEuros(CreditCents(original, amountHt));
  }

  /** How one event moves the net issued amount of a quote. */
  lemma NetAfter(c: Case, event: Event, q: nat)
    requires SafeCase(c) && WithinCaps(c)
    ensures event.Credit? && Step(c, event).Ok? && c.invoices[event.index].quoteId == q ==>
              IssuedNet(After(c, event), q) == IssuedNet(c, q) - CreditCents(c.invoices[event.index], event.amountHt)
    ensures !(event.Credit? && Step(c, event).Ok? && c.invoices[event.index].quoteId == q) ==>
              IssuedNet(After(c, event), q) >= IssuedNet(c, q)
  {
    var next := After(c, event);
    if ApplyToInvoices(c, event).Ok? {
      assert next.invoices == ApplyToInvoices(c, event).value;
      hide Recompute;
      match event
      case Create(quoteId, request, draft) =>
        CreatedStaysWithinCap(c, quoteId, request, draft);
        CreatedOnItsQuote(c, quoteId, request, draft);
        TotalOfAppended(c.invoices, CreatedInvoice(c, quoteId, request, draft).value, IssuedOn(q));
      case Credit(i, amountHt) =>
        CreditNoteAmount(c.invoices[i], amountHt);
        TotalOfAppended(c.invoices, CreditNoteFor(c.invoices[i], amountHt).value, IssuedOn(q));
      case Finalize(i) =>
        assert GoodInvoice(c.invoices[i], c.quotes);
        TotalOfUpdated(c.invoices, i, next.invoices[i], IssuedOn(q));
      case MarkPaid(i) => TotalOfUpdated(c.invoices, i, next.invoices[i], IssuedOn(q));
      case Cancel(i) => TotalOfUpdated(c.invoices, i, next.invoices[i], IssuedOn(q));
    }
  }

  /** An event keeps every net issued amount from falling below zero exactly when it is not an uncovered credit. */
  lemma StepKeepsNetExactly(c: Case, event: Event)
    requires SafeCase(c) && WithinCaps(c) && NetSound(c)
    ensures NetSound(After(c, event)) <==> CreditIsCovered(c, event)
  {
    hide IssuedNet, CreditCents, WithinCaps, SafeCase;
    StepKeepsQuotes(c, event);
    if event.Credit? && Step(c, event).Ok? {
      CreditedOnAQuote(c, event);
      NetAfter(c, event, c.invoices[event.index].quoteId);
    }
    forall q: nat | q < |c.quotes| ensures CreditIsCovered(c, event) ==> IssuedNet(After(c, event), q) >= 0 {
      NetAfter(c, event, q);
    }
  }

  lemma StepKeepsQuotes(c: Case, event: Event)
    ensures After(c, event).quotes == c.quotes
    ensures event.Credit? && Step(c, event).Ok? ==> event.index < |c.invoices|
  {
  }

  lemma CreditedOnAQuote(c: Case, event: Event)
    requires WithinCaps(c) && event.Credit? && Step(c, event).Ok?
    ensures c.invoices[event.index].quoteId < |c.quotes|
  {
    assert GoodInvoice(c.invoices[event.index], c.quotes);
  }

  lemma {:induction false} RunKeepsNetExactly(c: Case, events: seq<Event>)
    requires SafeCase(c) && WithinCaps(c) && NetSound(c)
    ensures CreditsAreCovered(c, events) <==> forall k | 0 <= k <= |events| :: NetSound(Run(c, events[..k]))
    decreases |events|
  {
    hide CreditIsCovered, NetSound, After, SafeCase, WithinCaps;
    if events != [] {
      var next, rest := After(c, events[0]), events[1..];
      StepKeepsNetExactly(c, events[0]);
      StepKeepsCaps(c, events[0]);
      forall k | 1 <= k <= |events| ensures Run(c, events[..k]) == Run(next, rest[..k - 1]) {
        assert events[..k][1..] == rest[..k - 1];
      }
      assert Run(c, events[..1]) == next by {
        assert rest[..0] == [];
      }
      if NetSound(next) {
        RunKeepsNetExactly(next, rest);
        forall k | 0 <= k <= |rest| ensures Run(next, rest[..k]) == Run(c, events[..k + 1]) {
          assert events[..k + 1][1..] == rest[..k];
        }
      }
    }
  }

  /** From the start of a case with safe quotes, the net issued amounts stay at zero or above through the whole run
      exactly when every accepted credit is covered. */
  lemma NetStaysSoundExactly(quotes: seq<Quote>, events: seq<Event>)
    requires SafeCase(NewCase(quotes))
    ensures CreditsAreCovered(NewCase(quotes), events)
            <==> forall k | 0 <= k <= |events| :: NetSound(Run(NewCase(quotes), events[..k]))
  {
    RunKeepsNetExactly(NewCase(quotes), events);
  }

  // ---------------------------------------------------------------------------------------------------
  // Drafts and cancellations
  // ---------------------------------------------------------------------------------------------------

  lemma {:induction false} EngagedIsNetAndDrafts(invoices: seq<Invoice>, q: nat)
    requires forall invoice <- invoices :: invoice.status.Draft? ==> invoice.amountHt >= 1
    ensures TotalCents(invoices, OnQuote(q)) >= TotalCents(invoices, IssuedOn(q))
    ensures (forall invoice <- invoices :: !invoice.status.Draft?) ==>
              TotalCents(invoices, OnQuote(q)) == TotalCents(invoices, IssuedOn(q))
  {
    if invoices != [] {
      assert invoices == [invoices[0]] + invoices[1..];
      EngagedIsNetAndDrafts(invoices[1..], q);
    }
  }

  function Cancellations(n: nat): (events: seq<Event>)
    ensures forall event <- events :: event.Cancel?
  {
    if n == 0 then [] else Cancellations(n - 1) + [Cancel(n - 1)]
  }

  lemma {:induction false} RunAppended(c: Case, events: seq<Event>, last: Event)
    ensures Run(c, events + [last]) == After(Run(c, events), last)
    decreases |events|
  {
    if events == [] {
      assert events + [last] == [last] && [last][1..] == [];
      assert Run(After(c, last), []) == After(c, last);
    } else {
      assert (events + [last])[1..] == events[1..] + [last];
      RunAppended(After(c, events[0]), events[1..], last);
    }
  }

  lemma {:induction false} CancellationsLeaveTheNet(c: Case, n: nat, q: nat)
    requires n <= |c.invoices|
    ensures var cancelled := Run(c, Cancellations(n)).invoices;
            && |cancelled| == |c.invoices|
            && (forall i | 0 <= i < n :: !cancelled[i].status.Draft?)
            && TotalCents(cancelled, IssuedOn(q)) == TotalCents(c.invoices, IssuedOn(q))
  {
    if n > 0 {
      var before := Run(c, Cancellations(n - 1));
      CancellationsLeaveTheNet(c, n - 1, q);
      RunAppended(c, Cancellations(n - 1), Cancel(n - 1));
      CancelledAt(before, n - 1, q);
      hide After, Run;
    }
  }

  lemma CancelledAt(c: Case, i: nat, q: nat)
    requires i < |c.invoices|
    ensures var cancelled := After(c, Cancel(i)).invoices;
            && |cancelled| == |c.invoices| && !cancelled[i].status.Draft?
            && (forall j | 0 <= j < |c.invoices| && j != i :: cancelled[j] == c.invoices[j])
            && TotalCents(cancelled, IssuedOn(q)) == TotalCents(c.invoices, IssuedOn(q))
  {
    if c.invoices[i].status.Draft? {
      TotalOfUpdated(c.invoices, i, c.invoices[i].(status := Cancelled), IssuedOn(q));
    }
  }

  predicate OnlyCancels(events: seq<Event>) {
    forall event <- events :: event.Cancel?
  }

  lemma {:induction false} CancelsKeepTheNet(c: Case, events: seq<Event>, q: nat)
    requires SafeCase(c) && WithinCaps(c) && OnlyCancels(events)
    ensures IssuedNet(Run(c, events), q) >= IssuedNet(c, q)
    decreases |events|
  {
    if events != [] {
      NetAfter(c, events[0], q);
      StepKeepsCaps(c, events[0]);
      CancelsKeepTheNet(After(c, events[0]), events[1..], q);
    }
  }

  lemma EngagedAtLeastNet(c: Case, q: nat)
    requires WithinCaps(c)
    ensures Engaged(c, q) >= IssuedNet(c, q)
  {
    forall invoice <- c.invoices ensures invoice.status.Draft? ==> invoice.amountHt >= 1 {
      assert GoodInvoice(invoice, c.quotes);
    }
    EngagedIsNetAndDrafts(c.invoices, q);
  }

  /** The engaged total of a quote stays at zero or above under every series of cancellations exactly when its net
      issued amount is: cancelling all drafts leaves just that. */
  lemma EngagedSurvivesCancelsExactly(c: Case, q: nat)
    requires SafeCase(c) && WithinCaps(c)
    ensures IssuedNet(c, q) >= 0 <==>
              forall cancels: seq<Event> | OnlyCancels(cancels) :: Engaged(Run(c, cancels), q) >= 0
  {
    if IssuedNet(c, q) >= 0 {
      forall cancels: seq<Event> | OnlyCancels(cancels) ensures Engaged(Run(c, cancels), q) >= 0 {
        CancelsKeepTheNet(c, cancels, q);
        RunKeepsCaps(c, cancels);
        EngagedAtLeastNet(Run(c, cancels), q);
      }
    } else {
      var cancels := Cancellations(|c.invoices|);
      CancellationsLeaveTheNet(c, |c.invoices|, q);
      EngagedIsNetAndDrafts(Run(c, cancels).invoices, q);
      assert Engaged(Run(c, cancels), q) == IssuedNet(c, q);
    }
  }

  // ---------------------------------------------------------------------------------------------------
  // Single invoices
  // ---------------------------------------------------------------------------------------------------

  /** No invoice is for more than its quote. */
  ghost predicate AmountsWithinQuotes(c: Case) {
    forall invoice <- c.invoices :: invoice.quoteId < |c.quotes| && invoice.amountHt <= Cap(c.quotes[invoice.quoteId])
  }

  lemma StepKeepsAmounts(c: Case, event: Event)
    requires SafeCase(c) && WithinCaps(c) && NetSound(c) && AmountsWithinQuotes(c)
    ensures AmountsWithinQuotes(After(c, event))
  {
    var next := After(c, event);
    StepKeepsQuotes(c, event);
    if ApplyToInvoices(c, event).Ok? {
      assert next.invoices == ApplyToInvoices(c, event).value;
      hide Recompute;
      match event
      case Create(quoteId, request, draft) =>
        CreatedWithinQuote(c, quoteId, request, draft);
      case Credit(i, amountHt) =>
        CreditNoteIsNegative(c.invoices[i], amountHt);
        assert c.invoices[i] in c.invoices;
        SafeCapIsPositive(c, c.invoices[i].quoteId);
      case Finalize(i) => assert c.invoices[i] in c.invoices;
      case MarkPaid(i) => assert c.invoices[i] in c.invoices;
      case Cancel(i) => assert c.invoices[i] in c.invoices;
    }
  }

  lemma SafeCapIsPositive(c: Case, q: nat)
    requires SafeCase(c) && q < |c.quotes|
    ensures Cap(c.quotes[q]) >= 1
  {
    assert SafeQuote(c.quotes[q]);
  }

  lemma CreatedWithinQuote(c: Case, quoteId: nat, request: Request, draft: bool)
    requires SafeCase(c) && WithinCaps(c) && NetSound(c) && CreatedInvoice(c, quoteId, request, draft).Ok?
    ensures var invoice := CreatedInvoice(c, quoteId, request, draft).value;
            && invoice.quoteId < |c.quotes| && invoice.amountHt <= Cap(c.quotes[invoice.quoteId])
  {
    SelectedSumIsExact(c.invoices, OnQuote(quoteId));
    assert QuoteInvoicedHt(c.invoices, quoteId) == Euros(Engaged(c, quoteId));
    EngagedAtLeastNet(c, quoteId);
    assert SafeQuote(c.quotes[quoteId]);
    hide BuildInvoiceLinesFromQuote, QuoteInvoicedHt, SafeQuote, Cap;
    AmountWithinQuote(c.quotes[quoteId], request, Engaged(c, quoteId));
  }

  lemma {:induction false} RunKeepsBounds(c: Case, events: seq<Event>)
    requires SafeCase(c) && WithinCaps(c) && NetSound(c) && AmountsWithinQuotes(c)
    requires CreditsAreCovered(c, events)
    ensures NetSound(Run(c, events)) && AmountsWithinQuotes(Run(c, events))
    decreases |events|
  {
    hide CreditIsCovered, NetSound, AmountsWithinQuotes, After, SafeCase, WithinCaps;
    if events != [] {
      StepKeepsNetExactly(c, events[0]);
      StepKeepsAmounts(c, events[0]);
      StepKeepsCaps(c, events[0]);
      RunKeepsBounds(After(c, events[0]), events[1..]);
    }
  }

  /** Over every run on safe quotes whose credits are covered, the engaged total of each quote stays between zero and
      the quote total, and so does every single invoice. */
  lemma CoveredRunsStayInBounds(quotes: seq<Quote>, events: seq<Event>)
    requires SafeCase(NewCase(quotes)) && CreditsAreCovered(NewCase(quotes), events)
    ensures var c := Run(NewCase(quotes), events);
            && c.quotes == quotes && AmountsWithinQuotes(c)
            && forall q: nat | q < |quotes| :: 0 <= Engaged(c, q) <= Cap(quotes[q])
  {
    var c := Run(NewCase(quotes), events);
    RunKeepsCaps(NewCase(quotes), events);
    RunKeepsBounds(NewCase(quotes), events);
    forall q: nat | q < |quotes| ensures 0 <= Engaged(c, q) <= Cap(quotes[q]) {
      EngagedAtLeastNet(c, q);
    }
  }

  /** Sound, and in euros: nothing is engaged below zero, and no single invoice is for more than its quote. */
  ghost predicate Bounded(c: Case) {
    && Sound(c)
    && (forall q: nat :: q < |c.quotes| ==> Engaged(c, q) >= 0)
    && (forall invoice <- c.invoices ::
          invoice.quoteId < |c.quotes| && Euros(invoice.amountHt) <= c.quotes[invoice.quoteId].totalHt)
  }

  lemma CoveredRunsAreBounded(quotes: seq<Quote>, events: seq<Event>)
    requires SafeCase(NewCase(quotes)) && CreditsAreCovered(NewCase(quotes), events)
    ensures Bounded(Run(NewCase(quotes), events))
  {
    var c := Run(NewCase(quotes), events);
    CoveredRunsStayInBounds(quotes, events);
    NoOverInvoicing(quotes, events);
    forall invoice <- c.invoices ensures Euros(invoice.amountHt) <= c.quotes[invoice.quoteId].totalHt {
      assert SafeQuote(NewCase(quotes).quotes[invoice.quoteId]);
    }
  }

  /** SafeQuote is the exact condition for that, too: a quote with lines stays bounded in every run with covered
      credits if and only if it is safe. */
  lemma SafeQuoteBoundsExactly(quote: Quote)
    requires quote.lines != []
    ensures SafeQuote(quote) <==>
              forall events: seq<Event> | CreditsAreCovered(NewCase([quote]), events) ::
                Bounded(Run(NewCase([quote]), events))
  {
    if SafeQuote(quote) {
      forall events: seq<Event> | CreditsAreCovered(NewCase([quote]), events)
        ensures Bounded(Run(NewCase([quote]), events))
      {
        assert SafeCase(NewCase([quote]));
        CoveredRunsAreBounded([quote], events);
      }
    } else {
      var events := [Create(0, OffendingRequest(quote), true)];
      UnsafeQuoteIsOverInvoiced(quote);
      assert CreditsAreCovered(NewCase([quote]), events) by {
        assert events[1..] == [];
      }
    }
  }

  // ---------------------------------------------------------------------------------------------------
  // An uncovered credit
  // ---------------------------------------------------------------------------------------------------

  const BALANCE := Request(Balance, None, None)

  function DepositOf(deposit: int): Event {
    Create(0, Request(Deposit, None, Some(Euros(deposit))), false)
  }

  function FullCredits(n: nat): seq<Event> {
    if n == 0 then [] else FullCredits(n - 1) + [Credit(0, None)]
  }

  /** A case with one quote, whose first invoice is an issued deposit, and with `net` cents engaged. */
  ghost predicate DepositedAndCredited(c: Case, quote: Quote, deposit: int, net: int) {
    && c.quotes == [quote] && c.billingStatus == PartiallyInvoiced
    && c.invoices != [] && c.invoices[0].amountHt == deposit && c.invoices[0].quoteId == 0
    && (forall invoice <- c.invoices :: invoice.status == Finalized && invoice.quoteId == 0)
    && Engaged(c, 0) == net && TotalCents(c.invoices, Issued) == net && TotalCents(c.invoices, Active) == net
  }

  /** As long as something remains to be issued the case counts as partially invoiced. */
  lemma PartialWhileOpen(current: BillingStatus, invoices: seq<Invoice>, quoteTotalHt: real)
    requires current.ToInvoice? || current.PartiallyInvoiced?
    requires quoteTotalHt >= 0.01 && AnyStatus(invoices, Finalized)
    requires forall invoice <- invoices :: invoice.status == Finalized
    requires TotalCents(invoices, Issued) < Cents(quoteTotalHt) && TotalCents(invoices, Active) < Cents(quoteTotalHt)
    ensures Recompute(current, invoices, quoteTotalHt) == PartiallyInvoiced
  {
    StatusTable(invoices, quoteTotalHt);
  }

  lemma DepositIsIssued(quote: Quote, deposit: int)
    requires SafeQuote(quote) && 1 <= deposit < Cap(quote)
    ensures Step(NewCase([quote]), DepositOf(deposit)).Ok?
    ensures DepositedAndCredited(After(NewCase([quote]), DepositOf(deposit)), quote, deposit, deposit)
  {
    var request := DepositOf(deposit).request;
    CentsOfEuros(deposit);
    AmountRequestsAreExact(quote, request, 0);
    FirstInvoice(quote, request, false);
    var invoice := CreatedInvoice(NewCase([quote]), 0, request, false).value;
    hide BuildInvoiceLinesFromQuote, CreatedInvoice, Recompute;
    assert [] + [invoice] == [invoice] && invoice in [invoice];
    TotalOfAppended([], invoice, OnQuote(0));
    TotalOfAppended([], invoice, Issued);
    TotalOfAppended([], invoice, Active);
    PartialWhileOpen(ToInvoice, [invoice], quote.totalHt);
  }

  lemma DepositIsCredited(c: Case, quote: Quote, deposit: int, net: int)
    requires SafeQuote(quote) && 1 <= deposit && DepositedAndCredited(c, quote, deposit, net) && net <= Cap(quote)
    ensures Step(c, Credit(0, None)).Ok?
    ensures DepositedAndCredited(After(c, Credit(0, None)), quote, deposit, net - deposit)
  {
    var original := c.invoices[0];
    assert original in c.invoices;
    CentsOfEuros(deposit);
    assert CreditNoteFor(original, None).Ok?;
    CreditNoteAmount(original, None);
    var note := CreditNoteFor(original, None).value;
    assert CreditCents(original, None) == deposit;
    hide CreditNoteFor, CreditCents, Recompute;
    TotalOfAppended(c.invoices, note, OnQuote(0));
    TotalOfAppended(c.invoices, note, Issued);
    TotalOfAppended(c.invoices, note, Active);
    var invoices := c.invoices + [note];
    assert note in invoices;
    assert QuotesTotalHt([quote]) == quote.totalHt by {
      assert [quote][..0] == [];
    }
    PartialWhileOpen(PartiallyInvoiced, invoices, quote.totalHt);
  }

  function NetOfCredits(deposit: int, n: nat): int {
    if n == 0 then deposit else NetOfCredits(deposit, n - 1) - deposit
  }

  lemma {:induction false} NetOfCreditsIs(deposit: int, n: nat)
    requires deposit >= 1
    ensures NetOfCredits(deposit, n) == -deposit * (n - 1) <= deposit
    ensures n >= 2 ==> NetOfCredits(deposit, n) < 0
  {
    if n > 0 {
      NetOfCreditsIs(deposit, n - 1);
    }
  }

  lemma {:induction false} AfterFullCredits(quote: Quote, deposit: int, n: nat)
    requires SafeQuote(quote) && 1 <= deposit < Cap(quote)
    ensures DepositedAndCredited(Run(NewCase([quote]), [DepositOf(deposit)] + FullCredits(n)), quote, deposit,
                                 NetOfCredits(deposit, n))
  {
    hide DepositedAndCredited, Cap, SafeQuote, DepositOf, NewCase, After;
    var c := NewCase([quote]);
    if n == 0 {
      DepositIsIssued(quote, deposit);
      assert [DepositOf(deposit)] + FullCredits(0) == [] + [DepositOf(deposit)];
      RunAppended(c, [], DepositOf(deposit));
      assert Run(c, []) == c;
    } else {
      var before := [DepositOf(deposit)] + FullCredits(n - 1);
      assert before + [Credit(0, None)] == [DepositOf(deposit)] + FullCredits(n);
      hide Run, FullCredits;
      AfterFullCredits(quote, deposit, n - 1);
      NetOfCreditsIs(deposit, n - 1);
      DepositIsCredited(Run(c, before), quote, deposit, NetOfCredits(deposit, n - 1));
      RunAppended(c, before, Credit(0, None));
    }
  }

  /** Credits have to be covered. On every safe quote, a deposit that is credited in full n times makes room for a
      balance of the quote total plus n - 1 deposits, and the net total never shows it. So a quote of 100.00 with a
      deposit of 50.00 credited three times takes a balance of 200.00. */
  lemma RepeatedCreditIsBilledAgain(quote: Quote, deposit: int, n: nat)
    requires SafeQuote(quote) && 1 <= deposit < Cap(quote)
    ensures var events := [DepositOf(deposit)] + FullCredits(n);
            var c := Run(NewCase([quote]), events);
            var billed := CreatedInvoice(c, 0, BALANCE, false);
            && billed.Ok? && billed.value.amountHt == Cap(quote) + deposit * (n - 1)
            && Sound(After(c, Create(0, BALANCE, false)))
            && (n >= 2 ==> billed.value.amountHt > Cap(quote) && !CreditsAreCovered(NewCase([quote]), events))
  {
    var events := [DepositOf(deposit)] + FullCredits(n);
    var c, net := Run(NewCase([quote]), events), NetOfCredits(deposit, n);
    AfterFullCredits(quote, deposit, n);
    NetOfCreditsIs(deposit, n);
    BalanceOnCredited(c, quote, deposit, net);
    assert SafeCase(NewCase([quote]));
    hide CreatedInvoice, SafeQuote, Cap, FullCredits, DepositOf;
    assert deposit * (n - 1) == -net;
    NoOverInvoicing([quote], events + [Create(0, BALANCE, false)]);
    RunAppended(NewCase([quote]), events, Create(0, BALANCE, false));
    if CreditsAreCovered(NewCase([quote]), events) {
      CoveredRunsStayInBounds([quote], events);
    }
  }

  lemma BalanceOnCredited(c: Case, quote: Quote, deposit: int, net: int)
    requires SafeQuote(quote) && DepositedAndCredited(c, quote, deposit, net) && net < Cap(quote)
    ensures Engaged(c, 0) == net
    ensures CreatedInvoice(c, 0, BALANCE, false).Ok?
    ensures CreatedInvoice(c, 0, BALANCE, false).value.amountHt == Cap(quote) - net
  {
    SelectedSumIsExact(c.invoices, OnQuote(0));
    BalanceTakesTheRemainder(quote, net);
  }

  /** A credit does not reopen a case: once a quote is invoiced in full and credited in full, all of it remains, and
      every request is refused, at once and after any further events. */
  lemma FullCreditDoesNotReopen(quote: Quote, later: seq<Event>, request: Request, draft: bool)
    requires SafeQuote(quote)
    ensures var c := After(After(NewCase([quote]), Create(0, BALANCE, false)), Credit(0, None));
            && RemainingQuoteHt(quote.totalHt, QuoteInvoicedHt(c.invoices, 0)) == Euros(Cap(quote))
            && Step(Run(c, later), Create(0, request, draft)) == Err(CaseNotInvoiceable)
  {
    var c0 := NewCase([quote]);
    assert SafeCase(c0);
    BalanceTakesWholeQuote([quote], 0);
    WholeQuoteIsInvoiced([quote], 0, BALANCE);
    var c1 := After(c0, Create(0, BALANCE, false));
    var invoice := c1.invoices[0];
    assert c1.invoices == [invoice] && invoice.amountHt == Cap(quote) && Cap(quote) >= 1;
    CreatedOnItsQuote(c0, 0, BALANCE, false);
    hide CreatedInvoice, Recompute, SafeQuote;
    WholeIsCredited(c1, quote);
    var c := After(c1, Credit(0, None));
    RemainingIsExact(quote.totalHt, 0);
    SelectedSumIsExact(c.invoices, OnQuote(0));
    BarredForEver(c1, [Credit(0, None)] + later, 0, request, draft);
    RunConcat(c1, [Credit(0, None)], later);
    assert Run(c1, [Credit(0, None)]) == c by {
      assert [Credit(0, None)][1..] == [] && Run(c, []) == c;
    }
  }

  lemma WholeIsCredited(c: Case, quote: Quote)
    requires c.quotes == [quote] && |c.invoices| == 1 && c.invoices[0].status == Finalized
    requires c.invoices[0].quoteId == 0 && c.invoices[0].amountHt == Cap(quote) && Cap(quote) >= 1
    ensures Step(c, Credit(0, None)).Ok?
    ensures Engaged(After(c, Credit(0, None)), 0) == 0
  {
    var original := c.invoices[0];
    CentsOfEuros(original.amountHt);
    assert CreditNoteFor(original, None).Ok?;
    CreditNoteAmount(original, None);
    var note := CreditNoteFor(original, None).value;
    assert CreditCents(original, None) == original.amountHt;
    hide CreditNoteFor, CreditCents, Recompute, Cap;
    TotalOfAppended(c.invoices, note, OnQuote(0));
    assert c.invoices == [] + [original];
    TotalOfAppended([], original, OnQuote(0));
  }
}
