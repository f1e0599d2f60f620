// What each request amounts to, stated without the rules that compute it: when a situation by percent is accepted, what
// the single line of the other kinds says, and which percent an amount stands for.
module InvoicingLaws {
  import opened Wrappers
  import opened Money
  import opened Invoicing

  // ---------------------------------------------------------------------------------------------------
  // Situations by percent
  // ---------------------------------------------------------------------------------------------------

  lemma PeriodIsAcceptedExactly(quoteTotalHt: real, already: int, p: real)
    ensures var period := ResolveSituationPeriod(quoteTotalHt, Euros(already), p);
            && (period.Ok? <==>
                  && quoteTotalHt > 0.0 && 0.0 < p <= 100.0
                  && p > Round2(Euros(already) / quoteTotalHt * 100.0) + 0.009
                  && already + 1 <= TargetCents(quoteTotalHt, p))
            && (period.Ok? ==>
                  && ToFixed2(period.value.amountHt) == TargetCents(quoteTotalHt, p) - already
                  && period.value.situationPercent == p)
  {
    CentsOfEuros(already);
    SituationNeverExceedsRemaining(quoteTotalHt, Euros(already), p);
    SituationAmountIs(TargetCents(quoteTotalHt, p), already);
    hide Round2, ToFixed2, TargetCents, RemainingQuoteHt, Max, Euros;
  }

  /** A situation by percent is accepted exactly for a percent in range, above the engaged share by more than 0.009
      points, whose target is at least a cent above what is engaged; it is then billed for that difference. */
  lemma SituationIsAcceptedExactly(quote: Quote, request: Request, p: real, already: int)
    requires request.kind.Situation? && request.situationPercent == Some(p)
    ensures var built := BuildInvoiceLinesFromQuote(quote, request, Euros(already));
            && (built.Ok? <==>
                  && quote.totalHt > 0.0 && 0.0 < p <= 100.0
                  && p > Round2(Euros(already) / quote.totalHt * 100.0) + 0.009
                  && already + 1 <= Cents(quote.totalHt * p / 100.0))
            && (built.Ok? ==>
                  && built.value.amountHt == Cents(quote.totalHt * p / 100.0) - already
                  && built.value.situationPercent == Some(p))
  {
    PeriodIsAcceptedExactly(quote.totalHt, already, p);
    assert TargetCents(quote.totalHt, p) == Cents(quote.totalHt * p / 100.0);
    hide ResolveSituationPeriod, TargetCents, Cents, Round2, ToFixed2, Prorated, SingleLine;
  }

  lemma SituationAmountIs(target: int, already: int)
    ensures var amount := Round2(Max(0.0, Euros(target) - Euros(already)));
            && (amount <= 0.009 <==> target <= already)
            && (target > already ==> ToFixed2(amount) == target - already)
  {
    CentsOfEuros(target - already);
    CentsOfEuros(0);
  }

  /** A percent of at most two decimals has to be above the engaged share rounded to two decimals. */
  lemma SituationIsAcceptedByHundredths(quote: Quote, request: Request, p: real, already: int)
    requires request.kind.Situation? && request.situationPercent == Some(p) && WholeCents(p)
    ensures BuildInvoiceLinesFromQuote(quote, request, Euros(already)).Ok? <==>
              && quote.totalHt > 0.0 && 0.0 < p <= 100.0
              && Cents(p) > Cents(Euros(already) / quote.totalHt * 100.0)
              && Cents(quote.totalHt * p / 100.0) > already
  {
    SituationIsAcceptedExactly(quote, request, p, already);
    assert p == Euros(Cents(p));
    hide BuildInvoiceLinesFromQuote, Cents;
  }

  // ---------------------------------------------------------------------------------------------------
  // Requests by amount, and balances
  // ---------------------------------------------------------------------------------------------------

  /** The rate of a one-line invoice: one the quote uses, none of which carries a larger total, or 20 %. */
  ghost predicate IsMainRate(lines: seq<QuoteLine>, rate: TvaRate) {
    if exists i :: 0 <= i < |lines| && RateTotal(lines, lines[i].tvaRate) > -1.0 then
      && (exists i :: 0 <= i < |lines| && lines[i].tvaRate == rate)
      && forall i :: 0 <= i < |lines| ==> RateTotal(lines, lines[i].tvaRate) <= RateTotal(lines, rate)
    else rate == Tva20
  }

  /** Deposits, balances and situations by amount have one line: once the whole amount, at the main rate of the
      quote. */
  lemma OneLineForTheAmount(quote: Quote, request: Request, already: int)
    requires request.kind.Deposit? || request.kind.Balance?
             || (request.kind.Situation? && request.situationPercent.None?)
    requires BuildInvoiceLinesFromQuote(quote, request, Euros(already)).Ok?
    ensures var built := BuildInvoiceLinesFromQuote(quote, request, Euros(already)).value;
            && |built.lines| == 1 && built.lines[0].quantity == 1.0
            && built.lines[0].unitPriceHt == built.amountHt
            && IsMainRate(quote.lines, built.lines[0].tvaRate)
  {
    DominantTvaIsMaximal(quote.lines);
    hide DominantTva, RateTotal, RemainingQuoteHt, ImpliedSituationPercent, Cents;
  }

  lemma ImpliedIsShare(quoteTotalHt: real, already: int, amount: int)
    requires quoteTotalHt > 0.0
    ensures var share := Euros(already + amount) / quoteTotalHt * 100.0;
            var implied := ImpliedSituationPercent(quoteTotalHt, Euros(already), Euros(amount));
            implied <= 100.0 && (Near(implied, share, 0.005) || (implied == 100.0 && share >= 99.995))
  {
    assert Euros(already) + Euros(amount) == Euros(already + amount);
    Round2Error(Euros(already + amount) / quoteTotalHt * 100.0);
    hide Cents;
  }

  /** A situation by amount stores the percent its quote then stands at, to the nearest hundredth and at most 100; none
      for a share that rounds to zero and for a quote without amount. */
  lemma AmountStandsForShare(quote: Quote, request: Request, already: int)
    requires request.kind.Situation? && request.situationPercent.None?
    requires BuildInvoiceLinesFromQuote(quote, request, Euros(already)).Ok?
    ensures var built := BuildInvoiceLinesFromQuote(quote, request, Euros(already)).value;
            && (quote.totalHt <= 0.0 ==> built.situationPercent.None?)
            && (quote.totalHt > 0.0 ==>
                  var share := Euros(already + built.amountHt) / quote.totalHt * 100.0;
                  match built.situationPercent
                  case None => Near(0.0, share, 0.005)
                  case Some(p) => p <= 100.0 && (Near(p, share, 0.005) || (p == 100.0 && share >= 99.995)))
  {
    var amount := Cents(request.amountHt.value);
    CentsOfEuros(amount);
    if quote.totalHt > 0.0 {
      ImpliedIsShare(quote.totalHt, already, amount);
      hide ImpliedSituationPercent, RemainingQuoteHt, DominantTva, Cents;
    }
  }

  // ---------------------------------------------------------------------------------------------------
  // All requests
  // ---------------------------------------------------------------------------------------------------

  predicate FitsRemaining(quote: Quote, already: int, amountHt: Option<real>) {
    && amountHt.Some? && 1 <= Cents(amountHt.value)
    && (quote.totalHt <= 0.0 || already + Cents(amountHt.value) <= Cents(quote.totalHt))
  }

  /** When a request is accepted on a quote with `already` cents engaged. */
  predicate IsAcceptable(quote: Quote, request: Request, already: int) {
    match request.kind
    case Full => already <= 0
    case Balance => already < Cents(quote.totalHt)
    case Deposit => FitsRemaining(quote, already, request.amountHt)
    case Situation =>
      if request.situationPercent.None? then FitsRemaining(quote, already, request.amountHt)
      else
        var p := request.situationPercent.value;
        && quote.totalHt > 0.0 && 0.0 < p <= 100.0
        && p > Round2(Euros(already) / quote.totalHt * 100.0) + 0.009
        && already < Cents(quote.totalHt * p / 100.0)
    case CreditNote => false
  }

  /** What an acceptable request is billed for, in cents. */
  function BilledCents(quote: Quote, request: Request, already: int): int
    requires IsAcceptable(quote, request, already)
  {
    match request.kind
    case Full => Cents(LineSum(quote.lines))
    case Balance => Cents(quote.totalHt) - already
    case Deposit => Cents(request.amountHt.value)
    case Situation =>
      if request.situationPercent.None? then Cents(request.amountHt.value)
      else Cents(quote.totalHt * request.situationPercent.value / 100.0) - already
    case CreditNote => 0
  }

  /** Every kind of request is accepted exactly when it should be, and billed for the right number of cents. */
  lemma RequestIsAcceptedExactly(quote: Quote, request: Request, already: int)
    requires quote.lines != [] && !request.kind.CreditNote?
    ensures var built := BuildInvoiceLinesFromQuote(quote, request, Euros(already));
            && (built.Ok? <==> IsAcceptable(quote, request, already))
            && (built.Ok? ==> built.value.amountHt == BilledCents(quote, request, already))
  {
    hide Round2, RemainingQuoteHt, ResolveSituationPeriod, Prorated, LineSum, SingleLine, ImpliedSituationPercent;
    if request.kind.Full? {
      FullIsAcceptedExactly(quote, already);
    } else if request.kind.Balance? {
      BalanceTakesTheRemainder(quote, already);
    } else if request.kind.Situation? && request.situationPercent.Some? {
      SituationIsAcceptedExactly(quote, request, request.situationPercent.value, already);
    } else if request.amountHt.Some? {
      AmountRequestsAreExact(quote, request, already);
    } else if request.kind.Deposit? {
      CentsOfEuros(0);
    }
  }

  lemma FullIsAcceptedExactly(quote: Quote, already: int)
    requires quote.lines != []
    ensures BuildFull(quote, Euros(already)).Ok? <==> already <= 0
    ensures already <= 0 ==> BuildFull(quote, Euros(already)).value.amountHt == Cents(LineSum(quote.lines))
  {
    CentsOfEuros(Cents(LineSum(quote.lines)));
  }
}
