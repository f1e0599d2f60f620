// The invoicing rules of packages/shared/src/integrations.ts: what a quote still allows to invoice, what
// one invoice of each kind amounts to, and which VAT rate a one-line invoice carries.
// Invoice labels are not modelled.
module Invoicing {
  import opened Wrappers
  import opened Money

  datatype TvaRate = Tva0 | Tva5_5 | Tva10 | Tva20
  {
    function Percent(): real {
      match this
      case Tva0 => 0.0
      case Tva5_5 => 5.5
      case Tva10 => 10.0
      case Tva20 => 20.0
    }
  }

  /** A line of an invoice, or of a quote as invoicing reads it, its unit price cut to cents. */
  datatype QuoteLine = QuoteLine(quantity: real, unitPriceHt: int, tvaRate: TvaRate)
  {
    function Ht(): real {
      Times(quantity, Euros(unitPriceHt))
    }
  }

  datatype InvoiceKind = Full | Situation | Deposit | Balance | CreditNote

  datatype InvoiceStatus = Draft | Finalized | Paid | Cancelled

  datatype Invoice = Invoice(
    quoteId: nat,
    kind: InvoiceKind,
    status: InvoiceStatus,
    amountHt: int,
    lines: seq<QuoteLine>,
    situationNumber: Option<int>,
    situationPercent: Option<real>)

  /** Every reason for which an invoicing request is turned down. */
  datatype Refusal =
    | PercentOutOfRange
    | QuoteWithoutAmount
    | PercentNotAboveInvoiced
    | SituationAmountTooSmall
    | ExceedsRemaining
    | AlreadyInvoiced
    | NothingRemaining
    | DepositAmountMissing
    | SituationInputMissing
    | NothingToCredit
    | CreditAmountMissing
    | CreditExceedsOriginal
    | CaseNotInvoiceable
    | QuoteNotFound
    | QuoteWithoutLines
    | InvoiceNotFound
    | WrongStatus

  // ---------------------------------------------------------------------------------------------------
  // Sums of stored amounts
  // ---------------------------------------------------------------------------------------------------

  function LineSum(lines: seq<QuoteLine>): real {
    if lines == [] then 0.0 else lines[0].Ht() + LineSum(lines[1..])
  }

  /** The filters the source applies to a list of invoices. */
  datatype Selection = Active | OnQuote(quoteId: nat) | Issued | IssuedOn(quoteId: nat)
  {
    predicate Has(invoice: Invoice) {
      match this
      case Active => !invoice.status.Cancelled?
      case OnQuote(id) => invoice.quoteId == id && !invoice.status.Cancelled?
      case Issued => invoice.status.Finalized? || invoice.status.Paid?
      case IssuedOn(id) => invoice.quoteId == id && (invoice.status.Finalized? || invoice.status.Paid?)
    }
  }

  function Select(invoices: seq<Invoice>, selection: Selection): seq<Invoice> {
    if invoices == [] then []
    else (if selection.Has(invoices[0]) then [invoices[0]] else []) + Select(invoices[1..], selection)
  }

  /** The sum that the source rounds: every amount that is not cancelled, in euros. */
  function SumOfAmounts(invoices: seq<Invoice>): real {
    if invoices == [] then 0.0
    else (if invoices[0].status.Cancelled? then 0.0 else Euros(invoices[0].amountHt)) + SumOfAmounts(invoices[1..])
  }

  function SumInvoiceAmountsHt(invoices: seq<Invoice>): real {
    Round2(SumOfAmounts(invoices))
  }

  /** Amounts engaged on a quote: drafts, finalized and paid invoices, less the credit notes. */
  function QuoteInvoicedHt(invoices: seq<Invoice>, quoteId: nat): real {
    SumInvoiceAmountsHt(Select(invoices, OnQuote(quoteId)))
  }

  /** Sum in cents of the selected invoices, by direct recursion. */
  function TotalCents(invoices: seq<Invoice>, selection: Selection): int {
    if invoices == [] then 0
    else (if selection.Has(invoices[0]) then invoices[0].amountHt else 0) + TotalCents(invoices[1..], selection)
  }

  /** Filtering, summing euros and rounding loses nothing: the sum is exact to the cent. */
  lemma {:induction false} SelectedSumIsExact(invoices: seq<Invoice>, selection: Selection)
    ensures SumOfAmounts(Select(invoices, selection)) == Euros(TotalCents(invoices, selection))
    ensures SumInvoiceAmountsHt(Select(invoices, selection)) == Euros(TotalCents(invoices, selection))
  {
    if invoices != [] {
      SelectedSumIsExact(invoices[1..], selection);
      var tail := Select(invoices[1..], selection);
      if selection.Has(invoices[0]) {
        assert ([invoices[0]] + tail)[1..] == tail;
      } else {
        assert [] + tail == tail;
      }
    }
    CentsOfEuros(TotalCents(invoices, selection));
  }

  lemma {:induction false} TotalOfAppended(invoices: seq<Invoice>, added: Invoice, selection: Selection)
    ensures TotalCents(invoices + [added], selection)
         == TotalCents(invoices, selection) + (if selection.Has(added) then added.amountHt else 0)
  {
    if invoices != [] {
      TotalOfAppended(invoices[1..], added, selection);
      assert (invoices + [added])[1..] == invoices[1..] + [added];
    }
  }

  lemma {:induction false} TotalOfUpdated(invoices: seq<Invoice>, i: nat, changed: Invoice, selection: Selection)
    requires i < |invoices|
    ensures TotalCents(invoices[i := changed], selection)
         == TotalCents(invoices, selection)
            - (if selection.Has(invoices[i]) then invoices[i].amountHt else 0)
            + (if selection.Has(changed) then changed.amountHt else 0)
  {
    if i == 0 {
      assert invoices[0 := changed][1..] == invoices[1..];
    } else {
      TotalOfUpdated(invoices[1..], i - 1, changed, selection);
      assert invoices[i := changed][1..] == invoices[1..][i - 1 := changed];
    }
  }

  // ---------------------------------------------------------------------------------------------------
  // Remaining amount and progress
  // ---------------------------------------------------------------------------------------------------

  function RemainingQuoteHt(quoteTotalHt: real, alreadyInvoicedHt: real): real {
    Round2(Max(0.0, quoteTotalHt - alreadyInvoicedHt))
  }

  function InvoicedQuotePercent(quoteTotalHt: real, alreadyInvoicedHt: real): real {
    if quoteTotalHt <= 0.0 then 0.0 else Round2(alreadyInvoicedHt / quoteTotalHt * 100.0)
  }

  datatype Period = Period(amountHt: real, situationPercent: real, periodPercent: real)

  /** The amount of the quote that a cumulative progress of `percent` reaches, in cents. */
  function TargetCents(quoteTotalHt: real, percent: real): int {
    Cents(quoteTotalHt * percent / 100.0)
  }

  function TargetHt(quoteTotalHt: real, percent: real): real {
    Euros(TargetCents(quoteTotalHt, percent))
  }

  function ResolveSituationPeriod(quoteTotalHt: real, alreadyInvoicedHt: real, cumulativePercent: real)
    : Result<Period, Refusal>
  {
    var invoicedPct := InvoicedQuotePercent(quoteTotalHt, alreadyInvoicedHt);
    var amount := Round2(Max(0.0, TargetHt(quoteTotalHt, cumulativePercent) - alreadyInvoicedHt));
    if cumulativePercent <= 0.0 || cumulativePercent > 100.0 then Err(PercentOutOfRange)
    else if quoteTotalHt <= 0.0 then Err(QuoteWithoutAmount)
    else if cumulativePercent <= invoicedPct + 0.009 then Err(PercentNotAboveInvoiced)
    else if amount <= 0.009 then Err(SituationAmountTooSmall)
    else if amount > RemainingQuoteHt(quoteTotalHt, alreadyInvoicedHt) + 0.009 then Err(ExceedsRemaining)
    else Ok(Period(amount, cumulativePercent, InvoicedQuotePercent(quoteTotalHt, amount)))
  }

  function ImpliedSituationPercent(quoteTotalHt: real, alreadyInvoicedHt: real, periodAmountHt: real): real {
    if quoteTotalHt <= 0.0 then 0.0
    else
      var percent := InvoicedQuotePercent(quoteTotalHt, alreadyInvoicedHt + periodAmountHt);
      if percent < 100.0 then percent else 100.0
  }

  predicate WithinRemaining(amount: real, remaining: real, quoteTotalHt: real) {
    quoteTotalHt <= 0.0 || amount <= remaining + 0.009
  }

  lemma TargetWithinTotal(quoteTotalHt: real, p: real)
    requires quoteTotalHt > 0.0 && p <= 100.0
    ensures TargetHt(quoteTotalHt, p) <= Round2(quoteTotalHt)
  {
    assert quoteTotalHt * p <= quoteTotalHt * 100.0;
    Round2Monotone(quoteTotalHt * p / 100.0, quoteTotalHt);
  }

  /** Whatever was invoiced before, an accepted situation at `p` percent brings the engaged total to exactly
      the rounded share `p` of the quote. */
  lemma SituationReachesTarget(quoteTotalHt: real, already: int, p: real)
    requires ResolveSituationPeriod(quoteTotalHt, Euros(already), p).Ok?
    ensures var amount := ResolveSituationPeriod(quoteTotalHt, Euros(already), p).value.amountHt;
            && amount >= 0.01
            && Euros(already) + amount == TargetHt(quoteTotalHt, p) <= Round2(quoteTotalHt)
  {
    var target := TargetCents(quoteTotalHt, p);
    CentsOfEuros(target - already);
    assert Euros(target) - Euros(already) == Euros(target - already);
    TargetWithinTotal(quoteTotalHt, p);
  }

  lemma TargetGapWithinRemaining(quoteTotalHt: real, alreadyInvoicedHt: real, target: int)
    requires WholeCents(quoteTotalHt) || WholeCents(alreadyInvoicedHt)
    requires Euros(target) <= Round2(quoteTotalHt)
    ensures Round2(Max(0.0, Euros(target) - alreadyInvoicedHt))
         <= RemainingQuoteHt(quoteTotalHt, alreadyInvoicedHt)
  {
    if WholeCents(quoteTotalHt) {
      Round2Monotone(Max(0.0, Euros(target) - alreadyInvoicedHt), Max(0.0, quoteTotalHt - alreadyInvoicedHt));
    } else {
      var already := Cents(alreadyInvoicedHt);
      RemainingIsExact(quoteTotalHt, already);
      RemainingIsExact(Euros(target), already);
      CentsOfEuros(target);
    }
  }

  /** The last guard of a percent situation can never fire when either the quote total or the engaged total
      is a whole number of cents, which stored amounts always are. */
  lemma SituationNeverExceedsRemaining(quoteTotalHt: real, alreadyInvoicedHt: real, p: real)
    requires WholeCents(quoteTotalHt) || WholeCents(alreadyInvoicedHt)
    ensures ResolveSituationPeriod(quoteTotalHt, alreadyInvoicedHt, p) != Err(ExceedsRemaining)
  {
    if 0.0 < p <= 100.0 && quoteTotalHt > 0.0 {
      TargetWithinTotal(quoteTotalHt, p);
      TargetGapWithinRemaining(quoteTotalHt, alreadyInvoicedHt, TargetCents(quoteTotalHt, p));
    }
  }

  /** An engaged total, not in whole cents, and a percent for which the guard fires on a quote that rounds up. */
  function OffendingEngaged(quoteTotalHt: real): real {
    0.005 - (Round2(quoteTotalHt) - quoteTotalHt) / 2.0
  }

  lemma RoundedUpExceedsRemaining(quoteTotalHt: real)
    requires 0.0 < quoteTotalHt < Round2(quoteTotalHt)
    ensures 0.0 <= OffendingEngaged(quoteTotalHt)
    ensures ResolveSituationPeriod(quoteTotalHt, OffendingEngaged(quoteTotalHt), 100.0) == Err(ExceedsRemaining)
  {
    var already, cents := OffendingEngaged(quoteTotalHt), Cents(quoteTotalHt);
    assert TargetHt(quoteTotalHt, 100.0) == Euros(cents);
    assert Cents(Max(0.0, Euros(cents) - already)) == cents;
    assert Cents(Max(0.0, quoteTotalHt - already)) == cents - 1;
    HalfEngagedIsHalfway(already, quoteTotalHt);
  }

  lemma HalfEngagedIsHalfway(already: real, quoteTotalHt: real)
    requires 0.0 < quoteTotalHt && 0.0 <= already <= quoteTotalHt / 2.0
    ensures InvoicedQuotePercent(quoteTotalHt, already) <= 50.0
  {
    QuotientTimes(already, quoteTotalHt);
    var share := already / quoteTotalHt;
    ProductDistributes(share, 0.5, quoteTotalHt);
    ProductSign(share - 0.5, quoteTotalHt);
    Round2Monotone(share * 100.0, 50.0);
    CentsOfEuros(5000);
  }

  /** For engaged totals of any precision, the guard can fire on exactly the quotes whose total rounds up. */
  lemma SituationExceedsRemainingExactly(quoteTotalHt: real)
    requires quoteTotalHt > 0.0
    ensures Round2(quoteTotalHt) > quoteTotalHt <==>
              exists already, p :: already >= 0.0
                && ResolveSituationPeriod(quoteTotalHt, already, p) == Err(ExceedsRemaining)
  {
    if Round2(quoteTotalHt) > quoteTotalHt {
      RoundedUpExceedsRemaining(quoteTotalHt);
    } else {
      forall already, p ensures ResolveSituationPeriod(quoteTotalHt, already, p) != Err(ExceedsRemaining) {
        if 0.0 < p <= 100.0 {
          TargetWithinTotal(quoteTotalHt, p);
          Round2Monotone(Max(0.0, TargetHt(quoteTotalHt, p) - already), Max(0.0, quoteTotalHt - already));
        }
      }
    }
  }

  // ---------------------------------------------------------------------------------------------------
  // VAT rate of a one-line invoice
  // ---------------------------------------------------------------------------------------------------

  /** Exact total of the lines that carry `rate`. */
  function RateTotal(lines: seq<QuoteLine>, rate: TvaRate): real {
    if lines == [] then 0.0
    else
      var last := lines[|lines| - 1];
      RateTotal(lines[..|lines| - 1], rate) + (if last.tvaRate == rate then last.Ht() else 0.0)
  }

  /** The rates in use, in order of first use: the key order of the source's Map. */
  function RatesInUse(lines: seq<QuoteLine>): seq<TvaRate> {
    if lines == [] then []
    else
      var before := RatesInUse(lines[..|lines| - 1]);
      var rate := lines[|lines| - 1].tvaRate;
      if rate in before then before else before + [rate]
  }

  /** The first of `rates` whose total exceeds that of every earlier one and -1, or 20 % when none does. */
  function BestRate(lines: seq<QuoteLine>, rates: seq<TvaRate>): (TvaRate, real) {
    if rates == [] then (Tva20, -1.0)
    else
      var (best, bestHt) := BestRate(lines, rates[..|rates| - 1]);
      var rate := rates[|rates| - 1];
      if RateTotal(lines, rate) > bestHt then (rate, RateTotal(lines, rate)) else (best, bestHt)
  }

  function DominantTva(lines: seq<QuoteLine>): TvaRate {
    BestRate(lines, RatesInUse(lines)).0
  }

  lemma {:induction false} RatesInUseAreThoseOfLines(lines: seq<QuoteLine>, rate: TvaRate)
    ensures rate in RatesInUse(lines) <==> exists i :: 0 <= i < |lines| && lines[i].tvaRate == rate
  {
    if lines != [] {
      var front := lines[..|lines| - 1];
      RatesInUseAreThoseOfLines(front, rate);
      assert forall i :: 0 <= i < |front| ==> front[i] == lines[i];
      if rate in RatesInUse(front) {
        var i :| 0 <= i < |front| && front[i].tvaRate == rate;
        assert lines[i].tvaRate == rate;
      }
    }
  }

  lemma {:induction false} BestRateIsMaximal(lines: seq<QuoteLine>, rates: seq<TvaRate>)
    ensures var (best, bestHt) := BestRate(lines, rates);
            && (forall r <- rates :: RateTotal(lines, r) <= bestHt)
            && (if exists r <- rates :: RateTotal(lines, r) > -1.0
                then best in rates && bestHt == RateTotal(lines, best)
                else best == Tva20 && bestHt == -1.0)
  {
    if rates != [] {
      var front := rates[..|rates| - 1];
      BestRateIsMaximal(lines, front);
      assert rates == front + [rates[|rates| - 1]];
    }
  }

  /** The rate of a deposit, balance or situation line is one the quote uses, and no other rate of the quote
      carries a larger total; 20 % stands in for an empty quote and when every total is at or below -1. */
  lemma DominantTvaIsMaximal(lines: seq<QuoteLine>)
    ensures (exists i :: 0 <= i < |lines| && RateTotal(lines, lines[i].tvaRate) > -1.0) ==>
              && (exists i :: 0 <= i < |lines| && lines[i].tvaRate == DominantTva(lines))
              && forall i :: 0 <= i < |lines| ==>
                   RateTotal(lines, lines[i].tvaRate) <= RateTotal(lines, DominantTva(lines))
    ensures !(exists i :: 0 <= i < |lines| && RateTotal(lines, lines[i].tvaRate) > -1.0) ==>
              DominantTva(lines) == Tva20
  {
    BestRateIsMaximal(lines, RatesInUse(lines));
    forall r: TvaRate
      ensures r in RatesInUse(lines) <==> exists i :: 0 <= i < |lines| && lines[i].tvaRate == r
    {
      RatesInUseAreThoseOfLines(lines, r);
    }
    forall i | 0 <= i < |lines| ensures lines[i].tvaRate in RatesInUse(lines) {}
  }

  /** The two loops of the source: `keys` and `byRate` are its insertion-ordered Map. */
  method ComputeDominantTva(lines: seq<QuoteLine>) returns (best: TvaRate)
    ensures best == DominantTva(lines)
  {
    if |lines| == 0 {
      return Tva20;
    }
    var keys: seq<TvaRate>, byRate: map<TvaRate, real> := [], map[];
    for i := 0 to |lines|
      invariant keys == RatesInUse(lines[..i])
      invariant forall r: TvaRate :: r in byRate <==> r in keys
      invariant forall r <- keys :: byRate[r] == RateTotal(lines[..i], r)
      invariant forall r: TvaRate :: r !in keys ==> RateTotal(lines[..i], r) == 0.0
    {
      assert lines[..i + 1][..i] == lines[..i];
      var rate, ht := lines[i].tvaRate, lines[i].Ht();
      if rate !in byRate {
        keys := keys + [rate];
      }
      byRate := byRate[rate := (if rate in byRate then byRate[rate] else 0.0) + ht];
    }
    assert lines[..|lines|] == lines;
    best := Tva20;
    var bestHt := -1.0;
    for j := 0 to |keys|
      invariant (best, bestHt) == BestRate(lines, keys[..j])
    {
      assert keys[..j + 1][..j] == keys[..j];
      if byRate[keys[j]] > bestHt {
        best, bestHt := keys[j], byRate[keys[j]];
      }
    }
    assert keys[..|keys|] == keys;
  }

  // ---------------------------------------------------------------------------------------------------
  // Building an invoice from a quote
  // ---------------------------------------------------------------------------------------------------

  datatype Quote = Quote(totalHt: real, lines: seq<QuoteLine>)

  /** The numbers typed by the user; None stands for an absent or non-finite one. */
  datatype Request = Request(kind: InvoiceKind, situationPercent: Option<real>, amountHt: Option<real>)

  datatype Built = Built(lines: seq<QuoteLine>, amountHt: int, situationPercent: Option<real>)

  function SingleLine(quote: Quote, amountHt: int): seq<QuoteLine> {
    [QuoteLine(1.0, amountHt, DominantTva(quote.lines))]
  }

  /** The quote lines with their quantities scaled by `factor` and rounded to two decimals. */
  function Prorated(lines: seq<QuoteLine>, factor: real): (scaled: seq<QuoteLine>)
    ensures |scaled| == |lines|
  {
    if lines == [] then []
    else [lines[0].(quantity := Round2(Times(lines[0].quantity, factor)))] + Prorated(lines[1..], factor)
  }

  function BuildFull(quote: Quote, already: real): Result<Built, Refusal> {
    if already > 0.009 then Err(AlreadyInvoiced)
    else if quote.lines == [] then
      Ok(Built([QuoteLine(1.0, 0, Tva20)], ToFixed2(quote.totalHt), None))
    else
      Ok(Built(quote.lines, ToFixed2(Round2(LineSum(quote.lines))), None))
  }

  function BuildBalance(quote: Quote, already: real): Result<Built, Refusal> {
    var remaining := RemainingQuoteHt(quote.totalHt, already);
    if remaining <= 0.009 then Err(NothingRemaining)
    else Ok(Built(SingleLine(quote, ToFixed2(remaining)), ToFixed2(remaining), None))
  }

  function BuildDeposit(quote: Quote, already: real, amountHt: Option<real>): Result<Built, Refusal> {
    var amount := Round2(if amountHt.Some? then amountHt.value else 0.0);
    if amount <= 0.0 then Err(DepositAmountMissing)
    else if !WithinRemaining(amount, RemainingQuoteHt(quote.totalHt, already), quote.totalHt) then
      Err(ExceedsRemaining)
    else
      Ok(Built(SingleLine(quote, ToFixed2(amount)), ToFixed2(amount), None))
  }

  function BuildSituationByPercent(quote: Quote, already: real, percent: real): Result<Built, Refusal> {
    match ResolveSituationPeriod(quote.totalHt, already, percent)
    case Err(refusal) => Err(refusal)
    case Ok(Period(amount, p, _)) =>
      var lines := if quote.lines != [] && quote.totalHt > 0.0
                   then Prorated(quote.lines, amount / quote.totalHt)
                   else SingleLine(quote, ToFixed2(amount));
      Ok(Built(lines, ToFixed2(amount), Some(p)))
  }

  function BuildSituationByAmount(quote: Quote, already: real, amountHt: real): Result<Built, Refusal> {
    var amount := Round2(amountHt);
    if amount <= 0.0 then Err(SituationAmountTooSmall)
    else if !WithinRemaining(amount, RemainingQuoteHt(quote.totalHt, already), quote.totalHt) then
      Err(ExceedsRemaining)
    else
      var implied := ImpliedSituationPercent(quote.totalHt, already, amount);
      Ok(Built(SingleLine(quote, ToFixed2(amount)), ToFixed2(amount),
               if implied == 0.0 then None else Some(implied)))
  }

  function BuildInvoiceLinesFromQuote(quote: Quote, request: Request, already: real)
    : Result<Built, Refusal>
    requires !request.kind.CreditNote?
  {
    match request.kind
    case Full => BuildFull(quote, already)
    case Balance => BuildBalance(quote, already)
    case Deposit => BuildDeposit(quote, already, request.amountHt)
    case Situation =>
      if request.situationPercent.Some? then
        BuildSituationByPercent(quote, already, request.situationPercent.value)
      else if request.amountHt.Some? then
        BuildSituationByAmount(quote, already, request.amountHt.value)
      else
        Err(SituationInputMissing)
  }

  // ---------------------------------------------------------------------------------------------------
  // What an accepted request does to the engaged total
  // ---------------------------------------------------------------------------------------------------

  /** What may be engaged on a quote at most, in cents. */
  function Cap(quote: Quote): int {
    Cents(quote.totalHt)
  }

  /** The quotes on which no run of requests can invoice too much or issue an empty invoice: the total is
      positive and not rounded up, and the lines sum to at least one cent and at most the total. */
  predicate SafeQuote(quote: Quote) {
    && 0.01 <= Round2(quote.totalHt) <= quote.totalHt
    && quote.lines != []
    && 0.01 <= Round2(LineSum(quote.lines)) <= quote.totalHt
  }

  lemma RemainingIsExact(quoteTotalHt: real, already: int)
    ensures RemainingQuoteHt(quoteTotalHt, Euros(already))
         == Euros(if Cents(quoteTotalHt) > already then Cents(quoteTotalHt) - already else 0)
  {
    CentsShift(quoteTotalHt, already);
    CentsOfEuros(0);
  }

  /** A deposit or a situation by amount is accepted exactly for an amount between one cent and what remains,
      and is then invoiced for that amount; a quote without amount sets no upper bound. */
  lemma AmountRequestsAreExact(quote: Quote, request: Request, already: int)
    requires request.amountHt.Some?
    requires request.kind.Deposit? || (request.kind.Situation? && request.situationPercent.None?)
    ensures var amount := Cents(request.amountHt.value);
            var built := BuildInvoiceLinesFromQuote(quote, request, Euros(already));
            && (built.Ok? <==> 1 <= amount && (quote.totalHt <= 0.0 || already + amount <= Cap(quote)))
            && (built.Ok? ==> built.value.amountHt == amount)
  {
    RemainingIsExact(quote.totalHt, already);
    CentsOfEuros(Cents(request.amountHt.value));
  }

  /** On a safe quote every accepted request is for at least one cent and stays within the cap. */
  lemma AcceptedStaysWithinCap(quote: Quote, request: Request, already: int)
    requires SafeQuote(quote) && !request.kind.CreditNote? && already <= Cap(quote)
    requires BuildInvoiceLinesFromQuote(quote, request, Euros(already)).Ok?
    ensures var amount := BuildInvoiceLinesFromQuote(quote, request, Euros(already)).value.amountHt;
            1 <= amount && already + amount <= Cap(quote)
  {
    var built := BuildInvoiceLinesFromQuote(quote, request, Euros(already)).value;
    RemainingIsExact(quote.totalHt, already);
    if request.kind.Full? {
      CentsOfEuros(Cents(LineSum(quote.lines)));
      Round2Monotone(Round2(LineSum(quote.lines)), quote.totalHt);
    } else if request.kind.Situation? && request.situationPercent.Some? {
      var p := request.situationPercent.value;
      SituationReachesTarget(quote.totalHt, already, p);
      var amount := ResolveSituationPeriod(quote.totalHt, Euros(already), p).value.amountHt;
      CentsOfEuros(Cents(Max(0.0, TargetHt(quote.totalHt, p) - Euros(already))));
      assert built.amountHt == ToFixed2(amount);
    } else if request.kind.Balance? {
      CentsOfEuros(Cap(quote) - already);
    } else {
      CentsOfEuros(Cents(request.amountHt.value));
    }
  }

  /** Whatever is engaged, no accepted request is for a negative amount, unless it is a full invoice on lines that
      sum below zero. */
  lemma AcceptedIsNonNegative(quote: Quote, request: Request, already: int)
    requires !request.kind.CreditNote? && quote.lines != []
    requires Cents(LineSum(quote.lines)) >= 0 || already >= 1
    requires BuildInvoiceLinesFromQuote(quote, request, Euros(already)).Ok?
    ensures BuildInvoiceLinesFromQuote(quote, request, Euros(already)).value.amountHt >= 0
  {
    hide RemainingQuoteHt, InvoicedQuotePercent;
    if request.kind.Full? {
      CentsOfEuros(Cents(LineSum(quote.lines)));
    }
  }

  /** On a safe quote no single invoice can be for more than the quote exactly as long as the engaged total is not
      below zero. */
  lemma AcceptedAmountsBoundedExactly(quote: Quote, already: int)
    requires SafeQuote(quote)
    ensures already >= 0 <==>
              forall request: Request | !request.kind.CreditNote?
                && BuildInvoiceLinesFromQuote(quote, request, Euros(already)).Ok? ::
                BuildInvoiceLinesFromQuote(quote, request, Euros(already)).value.amountHt <= Cap(quote)
  {
    if already >= 0 {
      forall request: Request | !request.kind.CreditNote?
        && BuildInvoiceLinesFromQuote(quote, request, Euros(already)).Ok?
        ensures BuildInvoiceLinesFromQuote(quote, request, Euros(already)).value.amountHt <= Cap(quote)
      {
        AmountWithinQuote(quote, request, already);
      }
    } else {
      var request := Request(Balance, None, None);
      BalanceTakesTheRemainder(quote, already);
      assert BuildInvoiceLinesFromQuote(quote, request, Euros(already)) == BuildBalance(quote, Euros(already));
    }
  }

  lemma AmountWithinQuote(quote: Quote, request: Request, already: int)
    requires SafeQuote(quote) && !request.kind.CreditNote? && already >= 0
    requires BuildInvoiceLinesFromQuote(quote, request, Euros(already)).Ok?
    ensures BuildInvoiceLinesFromQuote(quote, request, Euros(already)).value.amountHt <= Cap(quote)
  {
    CentsOfEuros(Cap(quote));
    if already <= Cap(quote) {
      AcceptedStaysWithinCap(quote, request, already);
    } else {
      ClosedQuoteRefusesEverything(quote, request, already);
    }
  }

  /** A balance invoice is accepted exactly when at least one cent remains, and then takes all of it. */
  lemma BalanceTakesTheRemainder(quote: Quote, already: int)
    ensures BuildBalance(quote, Euros(already)).Ok? <==> already < Cap(quote)
    ensures already < Cap(quote) ==>
              && BuildBalance(quote, Euros(already)).value.amountHt == Cap(quote) - already
              && RemainingQuoteHt(quote.totalHt, Euros(Cap(quote))) == 0.0
  {
    RemainingIsExact(quote.totalHt, already);
    RemainingIsExact(quote.totalHt, Cap(quote));
    CentsOfEuros(Cap(quote) - already);
  }

  /** Once the cap is engaged, every kind of request is refused. */
  lemma ClosedQuoteRefusesEverything(quote: Quote, request: Request, already: int)
    requires !request.kind.CreditNote? && 1 <= Cap(quote) <= already
    ensures BuildInvoiceLinesFromQuote(quote, request, Euros(already)).Err?
  {
    RemainingIsExact(quote.totalHt, already);
    if request.kind.Situation? && request.situationPercent.Some? {
      var p := request.situationPercent.value;
      if ResolveSituationPeriod(quote.totalHt, Euros(already), p).Ok? {
        SituationReachesTarget(quote.totalHt, already, p);
      }
    }
  }
}
