// Invoice lines against stated amounts: packages/shared/src/billing.ts and the proration of
// packages/shared/src/integrations.ts.
module InvoiceLines {
  import opened Wrappers
  import opened Money
  import opened Invoicing

  // ---------------------------------------------------------------------------------------------------
  // Totals recomputed from lines
  // ---------------------------------------------------------------------------------------------------

  function LineAmountTtc(line: QuoteLine): real {
    Round2(Times(Round2(line.Ht()), 1.0 + line.tvaRate.Percent() / 100.0))
  }

  function SumTtc(lines: seq<QuoteLine>): real {
    if lines == [] then 0.0 else LineAmountTtc(lines[0]) + SumTtc(lines[1..])
  }

  datatype Totals = Totals(amountHt: int, amountTtc: int)

  function InvoiceTotalsFromLines(lines: seq<QuoteLine>): Totals {
    Totals(ToFixed2(Round2(LineSum(lines))), ToFixed2(Round2(SumTtc(lines))))
  }

  // ---------------------------------------------------------------------------------------------------
  // Credit notes
  // ---------------------------------------------------------------------------------------------------

  /** The lines of a credit note: same quantities, unit prices negated, scaled and rounded. */
  function CreditLines(lines: seq<QuoteLine>, ratio: real): (credited: seq<QuoteLine>)
    ensures |credited| == |lines|
  {
    if lines == [] then []
    else
      [lines[0].(unitPriceHt := ToFixed2(Round2(Times(-Euros(lines[0].unitPriceHt), ratio))))]
      + CreditLines(lines[1..], ratio)
  }

  function BuildCreditNoteLines(originalLines: seq<QuoteLine>, originalAmountHt: real, creditAmountHt: Option<real>)
    : Result<Built, Refusal>
  {
    var originalHt := Round2(originalAmountHt);
    var creditHt := Round2(if creditAmountHt.Some? then creditAmountHt.value else originalHt);
    if originalHt <= 0.009 then Err(NothingToCredit)
    else if creditHt <= 0.0 then Err(CreditAmountMissing)
    else if creditHt > originalHt + 0.009 then Err(CreditExceedsOriginal)
    else Ok(Built(CreditLines(originalLines, creditHt / originalHt), ToFixed2(-creditHt), None))
  }

  // ---------------------------------------------------------------------------------------------------
  // Lines against the stated amount
  // ---------------------------------------------------------------------------------------------------

  function SumAbsPrices(lines: seq<QuoteLine>): real {
    if lines == [] then 0.0 else Abs(Euros(lines[0].unitPriceHt)) + SumAbsPrices(lines[1..])
  }

  function SumAbsQuantities(lines: seq<QuoteLine>): real {
    if lines == [] then 0.0 else Abs(lines[0].quantity) + SumAbsQuantities(lines[1..])
  }

  /** Except for a situation by percent, the lines of an accepted invoice sum to its amount to the cent. */
  lemma LinesSumToAmount(quote: Quote, request: Request, already: real)
    requires !request.kind.CreditNote? && quote.lines != []
    requires request.kind.Situation? ==> request.situationPercent.None?
    requires BuildInvoiceLinesFromQuote(quote, request, already).Ok?
    ensures var built := BuildInvoiceLinesFromQuote(quote, request, already).value;
            InvoiceTotalsFromLines(built.lines).amountHt == built.amountHt
  {
    var built := BuildInvoiceLinesFromQuote(quote, request, already).value;
    if !request.kind.Full? {
      assert LineSum(built.lines) == Euros(built.amountHt) by {
        assert built.lines[1..] == [];
      }
    }
    CentsOfEuros(Cents(LineSum(built.lines)));
    CentsOfEuros(built.amountHt);
  }

  /** One line of a scaled sum. */
  lemma ScaledSum(x: real, factor: real, weight: real, rest: real)
    ensures Times(factor, Times(x, weight) + rest) == Times(Times(x, factor), weight) + Times(factor, rest)
  {
  }

  /** Scaling the quantities and rounding them drifts by at most half a hundredth per unit price. */
  lemma {:induction false} ProrationDrift(lines: seq<QuoteLine>, factor: real)
    ensures Near(LineSum(Prorated(lines, factor)), Times(factor, LineSum(lines)), 0.005 * SumAbsPrices(lines))
  {
    if lines != [] {
      hide Round2, Times;
      var line, rest := lines[0], lines[1..];
      ProrationDrift(rest, factor);
      RoundedFactorDrift(Times(line.quantity, factor), Euros(line.unitPriceHt));
      ScaledSum(line.quantity, factor, Euros(line.unitPriceHt), LineSum(rest));
      assert LineSum(lines) == Times(line.quantity, Euros(line.unitPriceHt)) + LineSum(rest);
      assert Prorated(lines, factor)[1..] == Prorated(rest, factor);
    }
  }

  lemma ShareOfGap(factor: real, amount: real, total: real, sum: real)
    requires factor >= 0.0 && amount == Times(factor, total)
    ensures Near(Times(factor, sum), amount, Times(factor, Abs(sum - total)))
  {
    assert Times(factor, sum) - amount == Times(factor, sum - total);
    AbsProduct(factor, sum - total);
  }

  lemma ProratedSumDrift(lines: seq<QuoteLine>, factor: real, amount: real, total: real)
    requires factor >= 0.0 && amount == Times(factor, total)
    ensures Near(LineSum(Prorated(lines, factor)), amount,
                 0.005 * SumAbsPrices(lines) + Times(factor, Abs(LineSum(lines) - total)))
  {
    hide Times;
    ProrationDrift(lines, factor);
    ShareOfGap(factor, amount, total, LineSum(lines));
  }

  lemma RecomputedHtDrift(lines: seq<QuoteLine>)
    ensures Euros(InvoiceTotalsFromLines(lines).amountHt) == Round2(LineSum(lines))
    ensures Near(Euros(InvoiceTotalsFromLines(lines).amountHt), LineSum(lines), 0.005)
  {
    CentsOfEuros(Cents(LineSum(lines)));
    Round2Error(LineSum(lines));
  }

  lemma SituationByPercentIsProrated(quote: Quote, already: int, percent: real)
    requires quote.lines != [] && BuildSituationByPercent(quote, Euros(already), percent).Ok?
    ensures var built := BuildSituationByPercent(quote, Euros(already), percent).value;
            var factor := Euros(built.amountHt) / quote.totalHt;
            && quote.totalHt > 0.0 && factor >= 0.0
            && Euros(built.amountHt) == Times(factor, quote.totalHt)
            && built.lines == Prorated(quote.lines, factor)
  {
    hide Times, Prorated, InvoicedQuotePercent, RemainingQuoteHt;
    CentsOfEuros(Cents(Max(0.0, TargetHt(quote.totalHt, percent) - Euros(already))));
    var built := BuildSituationByPercent(quote, Euros(already), percent).value;
    QuotientTimes(Euros(built.amountHt), quote.totalHt);
  }

  /** The lines of a situation by percent stay close to its stated amount: half a hundredth per unit price,
      plus the invoiced share of whatever the quote total and its lines differed by. */
  lemma SituationLinesDrift(quote: Quote, already: int, percent: real)
    requires quote.lines != [] && BuildSituationByPercent(quote, Euros(already), percent).Ok?
    ensures var built := BuildSituationByPercent(quote, Euros(already), percent).value;
            var amount := Euros(built.amountHt);
            var bound := 0.005 * SumAbsPrices(quote.lines)
                         + Times(amount / quote.totalHt, Abs(LineSum(quote.lines) - quote.totalHt));
            && quote.totalHt > 0.0
            && Near(LineSum(built.lines), amount, bound)
            && Near(Euros(InvoiceTotalsFromLines(built.lines).amountHt), amount, bound + 0.005)
  {
    hide Round2, Cents, Times, BuildSituationByPercent, InvoiceTotalsFromLines;
    var built := BuildSituationByPercent(quote, Euros(already), percent).value;
    SituationByPercentIsProrated(quote, already, percent);
    ProratedSumDrift(quote.lines, Euros(built.amountHt) / quote.totalHt, Euros(built.amountHt), quote.totalHt);
    RecomputedHtDrift(built.lines);
  }

  /** The exact amount including VAT. */
  function ExactTtc(lines: seq<QuoteLine>): real {
    if lines == [] then 0.0
    else Times(lines[0].Ht(), 1.0 + lines[0].tvaRate.Percent() / 100.0) + ExactTtc(lines[1..])
  }

  /** Rounding each line twice costs the amount including VAT at most 1.1 cents a line. */
  lemma {:induction false} TtcDrift(lines: seq<QuoteLine>)
    ensures Near(SumTtc(lines), ExactTtc(lines), 0.011 * |lines| as real)
  {
    if lines != [] {
      hide Round2, Times;
      var rate := 1.0 + lines[0].tvaRate.Percent() / 100.0;
      TtcDrift(lines[1..]);
      RoundedFactorDrift(lines[0].Ht(), rate);
      Round2Error(Times(Round2(lines[0].Ht()), rate));
    }
  }

  lemma {:induction false} SumTtcIsWhole(lines: seq<QuoteLine>)
    ensures WholeCents(SumTtc(lines))
  {
    if lines != [] {
      SumTtcIsWhole(lines[1..]);
      CentsShift(SumTtc(lines[1..]), Cents(Times(Round2(lines[0].Ht()), 1.0 + lines[0].tvaRate.Percent() / 100.0)));
    }
  }

  /** The recomputed amount including VAT is within 1.1 cents a line of the exact one. */
  lemma RecomputedTtcDrift(lines: seq<QuoteLine>)
    ensures Near(Euros(InvoiceTotalsFromLines(lines).amountTtc), ExactTtc(lines), 0.011 * |lines| as real)
  {
    SumTtcIsWhole(lines);
    TtcDrift(lines);
    CentsOfEuros(Cents(SumTtc(lines)));
  }

  // ---------------------------------------------------------------------------------------------------
  // Credit notes against the original
  // ---------------------------------------------------------------------------------------------------

  lemma {:induction false} CreditLinesDrift(lines: seq<QuoteLine>, ratio: real)
    ensures Near(LineSum(CreditLines(lines, ratio)), -Times(ratio, LineSum(lines)), 0.005 * SumAbsQuantities(lines))
  {
    if lines != [] {
      hide Round2, ToFixed2, Times;
      var rest, quantity, price := lines[1..], lines[0].quantity, Euros(lines[0].unitPriceHt);
      CreditLinesDrift(rest, ratio);
      RoundedFactorDrift(Times(-price, ratio), quantity);
      CreditPrice(Times(-price, ratio));
      CreditedSum(price, ratio, quantity, Round2(Times(-price, ratio)), LineSum(rest));
      assert LineSum(lines) == Times(quantity, price) + LineSum(rest);
      assert CreditLines(lines, ratio)[1..] == CreditLines(rest, ratio);
    }
  }

  lemma CreditPrice(x: real)
    ensures Euros(ToFixed2(Round2(x))) == Round2(x)
  {
    CentsOfEuros(Cents(x));
  }

  lemma CreditedSum(price: real, ratio: real, quantity: real, credited: real, rest: real)
    ensures Times(ratio, Times(quantity, price) + rest) == -Times(Times(-price, ratio), quantity) + Times(ratio, rest)
    ensures Times(quantity, credited) == Times(credited, quantity)
  {
  }

  /** A credit is accepted exactly for an amount between one cent and the original, and its lines then sum to
      minus the credit within half a hundredth per unit of quantity, plus the credited share of whatever the
      original lines and the original amount differed by. */
  lemma CreditNoteLinesDrift(lines: seq<QuoteLine>, originalHt: int, creditAmountHt: Option<real>)
    ensures var credit := Cents(if creditAmountHt.Some? then creditAmountHt.value else Euros(originalHt));
            var built := BuildCreditNoteLines(lines, Euros(originalHt), creditAmountHt);
            && (built.Ok? <==> 1 <= credit <= originalHt)
            && (built.Ok? ==>
                  && originalHt >= 1 && built.value.amountHt == -credit
                  && Near(LineSum(built.value.lines), -Euros(credit),
                          0.005 * SumAbsQuantities(lines)
                          + Times(Euros(credit) / Euros(originalHt), Abs(LineSum(lines) - Euros(originalHt)))))
  {
    var credit := Cents(if creditAmountHt.Some? then creditAmountHt.value else Euros(originalHt));
    CentsOfEuros(originalHt);
    CentsOfEuros(credit);
    if 1 <= credit <= originalHt {
      var ratio := Euros(credit) / Euros(originalHt);
      QuotientTimes(Euros(credit), Euros(originalHt));
      CreditLinesDrift(lines, ratio);
      ShareOfGap(ratio, Euros(credit), Euros(originalHt), LineSum(lines));
      hide Times, CreditLines, SumAbsQuantities, LineSum;
    }
  }

  /** The lines with every unit price negated. */
  function Negated(lines: seq<QuoteLine>): seq<QuoteLine> {
    if lines == [] then [] else [lines[0].(unitPriceHt := -lines[0].unitPriceHt)] + Negated(lines[1..])
  }

  lemma {:induction false} CreditLinesAtRatioOne(lines: seq<QuoteLine>)
    ensures CreditLines(lines, 1.0) == Negated(lines)
    ensures LineSum(Negated(lines)) == -LineSum(lines)
  {
    if lines != [] {
      CreditLinesAtRatioOne(lines[1..]);
      CentsOfEuros(-lines[0].unitPriceHt);
      assert Times(-Euros(lines[0].unitPriceHt), 1.0) == Euros(-lines[0].unitPriceHt);
      assert Negated(lines)[1..] == Negated(lines[1..]);
    }
  }

  /** Rounding x and -x half-up leaves one cent exactly on a half-cent tie. */
  lemma RoundedNegation(x: real)
    ensures ToFixed2(Round2(x)) == Cents(x)
    ensures ToFixed2(Round2(x)) + ToFixed2(Round2(-x)) == if x * 100.0 + 0.5 == Cents(x) as real then 1 else 0
  {
    CentsOfEuros(Cents(x));
    CentsOfEuros(Cents(-x));
  }

  /** A full credit negates every unit price exactly; the two recomputed totals cancel, except that they leave
      one cent when the original lines sum to a half-cent tie, because rounding is half-up on both sides. */
  lemma FullCreditCancels(lines: seq<QuoteLine>, originalHt: int)
    requires originalHt >= 1
    ensures var built := BuildCreditNoteLines(lines, Euros(originalHt), None);
            && built.Ok? && built.value.amountHt == -originalHt && built.value.lines == Negated(lines)
            && InvoiceTotalsFromLines(lines).amountHt + InvoiceTotalsFromLines(built.value.lines).amountHt
               == if LineSum(lines) * 100.0 + 0.5 == Cents(LineSum(lines)) as real then 1 else 0
  {
    CentsOfEuros(originalHt);
    assert Euros(originalHt) / Euros(originalHt) == 1.0;
    CreditLinesAtRatioOne(lines);
    RoundedNegation(LineSum(lines));
  }

  // ---------------------------------------------------------------------------------------------------
  // The total of a quote against its lines
  // ---------------------------------------------------------------------------------------------------

  /** A line of a stored quote. Nothing rounds its unit price before the line total is computed. */
  datatype StoredLine = StoredLine(quantity: real, unitPrice: real, tvaRate: TvaRate)

  function RoundedTotal(lines: seq<StoredLine>): real {
    if lines == [] then 0.0
    else Round2(Times(lines[0].quantity, lines[0].unitPrice)) + RoundedTotal(lines[1..])
  }

  /** The lines that an invoice on the quote gets: the unit price is cut to two decimals. */
  function Billed(lines: seq<StoredLine>): (billed: seq<QuoteLine>)
    ensures |billed| == |lines|
  {
    if lines == [] then []
    else [QuoteLine(lines[0].quantity, ToFixed2(lines[0].unitPrice), lines[0].tvaRate)] + Billed(lines[1..])
  }

  /** A quote as the API returns it and as invoicing reads it: the total is the sum of its rounded lines. */
  function MappedQuote(lines: seq<StoredLine>): Quote {
    Quote(Round2(RoundedTotal(lines)), Billed(lines))
  }

  function SumAbsStored(lines: seq<StoredLine>): real {
    if lines == [] then 0.0 else Abs(lines[0].quantity) + SumAbsStored(lines[1..])
  }

  lemma ToFixed2Error(x: real)
    ensures Near(Euros(ToFixed2(x)), x, 0.005)
  {
  }

  /** One line: its rounded total against its quantity at the price of the invoice. */
  lemma BilledLineDrift(quantity: real, unitPrice: real)
    ensures Near(Round2(Times(quantity, unitPrice)), Times(quantity, Euros(ToFixed2(unitPrice))),
                 0.005 + 0.005 * Abs(quantity))
  {
    Round2Error(Times(quantity, unitPrice));
    ToFixed2Error(unitPrice);
    NearTimes(Euros(ToFixed2(unitPrice)), unitPrice, quantity, 0.005);
    ProductCommutes(Euros(ToFixed2(unitPrice)), quantity);
    ProductCommutes(unitPrice, quantity);
    assert Times(0.005, Abs(quantity)) == 0.005 * Abs(quantity);
    hide Times, Round2, ToFixed2, Abs;
  }

  lemma {:induction false} BilledDrift(lines: seq<StoredLine>)
    ensures Near(RoundedTotal(lines), LineSum(Billed(lines)), 0.005 * |lines| as real + 0.005 * SumAbsStored(lines))
    ensures WholeCents(RoundedTotal(lines))
  {
    if lines != [] {
      var line := lines[0];
      BilledDrift(lines[1..]);
      BilledLineDrift(line.quantity, line.unitPrice);
      CentsOfEuros(Cents(Times(line.quantity, line.unitPrice)) + Cents(RoundedTotal(lines[1..])));
      assert Billed(lines)[1..] == Billed(lines[1..]);
      assert LineSum(Billed(lines))
          == Times(line.quantity, Euros(ToFixed2(line.unitPrice))) + LineSum(Billed(lines[1..]));
      hide Times, ToFixed2, Abs, LineSum, Billed, Cents;
    }
  }

  /** The total of a quote is within half a cent a line, and half a cent per unit of quantity, of what a full
      invoice on it amounts to before rounding. */
  lemma MappedQuoteDrift(lines: seq<StoredLine>)
    ensures var quote := MappedQuote(lines);
            Near(quote.totalHt, LineSum(quote.lines), 0.005 * |lines| as real + 0.005 * SumAbsStored(lines))
  {
    BilledDrift(lines);
    hide RoundedTotal, LineSum, Billed, SumAbsStored, Round2;
  }

  /** The quotes as the API returns them that are safe: the lines of the invoice sum, once rounded, to a cent or more,
      and to no more than the rounded lines of the quote do. */
  lemma MappedQuoteIsSafeExactly(lines: seq<StoredLine>)
    ensures SafeQuote(MappedQuote(lines)) <==>
              lines != [] && 1 <= Cents(LineSum(Billed(lines))) <= Cents(RoundedTotal(lines))
  {
    CentsOfEuros(Cents(RoundedTotal(lines)));
    CentsOfEuros(Cents(LineSum(Billed(lines))));
    hide RoundedTotal, LineSum, Cents;
  }

  /** Rounding each line matters: this quote totals 9.99 but its full invoice amounts to 10.00. */
  lemma MappedQuoteCanBeUnsafe()
    ensures var line := StoredLine(0.333, 10.01, Tva20);
            var quote := MappedQuote([line, line, line]);
            && quote.totalHt == 9.99 && !SafeQuote(quote)
            && BuildFull(quote, 0.0).Ok? && BuildFull(quote, 0.0).value.amountHt == 1000
  {
    var line, billed := StoredLine(0.333, 10.01, Tva20), QuoteLine(0.333, 1001, Tva20);
    var two, three := [line, line], [line, line, line];
    assert ToFixed2(10.01) == 1001 && Times(0.333, 10.01) == 3.33333 && billed.Ht() == 3.33333;
    assert Cents(3.33333) == 333;
    assert two[1..] == [line] && three[1..] == two;
    assert Billed([line]) == [billed] && Billed(two) == [billed, billed];
    assert Billed(three) == [billed, billed, billed];
    assert [billed, billed][1..] == [billed] && [billed, billed, billed][1..] == [billed, billed];
    assert LineSum([billed]) == 3.33333 && LineSum([billed, billed]) == 6.66666;
    assert LineSum([billed, billed, billed]) == 9.99999;
    assert RoundedTotal([line]) == 3.33 && RoundedTotal(two) == 6.66;
    assert RoundedTotal(three) == 9.99;
    assert Cents(9.99) == 999 && Cents(9.99999) == 1000;
  }

  /** So does cutting the price: a thousand at 0.125 is a quote of 125.00 but an invoice of 130.00. */
  lemma CutPriceCanBeUnsafe()
    ensures var quote := MappedQuote([StoredLine(1000.0, 0.125, Tva20)]);
            && quote.totalHt == 125.0 && !SafeQuote(quote)
            && BuildFull(quote, 0.0).Ok? && BuildFull(quote, 0.0).value.amountHt == 13000
  {
    var line, billed := StoredLine(1000.0, 0.125, Tva20), QuoteLine(1000.0, 13, Tva20);
    assert ToFixed2(0.125) == 13 && billed.Ht() == 130.0;
    assert Billed([line]) == [billed] && LineSum([billed]) == 130.0;
    assert Times(1000.0, 0.125) == 125.0 && RoundedTotal([line]) == 125.0;
    assert Cents(130.0) == 13000 && Cents(125.0) == 12500;
  }
}
