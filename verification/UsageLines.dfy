// Prefilling invoice lines from the consumptions of interventions: invoiceLinesFromArticleUsages and
// invoiceLinesFromPrestationUsages of packages/shared/src/integrations.ts, which differ only in that the
// catalog of prestations may carry a VAT rate. Labels and units are not modelled.
module UsageLines {
  import opened Wrappers
  import opened Money
  import opened Invoicing

  datatype Usage = Usage(id: string, quantity: real)
  {
    predicate Counts() {
      quantity > 0.000001
    }
  }

  datatype CatalogItem = CatalogItem(defaultPrice: Option<real>, defaultTvaRate: Option<TvaRate>)

  datatype PrefilledLine = PrefilledLine(id: string, quantity: real, unitPriceHt: real, tvaRate: TvaRate)

  // ---------------------------------------------------------------------------------------------------
  // Specification
  // ---------------------------------------------------------------------------------------------------

  /** The items used, in order of first use. */
  function Ids(usages: seq<Usage>): seq<string> {
    if usages == [] then []
    else
      var before, last := Ids(usages[..|usages| - 1]), usages[|usages| - 1];
      if last.Counts() && last.id !in before then before + [last.id] else before
  }

  predicate Uses(usage: Usage, id: string) {
    usage.Counts() && usage.id == id
  }

  /** The quantity the source accumulates for an item, rounding after every addition. */
  function MergedQuantity(usages: seq<Usage>, id: string): real {
    if usages == [] then 0.0
    else
      var before, last := MergedQuantity(usages[..|usages| - 1], id), usages[|usages| - 1];
      if Uses(last, id) then Round2(before + last.quantity) else before
  }

  function ExactQuantity(usages: seq<Usage>, id: string): real {
    if usages == [] then 0.0
    else
      var before, last := ExactQuantity(usages[..|usages| - 1], id), usages[|usages| - 1];
      if Uses(last, id) then before + last.quantity else before
  }

  function UseCount(usages: seq<Usage>, id: string): nat {
    if usages == [] then 0
    else UseCount(usages[..|usages| - 1], id) + (if Uses(usages[|usages| - 1], id) then 1 else 0)
  }

  function PrefilledFor(id: string, quantity: real, catalog: map<string, CatalogItem>, defaultTva: TvaRate)
    : PrefilledLine
  {
    var item := if id in catalog then catalog[id] else CatalogItem(None, None);
    PrefilledLine(id, quantity,
                  if item.defaultPrice.Some? then Round2(item.defaultPrice.value) else 0.0,
                  if item.defaultTvaRate.Some? then item.defaultTvaRate.value else defaultTva)
  }

  /** One line per item used. */
  function PrefilledLines(usages: seq<Usage>, catalog: map<string, CatalogItem>, defaultTva: TvaRate)
    : seq<PrefilledLine>
  {
    var ids := Ids(usages);
    seq(|ids|, i requires 0 <= i < |ids| =>
      PrefilledFor(ids[i], MergedQuantity(usages, ids[i]), catalog, defaultTva))
  }

  // ---------------------------------------------------------------------------------------------------
  // Properties
  // ---------------------------------------------------------------------------------------------------

  /** The position of the first use of an item. */
  function FirstUse(usages: seq<Usage>, id: string): (k: nat)
    requires id in Ids(usages)
    ensures k < |usages| && Uses(usages[k], id)
    ensures forall j :: 0 <= j < k ==> !Uses(usages[j], id)
  {
    var front := usages[..|usages| - 1];
    if id in Ids(front) then FirstUse(front, id)
    else
      assert forall j :: 0 <= j < |front| && Uses(usages[j], id) ==> Uses(front[j], id);
      UnusedIsAbsent(front, id);
      |front|
  }

  lemma {:induction false} UnusedIsAbsent(usages: seq<Usage>, id: string)
    ensures id in Ids(usages) <==> exists j :: 0 <= j < |usages| && Uses(usages[j], id)
  {
    if usages != [] {
      var front := usages[..|usages| - 1];
      UnusedIsAbsent(front, id);
      if j :| 0 <= j < |front| && Uses(front[j], id) {
        assert Uses(usages[j], id);
      }
    }
  }

  /** The lines name exactly the items with a counted usage, each once, in order of first use. */
  lemma {:induction false} IdsAreDistinctAndOrdered(usages: seq<Usage>)
    ensures forall id :: id in Ids(usages) <==> exists j :: 0 <= j < |usages| && Uses(usages[j], id)
    ensures forall i, j :: 0 <= i < j < |Ids(usages)| ==>
              Ids(usages)[i] != Ids(usages)[j]
              && FirstUse(usages, Ids(usages)[i]) < FirstUse(usages, Ids(usages)[j])
  {
    forall id ensures id in Ids(usages) <==> exists j :: 0 <= j < |usages| && Uses(usages[j], id) {
      UnusedIsAbsent(usages, id);
    }
    if usages != [] {
      IdsAreDistinctAndOrdered(usages[..|usages| - 1]);
    }
  }

  /** Merging drifts by at most half a hundredth per merged usage. */
  lemma {:induction false} MergedQuantityDrift(usages: seq<Usage>, id: string)
    ensures Near(MergedQuantity(usages, id), ExactQuantity(usages, id), 0.005 * UseCount(usages, id) as real)
  {
    if usages != [] {
      var front := usages[..|usages| - 1];
      MergedQuantityDrift(front, id);
      Round2Error(MergedQuantity(front, id) + usages[|usages| - 1].quantity);
    }
  }

  /** Quantities in whole hundredths are merged exactly. */
  lemma {:induction false} WholeQuantitiesMergeExactly(usages: seq<Usage>, id: string)
    requires forall usage <- usages :: Uses(usage, id) ==> WholeCents(usage.quantity)
    ensures MergedQuantity(usages, id) == ExactQuantity(usages, id)
    ensures WholeCents(ExactQuantity(usages, id))
  {
    if usages != [] {
      var front, last := usages[..|usages| - 1], usages[|usages| - 1];
      WholeQuantitiesMergeExactly(front, id);
      if Uses(last, id) {
        assert WholeCents(last.quantity);
        CentsOfEuros(Cents(ExactQuantity(front, id)) + Cents(last.quantity));
      }
    }
  }

  /** The uses of an item, each rounded to hundredths on its own. */
  function RoundedUses(usages: seq<Usage>, id: string): int {
    if usages == [] then 0
    else
      RoundedUses(usages[..|usages| - 1], id)
      + (if Uses(usages[|usages| - 1], id) then Cents(usages[|usages| - 1].quantity) else 0)
  }

  /** Rounding after every addition amounts to adding the rounded uses, so the order of uses is irrelevant. */
  lemma {:induction false} MergedIsSumOfRounded(usages: seq<Usage>, id: string)
    ensures MergedQuantity(usages, id) == Euros(RoundedUses(usages, id))
  {
    if usages != [] {
      var front, last := usages[..|usages| - 1], usages[|usages| - 1];
      MergedIsSumOfRounded(front, id);
      CentsShift(last.quantity, RoundedUses(front, id));
    }
  }

  lemma {:induction false} RoundedUsesArePositiveExactly(usages: seq<Usage>, id: string)
    ensures RoundedUses(usages, id) >= 0
    ensures RoundedUses(usages, id) > 0 <==> exists usage <- usages :: Uses(usage, id) && usage.quantity >= 0.005
  {
    if usages != [] {
      var front, last := usages[..|usages| - 1], usages[|usages| - 1];
      RoundedUsesArePositiveExactly(front, id);
      assert usages == front + [last];
    }
  }

  /** Being used is not enough for a quantity above zero: that takes one use of half a hundredth or more, however
      many smaller uses there are. */
  lemma QuantityIsPositiveExactly(usages: seq<Usage>, id: string)
    ensures MergedQuantity(usages, id) >= 0.0
    ensures MergedQuantity(usages, id) > 0.0 <==>
              exists usage <- usages :: Uses(usage, id) && usage.quantity >= 0.005
  {
    MergedIsSumOfRounded(usages, id);
    RoundedUsesArePositiveExactly(usages, id);
  }

  /** The price as it is in the catalog, to the cent and with ties upwards, or nothing. */
  predicate IsCatalogPrice(price: real, catalog: map<string, CatalogItem>, id: string) {
    if id in catalog && catalog[id].defaultPrice.Some?
    then WholeCents(price) && -0.005 < price - catalog[id].defaultPrice.value <= 0.005
    else price == 0.0
  }

  predicate IsCatalogRate(rate: TvaRate, catalog: map<string, CatalogItem>, id: string, defaultTva: TvaRate) {
    if id in catalog && catalog[id].defaultTvaRate.Some? then Some(rate) == catalog[id].defaultTvaRate
    else rate == defaultTva
  }

  lemma PriceIsCatalogPrice(id: string, quantity: real, catalog: map<string, CatalogItem>, defaultTva: TvaRate)
    ensures var line := PrefilledFor(id, quantity, catalog, defaultTva);
            && line.id == id && line.quantity == quantity
            && IsCatalogPrice(line.unitPriceHt, catalog, id) && IsCatalogRate(line.tvaRate, catalog, id, defaultTva)
  {
    if id in catalog && catalog[id].defaultPrice.Some? {
      Round2Error(catalog[id].defaultPrice.value);
      CentsOfEuros(Cents(catalog[id].defaultPrice.value));
    }
  }

  /** There is a usage of the item to be invoiced. */
  predicate IsUsed(usages: seq<Usage>, id: string) {
    exists usage <- usages :: usage.id == id && usage.quantity > 0.000001
  }

  /** The lines are one for each item used, with the rounded uses as quantity, the catalog's price, and the catalog's
      rate before the default one. */
  lemma LinesFollowCatalog(usages: seq<Usage>, catalog: map<string, CatalogItem>, defaultTva: TvaRate)
    ensures var lines := PrefilledLines(usages, catalog, defaultTva);
            && (forall id :: IsUsed(usages, id) <==> exists line <- lines :: line.id == id)
            && (forall i, j :: 0 <= i < j < |lines| ==> lines[i].id != lines[j].id)
            && (forall line <- lines ::
                  && line.quantity == Euros(RoundedUses(usages, line.id))
                  && IsCatalogPrice(line.unitPriceHt, catalog, line.id)
                  && IsCatalogRate(line.tvaRate, catalog, line.id, defaultTva))
  {
    IdsAreDistinctAndOrdered(usages);
    var ids, lines := Ids(usages), PrefilledLines(usages, catalog, defaultTva);
    forall id ensures IsUsed(usages, id) <==> id in ids {
      UsedIsListed(usages, id);
    }
    forall i | 0 <= i < |lines|
      ensures lines[i].id == ids[i] && lines[i].quantity == MergedQuantity(usages, ids[i])
      ensures IsCatalogPrice(lines[i].unitPriceHt, catalog, ids[i])
      ensures IsCatalogRate(lines[i].tvaRate, catalog, ids[i], defaultTva)
    {
      PriceIsCatalogPrice(ids[i], MergedQuantity(usages, ids[i]), catalog, defaultTva);
    }
    hide Ids, IsUsed, PrefilledLines, MergedQuantity, RoundedUses, IsCatalogPrice, IsCatalogRate;
    forall id ensures id in ids <==> exists line <- lines :: line.id == id {
      if i :| 0 <= i < |ids| && ids[i] == id {
        assert lines[i] in lines;
      }
    }
    forall line <- lines ensures line.quantity == Euros(RoundedUses(usages, line.id)) {
      MergedIsSumOfRounded(usages, line.id);
    }
  }

  lemma UsedIsListed(usages: seq<Usage>, id: string)
    ensures IsUsed(usages, id) <==> id in Ids(usages)
  {
    UnusedIsAbsent(usages, id);
    hide Ids;
    if usage :| usage in usages && usage.id == id && usage.quantity > 0.000001 {
      var j :| 0 <= j < |usages| && usages[j] == usage;
      assert Uses(usages[j], id);
    }
  }

  // ---------------------------------------------------------------------------------------------------
  // The loops
  // ---------------------------------------------------------------------------------------------------

  /** `keys` and `quantities` are the insertion-ordered Map of the source. */
  method InvoiceLinesFromUsages(usages: seq<Usage>, catalog: map<string, CatalogItem>, defaultTva: TvaRate)
    returns (lines: seq<PrefilledLine>)
    ensures lines == PrefilledLines(usages, catalog, defaultTva)
  {
    var keys: seq<string>, quantities: map<string, real> := [], map[];
    for i := 0 to |usages|
      invariant keys == Ids(usages[..i])
      invariant forall id :: id in quantities <==> id in keys
      invariant forall id <- keys :: quantities[id] == MergedQuantity(usages[..i], id)
      invariant forall id :: id !in keys ==> MergedQuantity(usages[..i], id) == 0.0
    {
      assert usages[..i + 1][..i] == usages[..i];
      var usage := usages[i];
      if !usage.Counts() {
        continue;
      }
      if usage.id in quantities {
        quantities := quantities[usage.id := Round2(quantities[usage.id] + usage.quantity)];
      } else {
        keys := keys + [usage.id];
        quantities := quantities[usage.id := Round2(usage.quantity)];
      }
    }
    assert usages[..|usages|] == usages;
    lines := seq(|keys|, i requires 0 <= i < |keys| && keys[i] in quantities =>
      PrefilledFor(keys[i], quantities[keys[i]], catalog, defaultTva));
  }
}
