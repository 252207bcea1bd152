/**
 * The decision table that picks a PDF template for one spreadsheet row from
 * the batch's tariff type and the row's normalised commodity ("Gas oder
 * Strom"), running time ("Laufzeit") and counter type ("Zählerart").
 */
module TemplateSelection {
  import opened Wrappers
  import opened Text

  const PortfolioTarif: string := "Portfolio-Tarif"
  const SpotTarif: string := "Spot-Tarif"

  /** The normalised attributes of one row that select its template. */
  datatype Contract = Contract(commodity: string, runningTime: string, counterType: string)

  /**
   * The normalisation applied to the raw cells: commodity and counter type are
   * stripped and lowercased, the running time is only stripped.
   */
  function ContractOf(commodity: string, runningTime: string, counterType: string): Contract
  {
    Contract(Normalize(commodity), Strip(runningTime), Normalize(counterType))
  }

  /** The tariff and running time combinations that have a template family. */
  predicate HasRule(tarif: string, runningTime: string) {
    || (tarif == PortfolioTarif && (runningTime == "12" || runningTime == "24"))
    || tarif == SpotTarif
  }

  /**
   * The template file name for a row, or `None` when the row is skipped: a
   * portfolio tariff with a running time other than 12 or 24, or a tariff
   * that is neither portfolio nor spot.
   */
  function SelectTemplate(tarif: string, c: Contract): (r: Option<string>)
    ensures r.Some? <==> HasRule(tarif, c.runningTime)
    ensures r.Some? ==> |r.value| >= 4 && r.value[|r.value| - 4..] == ".pdf"
  {
    if tarif == PortfolioTarif then
      if c.runningTime == "12" then Some("portfolio_tarif_template_" + c.commodity + "_12.pdf")
      else if c.runningTime == "24" then Some("portfolio_tarif_template_" + c.commodity + "_24.pdf")
      else None
    else if tarif == SpotTarif then
      Some("spot_tarif_template_" + c.commodity + "_" + c.counterType + ".pdf")
    else
      None
  }

  /** A portfolio row with running time 12 or 24 gets the template named after that running time. */
  lemma PortfolioTemplate(c: Contract)
    requires c.runningTime == "12" || c.runningTime == "24"
    ensures SelectTemplate(PortfolioTarif, c)
            == Some("portfolio_tarif_template_" + c.commodity + "_" + c.runningTime + ".pdf")
  {
    var name := "portfolio_tarif_template_" + c.commodity + "_" + c.runningTime + ".pdf";
    if c.runningTime == "12" {
      assert name == "portfolio_tarif_template_" + c.commodity + "_12.pdf";
    } else {
      assert name == "portfolio_tarif_template_" + c.commodity + "_24.pdf";
    }
  }

  /** The portfolio family never looks at the counter type. */
  lemma PortfolioIgnoresCounterType(c: Contract, counterType: string)
    ensures SelectTemplate(PortfolioTarif, c) == SelectTemplate(PortfolioTarif, c.(counterType := counterType))
  {
  }

  /** A spot row gets the template named after commodity and counter type, whatever its running time. */
  lemma SpotTemplate(c: Contract)
    ensures SelectTemplate(SpotTarif, c)
            == Some("spot_tarif_template_" + c.commodity + "_" + c.counterType + ".pdf")
  {
  }

  /** The spot family never looks at the running time. */
  lemma SpotIgnoresRunningTime(c: Contract, runningTime: string)
    ensures SelectTemplate(SpotTarif, c) == SelectTemplate(SpotTarif, c.(runningTime := runningTime))
  {
  }

  /** Any tariff other than the two known ones selects nothing. */
  lemma UnknownTarifSelectsNothing(tarif: string, c: Contract)
    requires tarif != PortfolioTarif && tarif != SpotTarif
    ensures SelectTemplate(tarif, c) == None
  {
  }

  /** Commodity and counter type cells that differ only in letter case select the same template. */
  lemma SelectionIgnoresCase(tarif: string, commodity: string, commodity': string,
                             runningTime: string, counterType: string, counterType': string)
    requires Lower(commodity) == Lower(commodity') && Lower(counterType) == Lower(counterType')
    ensures SelectTemplate(tarif, ContractOf(commodity, runningTime, counterType))
            == SelectTemplate(tarif, ContractOf(commodity', runningTime, counterType'))
  {
    NormalizeIgnoresCase(commodity, commodity');
    NormalizeIgnoresCase(counterType, counterType');
  }

  /** Whitespace around any of the three cells, each padded on its own, does not change the template. */
  lemma SelectionIgnoresPadding(tarif: string, c1: string, c2: string, r1: string, r2: string,
                                t1: string, t2: string,
                                commodity: string, runningTime: string, counterType: string)
    requires AllSpace(c1) && AllSpace(c2) && AllSpace(r1) && AllSpace(r2) && AllSpace(t1) && AllSpace(t2)
    ensures SelectTemplate(tarif, ContractOf(c1 + commodity + c2, r1 + runningTime + r2, t1 + counterType + t2))
            == SelectTemplate(tarif, ContractOf(commodity, runningTime, counterType))
  {
    NormalizeIgnoresPadding(c1, commodity, c2);
    StripIgnoresPadding(r1, runningTime, r2);
    NormalizeIgnoresPadding(t1, counterType, t2);
  }

  /** Surrounding blanks vanish from a commodity cell. */
  lemma GasPadding()
    ensures Normalize(" Gas ") == Normalize("Gas")
  {
    assert AllSpace(" ");
    assert " Gas " == " " + "Gas" + " ";
    NormalizeIgnoresPadding(" ", "Gas", " ");
  }

  /** Capitalisation vanishes from a commodity cell. */
  lemma GasCase()
    ensures Normalize("Gas") == Normalize("gas")
  {
    assert Lower("Gas") == Lower("gas") by {
      assert LowerChar('G') == 'g';
      assert |Lower("Gas")| == 3 == |Lower("gas")|;
      assert Lower("Gas")[0] == 'g' == Lower("gas")[0];
    }
    NormalizeIgnoresCase("Gas", "gas");
  }

  /** "gas" is already in normal form. */
  lemma GasNormal()
    ensures Normalize("gas") == "gas"
  {
    StripTrimmed("gas");
    LowerNoUpper("gas");
  }

  /** " Gas " and "gas" give the same template. */
  lemma PaddedCapitalisedGas(tarif: string, runningTime: string, counterType: string)
    ensures SelectTemplate(tarif, ContractOf(" Gas ", runningTime, counterType))
            == SelectTemplate(tarif, ContractOf("gas", runningTime, counterType))
  {
    GasPadding();
    GasCase();
  }
}
