/** The hard-coded country list of models/country_model.py, its lookup, its no-op update and its statistics. */
module CountryModel {
  import opened Wrappers
  import opened Lookup

  /** GDP and mining revenue are in billions of US dollars. */
  datatype Country = Country(
    countryId: int,
    countryName: string,
    gdpBillionUsd: real,
    miningRevenueBillionUsd: real,
    keyProjects: string)

  /** get_all_countries: the same four countries, ids 1 to 4 in order, on every call. */
  function AllCountries(): (cs: seq<Country>)
    ensures |cs| == 4
    ensures forall i :: 0 <= i < |cs| ==> cs[i].countryId == i + 1
    ensures forall i :: 0 <= i < |cs| ==> cs[i].gdpBillionUsd > 0.0 && cs[i].miningRevenueBillionUsd >= 0.0
  {
    [ Country(1, "DRC (Congo)", 55.0, 12.0, "Cobalt expansion in Kolwezi"),
      Country(2, "South Africa", 350.0, 25.0, "Bushveld Lithium Project"),
      Country(3, "Mozambique", 20.0, 4.0, "Balama Graphite Project"),
      Country(4, "Namibia", 15.0, 3.0, "Otjozondu Manganese Project") ]
  }

  function HasCountryId(id: int): Country -> bool {
    (c: Country) => c.countryId == id
  }

  /** get_country_by_id: the country with that id, for exactly the ids 1 to 4. */
  function GetCountryById(id: int): (r: Option<Country>)
    ensures r.Some? <==> 1 <= id <= 4
    ensures r.Some? ==> r.value == AllCountries()[id - 1] && r.value.countryId == id
  {
    var cs := AllCountries();
    if 1 <= id <= 4 then
      FirstIndexIs(cs, HasCountryId(id), id - 1);
      FindFirst(cs, HasCountryId(id))
    else
      FindFirst(cs, HasCountryId(id))
  }

  /**
   * update_country: reports success and stores nothing. The country list is a
   * constant, so no call can change what AllCountries or GetCountryById return.
   */
  function UpdateCountry(countryId: int, countryName: string, gdp: real, miningRevenue: real, keyProjects: string): (ok: bool)
    ensures ok
  {
    true
  }

  function Gdp(c: Country): real { c.gdpBillionUsd }

  function MiningRevenue(c: Country): real { c.miningRevenueBillionUsd }

  /** sum(field(c) for c in cs). */
  function Total(cs: seq<Country>, field: Country -> real): real {
    if cs == [] then 0.0 else field(cs[0]) + Total(cs[1..], field)
  }

  lemma {:induction false} TotalNonNegative(cs: seq<Country>, field: Country -> real)
    requires forall i :: 0 <= i < |cs| ==> field(cs[i]) >= 0.0
    ensures Total(cs, field) >= 0.0
  {
    if cs != [] {
      TotalNonNegative(cs[1..], field);
    }
  }

  datatype CountryStats = CountryStats(
    totalCountries: nat,
    totalGdp: real,
    totalMiningRevenue: real,
    avgMiningContribution: real)

  /** The statistics of a list of countries; the average is guarded against a zero GDP total. */
  function StatsOf(cs: seq<Country>): (st: CountryStats)
    ensures st.totalCountries == |cs|
    ensures st.totalGdp == Total(cs, Gdp) && st.totalMiningRevenue == Total(cs, MiningRevenue)
    ensures st.totalGdp > 0.0 ==> st.avgMiningContribution * st.totalGdp == st.totalMiningRevenue * 100.0
    ensures st.totalGdp <= 0.0 ==> st.avgMiningContribution == 0.0
  {
    var gdp := Total(cs, Gdp);
    var revenue := Total(cs, MiningRevenue);
    CountryStats(|cs|, gdp, revenue, if gdp > 0.0 then revenue / gdp * 100.0 else 0.0)
  }

  /** get_countries_stats: 4 countries, 440 of GDP, 44 of mining revenue, so an average contribution of 10 percent. */
  function GetCountriesStats(): (st: CountryStats)
    ensures st == CountryStats(4, 440.0, 44.0, 10.0)
  {
    var cs := AllCountries();
    assert Total(cs, Gdp) == 440.0 by {
      assert Total(cs[3..], Gdp) == 15.0;
      assert Total(cs[2..], Gdp) == 35.0;
      assert Total(cs[1..], Gdp) == 385.0;
    }
    assert Total(cs, MiningRevenue) == 44.0 by {
      assert Total(cs[3..], MiningRevenue) == 3.0;
      assert Total(cs[2..], MiningRevenue) == 7.0;
      assert Total(cs[1..], MiningRevenue) == 32.0;
    }
    StatsOf(cs)
  }

  /** The average is never negative when no GDP or revenue is: the guard leaves no division by zero. */
  lemma AverageNonNegative(cs: seq<Country>)
    requires forall i :: 0 <= i < |cs| ==> cs[i].gdpBillionUsd >= 0.0 && cs[i].miningRevenueBillionUsd >= 0.0
    ensures StatsOf(cs).avgMiningContribution >= 0.0
  {
    TotalNonNegative(cs, Gdp);
    TotalNonNegative(cs, MiningRevenue);
  }
}
