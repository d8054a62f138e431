/**
 * The decision logic of edit_country in routes/country_routes.py: look the
 * country up, validate the form in a fixed order, call update_country, and
 * copy the submitted values onto the object the page displays.
 */
module CountryRoutes {
  import opened Wrappers
  import opened FlaskRequest
  import opened PyText
  import opened CountryModel

  /** Python's float() on a string; None where it raises ValueError. */
  type FloatParser = string -> Option<real>

  const NameField := "country_name"
  const GdpField := "gdp_billion_usd"
  const RevenueField := "mining_revenue_billion_usd"
  const ProjectsField := "key_projects"

  datatype EditError = NameRequired | InvalidGdp | InvalidMiningRevenue | NegativeValue

  /** The arguments edit_country passes to update_country. */
  datatype CountryEdit = CountryEdit(countryName: string, gdp: real, miningRevenue: real, keyProjects: string)

  /**
   * The checks of edit_country, in order: a blank name, then GDP that float()
   * rejects, then revenue that float() rejects, then a negative number. Only a
   * form passing all four yields the update.
   */
  function ValidateEdit(form: Form, parseFloat: FloatParser): (r: Result<CountryEdit, EditError>)
    ensures var name := Strip(FormGet(form, NameField, ""));
      r == Err(NameRequired) <==> name == []
    ensures var name := Strip(FormGet(form, NameField, ""));
      var gdp := parseFloat(FormGet(form, GdpField, "0"));
      r == Err(InvalidGdp) <==> name != [] && gdp.None?
    ensures var name := Strip(FormGet(form, NameField, ""));
      var gdp := parseFloat(FormGet(form, GdpField, "0"));
      var revenue := parseFloat(FormGet(form, RevenueField, "0"));
      r == Err(InvalidMiningRevenue) <==> name != [] && gdp.Some? && revenue.None?
    ensures var name := Strip(FormGet(form, NameField, ""));
      var gdp := parseFloat(FormGet(form, GdpField, "0"));
      var revenue := parseFloat(FormGet(form, RevenueField, "0"));
      r == Err(NegativeValue) <==> name != [] && gdp.Some? && revenue.Some? && (gdp.value < 0.0 || revenue.value < 0.0)
    ensures r.Ok? ==>
      && r.value.countryName == Strip(FormGet(form, NameField, "")) && r.value.countryName != []
      && parseFloat(FormGet(form, GdpField, "0")) == Some(r.value.gdp) && r.value.gdp >= 0.0
      && parseFloat(FormGet(form, RevenueField, "0")) == Some(r.value.miningRevenue) && r.value.miningRevenue >= 0.0
      && r.value.keyProjects == Strip(FormGet(form, ProjectsField, ""))
  {
    var name := Strip(FormGet(form, NameField, ""));
    var projects := Strip(FormGet(form, ProjectsField, ""));
    if name == [] then Err(NameRequired)
    else match parseFloat(FormGet(form, GdpField, "0"))
      case None => Err(InvalidGdp)
      case Some(gdp) =>
        match parseFloat(FormGet(form, RevenueField, "0"))
        case None => Err(InvalidMiningRevenue)
        case Some(revenue) =>
          if gdp < 0.0 || revenue < 0.0 then Err(NegativeValue)
          else Ok(CountryEdit(name, gdp, revenue, projects))
  }

  /** A form that leaves out both numbers is accepted with zeros, since float('0') is 0.0. */
  lemma MissingNumbersDefaultToZero(name: string, projects: string, parseFloat: FloatParser)
    requires parseFloat("0") == Some(0.0)
    requires Strip(name) != []
    ensures ValidateEdit(map[NameField := name, ProjectsField := projects], parseFloat)
         == Ok(CountryEdit(Strip(name), 0.0, 0.0, Strip(projects)))
  {
    var form := map[NameField := name, ProjectsField := projects];
    assert GdpField !in form && RevenueField !in form;
  }

  /** The country after the submitted values are copied onto it; the id stays. */
  function Applied(c: Country, e: CountryEdit): Country {
    Country(c.countryId, e.countryName, e.gdp, e.miningRevenue, e.keyProjects)
  }

  /** The Country object the edit page displays, whose fields the route overwrites after an update. */
  class CountryView {
    const countryId: int
    var countryName: string
    var gdpBillionUsd: real
    var miningRevenueBillionUsd: real
    var keyProjects: string

    function Value(): Country
      reads this
    {
      Country(countryId, countryName, gdpBillionUsd, miningRevenueBillionUsd, keyProjects)
    }

    constructor (c: Country)
      ensures Value() == c
    {
      countryId := c.countryId;
      countryName := c.countryName;
      gdpBillionUsd := c.gdpBillionUsd;
      miningRevenueBillionUsd := c.miningRevenueBillionUsd;
      keyProjects := c.keyProjects;
    }

    /** The four assignments after a successful update_country. */
    method Assign(e: CountryEdit)
      modifies this
      ensures Value() == Applied(old(Value()), e)
    {
      countryName := e.countryName;
      gdpBillionUsd := e.gdp;
      miningRevenueBillionUsd := e.miningRevenue;
      keyProjects := e.keyProjects;
    }
  }

  datatype EditOutcome =
    | CountryNotFound
      /** A GET: the edit page with the stored values. */
    | EditPage
    | Rejected(error: EditError)
    | Updated
    | UpdateFailed

  /**
   * edit_country. `shown` is the country the page displays (null when there
   * is none); `updateCall` holds the arguments update_country was called
   * with, or None when it was not called.
   */
  method EditCountry(countryId: int, isPost: bool, form: Form, parseFloat: FloatParser)
    returns (outcome: EditOutcome, shown: CountryView?, updateCall: Option<CountryEdit>)
    ensures GetCountryById(countryId).None? ==> outcome == CountryNotFound && shown == null && updateCall.None?
    ensures GetCountryById(countryId).Some? ==> shown != null && fresh(shown)
    ensures GetCountryById(countryId).Some? && !isPost ==>
      outcome == EditPage && shown.Value() == GetCountryById(countryId).value && updateCall.None?
    ensures GetCountryById(countryId).Some? && isPost && ValidateEdit(form, parseFloat).Err? ==>
      && outcome == Rejected(ValidateEdit(form, parseFloat).error)
      && shown.Value() == GetCountryById(countryId).value && updateCall.None?
    ensures updateCall.Some? <==> GetCountryById(countryId).Some? && isPost && ValidateEdit(form, parseFloat).Ok?
    ensures updateCall.Some? ==>
      && updateCall == Some(ValidateEdit(form, parseFloat).value)
      && outcome == Updated
      && shown.Value() == Applied(GetCountryById(countryId).value, updateCall.value)
  {
    var country := GetCountryById(countryId);
    if country.None? {
      return CountryNotFound, null, None;
    }
    shown := new CountryView(country.value);
    if !isPost {
      return EditPage, shown, None;
    }
    var checked := ValidateEdit(form, parseFloat);
    if checked.Err? {
      return Rejected(checked.error), shown, None;
    }
    var edit := checked.value;
    updateCall := Some(edit);
    var success := UpdateCountry(countryId, edit.countryName, edit.gdp, edit.miningRevenue, edit.keyProjects);
    if success {
      shown.Assign(edit);
      outcome := Updated;
    } else {
      outcome := UpdateFailed;
    }
  }
}
