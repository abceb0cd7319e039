/**
 The state the financing context provides: the request record, the derived currency
 and the OPEC list, with the events that change them. The country list it fetches is
 not part of this model.
 */
module FinancingContext {
  import opened CurrencyRules

  /** The record's keys, all of them present from the start. */
  const RecordFields: set<string> :=
    {"name", "surname", "country", "projectCode", "description", "amount", "startDate", "endDate"}

  /** The initial record: eight empty fields and no currency field. */
  const InitialRequestData: map<string, string> := map[
    "name" := "", "surname" := "", "country" := "", "projectCode" := "",
    "description" := "", "amount" := "", "startDate" := "", "endDate" := ""]

  class FinancingProvider {
    var opecCountries: seq<string>
    var currency: string
    var requestData: map<string, string>

    /** No key of the record is ever removed, and the currency is USD or empty. */
    ghost predicate Valid()
      reads this
    {
      RecordFields <= requestData.Keys && (currency == "USD" || currency == "")
    }

    function Country(): string
      reads this
      requires Valid()
    {
      requestData["country"]
    }

    /** The initial state: an empty OPEC list, no currency, the initial record. */
    constructor ()
      ensures Valid()
      ensures opecCountries == [] && currency == "" && requestData == InitialRequestData
      ensures "currency" !in requestData
    {
      opecCountries := [];
      currency := "";
      requestData := InitialRequestData;
    }

    /** The effects run once after mounting: the first stores the OPEC list; the second
        sees the list as it was when the component rendered (still empty at mount) and
        sets the currency from the country. */
    method Mount()
      requires Valid()
      modifies this`opecCountries, this`currency
      ensures Valid()
      ensures opecCountries == OpecMembers
      ensures currency == TwoWayCurrency(Country(), old(opecCountries))
    {
      var listAtRender := opecCountries;
      opecCountries := OpecMembers;
      currency := TwoWayCurrency(Country(), listAtRender);
    }

    /** An input named `name` changed to `value`: the previous record is copied with that
        one key replaced (or added), and when the country is now a different one the
        currency follows it: USD for a member of the list, empty otherwise. */
    method HandleFormChange(name: string, value: string)
      requires Valid()
      modifies this`requestData, this`currency
      ensures Valid()
      ensures name in requestData && requestData[name] == value
      ensures requestData.Keys == old(requestData).Keys + {name}
      ensures forall k :: k in old(requestData) && k != name ==> requestData[k] == old(requestData)[k]
      ensures Country() != old(Country()) ==> currency == TwoWayCurrency(Country(), opecCountries)
      ensures Country() == old(Country()) ==> currency == old(currency)
    {
      var previousCountry := Country();
      requestData := requestData[name := value];
      if Country() != previousCountry {
        currency := TwoWayCurrency(Country(), opecCountries);
      }
    }
  }

  /** After mounting there is no currency, and choosing a member sets USD. */
  method ProviderScenario()
  {
    var provider := new FinancingProvider();
    provider.Mount();
    assert provider.currency == "";
    assert OpecMembers[1] == "Iran";
    provider.HandleFormChange("country", "Iran");
    assert provider.currency == "USD";
  }

  /** An edit of another field keeps the currency; a non-member then resets it to empty,
      where the form would have kept USD. */
  method ResetScenario(provider: FinancingProvider)
    requires provider.Valid() && provider.opecCountries == OpecMembers
    requires provider.Country() == "Iran" && provider.currency == "USD"
    modifies provider
  {
    provider.HandleFormChange("amount", "1000");
    assert provider.currency == "USD";
    RulesCompared("France", "USD");
    provider.HandleFormChange("country", "France");
    assert provider.currency == "";
  }

  /** Before the list is stored every country counts as a non-member. */
  method BeforeMountScenario()
  {
    var provider := new FinancingProvider();
    provider.HandleFormChange("country", "Iran");
    assert provider.currency == "";
  }
}
