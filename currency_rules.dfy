/**
 The static lookup data and the two rules that derive the currency from the country:
 the form's one-way rule (an OPEC member forces USD, anything else leaves the currency
 alone) and the context's two-way rule (USD for a member, the empty string otherwise).
 */
module CurrencyRules {
  import opened Wrappers

  /** The OPEC members both the form and the context list (the same fifteen names). */
  const OpecMembers: seq<string> := [
    "Saudi Arabia", "Iran", "Iraq", "Kuwait", "United Arab Emirates", "Venezuela",
    "Nigeria", "Algeria", "Libya", "Angola", "Ecuador", "Gabon", "Equatorial Guinea",
    "Congo", "Indonesia"]

  /** The codes the currency select offers, in its order. */
  const CurrencyOptions: seq<string> := ["USD", "EUR", "GBP", "JPY", "INR"]

  const CurrencySymbols: map<string, string> :=
    map["USD" := "$", "EUR" := "€", "GBP" := "£", "JPY" := "¥", "INR" := "₹"]

  /** `currencySymbols[code]`: undefined (None) for a code the table does not list. */
  function CurrencySymbol(code: string): (r: Option<string>)
    ensures r.Some? <==> code in CurrencyOptions
  {
    if code in CurrencySymbols then Some(CurrencySymbols[code]) else None
  }

  /** The list has fifteen different names, none of them empty, so the form's extra
      check that the country is not empty never changes the outcome. */
  lemma OpecMembersFacts()
    ensures |OpecMembers| == 15
    ensures forall i, j | 0 <= i < j < |OpecMembers| :: OpecMembers[i] != OpecMembers[j]
    ensures "" !in OpecMembers
  {
  }

  // ---------------------------------------------------------------------------
  // The form's rule

  /** The currency after the form's rule has run for `country`. */
  function ForceUsd(country: string, currency: string, members: seq<string>): string {
    if country != "" && country in members then "USD" else currency
  }

  /** A member forces USD, whatever was chosen before; any other country, including no
      country, leaves the chosen currency as it is. Running the rule again changes nothing. */
  lemma ForceUsdRule(country: string, currency: string)
    ensures country in OpecMembers ==> ForceUsd(country, currency, OpecMembers) == "USD"
    ensures country !in OpecMembers ==> ForceUsd(country, currency, OpecMembers) == currency
    ensures ForceUsd(country, ForceUsd(country, currency, OpecMembers), OpecMembers)
            == ForceUsd(country, currency, OpecMembers)
  {
    OpecMembersFacts();
  }

  /** The rule only ever produces the chosen currency or USD, so a currency with a
      symbol keeps having one. */
  lemma ForceUsdKeepsSymbol(country: string, currency: string)
    requires CurrencySymbol(currency).Some?
    ensures CurrencySymbol(ForceUsd(country, currency, OpecMembers)).Some?
  {
  }

  // ---------------------------------------------------------------------------
  // The context's rule

  /** The currency the context sets when the country changes. */
  function TwoWayCurrency(country: string, members: seq<string>): string {
    if country in members then "USD" else ""
  }

  /** A member gives USD and any other country, including no country, resets the
      currency to the empty string; so, unlike the form's rule, it forgets the earlier
      currency and is determined by the country alone. */
  lemma TwoWayCurrencyRule(country: string, members: seq<string>)
    ensures TwoWayCurrency(country, members) == "USD" <==> country in members
    ensures TwoWayCurrency(country, members) == "" <==> country !in members
    ensures CurrencySymbol(TwoWayCurrency(country, members)).Some? <==> country in members
  {
  }

  /** While the member list is still empty every country counts as a non-member. */
  lemma EmptyListResetsCurrency(country: string)
    ensures TwoWayCurrency(country, []) == ""
  {
  }

  /** The two rules agree on members and differ on every other country whenever a
      currency was chosen. */
  lemma RulesCompared(country: string, currency: string)
    requires currency != ""
    ensures country in OpecMembers ==>
      ForceUsd(country, currency, OpecMembers) == TwoWayCurrency(country, OpecMembers)
    ensures country !in OpecMembers ==>
      ForceUsd(country, currency, OpecMembers) != TwoWayCurrency(country, OpecMembers)
  {
    OpecMembersFacts();
  }
}
