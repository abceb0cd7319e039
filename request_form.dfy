/**
 The state of the financing request form: the form values, the error object, the
 fetched country names, the toast and the busy flag, with the events that change them.
 The clock and the outcome of the HTTP request come in as parameters.
 */
module RequestForm {
  import opened Wrappers
  import opened Calendar
  import opened Validation
  import opened CurrencyRules

  /** How the POST of the request ends: the promise resolves or it rejects. */
  datatype PostOutcome = Resolved | Rejected

  const SuccessMessage := "Financing Request submitted successfully!"
  const FailureMessage := "Failed to submit request. Please try again."

  /** The toast text and colour for each outcome. */
  function ToastFor(outcome: PostOutcome): (toast: (string, string))
    ensures toast.1 == "success" <==> outcome == Resolved
    ensures toast.1 == "danger" <==> outcome == Rejected
  {
    match outcome
    case Resolved => (SuccessMessage, "success")
    case Rejected => (FailureMessage, "danger")
  }

  class FinancingRequestForm {
    var values: Draft
    var errors: map<Field, string>
    var countries: seq<string>
    var toastMessage: Option<string>
    var toastVariant: string
    var showToast: bool
    var isSubmitting: bool

    /** Mounting: the initial values, no errors, no countries yet, a hidden toast with
        no message, and not submitting. */
    constructor ()
      ensures values == InitialValues && errors == map[] && countries == []
      ensures toastMessage == None && toastVariant == "success" && !showToast
      ensures !isSubmitting
    {
      values := InitialValues;
      errors := map[];
      countries := [];
      toastMessage := None;
      toastVariant := "success";
      showToast := false;
      isSubmitting := false;
    }

    /** The country list request resolved with these names. (When it rejects the error
        is only logged and nothing changes.) */
    method ReceiveCountries(names: seq<string>)
      modifies this
      ensures countries == names
      ensures values == old(values) && errors == old(errors) && isSubmitting == old(isSubmitting)
      ensures toastMessage == old(toastMessage) && toastVariant == old(toastVariant)
      ensures showToast == old(showToast)
    {
      countries := names;
    }

    /** The effect that watches the country: a member of the OPEC list forces USD. */
    method ApplyCurrencyRule()
      modifies this`values
      ensures values == old(values).With(Currency, ForceUsd(old(values).country, old(values).currency, OpecMembers))
    {
      if values.country != "" && values.country in OpecMembers {
        values := values.With(Currency, "USD");
      }
    }

    /** The user edits input `f`: the value is stored and, when the country is now a
        different one, the currency effect runs. Only `f` and the currency can change. */
    method ChangeField(f: Field, value: string)
      modifies this`values
      ensures values.Get(f) == value
      ensures forall g :: g != f && g != Currency ==> values.Get(g) == old(values).Get(g)
      ensures f == Country && value != old(values).country ==>
        values == old(values).With(Country, value).With(Currency, ForceUsd(value, old(values).currency, OpecMembers))
      ensures !(f == Country && value != old(values).country) ==> values == old(values).With(f, value)
    {
      var previousCountry := values.country;
      values := values.With(f, value);
      if values.country != previousCountry {
        ApplyCurrencyRule();
      }
    }

    /** `onSubmit`: the busy flag goes up and the request carries the current values. */
    method OnSubmit() returns (payload: Draft)
      modifies this`isSubmitting
      ensures isSubmitting && payload == values
    {
      isSubmitting := true;
      payload := values;
    }

    /** A click on the submit button. The button is disabled while a request is in
        flight, so such a click does nothing. Otherwise the values are validated first,
        and only an empty error object lets `onSubmit` post them. */
    method PressSubmit(today: Date) returns (posted: Option<Draft>)
      requires ValidDate(today)
      modifies this`errors, this`isSubmitting
      ensures old(isSubmitting) ==> posted == None && errors == old(errors) && isSubmitting
      ensures !old(isSubmitting) ==> errors == Validate(values, today)
      ensures !old(isSubmitting) ==> (posted.Some? <==> errors == map[])
      ensures posted.Some? ==> posted.value == values && isSubmitting
      ensures posted.None? ==> isSubmitting == old(isSubmitting)
    {
      posted := None;
      if !isSubmitting {
        errors := Validate(values, today);
        if errors == map[] {
          var payload := OnSubmit();
          posted := Some(payload);
        }
      }
    }

    /** The request settles: `then` or `catch` shows the toast for the outcome and
        `finally` lowers the busy flag. The values stay as they are on both paths. */
    method Settle(outcome: PostOutcome)
      modifies this`toastMessage, this`toastVariant, this`showToast, this`isSubmitting
      ensures toastMessage == Some(ToastFor(outcome).0) && toastVariant == ToastFor(outcome).1
      ensures showToast && !isSubmitting
    {
      match outcome {
        case Resolved =>
          toastMessage := Some(SuccessMessage);
          toastVariant := "success";
          showToast := true;
        case Rejected =>
          toastMessage := Some(FailureMessage);
          toastVariant := "danger";
          showToast := true;
      }
      isSubmitting := false;
    }

    /** The toast is closed (its close button or its auto-hide). */
    method CloseToast()
      modifies this`showToast
      ensures !showToast
    {
      showToast := false;
    }
  }

  /** Pressing submit on the untouched form posts nothing and reports the missing fields. */
  method EmptyFormScenario(today: Date)
    requires ValidDate(today)
  {
    var form := new FinancingRequestForm();
    InitialValuesVerdict(today);
    var posted := form.PressSubmit(today);
    assert form.errors.Keys == AllFields - {Currency};
    assert Name in AllFields - {Currency};
    assert Name in form.errors.Keys;
    assert Currency !in form.errors.Keys;
    assert posted == None;
    assert !form.isSubmitting;
  }

  /** An OPEC country replaces a chosen EUR by USD; a later other country keeps USD. */
  method CurrencyScenario()
  {
    var form := new FinancingRequestForm();
    form.ChangeField(Currency, "EUR");
    assert form.values.currency == "EUR";
    form.ChangeField(Country, "Saudi Arabia");
    assert form.values.currency == "USD";
    form.ChangeField(Currency, "GBP");
    form.ChangeField(Country, "France");
    assert form.values.currency == "GBP";
  }

  /** A valid form posts once; while the request is in flight a second press posts
      nothing; whichever way the request settles, the busy flag is down afterwards and
      the form keeps its values. */
  method SubmissionScenario(form: FinancingRequestForm, today: Date, outcome: PostOutcome)
    requires ValidDate(today) && !form.isSubmitting && Validate(form.values, today) == map[]
    modifies form
  {
    var draft := form.values;
    var posted := form.PressSubmit(today);
    assert posted == Some(draft) && form.isSubmitting;
    var again := form.PressSubmit(today);
    assert again == None;
    form.Settle(outcome);
    assert !form.isSubmitting && form.showToast && form.values == draft;
    assert outcome == Rejected ==> form.toastMessage == Some(FailureMessage);
  }
}
