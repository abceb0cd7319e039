/**
 The form's validation function: the nine form values and today's date map to an error
 message per failing field. The rules run in the order the form states them, each one
 either recording a message for its field or leaving the field out of the result.
 */
module Validation {
  import opened Wrappers
  import opened Calendar
  import opened ProjectCodes

  datatype Field = Name | Surname | Country | ProjectCode | Description | Amount | Currency | StartDate | EndDate

  const AllFields: set<Field> :=
    {Name, Surname, Country, ProjectCode, Description, Amount, Currency, StartDate, EndDate}

  /** The fields whose only rule is that they are not empty. */
  const PresenceFields: set<Field> := {Name, Surname, Country, Description, Amount, Currency}

  /** The form values, one string per input. */
  datatype Draft = Draft(
    name: string, surname: string, country: string, projectCode: string, description: string,
    amount: string, currency: string, startDate: string, endDate: string)
  {
    function Get(f: Field): string {
      match f
      case Name => name
      case Surname => surname
      case Country => country
      case ProjectCode => projectCode
      case Description => description
      case Amount => amount
      case Currency => currency
      case StartDate => startDate
      case EndDate => endDate
    }

    /** The values with field `f` replaced by `value`. */
    function With(f: Field, value: string): (d: Draft)
      ensures d.Get(f) == value
      ensures forall g :: g != f ==> d.Get(g) == Get(g)
    {
      match f
      case Name => this.(name := value)
      case Surname => this.(surname := value)
      case Country => this.(country := value)
      case ProjectCode => this.(projectCode := value)
      case Description => this.(description := value)
      case Amount => this.(amount := value)
      case Currency => this.(currency := value)
      case StartDate => this.(startDate := value)
      case EndDate => this.(endDate := value)
    }
  }

  /** The form's initial values: every field empty except the currency, which is USD. */
  const InitialValues := Draft("", "", "", "", "", "", "USD", "", "")

  const MinLeadDays := 15
  const MinYears := 1
  const MaxYears := 3

  const ProjectCodeRequired := "Project code is required."
  const ProjectCodeMalformed := "Project Code should be in the format XXXX-XXXX (e.g., ABCD-1234)"
  const StartDateRequired := "Start date is required."
  const StartDateTooSoon := "Start date must be at least 15 days from today."
  const EndDateRequired := "End date is required."
  const EndDateNotAfterStart := "End date must be after the start date."
  const EndDateUnderOneYear := "End date must be at least one year after the start date."
  const EndDateOverThreeYears := "End date must be no more than three years from the start date."

  /** The message of a presence rule. */
  function RequiredMessage(f: Field): string
    requires f in PresenceFields
  {
    match f
    case Name => "First Name is required."
    case Surname => "Last Name is required."
    case Country => "Country is required."
    case Description => "Description is required."
    case Amount => "Amount is required."
    case Currency => "Currency is required."
  }

  // ---------------------------------------------------------------------------
  // The rules, one per field

  /** Empty gives the "required" message, a string that is not four capital letters, a
      hyphen and four digits 1-9 gives the format message, and a project code passes. */
  function ProjectCodeError(code: string): (r: Option<string>)
    ensures r == Some(ProjectCodeRequired) <==> code == ""
    ensures r == Some(ProjectCodeMalformed) <==> code != "" && !IsProjectCode(code)
    ensures r.None? <==> IsProjectCode(code)
  {
    RegexAcceptsProjectCodes(code);
    if code == "" then Some(ProjectCodeRequired)
    else if !Matches(ProjectCodeRegex, code) then Some(ProjectCodeMalformed)
    else None
  }

  /** `today` is the evaluation-time clock; the earliest start is `today` plus 15 days.
      Empty gives the "required" message, a date before the earliest start gives the
      "at least 15 days" message, and anything else passes, including a text that is not
      a date. */
  function StartDateError(start: string, today: Date): (r: Option<string>)
    requires ValidDate(today)
    ensures r == Some(StartDateRequired) <==> start == ""
    ensures var p := ParseIsoDate(start);
      r == Some(StartDateTooSoon) <==>
        start != "" && p.Some? && Precedes(p.value, AddDays(today, MinLeadDays))
    ensures var p := ParseIsoDate(start);
      r.None? <==>
        start != "" && (p.None? || !Precedes(p.value, AddDays(today, MinLeadDays)))
  {
    if start == "" then Some(StartDateRequired)
    else CompareStartDate(ParseIsoDate(start), today)
  }

  /** `startDate < minStartDate`, where an Invalid Date compares false: only a real date
      that comes before today plus 15 days is too soon. */
  function CompareStartDate(start: Option<Date>, today: Date): (r: Option<string>)
    requires start.Some? ==> ValidDate(start.value)
    requires ValidDate(today)
    ensures r.Some? ==> r.value == StartDateTooSoon
    ensures r.Some? <==> start.Some? && Precedes(start.value, AddDays(today, MinLeadDays))
  {
    var minStart := Some(AddDays(today, MinLeadDays));
    TimeValueOrder(start, minStart);
    if Less(TimeValue(start), TimeValue(minStart)) then Some(StartDateTooSoon) else None
  }

  /** The end date against the start date. Empty gives the "required" message; a
      non-empty end is only ever rejected when both texts are dates. */
  function EndDateError(start: string, end: string): (r: Option<string>)
    ensures r == Some(EndDateRequired) <==> end == ""
    ensures end != "" && (ParseIsoDate(start).None? || ParseIsoDate(end).None?) ==> r.None?
  {
    if end == "" then Some(EndDateRequired)
    else CompareEndDate(ParseIsoDate(start), ParseIsoDate(end))
  }

  /** The three comparisons of a non-empty end date, where an Invalid Date compares false.
      With two real dates the first failing check wins: an end on or before the start,
      then an end before start + 1 year, then an end after start + 3 years. */
  function CompareEndDate(start: Option<Date>, end: Option<Date>): (r: Option<string>)
    requires start.Some? ==> ValidDate(start.value)
    requires end.Some? ==> ValidDate(end.value)
    ensures start.None? || end.None? ==> r.None?
    ensures start.Some? && end.Some? ==>
      var s, e := start.value, end.value;
      var oneYear, threeYears := AddYears(s, MinYears), AddYears(s, MaxYears);
      && (r == Some(EndDateNotAfterStart) <==> !Precedes(s, e))
      && (r == Some(EndDateUnderOneYear) <==> Precedes(s, e) && Precedes(e, oneYear))
      && (r == Some(EndDateOverThreeYears) <==>
            Precedes(s, e) && !Precedes(e, oneYear) && Precedes(threeYears, e))
      && (r.None? <==> Precedes(s, e) && !Precedes(e, oneYear) && !Precedes(threeYears, e))
  {
    var minEnd, maxEnd := YearsLater(start, MinYears), YearsLater(start, MaxYears);
    TimeValueOrder(end, start);
    TimeValueOrder(end, minEnd);
    TimeValueOrder(end, maxEnd);
    var startTime, endTime := TimeValue(start), TimeValue(end);
    if LessOrEqual(endTime, startTime) then Some(EndDateNotAfterStart)
    else if Less(endTime, TimeValue(minEnd)) then Some(EndDateUnderOneYear)
    else if Greater(endTime, TimeValue(maxEnd)) then Some(EndDateOverThreeYears)
    else None
  }

  function Required(value: string, f: Field): Option<string>
    requires f in PresenceFields
  {
    if value == "" then Some(RequiredMessage(f)) else None
  }

  /** What it means for field `f` to pass, stated in calendar order rather than in time
      values and without the regular expression. */
  predicate FieldPasses(v: Draft, today: Date, f: Field)
    requires ValidDate(today)
  {
    match f
    case ProjectCode => IsProjectCode(v.projectCode)
    case StartDate =>
      var start := ParseIsoDate(v.startDate);
      v.startDate != "" && (start.Some? ==> !Precedes(start.value, AddDays(today, MinLeadDays)))
    case EndDate =>
      var start, end := ParseIsoDate(v.startDate), ParseIsoDate(v.endDate);
      v.endDate != "" &&
      (start.Some? && end.Some? ==>
         && Precedes(start.value, end.value)
         && !Precedes(end.value, AddYears(start.value, MinYears))
         && !Precedes(AddYears(start.value, MaxYears), end.value))
    case _ => v.Get(f) != ""
  }

  /** Every rule passes: what an empty error object stands for. */
  predicate Acceptable(v: Draft, today: Date)
    requires ValidDate(today)
  {
    forall f :: FieldPasses(v, today, f)
  }

  /** The rule for field `f`: its message, or None exactly when the field passes. */
  function FieldError(v: Draft, today: Date, f: Field): (r: Option<string>)
    requires ValidDate(today)
    ensures r.None? <==> FieldPasses(v, today, f)
  {
    match f
    case ProjectCode => ProjectCodeError(v.projectCode)
    case StartDate => StartDateError(v.startDate, today)
    case EndDate => EndDateError(v.startDate, v.endDate)
    case _ => Required(v.Get(f), f)
  }

  /** The error object the form's `validate` returns. Every rule writes its own key only,
      so the order in which the form runs the rules does not change the result; and the
      object is empty exactly when the draft is acceptable. */
  function Validate(v: Draft, today: Date): (errors: map<Field, string>)
    requires ValidDate(today)
    ensures forall f :: f in errors <==> FieldError(v, today, f).Some?
    ensures forall f :: f in errors ==> errors[f] == FieldError(v, today, f).value
    ensures errors == map[] <==> Acceptable(v, today)
  {
    EveryFieldListed();
    var errors := map f | f in AllFields && FieldError(v, today, f).Some? :: FieldError(v, today, f).value;
    assert errors == map[] <==> Acceptable(v, today) by {
      if Acceptable(v, today) {
        assert forall f :: f !in errors by {
          forall f ensures f !in errors {
            assert FieldPasses(v, today, f);
          }
        }
        assert errors.Keys == {};
      }
      if errors == map[] {
        forall f ensures FieldPasses(v, today, f) {
          assert f !in errors;
        }
      }
    }
    errors
  }

  lemma EveryFieldListed()
    ensures forall f: Field :: f in AllFields
  {
    forall f: Field ensures f in AllFields {
      match f
      case Name =>
      case Surname =>
      case Country =>
      case ProjectCode =>
      case Description =>
      case Amount =>
      case Currency =>
      case StartDate =>
      case EndDate =>
    }
  }

  // ---------------------------------------------------------------------------
  // What the rules mean, field by field

  /** Empty gives the "required" message, anything else that is not four capital letters,
      a hyphen and four digits 1-9 gives the format message, and a project code of that
      form gives no error. */
  lemma ProjectCodeVerdict(v: Draft, today: Date)
    requires ValidDate(today)
    ensures var e := Validate(v, today);
      && (ProjectCode in e && e[ProjectCode] == ProjectCodeRequired <==> v.projectCode == "")
      && (ProjectCode in e && e[ProjectCode] == ProjectCodeMalformed <==>
                v.projectCode != "" && !IsProjectCode(v.projectCode))
      && (ProjectCode !in e <==> IsProjectCode(v.projectCode))
  {
    RegexAcceptsProjectCodes(v.projectCode);
  }

  /** Empty gives the "required" message; a date before today plus 15 days gives the
      "at least 15 days" message; otherwise, including a start that is not a date, there
      is no error. The two messages never both apply. */
  lemma StartDateVerdict(v: Draft, today: Date)
    requires ValidDate(today)
    ensures var e := Validate(v, today);
      var start := ParseIsoDate(v.startDate);
      && (StartDate in e && e[StartDate] == StartDateRequired <==> v.startDate == "")
      && (StartDate in e && e[StartDate] == StartDateTooSoon <==>
                start.Some? && Precedes(start.value, AddDays(today, MinLeadDays)))
      && (StartDate !in e <==> v.startDate != "" && (start.None? || !Precedes(start.value, AddDays(today, MinLeadDays))))
  {
  }

  /** With a start and an end that are both dates, the first failing check wins: an end
      on or before the start, then an end before start + 1 year, then an end after
      start + 3 years; an end in [start + 1 year, start + 3 years] has no error. */
  lemma EndDateVerdict(v: Draft, today: Date, s: Date, e: Date)
    requires ValidDate(today)
    requires ParseIsoDate(v.startDate) == Some(s) && ParseIsoDate(v.endDate) == Some(e)
    ensures var errors := Validate(v, today);
      var oneYear, threeYears := AddYears(s, MinYears), AddYears(s, MaxYears);
      && (EndDate in errors && errors[EndDate] == EndDateNotAfterStart <==> !Precedes(s, e))
      && (EndDate in errors && errors[EndDate] == EndDateUnderOneYear <==>
                Precedes(s, e) && Precedes(e, oneYear))
      && (EndDate in errors && errors[EndDate] == EndDateOverThreeYears <==>
                Precedes(s, e) && !Precedes(e, oneYear) && Precedes(threeYears, e))
      && (EndDate !in errors <==>
                Precedes(s, e) && !Precedes(e, oneYear) && !Precedes(threeYears, e))
  {
  }

  /** Both bounds of the window are inclusive. */
  lemma EndDateWindowInclusive(v: Draft, today: Date, s: Date)
    requires ValidDate(today)
    requires ParseIsoDate(v.startDate) == Some(s)
    requires ParseIsoDate(v.endDate) == Some(AddYears(s, MinYears))
          || ParseIsoDate(v.endDate) == Some(AddYears(s, MaxYears))
    ensures EndDate !in Validate(v, today)
  {
    AddYearsMonotone(s, MinYears, MaxYears);
    AddYearsMonotone(s, 0, MinYears);
    EndDateVerdict(v, today, s, ParseIsoDate(v.endDate).value);
  }

  /** An empty end date gives the "required" message; a non-empty end date gets no error
      when either date is not a date, since every comparison with an Invalid Date is
      false. An empty start date therefore flags only the start. */
  lemma EndDateNeedsTwoDates(v: Draft, today: Date)
    requires ValidDate(today)
    ensures var e := Validate(v, today);
      && (EndDate in e && e[EndDate] == EndDateRequired <==> v.endDate == "")
      && (v.endDate != "" && (ParseIsoDate(v.startDate).None? || ParseIsoDate(v.endDate).None?) ==>
                EndDate !in e)
      && (v.startDate == "" && v.endDate != "" ==>
                StartDate in e && e[StartDate] == StartDateRequired && EndDate !in e)
  {
  }

  /** Each presence rule flags its field exactly when the value is empty. */
  lemma PresenceVerdict(v: Draft, today: Date, f: Field)
    requires ValidDate(today) && f in PresenceFields
    ensures var e := Validate(v, today);
      && (f in e <==> v.Get(f) == "")
      && (f in e ==> e[f] == RequiredMessage(f))
  {
  }

  /** A draft that passes with two real dates keeps the date window in time values:
      start at least 15 days after today, end after start, end between one and three
      calendar years after start. */
  lemma AcceptedDatesKeepWindow(v: Draft, today: Date, s: Date, e: Date)
    requires ValidDate(today) && Validate(v, today) == map[]
    requires ParseIsoDate(v.startDate) == Some(s) && ParseIsoDate(v.endDate) == Some(e)
    ensures DayNumber(s) >= DayNumber(today) + MinLeadDays
    ensures DayNumber(s) < DayNumber(e)
    ensures DayNumber(AddYears(s, MinYears)) <= DayNumber(e) <= DayNumber(AddYears(s, MaxYears))
  {
    assert FieldPasses(v, today, StartDate) && FieldPasses(v, today, EndDate);
    DayNumberOrder(s, AddDays(today, MinLeadDays));
    DayNumberOrder(s, e);
    DayNumberOrder(e, AddYears(s, MinYears));
    DayNumberOrder(AddYears(s, MaxYears), e);
  }

  /** The only keys are field names, and the initial values fail every rule except the
      currency's. */
  lemma InitialValuesVerdict(today: Date)
    requires ValidDate(today)
    ensures Validate(InitialValues, today).Keys == AllFields - {Currency}
  {
    ProjectCodeVerdict(InitialValues, today);
  }

  // ---------------------------------------------------------------------------
  // Worked examples

  /** The date text a date input produces for `d`, parsed back to `d`. */
  lemma Parses(text: string, d: Date)
    requires ValidDate(d) && 0 <= d.year <= 9999 && FormatIsoDate(d) == text
    ensures ParseIsoDate(text) == Some(d)
  {
    ParseFormatted(d);
  }

  /** Today 2024-01-01: a start on 2024-01-10 is too soon, one on 2024-01-16 is not. */
  lemma StartDateExamples()
    ensures StartDateError("2024-01-10", Date(2024, 1, 1)) == Some(StartDateTooSoon)
    ensures StartDateError("2024-01-16", Date(2024, 1, 1)) == None
    ensures StartDateError("", Date(2024, 1, 1)) == Some(StartDateRequired)
  {
    Parses("2024-01-10", Date(2024, 1, 10));
    Parses("2024-01-16", Date(2024, 1, 16));
  }

  /** Start 2024-02-01: the allowed ends are 2025-02-01 .. 2027-02-01, both included. */
  lemma EndDateExamples(v: Draft, today: Date)
    requires ValidDate(today) && ParseIsoDate(v.startDate) == Some(Date(2024, 2, 1))
    ensures var e, end := Validate(v, today), ParseIsoDate(v.endDate);
      && (end == Some(Date(2024, 2, 1)) ==> EndDate in e && e[EndDate] == EndDateNotAfterStart)
      && (end == Some(Date(2024, 6, 1)) ==> EndDate in e && e[EndDate] == EndDateUnderOneYear)
      && (end == Some(Date(2025, 2, 1)) ==> EndDate !in e)
      && (end == Some(Date(2027, 2, 1)) ==> EndDate !in e)
      && (end == Some(Date(2027, 2, 2)) ==> EndDate in e && e[EndDate] == EndDateOverThreeYears)
  {
    var end := ParseIsoDate(v.endDate);
    if end.Some? {
      EndDateVerdict(v, today, Date(2024, 2, 1), end.value);
    }
  }
}
