# Financing request form, modelled in Dafny

This project models the two components of the Financing-Request application that make
decisions.

- The React form `FinancingRequestForm` (src/FinancingRequestForm.js) is the one that
  src/App.js renders. It keeps its state in Formik and in its own `useState` cells.
- The context provider `FinancingProvider` (src/FinancingContext.js) is a separate
  component. Neither the form nor App.js uses it. It keeps its own request record and has
  the two-way variant of the currency rule.

The form collects a name and surname, a country, a project code, a description, an amount
with a currency, and a start and an end date. It validates them in the browser and posts
them to the backend.

The model has these parts:

- `Validation.Validate` is the form's `validate` function: a pure function from the nine
  string values and today's date to a map from field to message. Each rule is a function
  of its own. The lemmas state what each rule accepts and rejects, and that an empty error
  object means exactly that every rule passes (`Validation.Acceptable`).
- The date rules rest on the `Calendar` module:
  - a `Date(year, month, day)` of the proleptic Gregorian calendar;
  - its time value in days, computed the way ECMAScript's MakeDay computes it;
  - `setDate(getDate() + n)` as `AddDays`, which rolls over month and year ends;
  - `setFullYear(getFullYear() + n)` as `AddYears`, which moves 29 February to 1 March in a
    year that is not a leap year;
  - the `YYYY-MM-DD` text a date input produces, with its parser and printer.
- An Invalid Date is `None`, and every comparison with it is false, as NaN comparisons are
  in JavaScript.
- `ProjectCodes` writes the regular expression `^[A-Z]{4}-[1-9]{4}$` as counted character
  classes. It proves that the matcher accepts exactly four capital letters, a hyphen and
  four digits from 1 to 9.
- `CurrencyRules` holds the static data: the fifteen OPEC members, the currency options and
  their symbols. It also holds the two currency rules:
  - the form's one-way rule: a member forces USD and any other country leaves the currency
    alone;
  - the provider's two-way rule: USD for a member and the empty string otherwise.
- `RequestForm.FinancingRequestForm` is a class holding the form's state:
  - the values, the error object and the fetched country names;
  - the toast message, variant and visibility;
  - the busy flag.
  Its methods are the events: a field edit with the currency effect, a click on the submit
  button, the settling of the POST, and closing the toast.
- `FinancingContext.FinancingProvider` is a class holding the provider's state: the request
  record, the currency and the OPEC list. Its methods are mounting, with its two effects,
  and `handleFormChange`.

Today's date and the outcome of each HTTP request are parameters.

## Model

| member | source | states |
|---|---|---|
| Calendar.AddDays | src/FinancingRequestForm.js:62 | Adding n days to a valid date gives a valid date whose time value is MakeDay(year, month, day + n): the overflow rolls into the following months and years. |
| Calendar.AddYears | src/FinancingRequestForm.js:74-77 | Adding n years keeps the month and the day and normalises as MakeDay does. The result is a valid date in year + n with time value MakeDay(year + n, month, day). |
| Calendar.AddYearsKeepsMonthAndDay | src/FinancingRequestForm.js:74-77 | Month and day survive the year addition exactly when the date is not 29 February being moved into a year that is not a leap year. |
| Calendar.AddYearsMonotone | src/FinancingRequestForm.js:74-77 | A positive number of years moves a date strictly later, and more years move it further, so start + 1 year comes before start + 3 years. |
| Calendar.YearLength | src/FinancingRequestForm.js:74-77 | The closed-form day count of the years before y grows by 366 across a leap year and by 365 across any other year. |
| Calendar.DaysBeforeYearCountsYears | src/FinancingRequestForm.js:74-77 | The closed-form count of days before year n equals the lengths of years 0 .. n-1 added up one at a time. |
| Calendar.DayWithinYear | src/FinancingRequestForm.js:65 | A valid date's time value lies between the first and the last day of its year. |
| Calendar.DayNumberOrder | src/FinancingRequestForm.js:65-83 | For valid dates, a smaller time value means an earlier calendar date and vice versa, and equal time values mean the same date. |
| Calendar.TimeValueOrder | src/FinancingRequestForm.js:65-83 | JavaScript's `<`, `<=` and `>` on two Dates hold exactly when both are valid and the first comes before, before or on, or after the second in calendar order; with an Invalid Date all three are false. |
| Calendar.ParseIsoDate | src/FinancingRequestForm.js:60-61 | A string that parses names a real calendar day with a four-digit year. |
| Calendar.ParseFormatted | src/FinancingRequestForm.js:60-61 | Printing a date as YYYY-MM-DD and parsing the text gives the date back. |
| Calendar.FormatParsed | src/FinancingRequestForm.js:60-61 | Every string that parses is the YYYY-MM-DD text of its date, so no other spelling is accepted. |
| Calendar.CalendarExamples | src/FinancingRequestForm.js:62-77 | 2024-02-29 plus 1 and 3 years is 1 March, and plus 4 years is 29 February. Adding 15 days crosses month ends, both leap and common, and the end of the year. |
| Calendar.IsoDateExamples | src/FinancingRequestForm.js:60-61 | "2024-02-29" parses to its date; the empty string and "2024-1-05" are Invalid Dates under the ISO-only parsing described under "Left out" (some engines accept "2024-1-05"). |
| Calendar.NoLeapDayExample | src/FinancingRequestForm.js:60-61 | "2023-02-29" is an Invalid Date under the ISO-only parsing described under "Left out" (some engines roll it over to 1 March). |
| Calendar.NoThirteenthMonthExample | src/FinancingRequestForm.js:60-61 | "2024-13-01" is an Invalid Date. |
| ProjectCodes.MatchHasWidth | src/FinancingRequestForm.js:51 | An anchored pattern of counted classes only matches strings exactly as long as the counts add up to. |
| ProjectCodes.RegexAcceptsProjectCodes | src/FinancingRequestForm.js:51 | `^[A-Z]{4}-[1-9]{4}$` matches a string if and only if it is four capital letters, a hyphen and four digits 1-9. |
| ProjectCodes.ProjectCodeExamples | src/FinancingRequestForm.js:51-55 | ABCD-1234 is a project code; ABCD-0123, ABCD-0000, abcd-1234, ABC-1234, ABCD-12345 and the empty string are not. |
| Validation.ProjectCodeError | src/FinancingRequestForm.js:51-56 | An empty code gives "Project code is required.". A non-empty code that is not four capitals, a hyphen and four digits 1-9 gives the format message. A code of that form passes. Each is stated in both directions. |
| Validation.StartDateError | src/FinancingRequestForm.js:63-67 | An empty start gives "required". A real date before today + 15 days gives "at least 15 days". Anything else passes, including a text that is not a date. Each is stated in both directions. |
| Validation.CompareStartDate | src/FinancingRequestForm.js:62-66 | `startDate < minStartDate` fails exactly for a real date that comes before today + 15 days in calendar order, and its only message is "at least 15 days". |
| Validation.EndDateError | src/FinancingRequestForm.js:70-72 | An empty end gives "required", in both directions. A non-empty end passes when either text is not a date. The outcome for two real dates is `CompareEndDate`'s contract. |
| Validation.CompareEndDate | src/FinancingRequestForm.js:73-85 | An Invalid Date on either side passes. With two real dates, in calendar order: an end on or before the start gives "must be after"; else an end before start + 1 year gives "at least one year"; else an end after start + 3 years gives "no more than three years"; else it passes. Each is stated in both directions. |
| Validation.FieldError | src/FinancingRequestForm.js:47-111 | The rule for a field gives no message exactly when the field passes, as `FieldPasses` states it in calendar order. |
| Validation.Validate | src/FinancingRequestForm.js:47-114 | The error object has a key exactly for the fields whose rule fails, holding that rule's message. It is empty if and only if the draft is acceptable: every field passes in calendar terms. |
| Validation.ProjectCodeVerdict | src/FinancingRequestForm.js:50-56 | An empty code gives the "required" message. A non-empty code that is not of the format gives the format message. A code of the format gives no key. Each is stated in both directions. |
| Validation.StartDateVerdict | src/FinancingRequestForm.js:58-67 | An empty start gives "required". A date before today + 15 days gives "at least 15 days". Anything else gives no key. Each is stated in both directions, so the two messages exclude each other. |
| Validation.EndDateVerdict | src/FinancingRequestForm.js:69-86 | With two real dates, the first failing check wins: an end on or before the start, then an end before start + 1 year, then an end after start + 3 years. Otherwise there is no key. Each is stated in both directions. |
| Validation.EndDateWindowInclusive | src/FinancingRequestForm.js:79-85 | An end exactly 1 or exactly 3 years after the start gives no end-date error. |
| Validation.EndDateNeedsTwoDates | src/FinancingRequestForm.js:60-86 | An empty end gives "required", in both directions. A non-empty end gets no key when either date is invalid. With an empty start and a non-empty end, only the start is flagged. |
| Validation.PresenceVerdict | src/FinancingRequestForm.js:88-111 | Name, surname, country, description, amount and currency each get a key exactly when empty, with that field's message. |
| Validation.AcceptedDatesKeepWindow | src/FinancingRequestForm.js:59-86 | When a draft with two real dates passes, the start is at least 15 days after today and the end lies after the start and between start + 1 year and start + 3 years, all in time values. |
| Validation.InitialValuesVerdict | src/FinancingRequestForm.js:36-111 | The initial values fail every rule except the currency's. |
| Validation.StartDateExamples | src/FinancingRequestForm.js:59-67 | With today 2024-01-01, a start on 2024-01-10 is too soon, one on 2024-01-16 passes, and an empty start is required. This holds at whole-day granularity (see "Left out"): in the source, after midnight UTC on 2024-01-01 the 2024-01-16 start is rejected. |
| Validation.EndDateExamples | src/FinancingRequestForm.js:69-86 | With a start on 2024-02-01: an end on the same day is not after the start; 2024-06-01 is under a year; 2025-02-01 and 2027-02-01 pass; 2027-02-02 is over three years. |
| CurrencyRules.CurrencySymbol | src/FinancingRequestForm.js:7-14 | Exactly the five currency options have a symbol. |
| CurrencyRules.OpecMembersFacts | src/FinancingRequestForm.js:18-22 | The list has fifteen distinct names, and the empty string is not among them. |
| CurrencyRules.ForceUsdRule | src/FinancingRequestForm.js:135-142 | A member forces USD, any other country leaves the currency unchanged, and applying the rule twice equals applying it once. |
| CurrencyRules.ForceUsdKeepsSymbol | src/FinancingRequestForm.js:135-142 | A currency that has a symbol still has one after the rule has run. |
| CurrencyRules.TwoWayCurrencyRule | src/FinancingContext.js:32-39 | The provider's rule gives USD exactly for members and the empty string exactly for every other country. |
| CurrencyRules.EmptyListResetsCurrency | src/FinancingContext.js:10-39 | While the member list is still the initial empty list, every country resets the currency to empty. |
| CurrencyRules.RulesCompared | src/FinancingContext.js:32-39 | Once a currency has been chosen, the two rules agree on members and disagree on every other country. |
| RequestForm.ToastFor | src/FinancingRequestForm.js:119-128 | A resolved request gets the "success" variant and a rejected one gets "danger". |
| RequestForm.FinancingRequestForm.constructor | src/FinancingRequestForm.js:17-46 | On mount: the initial values, no errors, no countries, no toast message, variant "success", toast hidden, not submitting. |
| RequestForm.FinancingRequestForm.ReceiveCountries | src/FinancingRequestForm.js:28-33 | The fetched names are stored and nothing else changes. |
| RequestForm.FinancingRequestForm.ApplyCurrencyRule | src/FinancingRequestForm.js:135-142 | The currency becomes the form rule's result for the current country, and no other value changes. |
| RequestForm.FinancingRequestForm.ChangeField | src/FinancingRequestForm.js:135-142 | The edited field takes the new value and no other field except the currency changes. When the country changes, the currency is the one-way rule's result; otherwise the currency is left as it was. |
| RequestForm.FinancingRequestForm.OnSubmit | src/FinancingRequestForm.js:115-118 | The busy flag goes up and the posted payload is the current values. |
| RequestForm.FinancingRequestForm.PressSubmit | src/FinancingRequestForm.js:290-296 | While busy, a click does nothing. Otherwise the error object is recomputed, and the values are posted if and only if it is empty. |
| RequestForm.FinancingRequestForm.Settle | src/FinancingRequestForm.js:119-131 | Either outcome shows its toast and lowers the busy flag. |
| RequestForm.FinancingRequestForm.CloseToast | src/FinancingRequestForm.js:147 | The toast is hidden. |
| FinancingContext.FinancingProvider.constructor | src/FinancingContext.js:9-21 | The eight record fields are empty and there is no currency key. The currency is empty and the OPEC list is empty. |
| FinancingContext.FinancingProvider.Mount | src/FinancingContext.js:23-39 | The OPEC list is stored. The currency effect sees the list as it was at render, which is still empty. |
| FinancingContext.FinancingProvider.HandleFormChange | src/FinancingContext.js:32-47 | The named key takes the value and every other key keeps its value. When the country changes, the currency follows the two-way rule; otherwise the currency is unchanged. |

## What the code checks and what it does not

The model follows `validate`, not the attributes on the inputs.

- The currency has a presence check (src/FinancingRequestForm.js:109-111), like the other
  presence fields. The currency select (lines 250-261) only offers the five codes, so from
  the UI the check never fires.
- Every input carries a `required` attribute, but the form is `noValidate` (line 152), so
  only `validate` decides what is missing.
- The description's 150-character limit is only the input's `maxLength={150}` (line 225),
  announced by its placeholder (line 221). `validate` checks only that the description is
  present.
- Whether the country is in the fetched list, or the amount is positive, is never checked.
  Only presence is.
- A non-empty start date that is not a date gets no error at all, because a comparison with
  an Invalid Date is false. A non-empty end date gets no error when either date is invalid.
  A date input only produces the empty string or a real date, so neither case arises from
  the UI.

## Left out

- HTTP: the country-list GETs and the POST are network I/O. Only their outcome enters the
  model, as the `PostOutcome` parameter of `Settle` and the names given to
  `ReceiveCountries`. A POST that never settles is a `Settle` that is never called. The
  rejected country fetch only logs an error.
- The provider's fetched country list (src/FinancingContext.js:9 and 25-26) is left out. It
  is only passed on to consumers and no decision depends on it. The raw `setRequestData`
  setter the provider hands out is left out too.
- JSX, Bootstrap, the spinner and the toast's 3-second auto-hide are rendering. Auto-hide
  is modelled only as `CloseToast`.
- src/App.js only mounts the component and is not part of this model.
- Formik internals are left out:
  - `touched` tracking, and the validation Formik also runs on change and on blur;
  - its own `isSubmitting` flag;
  - `handleChange` turning a `type="number"` input into a number, so an amount of 0 would
    be falsy. Here the amount is the string the input holds.
  `PressSubmit` assumes that Formik runs `validate` before `onSubmit` and calls `onSubmit`
  only when the error object is empty.
- Time zones and time of day are left out. In the source, `new Date("YYYY-MM-DD")` is UTC
  midnight but `today` carries the local clock time, so whether a start exactly 15 days
  ahead passes depends on the zone and the hour. The end-date window is affected too:
  `setFullYear` works in local time on that UTC midnight, so west of UTC a start of
  "2024-03-01" gets a minimum end of 2025-03-02 UTC. The model works in whole days, with
  `today` as a date parameter, and here `AddYears(Date(2024, 3, 1), 1)` is 2025-03-01.
- Date parsing beyond the ISO date-only form is left out. `ParseIsoDate` accepts only
  `YYYY-MM-DD` naming a real day. JavaScript engines differ on strings such as
  "2024-02-31" (some roll over, some give an Invalid Date) and accept other formats.
  Years outside 0000-9999 are not modelled.
- `AddYears` on an Invalid Date: `startDate.getFullYear() + 1` is NaN when the start is an
  Invalid Date, and `setFullYear` with a NaN year yields an Invalid Date. This is modelled
  as `YearsLater` returning `None`, not on a `Date` object with a time part.
