# Booking-creation form of salon-booking, in Dafny

The salon-booking client lets a customer create a reservation in a dialog
(`src/app/components/CreateBooking/index.tsx`). The dialog keeps a draft with
these fields:

- a client name;
- the chosen services;
- a date;
- a time slot (`hour`);
- a doctor.

The draft is checked by a form schema with per-field rules and a cross-field
"not in the past" test. Picking a date asks the server for that day's free
hours. Picking an hour asks for the doctors free at that date and time.
Submitting sends a payload whose `reservation_date` is `dd-MM-yyyy HH:MM`.

This project models that component:

- `wrappers.dfy` (`Wrappers`): `Option`. It stands for a value or
  `null`/`undefined`.
- `js_strings.dfy` (`JsStrings`): the ECMAScript primitives the form relies
  on. These are `trim`, `.length` in UTF-16 code units, `split` on one
  character, `parseInt(v, 10)`, and zero-padded decimals. Each comes with its
  inverse or characterisation.
- `calendar.dfy` (`Calendar`): calendar days, their day numbers on the time
  line, and date-fns' `dd-MM-yyyy` and `yyyy-MM-dd` renderings. It also
  proves that both renderings parse back to the same day.
- `booking_schema.dfy` (`BookingSchema`): the draft, `isFutureDateTime`, the
  schema's field rules, the cross-field test and whole-draft validity.
- `booking_gating.dfy` (`BookingGating`): when the hours and doctors queries
  run and with which argument. It also models when the two dropdowns and the
  submit button are disabled.
- `booking_payload.dfy` (`BookingPayload`): the payload `onSubmit` builds, the
  schema output it is built from, and how `reservation_date` reads back.
- `booking_dialog.dfy` (`BookingDialog`): the form state as a class whose
  handlers update it in place. These handlers are the inputs' `onChange`
  handlers, the date change that clears hour and doctor, `reset()` after
  success or dismissal, and `handleSubmit`.

Modelling choices:

- "Now" is a parameter: the value `Date.now()` would return, in milliseconds
  since 1970-01-01 00:00 on the local wall clock.
- `setHours` rolls hours and minutes over into neighbouring days. The model
  writes this out as arithmetic on the day number. A time value beyond
  ±8.64·10^15 ms becomes NaN, as it does in JavaScript.
- The Unicode letter (`\p{L}`) and mark (`\p{M}`) classes are parameters (a
  `CharClasses` record). Every rule and lemma therefore holds for any
  choice of them.
- The ECMAScript whitespace set is written out. `trim`, `parseInt` and `\s`
  all use it.
- `min(2)`/`max(80)` count UTF-16 code units. The regular expression counts
  code points. Both counts are modelled.
- The resolver passes the schema's output to `onSubmit`. So the
  `client_name` that is sent is the trimmed one (`SchemaOutput`).

Behaviour of the form worth knowing:

- There is one `client_name`, of 2 to 80 characters.
- Nothing checks that the chosen hour or doctor belongs to the fetched option
  list.
- Changing the hour does not clear the doctor. A doctor picked for one slot
  stays selected when the hour changes, even though the doctors list is
  fetched again. `BookingForm.SelectHour` states this.
- `isValid` comes from the last validation, which runs on each field change.
  The "not in the past" test is therefore evaluated at the time of that
  change. Only `handleSubmit` evaluates it again at submission time.

## Model

| member | source | states |
|---|---|---|
| JsStrings.Trim | src/app/components/CreateBooking/index.tsx:64 | `trim()`: the name without leading and trailing ECMAScript whitespace and line terminators |
| JsStrings.TrimStart | src/app/components/CreateBooking/index.tsx:64 | exactly the longest whitespace prefix is removed: what is dropped is all whitespace and what is left starts with a non-space |
| JsStrings.TrimEnd | src/app/components/CreateBooking/index.tsx:64 | exactly the longest whitespace suffix is removed: what is dropped is all whitespace and what is left ends with a non-space |
| JsStrings.TrimIsTrimmed | src/app/components/CreateBooking/index.tsx:64 | the trimmed name starts and ends with a non-space |
| JsStrings.TrimIdempotent | src/app/components/CreateBooking/index.tsx:64 | trimming the trimmed name again changes nothing |
| JsStrings.Utf16Length | src/app/components/CreateBooking/index.tsx:66-67 | the length `min`/`max` measure lies between the code-point count and twice it, and equals it for text inside the Basic Multilingual Plane |
| JsStrings.Split | src/app/components/CreateBooking/index.tsx:50 | `split(':')`: the pieces between separators, at least one, none containing the separator |
| JsStrings.JoinSplit | src/app/components/CreateBooking/index.tsx:50 | joining the pieces of `split(':')` gives the time string back |
| JsStrings.SplitJoin | src/app/components/CreateBooking/index.tsx:50 | splitting a join of colon-free pieces gives the pieces back |
| JsStrings.ParseInt | src/app/components/CreateBooking/index.tsx:50 | `parseInt(v, 10)`: leading whitespace skipped, an optional sign, the longest digit run; NaN (None) when there is no digit |
| JsStrings.ParseIntDigits | src/app/components/CreateBooking/index.tsx:50 | `parseInt` reads a leading run of digits as its value and ignores the rest |
| JsStrings.ParseIntNoDigits | src/app/components/CreateBooking/index.tsx:50 | a piece without digits is NaN to `parseInt` |
| JsStrings.SplitAtFirstOf | src/app/components/CreateBooking/index.tsx:182-184 | cutting at the first space separates a space-free head from the rest exactly |
| Calendar.NextDay | src/app/components/CreateBooking/index.tsx:52 | the following day is exactly one day number later, across month and year ends |
| Calendar.DayNumberMonotone | src/app/components/CreateBooking/index.tsx:53 | a later calendar day has a larger day number, so its time values are later |
| Calendar.DayNumberInjective | src/app/components/CreateBooking/index.tsx:53 | distinct days never share a day number |
| Calendar.FormatYmd | src/app/components/CreateBooking/index.tsx:156 | `format(date, 'yyyy-MM-dd')`: four-digit year, two-digit month and day, joined by dashes |
| Calendar.FormatDmy | src/app/components/CreateBooking/index.tsx:182 | `format(date, 'dd-MM-yyyy')`: two-digit day and month, four-digit year, joined by dashes |
| Calendar.FormatDmyRoundTrip | src/app/components/CreateBooking/index.tsx:182 | the `dd-MM-yyyy` rendering parses back to the same day |
| Calendar.FormatYmdRoundTrip | src/app/components/CreateBooking/index.tsx:156 | the `yyyy-MM-dd` rendering parses back to the same day |
| Calendar.FormatDmyShape | src/app/components/CreateBooking/index.tsx:182 | for four-digit years the rendering is ten characters with dashes at positions 2 and 5 |
| Calendar.NoSpaceInFormats | src/app/components/CreateBooking/index.tsx:164 | neither date rendering contains a space |
| BookingSchema.OrZero | src/app/components/CreateBooking/index.tsx:52 | the fallback to 0: NaN becomes 0, any other number is kept |
| BookingSchema.SetHours | src/app/components/CreateBooking/index.tsx:51-53 | `setHours(hh, mm, 0, 0)` on a copy of the day: the slot's time value, with hours and minutes rolling over into other days, or NaN beyond the `Date` range |
| BookingSchema.IsFutureDateTime | src/app/components/CreateBooking/index.tsx:47-57 | false whenever the date or the time string is missing or empty, and false for the Invalid Date |
| BookingSchema.IsFutureAtSlot | src/app/components/CreateBooking/index.tsx:50-53 | for a well-formed `HH:MM`, true exactly when that minute of that day, seconds zeroed, is at or after now (equal counts as future) |
| BookingSchema.UnreadableTimeIsMidnight | src/app/components/CreateBooking/index.tsx:50-52 | a time string with no digit at all reads as 00:00 |
| BookingSchema.ReadsHoursAndMinutes | src/app/components/CreateBooking/index.tsx:50-53 | a time `a:b` is read as hour `parseInt(a)` and minute `parseInt(b)` of the chosen day, each 0 when NaN |
| BookingSchema.UnreadableHourIsZero | src/app/components/CreateBooking/index.tsx:50-52 | an hour part that does not parse counts as hour 0 while the minutes are still read (`"ab:30"` is 00:30) |
| BookingSchema.UnreadableMinutesAreZero | src/app/components/CreateBooking/index.tsx:50-52 | a minute part that does not parse counts as minute 0 while the hour is still read |
| BookingSchema.HourOnlyTime | src/app/components/CreateBooking/index.tsx:50-52 | a time without a colon is read as a whole hour, minute 0 |
| BookingSchema.SetHoursRollsOver | src/app/components/CreateBooking/index.tsx:52 | hour 24+h of a day is hour h of the next day |
| BookingSchema.SlotInRange | src/app/components/CreateBooking/index.tsx:51-53 | a slot of any year up to 200000 has a valid (non-NaN) time value |
| BookingSchema.LaterDayIsLater | src/app/components/CreateBooking/index.tsx:53 | every slot of a later day is later than every slot of an earlier day |
| BookingSchema.MatchesNamePattern | src/app/components/CreateBooking/index.tsx:69 | `/^[\p{L}][\p{L}\p{M}\s.'-]{1,79}$/u`: a letter, then 1 to 79 characters of the class |
| BookingSchema.ClientNameValid | src/app/components/CreateBooking/index.tsx:62-71 | the `client_name` rule: the trimmed value is non-empty, 2 to 80 UTF-16 units long and matches the pattern |
| BookingSchema.TailRunIff | src/app/components/CreateBooking/index.tsx:69 | the counted class `[\p{L}\p{M}\s.'-]{lo,hi}` matches exactly the strings of allowed length made of class characters |
| BookingSchema.ClientNameValidIff | src/app/components/CreateBooking/index.tsx:62-71 | the name rule holds iff the trimmed name has 2 to 80 code points and at most 80 UTF-16 units, starts with a letter, and continues with letters, marks, whitespace, `.`, `'` or `-` only |
| BookingSchema.ServicesValid | src/app/components/CreateBooking/index.tsx:73-81 | the `services` rule: at least one service, each with a non-empty name |
| BookingSchema.DateValid | src/app/components/CreateBooking/index.tsx:83-91 | the `date` rule: a date is set and it is not the Invalid Date |
| BookingSchema.HourValid | src/app/components/CreateBooking/index.tsx:93-103 | the `hour` rule: an hour is set and its time is non-empty |
| BookingSchema.DoctorValid | src/app/components/CreateBooking/index.tsx:105-111 | the `doctor` rule: a doctor is set and its full name is non-empty |
| BookingSchema.NotInPast | src/app/components/CreateBooking/index.tsx:114-120 | the cross-field test: it passes while date or time is missing, and is `isFutureDateTime` of the chosen date and time otherwise |
| BookingSchema.DraftValid | src/app/components/CreateBooking/index.tsx:60-120 | the whole schema at time `now`: every field rule and the cross-field test |
| BookingSchema.NotInPastAtSlot | src/app/components/CreateBooking/index.tsx:114-120 | with a day in a year up to 200000 and a well-formed `HH:MM` slot chosen, whatever the other fields hold, the cross-field test passes exactly when that slot is at or after now |
| BookingSchema.IncompleteDraftInvalid | src/app/components/CreateBooking/index.tsx:60-120 | while the date or the time is missing the cross-field test passes, yet the draft is invalid for every character table and every now |
| BookingSchema.DraftValidIff | src/app/components/CreateBooking/index.tsx:60-120 | the draft is valid iff every field rule holds and the chosen date and time are not in the past |
| BookingSchema.SlotDecidesValidity | src/app/components/CreateBooking/index.tsx:114-120 | with all field rules met, the draft is valid exactly when its slot is at or after now; a past slot fails only the cross-field test |
| BookingSchema.LaterDayStaysValid | src/app/components/CreateBooking/index.tsx:114-120 | moving a valid booking to any slot of a later day keeps it valid |
| BookingGating.HoursQuery | src/app/components/CreateBooking/index.tsx:153-158 | the hours query runs iff a date is set; it requests exactly for a real day, whose `yyyy-MM-dd` argument reads back as that day, and `format` fails only on the Invalid Date |
| BookingGating.DoctorsQuery | src/app/components/CreateBooking/index.tsx:160-167 | the doctors query runs iff a date is set and the hour has a non-empty time; it requests exactly when that date is also a real day, and its argument splits back into the `yyyy-MM-dd` day and the time |
| BookingGating.HourDropdownDisabled | src/app/components/CreateBooking/index.tsx:279 | the hour dropdown is disabled while no date is set or the hours are loading |
| BookingGating.DoctorDropdownDisabled | src/app/components/CreateBooking/index.tsx:297 | the doctor dropdown is disabled while no date is set, the hour has no time, or the doctors are loading |
| BookingGating.SubmitDisabled | src/app/components/CreateBooking/index.tsx:307 | the submit button is disabled while the values are invalid or `handleSubmit` is running |
| BookingGating.DoctorsQueryFollowsHours | src/app/components/CreateBooking/index.tsx:153-167 | the doctors query never runs without the hours query, and it asks about the same day |
| BookingGating.DropdownsMirrorQueries | src/app/components/CreateBooking/index.tsx:279-297 | each dropdown is enabled iff its query is enabled and not loading |
| BookingGating.SubmitEnabledIff | src/app/components/CreateBooking/index.tsx:307 | submit is enabled iff the draft is valid and `handleSubmit` is not running; both queries have then requested their lists |
| BookingPayload.ServiceTypes | src/app/components/CreateBooking/index.tsx:185 | `service_types` has the services' length and order and keeps only their ids |
| BookingPayload.BuildPayload | src/app/components/CreateBooking/index.tsx:178-186 | the payload carries the name as handed over, the doctor's id exactly when a doctor is set, and the ids of the services in order |
| BookingPayload.ReservationDateRoundTrip | src/app/components/CreateBooking/index.tsx:182-184 | `reservation_date` is the `dd-MM-yyyy` day, one space and the hour's time, and reads back as exactly that day and time |
| BookingPayload.ReservationDateInjective | src/app/components/CreateBooking/index.tsx:182-184 | different days or times never give the same `reservation_date` |
| BookingPayload.SchemaOutput | src/app/components/CreateBooking/index.tsx:64 | the values the resolver hands to `onSubmit`: the draft with its name trimmed |
| BookingPayload.SchemaOutputValid | src/app/components/CreateBooking/index.tsx:64 | the trimmed values handed to `onSubmit` still satisfy the schema and the name has no surrounding whitespace |
| BookingDialog.BookingForm.constructor | src/app/components/CreateBooking/index.tsx:136-142 | the form starts from the default draft (empty name, no services, no date, hour and doctor null); it is invalid and neither query runs |
| BookingDialog.BookingForm.EditClientName | src/app/components/CreateBooking/index.tsx:211-222 | only the name changes |
| BookingDialog.BookingForm.SelectServices | src/app/components/CreateBooking/index.tsx:240 | only the services change |
| BookingDialog.BookingForm.SelectDate | src/app/components/CreateBooking/index.tsx:257-262 | the date is stored and hour and doctor become null whatever they were; the doctors query stops and the draft is invalid |
| BookingDialog.BookingForm.SelectHour | src/app/components/CreateBooking/index.tsx:280 | only the hour changes; the doctor is kept |
| BookingDialog.BookingForm.SelectDoctor | src/app/components/CreateBooking/index.tsx:298 | only the doctor changes |
| BookingDialog.BookingForm.Reset | src/app/components/CreateBooking/index.tsx:136-142 | the draft is the default again; it is invalid and neither query runs |
| BookingDialog.BookingForm.SubmissionSucceeded | src/app/components/CreateBooking/index.tsx:189-193 | after a successful submission the draft is the default |
| BookingDialog.BookingForm.Dismiss | src/app/components/CreateBooking/index.tsx:203-206 | after dismissing the dialog the draft is the default |
| BookingDialog.BookingForm.HandleSubmit | src/app/components/CreateBooking/index.tsx:178-186 | a payload is produced iff the draft is valid at now. It carries the trimmed, valid name, the doctor's id and at least one service. Its `reservation_date` reads back as the chosen day and time. The form is left unchanged |

## Left out

- Time zones and daylight saving time: `now` and all time values are on the local wall clock. The offset between local time and UTC is not modelled.
- Floating-point effects of `parseInt` and `setHours` on numbers beyond 2^53 are not modelled. Such inputs are integers here, and only the final time value is clipped to ±8.64·10^15 ms.
- Lone UTF-16 surrogates in strings cannot occur here: a Dafny `char` is a Unicode scalar value.
- The `try`/`catch` in `isFutureDateTime`: nothing on the modelled path throws, so the `catch` branch is not modelled.
- Years before 1 are not modelled: a day is a proleptic Gregorian date with year ≥ 1. Days have no upper bound on the year. Days beyond the JavaScript `Date` range (after year 275760) are admitted, for example by `DateValid` and `HoursQuery`, but they stand for no real `Date`.
- Field error messages: only whether each rule holds is modelled.
- React Query caching by key, the handling of stale responses, loading flags and the option lists themselves belong to the query library and the server. The loading flags appear only as parameters of the disabled predicates.
- The create-booking request and its failure path are not modelled. On failure the form itself does nothing and keeps the draft; the HTTP layer shows an error toast, or clears storage and redirects to login when the user is not authorised. Closing the dialog and refetching the list after success are UI calls outside the form state.
- `BookingGating.SubmitDisabled`: `isSubmitting` covers only the run of `handleSubmit`. `onSubmit` starts the create request and does not wait for it, so the button is enabled again while that request is still in flight and a second submission is possible. The model has no notion of a pending request.
- The calendar widget's `minDate` is a widget constraint, not a validation rule.
- HTTP and token storage (`src/lib/axios.ts`, `src/app/api/index.ts`) are not part of this model.
- Pages and login inputs (`src/app/page.tsx`, `src/app/login/*`) are not part of this model.
- `BookingSchema.SlotInRange`: stated only for days in years up to 200000, which keeps slot time values clear of the NaN limit; years 200001 to 275760, which `Date` still represents, are not covered.
- `BookingSchema.IsFutureAtSlot`: stated only for days in years up to 200000, which keeps slot time values clear of the NaN limit; years 200001 to 275760, which `Date` still represents, are not covered.
- `BookingSchema.NotInPastAtSlot`: stated only for days in years up to 200000, which keeps slot time values clear of the NaN limit; years 200001 to 275760, which `Date` still represents, are not covered.
- `BookingSchema.SlotDecidesValidity`: stated only for days in years up to 200000, which keeps slot time values clear of the NaN limit; years 200001 to 275760, which `Date` still represents, are not covered.
- `BookingSchema.LaterDayStaysValid`: stated only for days in years up to 200000, which keeps slot time values clear of the NaN limit; years 200001 to 275760, which `Date` still represents, are not covered.
