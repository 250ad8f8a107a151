/** Which option lists the booking form asks the server for, and which of
    its controls are disabled, as functions of its current values. */
module BookingGating {
  import opened Wrappers
  import opened JsStrings
  import opened Calendar
  import opened BookingSchema

  /** What a dependent query does with the current values: it does not run,
      it runs and its `format` call throws on the Invalid Date, or it
      requests the option list for the given argument. */
  datatype FetchPlan = Disabled | FormatFails | Request(arg: string)

  /** The available-hours query: enabled by `!!selectedDate`, argument
      `format(selectedDate, 'yyyy-MM-dd')`. */
  function HoursQuery(d: Draft): (plan: FetchPlan)
    ensures plan != Disabled <==> d.date.Some?
    ensures plan.Request? <==> d.date.Some? && d.date.value.Day?
    ensures plan.Request? ==> ParseYmd(plan.arg) == Some(d.date.value.day)
  {
    match d.date
    case None => Disabled
    case Some(InvalidDate) => FormatFails
    case Some(Day(c)) =>
      FormatYmdRoundTrip(c);
      Request(FormatYmd(c))
  }

  /** The doctors query: enabled by `!!selectedDate && !!selectedHour?.time`,
      argument `format(selectedDate, 'yyyy-MM-dd')`, a space, then the time. */
  function DoctorsQuery(d: Draft): (plan: FetchPlan)
    ensures plan != Disabled <==> d.date.Some? && HourValid(d.hour)
    ensures plan.Request? <==> d.date.Some? && d.date.value.Day? && HourValid(d.hour)
    ensures plan.Request? ==>
      SplitAtFirst(plan.arg, ' ') == Some((FormatYmd(d.date.value.day), d.hour.value.time))
  {
    if d.date.None? || !HourValid(d.hour) then Disabled
    else
      match d.date.value
      case InvalidDate => FormatFails
      case Day(c) =>
        NoSpaceInFormats(c);
        SplitAtFirstOf(FormatYmd(c), ' ', d.hour.value.time);
        Request(FormatYmd(c) + " " + d.hour.value.time)
  }

  /** The doctors query never runs before the hours query is enabled, and
      when it requests, it asks about the very day the hours query asks
      about. */
  lemma DoctorsQueryFollowsHours(d: Draft)
    ensures DoctorsQuery(d) != Disabled ==> HoursQuery(d) != Disabled
    ensures DoctorsQuery(d).Request? ==>
      HoursQuery(d).Request?
      && SplitAtFirst(DoctorsQuery(d).arg, ' ').value.0 == HoursQuery(d).arg
  {
  }

  /** The hour dropdown: `disabled={!selectedDate || loadingHours}`. */
  predicate HourDropdownDisabled(d: Draft, loadingHours: bool) {
    d.date.None? || loadingHours
  }

  /** The doctor dropdown:
      `disabled={!selectedDate || !selectedHour?.time || loadingDoctors}`. */
  predicate DoctorDropdownDisabled(d: Draft, loadingDoctors: bool) {
    d.date.None? || !(d.hour.Some? && d.hour.value.time != "") || loadingDoctors
  }

  /** The submit button: `disabled={!isValid || isSubmitting}`.
      `isSubmitting` is true only while `handleSubmit` validates and runs
      `onSubmit`, which starts the create request without waiting for it. */
  predicate SubmitDisabled(cc: CharClasses, d: Draft, now: int, isSubmitting: bool) {
    !DraftValid(cc, d, now) || isSubmitting
  }

  /** Each dropdown is enabled exactly when its query is enabled and not
      loading. */
  lemma DropdownsMirrorQueries(d: Draft, loadingHours: bool, loadingDoctors: bool)
    ensures !HourDropdownDisabled(d, loadingHours) <==> HoursQuery(d) != Disabled && !loadingHours
    ensures !DoctorDropdownDisabled(d, loadingDoctors) <==> DoctorsQuery(d) != Disabled && !loadingDoctors
  {
  }

  /** Submit is enabled exactly when the draft is valid and `handleSubmit`
      is not running; then both dependent queries have requested their
      lists. */
  lemma SubmitEnabledIff(cc: CharClasses, d: Draft, now: int, isSubmitting: bool)
    ensures !SubmitDisabled(cc, d, now, isSubmitting) <==> DraftValid(cc, d, now) && !isSubmitting
    ensures !SubmitDisabled(cc, d, now, isSubmitting) ==>
      HoursQuery(d).Request? && DoctorsQuery(d).Request?
  {
  }
}
