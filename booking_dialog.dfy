/** The booking dialog's form state and the handlers that update it in
    place: the inputs' `onChange` handlers, `reset()` after a successful
    submission or on dismissal, and `handleSubmit`. */
module BookingDialog {
  import opened Wrappers
  import opened JsStrings
  import opened BookingSchema
  import opened BookingGating
  import opened BookingPayload

  class BookingForm {
    var clientName: string
    var services: seq<Service>
    var date: Option<JsDate>
    var hour: Option<Hour>
    var doctor: Option<Doctor>

    /** `getValues()`: the current values as one record. */
    function Values(): Draft
      reads this
    {
      Draft(clientName, services, date, hour, doctor)
    }

    /** A fresh form holds the default values; it is not valid and neither
        dependent query runs. */
    constructor ()
      ensures Values() == DefaultDraft
      ensures forall cc, now :: !DraftValid(cc, Values(), now)
      ensures HoursQuery(Values()) == Disabled && DoctorsQuery(Values()) == Disabled
    {
      clientName := "";
      services := [];
      date := None;
      hour := None;
      doctor := None;
    }

    /** The client-name input. */
    method EditClientName(v: string)
      modifies this
      ensures Values() == old(Values()).(clientName := v)
    {
      clientName := v;
    }

    /** The services multi-select. */
    method SelectServices(v: seq<Service>)
      modifies this
      ensures Values() == old(Values()).(services := v)
    {
      services := v;
    }

    /** The calendar: store the new date, then clear the hour and the doctor,
        whatever they were. Afterwards the doctors query is off, the hours
        query runs exactly when a date is set, and the form is not valid
        until an hour and a doctor are chosen again. */
    method SelectDate(v: Option<JsDate>)
      modifies this
      ensures Values() == old(Values()).(date := v, hour := None, doctor := None)
      ensures HoursQuery(Values()) != Disabled <==> v.Some?
      ensures DoctorsQuery(Values()) == Disabled
      ensures forall cc, now :: !DraftValid(cc, Values(), now)
    {
      date := v;
      hour := None;
      doctor := None;
    }

    /** The hour dropdown: only the hour changes; in particular the doctor
        chosen for the previous hour stays selected. */
    method SelectHour(v: Option<Hour>)
      modifies this
      ensures Values() == old(Values()).(hour := v)
    {
      hour := v;
    }

    /** The doctor dropdown: only the doctor changes. */
    method SelectDoctor(v: Option<Doctor>)
      modifies this
      ensures Values() == old(Values()).(doctor := v)
    {
      doctor := v;
    }

    /** `reset()`: back to the default values. */
    method Reset()
      modifies this
      ensures Values() == DefaultDraft
      ensures forall cc, now :: !DraftValid(cc, Values(), now)
      ensures HoursQuery(Values()) == Disabled && DoctorsQuery(Values()) == Disabled
    {
      clientName := "";
      services := [];
      date := None;
      hour := None;
      doctor := None;
    }

    /** The create-booking request succeeded: the form is reset (the dialog
        is then closed and the bookings list refetched). */
    method SubmissionSucceeded()
      modifies this
      ensures Values() == DefaultDraft
    {
      Reset();
    }

    /** The dialog is dismissed: the form is reset (and the dialog closed). */
    method Dismiss()
      modifies this
      ensures Values() == DefaultDraft
    {
      Reset();
    }

    /** `handleSubmit(onSubmit)` at time `now`: validate, and only if the
        values are valid, build the payload from the schema's output. The
        form itself is left as it is. */
    method HandleSubmit(cc: CharClasses, now: int) returns (payload: Option<Payload>)
      ensures payload.Some? <==> DraftValid(cc, Values(), now)
      ensures payload.Some? ==>
        payload.value == BuildPayload(SchemaOutput(Values()))
        && payload.value.clientName == Trim(clientName)
        && ClientNameValid(cc, payload.value.clientName)
        && payload.value.doctorId == Some(doctor.value.id)
        && |payload.value.serviceTypes| >= 1
        && ParseReservationDate(payload.value.reservationDate) == Some((date.value.day, hour.value.time))
    {
      var values := Values();
      if DraftValid(cc, values, now) {
        var output := SchemaOutput(values);
        SchemaOutputValid(cc, values, now);
        ReservationDateRoundTrip(output);
        payload := Some(BuildPayload(output));
      } else {
        payload := None;
      }
    }
  }
}
