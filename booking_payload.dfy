/** The request body `onSubmit` builds for the create-booking endpoint, and
    what the server can read back from it. */
module BookingPayload {
  import opened Wrappers
  import opened JsStrings
  import opened Calendar
  import opened BookingSchema

  /** An entry of `service_types`: `{ id }`. */
  datatype ServiceType = ServiceType(id: int)

  datatype Payload = Payload(
    clientName: string,
    doctorId: Option<int>,
    reservationDate: string,
    serviceTypes: seq<ServiceType>)

  /** `services.map((s) => ({ id: s.id }))`. */
  function ServiceTypes(services: seq<Service>): (r: seq<ServiceType>)
    ensures |r| == |services|
    ensures forall i :: 0 <= i < |services| ==> r[i].id == services[i].id
  {
    if services == [] then []
    else [ServiceType(services[0].id)] + ServiceTypes(services[1..])
  }

  /** The values the schema hands to `onSubmit`: its output, in which
      `client_name` has been trimmed and every other field is unchanged. */
  function SchemaOutput(d: Draft): Draft {
    d.(clientName := Trim(d.clientName))
  }

  /** The payload `onSubmit` builds: the name as given, the doctor's id (if
      any), the day as `dd-MM-yyyy`, a space and the slot's time, and the
      ids of the chosen services. The date must be a real date and the hour
      present, which validation guarantees before `onSubmit` runs. */
  function BuildPayload(d: Draft): (p: Payload)
    requires DateValid(d.date) && d.hour.Some?
    ensures p.clientName == d.clientName
    ensures p.doctorId.Some? <==> d.doctor.Some?
    ensures d.doctor.Some? ==> p.doctorId.value == d.doctor.value.id
    ensures |p.serviceTypes| == |d.services|
    ensures forall i :: 0 <= i < |d.services| ==> p.serviceTypes[i].id == d.services[i].id
  {
    Payload(
      d.clientName,
      if d.doctor.Some? then Some(d.doctor.value.id) else None,
      FormatDmy(d.date.value.day) + " " + d.hour.value.time,
      ServiceTypes(d.services))
  }

  /** How the server reads `reservation_date`: a `dd-MM-yyyy` day, a space,
      then the time as given. */
  function ParseReservationDate(s: string): Option<(CalDate, string)> {
    match SplitAtFirst(s, ' ')
    case None => None
    case Some((day, time)) =>
      match ParseDmy(day)
      case None => None
      case Some(c) => Some((c, time))
  }

  /** `reservation_date` carries exactly the chosen day and time. */
  lemma ReservationDateRoundTrip(d: Draft)
    requires DateValid(d.date) && d.hour.Some?
    ensures ParseReservationDate(BuildPayload(d).reservationDate) == Some((d.date.value.day, d.hour.value.time))
  {
    var c := d.date.value.day;
    NoSpaceInFormats(c);
    SplitAtFirstOf(FormatDmy(c), ' ', d.hour.value.time);
    FormatDmyRoundTrip(c);
  }

  /** Two valid drafts that differ in day or time never produce the same
      `reservation_date`. */
  lemma ReservationDateInjective(d1: Draft, d2: Draft)
    requires DateValid(d1.date) && d1.hour.Some? && DateValid(d2.date) && d2.hour.Some?
    requires BuildPayload(d1).reservationDate == BuildPayload(d2).reservationDate
    ensures d1.date == d2.date && d1.hour == d2.hour
  {
    ReservationDateRoundTrip(d1);
    ReservationDateRoundTrip(d2);
  }

  /** What the schema hands to `onSubmit` for a valid draft is still valid,
      and its name has no surrounding whitespace. */
  lemma SchemaOutputValid(cc: CharClasses, d: Draft, now: int)
    requires DraftValid(cc, d, now)
    ensures DraftValid(cc, SchemaOutput(d), now)
    ensures Trim(SchemaOutput(d).clientName) == SchemaOutput(d).clientName
  {
    TrimIdempotent(d.clientName);
  }
}
