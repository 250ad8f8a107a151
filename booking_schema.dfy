/** The validation rules of the booking-creation form: the shape of its
    values, `isFutureDateTime`, the per-field rules of the form schema and
    the cross-field "not in the past" test. */
module BookingSchema {
  import opened Wrappers
  import opened JsStrings
  import opened Calendar

  datatype Service = Service(id: int, name: string)
  datatype Doctor = Doctor(id: int, fullName: string)
  datatype Hour = Hour(time: string)

  /** A JavaScript `Date` object: a time value on some calendar day, or the
      Invalid Date whose time value is NaN. The time of day it carries is
      irrelevant here: every use either formats the day or overwrites the
      time of day. */
  datatype JsDate = InvalidDate | Day(day: CalDate)

  /** The form's values; `None` stands for both `null` and `undefined`. */
  datatype Draft = Draft(
    clientName: string,
    services: seq<Service>,
    date: Option<JsDate>,
    hour: Option<Hour>,
    doctor: Option<Doctor>)

  /** The form's default values. */
  const DefaultDraft: Draft := Draft("", [], None, None, None)

  /** The Unicode general categories L (letters) and M (marks) that `\p{L}`
      and `\p{M}` test. The Unicode tables are not part of this model, so
      every rule below holds for any choice of them. */
  datatype CharClasses = CharClasses(isLetter: char -> bool, isMark: char -> bool)

  // ---------------------------------------------------------------------
  // isFutureDateTime
  // ---------------------------------------------------------------------

  const MsPerMinute: int := 60_000
  const MsPerHour: int := 3_600_000
  const MsPerDay: int := 86_400_000

  /** The largest magnitude of a JavaScript time value; a `Date` pushed
      beyond it becomes the Invalid Date. */
  const MaxTimeValue: int := 8_640_000_000_000_000

  /** The time value (milliseconds since 1970-01-01 00:00) of minute `m` of
      hour `h` on day `d`, before clipping; out-of-range hours and minutes
      fall on neighbouring days. */
  function SlotTime(d: CalDate, h: int, m: int): int {
    (DayNumber(d) - UnixEpochDay) * MsPerDay + h * MsPerHour + m * MsPerMinute
  }

  /** The time value of a copy of a `Date` on day `d` after
      `setHours(hh, mm, 0, 0)`: the unclipped value when it is inside the
      `Date` range, and None (NaN) beyond it. */
  function SetHours(d: CalDate, hh: int, mm: int): Option<int> {
    var v := SlotTime(d, hh, mm);
    if -MaxTimeValue <= v <= MaxTimeValue then Some(v) else None
  }

  /** JavaScript's `n || 0` on a number: NaN (and -0) become 0. */
  function OrZero(n: Option<int>): int {
    match n
    case Some(v) => v
    case None => 0
  }

  /** `isFutureDateTime(date, timeStr)` evaluated when `Date.now()` is `now`:
      the day of `date` at the hours and minutes read from `timeStr` (seconds
      and milliseconds zeroed) is not earlier than `now`. */
  function IsFutureDateTime(date: Option<JsDate>, timeStr: Option<string>, now: int): (r: bool)
    ensures date.None? || timeStr.None? || timeStr == Some("") ==> !r
    ensures date == Some(InvalidDate) ==> !r
  {
    if date.None? || timeStr.None? || timeStr.value == "" then false
    else
      var parts := Split(timeStr.value, ':');
      var hh := OrZero(ParseInt(parts[0]));
      var mm := if |parts| > 1 then OrZero(ParseInt(parts[1])) else 0;
      match date.value
      case InvalidDate => false
      case Day(d) =>
        var t := SetHours(d, hh, mm);
        t.Some? && t.value >= now
  }

  /** The `HH:MM` label of a time slot. */
  function SlotLabel(h: nat, m: nat): string
    requires h < 24 && m < 60
  {
    ZeroPad(h, 2) + ":" + ZeroPad(m, 2)
  }

  lemma DayNumberBound(d: CalDate)
    requires d.year <= 200000
    ensures 0 <= DayNumber(d) <= 366 * d.year
  {
    DayWithinYear(d);
  }

  /** Within any realistic year, a slot's time value is a valid time value. */
  lemma SlotInRange(d: CalDate, h: int, m: int)
    requires 0 <= h < 24 && 0 <= m < 60 && d.year <= 200000
    ensures SetHours(d, h, m) == Some(SlotTime(d, h, m))
  {
    DayNumberBound(d);
    var days := DayNumber(d) - UnixEpochDay;
    assert -UnixEpochDay <= days <= 366 * 200000;
    assert -UnixEpochDay * MsPerDay <= days * MsPerDay <= 366 * 200000 * MsPerDay;
  }

  /** On a well-formed `HH:MM` label, `isFutureDateTime` holds exactly when
      that minute of that day is at or after `now`. */
  lemma IsFutureAtSlot(d: CalDate, h: nat, m: nat, now: int)
    requires h < 24 && m < 60 && d.year <= 200000
    ensures IsFutureDateTime(Some(Day(d)), Some(SlotLabel(h, m)), now) <==> SlotTime(d, h, m) >= now
  {
    var a, b := ZeroPad(h, 2), ZeroPad(m, 2);
    assert Split(SlotLabel(h, m), ':') == [a, b] by {
      NoSeparatorInDigits(a, ':');
      NoSeparatorInDigits(b, ':');
      SplitPair(a, b, ':');
      assert SlotLabel(h, m) == a + [':'] + b;
    }
    assert ParseInt(a) == Some(h) by {
      ParseIntDigits(a, []);
      assert a + [] == a;
    }
    assert ParseInt(b) == Some(m) by {
      ParseIntDigits(b, []);
      assert b + [] == b;
    }
    SlotInRange(d, h, m);
  }

  /** A time string without any digit reads as hour 0, minute 0. */
  lemma UnreadableTimeIsMidnight(d: CalDate, t: string, now: int)
    requires t != [] && forall k :: 0 <= k < |t| ==> !IsDigit(t[k])
    ensures IsFutureDateTime(Some(Day(d)), Some(t), now) <==>
      SetHours(d, 0, 0).Some? && SetHours(d, 0, 0).value >= now
  {
    var midnight := SetHours(d, 0, 0);
    var parts := Split(t, ':');
    assert OrZero(ParseInt(parts[0])) == 0 && (|parts| > 1 ==> OrZero(ParseInt(parts[1])) == 0) by {
      var noDigit := (c: char) => !IsDigit(c);
      SplitKeeps(t, ':', noDigit);
      ParseIntNoDigits(parts[0]);
      if |parts| > 1 {
        ParseIntNoDigits(parts[1]);
      }
    }
    assert IsFutureDateTime(Some(Day(d)), Some(t), now) == (midnight.Some? && midnight.value >= now);
  }

  /** A time string `a:b` is read as hour `parseInt(a) || 0` and minute
      `parseInt(b) || 0` of the day. */
  lemma ReadsHoursAndMinutes(d: CalDate, a: string, b: string, now: int)
    requires ':' !in a && ':' !in b
    ensures IsFutureDateTime(Some(Day(d)), Some(a + ":" + b), now) <==>
      var t := SetHours(d, OrZero(ParseInt(a)), OrZero(ParseInt(b)));
      t.Some? && t.value >= now
  {
    assert a + ":" + b == a + [':'] + b;
    SplitPair(a, b, ':');
  }

  /** An hour part that does not parse counts as hour 0; the minutes are
      still read. */
  lemma UnreadableHourIsZero(d: CalDate, a: string, b: string, now: int)
    requires ':' !in a && ':' !in b && ParseInt(a).None?
    ensures IsFutureDateTime(Some(Day(d)), Some(a + ":" + b), now) <==>
      var t := SetHours(d, 0, OrZero(ParseInt(b)));
      t.Some? && t.value >= now
  {
    ReadsHoursAndMinutes(d, a, b, now);
  }

  /** A minute part that does not parse counts as minute 0; the hour is
      still read. */
  lemma UnreadableMinutesAreZero(d: CalDate, a: string, b: string, now: int)
    requires ':' !in a && ':' !in b && ParseInt(b).None?
    ensures IsFutureDateTime(Some(Day(d)), Some(a + ":" + b), now) <==>
      var t := SetHours(d, OrZero(ParseInt(a)), 0);
      t.Some? && t.value >= now
  {
    ReadsHoursAndMinutes(d, a, b, now);
  }

  /** A time string without a colon is read as a whole hour. */
  lemma HourOnlyTime(d: CalDate, a: string, now: int)
    requires a != "" && ':' !in a
    ensures IsFutureDateTime(Some(Day(d)), Some(a), now) <==>
      var t := SetHours(d, OrZero(ParseInt(a)), 0);
      t.Some? && t.value >= now
  {
    SplitJoin([a], ':');
  }

  /** Hours past 23 roll over into the next day, as `setHours` does. */
  lemma SetHoursRollsOver(d: CalDate, hh: int, mm: int)
    ensures SetHours(d, hh + 24, mm) == SetHours(NextDay(d), hh, mm)
  {
  }

  /** Any slot on a later day is later than any slot on an earlier day. */
  lemma LaterDayIsLater(d1: CalDate, h1: nat, m1: nat, d2: CalDate, h2: nat, m2: nat)
    requires h1 < 24 && m1 < 60 && h2 < 24 && m2 < 60
    requires Before(d1, d2)
    ensures SlotTime(d1, h1, m1) < SlotTime(d2, h2, m2)
  {
    DayNumberMonotone(d1, d2);
  }

  // ---------------------------------------------------------------------
  // The schema's field rules
  // ---------------------------------------------------------------------

  /** A character of the class `[\p{L}\p{M}\s.'-]`. */
  predicate NameTailChar(cc: CharClasses, c: char) {
    cc.isLetter(c) || cc.isMark(c) || IsJsSpace(c) || c == '.' || c == '\'' || c == '-'
  }

  /** Whether all of `s` is matched by `[\p{L}\p{M}\s.'-]{lo,hi}`, consuming
      one repetition per character. */
  predicate TailRun(cc: CharClasses, s: string, lo: int, hi: int)
    decreases |s|
  {
    if s == [] then lo <= 0
    else 1 <= hi && NameTailChar(cc, s[0]) && TailRun(cc, s[1..], lo - 1, hi - 1)
  }

  /** `/^[\p{L}][\p{L}\p{M}\s.'-]{1,79}$/u.test(t)`. */
  predicate MatchesNamePattern(cc: CharClasses, t: string) {
    t != [] && cc.isLetter(t[0]) && TailRun(cc, t[1..], 1, 79)
  }

  /** A counted repetition matches exactly the strings of allowed length
      whose every character is in the class. */
  lemma {:induction false} TailRunIff(cc: CharClasses, s: string, lo: int, hi: int)
    requires 0 <= hi
    ensures TailRun(cc, s, lo, hi) <==> lo <= |s| <= hi && forall k :: 0 <= k < |s| ==> NameTailChar(cc, s[k])
    decreases |s|
  {
    if s != [] {
      if 1 <= hi {
        TailRunIff(cc, s[1..], lo - 1, hi - 1);
        if NameTailChar(cc, s[0]) && forall k :: 0 <= k < |s[1..]| ==> NameTailChar(cc, s[1..][k]) {
          forall k | 0 <= k < |s| ensures NameTailChar(cc, s[k]) {
            if k > 0 {
              assert s[k] == s[1..][k - 1];
            }
          }
        }
      }
    }
  }

  /** The `client_name` rule: the trimmed value is required, has a length of
      2 to 80 (UTF-16 code units) and matches the name pattern. */
  predicate ClientNameValid(cc: CharClasses, raw: string) {
    var t := Trim(raw);
    t != "" && 2 <= Utf16Length(t) && Utf16Length(t) <= 80 && MatchesNamePattern(cc, t)
  }

  /** The `client_name` rule in plain terms: after trimming, 2 to 80 code
      points and at most 80 UTF-16 code units, a letter first, and only
      letters, marks, whitespace, `.`, `'` or `-` after it. */
  lemma ClientNameValidIff(cc: CharClasses, raw: string)
    ensures ClientNameValid(cc, raw) <==>
      var t := Trim(raw);
      2 <= |t| <= 80 && Utf16Length(t) <= 80 && cc.isLetter(t[0])
      && forall k :: 1 <= k < |t| ==> NameTailChar(cc, t[k])
  {
    var t := Trim(raw);
    if t != [] {
      TailRunIff(cc, t[1..], 1, 79);
      assert forall k :: 1 <= k < |t| ==> t[k] == t[1..][k - 1];
    }
  }

  /** The `services` rule: at least one service, each with a name. */
  predicate ServicesValid(services: seq<Service>) {
    |services| >= 1 && forall i :: 0 <= i < |services| ==> services[i].name != ""
  }

  /** The `date` rule: present and not the Invalid Date. */
  predicate DateValid(date: Option<JsDate>) {
    date.Some? && date.value.Day?
  }

  /** The `hour` rule: present with a non-empty `time`. */
  predicate HourValid(hour: Option<Hour>) {
    hour.Some? && hour.value.time != ""
  }

  /** The `doctor` rule: present with a non-empty `full_name`. */
  predicate DoctorValid(doctor: Option<Doctor>) {
    doctor.Some? && doctor.value.fullName != ""
  }

  /** `values.hour?.time ?? null`. */
  function SelectedTime(d: Draft): Option<string> {
    if d.hour.Some? then Some(d.hour.value.time) else None
  }

  /** The cross-field test: with a date and a non-empty time chosen, the
      chosen moment is not in the past; otherwise it does not block. */
  predicate NotInPast(d: Draft, now: int) {
    if d.date.None? || SelectedTime(d).None? || SelectedTime(d) == Some("") then true
    else IsFutureDateTime(d.date, SelectedTime(d), now)
  }

  /** Every per-field rule holds. */
  predicate FieldsValid(cc: CharClasses, d: Draft) {
    ClientNameValid(cc, d.clientName) && ServicesValid(d.services)
    && DateValid(d.date) && HourValid(d.hour) && DoctorValid(d.doctor)
  }

  /** The whole schema evaluated at time `now`. The form's `isValid` is this
      predicate at the time of the last field change (validation runs on
      change); `handleSubmit` evaluates it again at submission time. */
  predicate DraftValid(cc: CharClasses, d: Draft, now: int) {
    FieldsValid(cc, d) && NotInPast(d, now)
  }

  /** With a day and a well-formed slot chosen, whatever the other fields
      hold, the cross-field test passes exactly when that slot is at or after
      `now`. */
  lemma NotInPastAtSlot(d: Draft, day: CalDate, h: nat, m: nat, now: int)
    requires h < 24 && m < 60 && day.year <= 200000
    requires d.date == Some(Day(day)) && d.hour == Some(Hour(SlotLabel(h, m)))
    ensures NotInPast(d, now) <==> SlotTime(day, h, m) >= now
  {
    IsFutureAtSlot(day, h, m, now);
  }

  /** While the date or the time is missing the cross-field test passes, but
      the draft is still invalid: the vacuous pass never admits an incomplete
      draft. */
  lemma IncompleteDraftInvalid(cc: CharClasses, d: Draft, now: int)
    requires d.date.None? || d.hour.None? || d.hour.value.time == ""
    ensures NotInPast(d, now)
    ensures !DraftValid(cc, d, now)
  {
  }

  /** A draft is valid exactly when every field rule holds and the chosen
      date and time are not in the past. */
  lemma DraftValidIff(cc: CharClasses, d: Draft, now: int)
    ensures DraftValid(cc, d, now) <==>
      FieldsValid(cc, d) && IsFutureDateTime(d.date, Some(d.hour.value.time), now)
  {
  }

  /** A draft whose fields are all valid is accepted exactly when its slot
      is not in the past; when it is in the past, only the cross-field test
      fails. */
  lemma SlotDecidesValidity(cc: CharClasses, d: Draft, day: CalDate, h: nat, m: nat, now: int)
    requires h < 24 && m < 60 && day.year <= 200000
    requires FieldsValid(cc, d)
    requires d.date == Some(Day(day)) && d.hour.value.time == SlotLabel(h, m)
    ensures DraftValid(cc, d, now) <==> SlotTime(day, h, m) >= now
  {
    IsFutureAtSlot(day, h, m, now);
  }

  /** Moving a valid booking to any slot of a later day keeps it valid. */
  lemma LaterDayStaysValid(cc: CharClasses, d: Draft, day: CalDate, h: nat, m: nat,
                           later: CalDate, h2: nat, m2: nat, now: int)
    requires h < 24 && m < 60 && h2 < 24 && m2 < 60
    requires day.year <= 200000 && later.year <= 200000 && Before(day, later)
    requires d.date == Some(Day(day)) && d.hour == Some(Hour(SlotLabel(h, m)))
    requires DraftValid(cc, d, now)
    ensures DraftValid(cc, d.(date := Some(Day(later)), hour := Some(Hour(SlotLabel(h2, m2)))), now)
  {
    IsFutureAtSlot(day, h, m, now);
    IsFutureAtSlot(later, h2, m2, now);
    LaterDayIsLater(day, h, m, later, h2, m2);
  }
}
