/** The booking form: the 12-hour label of a slot, the checks made before a request is sent, the
    calendar's rule for which dates can be picked, and the form's fields as they change. */
module BookingForm {
  import opened Options
  import opened Text
  import opened TimeRules
  import opened EmailShape
  import opened JsNumbers
  import opened Slots
  import opened Appointments

  /** `hour > 12 ? hour - 12 : hour === 0 ? 12 : hour`. */
  function DisplayHour(hour: int): int {
    if hour > 12 then hour - 12 else if hour == 0 then 12 else hour
  }

  /** `hour >= 12 ? "PM" : "AM"`; NaN is not `>= 12`. */
  function Meridiem(hour: Option<int>): string {
    if hour.Some? && hour.value >= 12 then "PM" else "AM"
  }

  /** How a number shows in a template literal; NaN shows as `NaN`. */
  function NumberText(n: Option<int>): string {
    match n
    case Some(v) => IntToString(v)
    case None => "NaN"
  }

  /** `formatTimeSlot(time)`: the hour field read by `parseInt` and shown on a 12-hour clock,
      the minute field as it is (`undefined` when there is none), and AM or PM. */
  function FormatTimeSlot(time: string): string {
    var timeParts := Split(time, ':');
    var hour := ParseInt(timeParts[0]);
    var minute := if |timeParts| > 1 then timeParts[1] else "undefined";
    var displayHour := match hour case Some(h) => Some(DisplayHour(h)) case None => None;
    NumberText(displayHour) + ":" + minute + " " + Meridiem(hour)
  }

  /** For the hours of a day the shown hour is 1 to 12 and agrees with the hour modulo 12:
      0 shows as 12, 1 to 12 as themselves, 13 to 23 as the hour less 12. */
  lemma DisplayHourRange(hour: int)
    requires 0 <= hour <= 23
    ensures 1 <= DisplayHour(hour) <= 12
    ensures DisplayHour(hour) % 12 == hour % 12
  {
  }

  /** The hour, minute and any seconds of a time: the label shows the hour on a 12-hour clock,
      the minute text unchanged, and PM exactly when the hour is 12 or more; the seconds and
      anything after them are dropped. */
  lemma FormatTimeSlotFields(time: string, hh: string, mm: string, tail: string, hour: int)
    requires time == hh + ":" + mm + tail
    requires ':' !in hh && ':' !in mm && (tail == [] || tail[0] == ':')
    requires ParseInt(hh) == Some(hour)
    ensures FormatTimeSlot(time)
            == IntToString(DisplayHour(hour)) + ":" + mm + " " + (if hour >= 12 then "PM" else "AM")
  {
    assert time == hh + [':'] + (mm + tail);
    SplitAfterField(hh, ':', mm + tail);
    if tail == [] {
      assert mm + tail == mm;
      SplitWithoutSeparator(mm, ':');
    } else {
      assert mm + tail == mm + [':'] + tail[1..];
      SplitAfterField(mm, ':', tail[1..]);
    }
    assert Split(time, ':')[..2] == [hh, mm];
  }

  /** `HH:MM:SS` and `HH:MM` get the same label. */
  lemma FormatDropsSeconds(hh: string, mm: string, ss: string)
    requires ':' !in hh && ':' !in mm && ParseInt(hh).Some?
    ensures FormatTimeSlot(hh + ":" + mm + ":" + ss) == FormatTimeSlot(hh + ":" + mm)
  {
    var hour := ParseInt(hh).value;
    FormatTimeSlotFields(hh + ":" + mm + ":" + ss, hh, mm, ":" + ss, hour);
    FormatTimeSlotFields(hh + ":" + mm, hh, mm, [], hour);
  }

  /** The first slot of the grid reads `9:00 AM`. */
  lemma FormatFirstSlot()
    ensures FormatTimeSlot("09:00:00") == "9:00 AM"
  {
    ParseIntTwoDigits('0', '9', []);
    assert ['0', '9'] + [] == "09";
    FormatTimeSlotFields("09:00:00", "09", "00", ":00", 9);
  }

  /** The noon half hour reads `12:30 PM`. */
  lemma FormatNoonHalfHour()
    ensures FormatTimeSlot("12:30:00") == "12:30 PM"
  {
    ParseIntTwoDigits('1', '2', []);
    assert ['1', '2'] + [] == "12";
    assert IntToString(12) == "12" by {
      assert NatToString(1) == "1";
    }
    FormatTimeSlotFields("12:30:00", "12", "30", ":00", 12);
  }

  /** The last slot of the grid reads `5:00 PM`. */
  lemma FormatLastSlot()
    ensures FormatTimeSlot("17:00:00") == "5:00 PM"
  {
    ParseIntTwoDigits('1', '7', []);
    assert ['1', '7'] + [] == "17";
    FormatTimeSlotFields("17:00:00", "17", "00", ":00", 17);
  }

  /** A field that does not start with a digit gives `NaN` as hour, and AM. */
  lemma FormatNaNHour(field: string, mm: string)
    requires ':' !in field && ':' !in mm && field != [] && !IsDigit(field[0])
    requires !IsJsWhitespace(field[0]) && field[0] != '-' && field[0] != '+'
    ensures FormatTimeSlot(field + ":" + mm) == "NaN:" + mm + " AM"
  {
    assert field + ":" + mm == field + [':'] + mm;
    SplitAfterField(field, ':', mm);
    SplitWithoutSeparator(mm, ':');
  }

  /** Why the form refuses to send a request. */
  datatype ClientError = FillAllFields | InvalidEmailAddress

  function ClientMessage(e: ClientError): string {
    match e
    case FillAllFields => "Please fill in all required fields"
    case InvalidEmailAddress => "Please enter a valid email address"
  }

  /** The checks of `handleSubmit` before the request: every required field filled and a date
      and a time selected, then the e-mail pattern. */
  function ClientCheck(firstName: string, lastName: string, email: string, title: string,
                       selectedDate: Option<int>, selectedTime: string): Option<ClientError>
  {
    if firstName == "" || lastName == "" || email == "" || title == "" || selectedDate.None? || selectedTime == "" then
      Some(FillAllFields)
    else if !MatchesEmailPattern(email) then Some(InvalidEmailAddress)
    else None
  }

  /** The form lets a request through exactly when the route's first two checks pass on it. */
  lemma ClientCheckAgreesWithServer(firstName: string, lastName: string, email: string, title: string,
                                    description: string, selectedDate: Option<int>, selectedTime: string)
    ensures ClientCheck(firstName, lastName, email, title, selectedDate, selectedTime).None? <==>
      var req := BookingRequest(firstName, lastName, email, title, description, selectedDate, selectedTime);
      !MissingRequired(req) && MatchesEmailPattern(req.email)
    ensures ClientCheck(firstName, lastName, email, title, selectedDate, selectedTime) == Some(FillAllFields) <==>
      MissingRequired(BookingRequest(firstName, lastName, email, title, description, selectedDate, selectedTime))
  {
  }

  /** A request the form lets through is never refused for missing fields or for its e-mail. */
  lemma ClientCheckedRequestPassesFirstChecks(rows: seq<Appointment>, req: BookingRequest, today: int, fault: StoreFault)
    requires ClientCheck(req.firstName, req.lastName, req.email, req.title, req.date, req.time).None?
    ensures Decide(rows, req, today, fault) != Some(MissingFields)
    ensures Decide(rows, req, today, fault) != Some(InvalidEmail)
  {
  }

  /** The calendar's `disabled` rule: before today, or not Monday to Friday. */
  predicate DateDisabled(day: int, today: int) {
    day < today || !IsWeekday(day)
  }

  /** A date is disabled exactly when the route would refuse it as past or as a weekend day. */
  lemma DateDisabledIffServerRefuses(day: int, today: int)
    ensures DateDisabled(day, today) <==> day < today || Weekday(day) == 0 || Weekday(day) == 6
  {
    WeekdayIffNotWeekend(day);
  }

  /** A request for a date the calendar offers is never refused as past or as a weekend day. */
  lemma SelectableDatePassesDateChecks(rows: seq<Appointment>, req: BookingRequest, today: int, fault: StoreFault)
    requires req.date.Some? && !DateDisabled(req.date.value, today)
    ensures Decide(rows, req, today, fault) != Some(PastDate)
    ensures Decide(rows, req, today, fault) != Some(NotWeekday)
  {
    DateDisabledIffServerRefuses(req.date.value, today);
  }

  /** What submitting the form did. */
  datatype SubmitOutcome = Blocked(error: ClientError) | Sent(reply: PostReply)

  /** The toast `handleSubmit` shows: the form's own message when it blocks the request, the
      success text when the appointment is created, and otherwise the route's `error` text. That
      text is never empty, so the fallback "Failed to book appointment" is never reached. */
  function Toast(outcome: SubmitOutcome): string {
    match outcome
    case Blocked(e) => ClientMessage(e)
    case Sent(Created(_)) => "Appointment booked successfully!"
    case Sent(Rejected(r)) => Message(r)
  }

  /** Different causes show different toasts: from the toast alone the visitor can tell whether
      the form or the route refused, and which check failed. */
  lemma ToastsTellCausesApart(a: SubmitOutcome, b: SubmitOutcome)
    ensures Toast(a) == Toast(b) ==> a.Blocked? == b.Blocked?
    ensures Toast(a) == Toast(b) && a.Blocked? ==> a.error == b.error
    ensures Toast(a) == Toast(b) && a.Sent? ==> b.Sent? && a.reply.Created? == b.reply.Created?
    ensures Toast(a) == Toast(b) && a.Sent? && a.reply.Rejected? ==> a.reply.reason == b.reply.reason
  {
    ToastShape(a);
    ToastShape(b);
  }

  /** The length of each toast and, where two toasts have the same length, a character that tells
      them apart (the first for length 32, the eighth for length 34): no two causes share both. */
  function ToastSignature(outcome: SubmitOutcome): (int, char) {
    match outcome
    case Blocked(FillAllFields) => (34, 'f')
    case Blocked(InvalidEmailAddress) => (34, 'e')
    case Sent(Created(_)) => (32, 'A')
    case Sent(Rejected(MissingFields)) => (23, ' ')
    case Sent(Rejected(InvalidEmail)) => (20, ' ')
    case Sent(Rejected(DatabaseError)) => (14, ' ')
    case Sent(Rejected(SlotTaken)) => (32, 'T')
    case Sent(Rejected(PastDate)) => (36, ' ')
    case Sent(Rejected(NotWeekday)) => (48, ' ')
    case Sent(Rejected(OutsideHours)) => (55, ' ')
    case Sent(Rejected(CreateFailed)) => (28, ' ')
    case Sent(Rejected(InternalError)) => (21, ' ')
  }

  lemma ToastShape(outcome: SubmitOutcome)
    ensures |Toast(outcome)| == ToastSignature(outcome).0
    ensures |Toast(outcome)| == 32 ==> Toast(outcome)[0] == ToastSignature(outcome).1
    ensures |Toast(outcome)| == 34 ==> Toast(outcome)[7] == ToastSignature(outcome).1
    ensures |Toast(outcome)| != 32 && |Toast(outcome)| != 34 ==> ToastSignature(outcome).1 == ' '
  {
    match outcome {
      case Blocked(e) =>
        match e {
          case FillAllFields =>
          case InvalidEmailAddress =>
        }
      case Sent(Created(_)) =>
      case Sent(Rejected(r)) =>
        match r {
          case MissingFields =>
          case InvalidEmail =>
          case DatabaseError =>
          case SlotTaken =>
          case PastDate =>
          case NotWeekday =>
          case OutsideHours =>
          case CreateFailed =>
          case InternalError =>
        }
    }
  }

  /** The state of the booking form. */
  class Form {
    var firstName: string
    var lastName: string
    var email: string
    var title: string
    var description: string
    var selectedDate: Option<int>
    var selectedTime: string
    var availableSlots: seq<string>

    constructor()
      ensures firstName == "" && lastName == "" && email == "" && title == "" && description == ""
      ensures selectedDate.None? && selectedTime == "" && availableSlots == []
    {
      firstName, lastName, email, title, description := "", "", "", "", "";
      selectedDate, selectedTime, availableSlots := None, "", [];
    }

    function Check(): Option<ClientError>
      reads this
    {
      ClientCheck(firstName, lastName, email, title, selectedDate, selectedTime)
    }

    /** The body the form posts. */
    function Request(): BookingRequest
      reads this
    {
      BookingRequest(firstName, lastName, email, title, description, selectedDate, selectedTime)
    }

    /** Typing into the text fields. */
    method EditDetails(first: string, last: string, mail: string, subject: string, details: string)
      modifies this
      ensures firstName == first && lastName == last && email == mail && title == subject && description == details
      ensures selectedDate == old(selectedDate) && selectedTime == old(selectedTime)
      ensures availableSlots == old(availableSlots)
    {
      firstName, lastName, email, title, description := first, last, mail, subject, details;
    }

    /** Picking a date in the calendar, and the effect that follows: when a date is selected the
        slots are fetched for it (`fetched` is `None` when the fetch fails or is refused, which
        empties the list) and the selected time is cleared. */
    method SelectDate(day: Option<int>, fetched: Option<seq<string>>)
      modifies this
      ensures selectedDate == day
      ensures day.Some? ==> selectedTime == "" && availableSlots == fetched.GetOr([])
      ensures day.None? ==> selectedTime == old(selectedTime) && availableSlots == old(availableSlots)
      ensures firstName == old(firstName) && lastName == old(lastName) && email == old(email)
      ensures title == old(title) && description == old(description)
    {
      selectedDate := day;
      if day.Some? {
        match fetched {
          case Some(slots) => availableSlots := slots;
          case None => availableSlots := [];
        }
        selectedTime := "";
      }
    }

    /** Picking a time slot. */
    method SelectTime(time: string)
      modifies this
      ensures selectedTime == time
      ensures firstName == old(firstName) && lastName == old(lastName) && email == old(email)
      ensures title == old(title) && description == old(description)
      ensures selectedDate == old(selectedDate) && availableSlots == old(availableSlots)
    {
      selectedTime := time;
    }

    /** `handleSubmit`: the checks, then the request to the store; a created appointment resets
        every field of the form. A blocked submit sends nothing and changes nothing. */
    method Submit(store: AppointmentStore, today: int, fault: StoreFault) returns (outcome: SubmitOutcome)
      requires store.Valid()
      modifies this, store
      ensures store.Valid()
      ensures old(Check()).Some? ==>
                outcome == Blocked(old(Check()).value)
                && store.rows == old(store.rows) && store.nextId == old(store.nextId)
                && Request() == old(Request())
      ensures old(Check()).None? ==> outcome.Sent?
      ensures outcome.Sent? && Decide(old(store.rows), old(Request()), today, fault).Some? ==>
                outcome.reply == Rejected(Decide(old(store.rows), old(Request()), today, fault).value)
                && store.rows == old(store.rows) && store.nextId == old(store.nextId)
                && Request() == old(Request())
      ensures outcome.Sent? && Decide(old(store.rows), old(Request()), today, fault).None? ==>
                outcome.reply == Created(NewRow(old(Request()), old(store.nextId)))
                && store.rows == old(store.rows) + [outcome.reply.row]
                && store.nextId == old(store.nextId) + 1
                && firstName == "" && lastName == "" && email == "" && title == "" && description == ""
                && selectedDate.None? && selectedTime == ""
      ensures availableSlots == old(availableSlots)
    {
      var error := Check();
      if error.Some? {
        return Blocked(error.value);
      }
      var reply := store.Post(Some(Request()), today, fault);
      if reply.Created? {
        firstName, lastName, email, title, description := "", "", "", "", "";
        selectedDate, selectedTime := None, "";
      }
      return Sent(reply);
    }
  }
}
