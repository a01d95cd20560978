/** The appointments route: `POST /api/appointments` validates a booking request in a fixed order
    and inserts one row; `GET /api/appointments` lists the rows newest first. The table is an
    in-memory sequence of rows held by a store object; store failures are a parameter. */
module Appointments {
  import opened Options
  import opened Text
  import opened Seqs
  import opened TimeRules
  import opened EmailShape
  import opened JsNumbers
  import opened Slots

  /** A row of the appointments table. */
  datatype Appointment = Appointment(
    id: nat,
    firstName: string,
    lastName: string,
    email: string,
    title: string,
    description: string,
    date: int,     // appointment_date, as a day number
    time: string)  // appointment_time, as sent by the client

  /** The JSON body of a booking request. An absent text field is the empty text; an absent or
      empty date is `None`. */
  datatype BookingRequest = BookingRequest(
    firstName: string,
    lastName: string,
    email: string,
    title: string,
    description: string,
    date: Option<int>,
    time: string)

  /** Why the route refused a booking. */
  datatype Rejection =
    | MissingFields
    | InvalidEmail
    | DatabaseError   // the slot lookup failed
    | SlotTaken
    | PastDate
    | NotWeekday
    | OutsideHours
    | CreateFailed    // the insert failed
    | InternalError   // the body could not be read

  function Message(r: Rejection): string {
    match r
    case MissingFields => "Missing required fields"
    case InvalidEmail => "Invalid email format"
    case DatabaseError => "Database error"
    case SlotTaken => "This time slot is already booked"
    case PastDate => "Cannot book appointments in the past"
    case NotWeekday => "Appointments are only available Monday to Friday"
    case OutsideHours => "Appointments are only available from 9:00 AM to 6:00 PM"
    case CreateFailed => "Failed to create appointment"
    case InternalError => "Internal server error"
  }

  function Status(r: Rejection): nat {
    if r.DatabaseError? || r.CreateFailed? || r.InternalError? then 500 else 400
  }

  /** Which store call, if any, answers with an error. */
  datatype StoreFault = NoFault | LookupFails | InsertFails

  datatype PostReply = Created(row: Appointment) | Rejected(reason: Rejection)

  /** `!firstName || !lastName || !email || !title || !date || !time`. */
  predicate MissingRequired(req: BookingRequest) {
    req.firstName == "" || req.lastName == "" || req.email == "" || req.title == ""
    || req.date.None? || req.time == ""
  }

  /** Number of rows booked at this date and time. */
  function MatchCount(rows: seq<Appointment>, date: int, time: string): nat {
    if rows == [] then 0
    else (if rows[0].date == date && rows[0].time == time then 1 else 0) + MatchCount(rows[1..], date, time)
  }

  /** Some row is booked at this date and time. */
  predicate Occupied(rows: seq<Appointment>, date: int, time: string) {
    exists i | 0 <= i < |rows| :: rows[i].date == date && rows[i].time == time
  }

  /** No two rows share a date and a time. */
  predicate OneBookingPerSlot(rows: seq<Appointment>) {
    forall i, j | 0 <= i < j < |rows| :: rows[i].date != rows[j].date || rows[i].time != rows[j].time
  }

  /** `hour < 9 || hour >= 18`; NaN fails both comparisons and is not outside. */
  predicate OutsideBusinessHours(hour: Option<real>) {
    hour.Some? && (hour.value < 9.0 || hour.value >= 18.0)
  }

  /** The outcome of the checks of the POST handler, in the order it runs them: `None` when the
      request passes them all and the insert succeeds. The slot lookup uses `.single()`, which
      finds an existing appointment only when exactly one row matches. */
  function Decide(rows: seq<Appointment>, req: BookingRequest, today: int, fault: StoreFault): Option<Rejection> {
    if MissingRequired(req) then Some(MissingFields)
    else if !MatchesEmailPattern(req.email) then Some(InvalidEmail)
    else if fault == LookupFails then Some(DatabaseError)
    else if MatchCount(rows, req.date.value, req.time) == 1 then Some(SlotTaken)
    else if req.date.value < today then Some(PastDate)
    else if Weekday(req.date.value) == 0 || Weekday(req.date.value) == 6 then Some(NotWeekday)
    else if OutsideBusinessHours(HourNumber(req.time)) then Some(OutsideHours)
    else if fault == InsertFails then Some(CreateFailed)
    else None
  }

  /** A refusal is a client error (status 400) unless a store call failed: with no store fault every
      refusal is a 400, and "Database error" is returned exactly when the lookup fails on a request
      whose fields and e-mail pass. */
  lemma RefusalStatus(rows: seq<Appointment>, req: BookingRequest, today: int, fault: StoreFault)
    ensures fault == NoFault && Decide(rows, req, today, fault).Some? ==>
      Status(Decide(rows, req, today, fault).value) == 400
    ensures Decide(rows, req, today, fault) == Some(DatabaseError) <==>
      fault == LookupFails && !MissingRequired(req) && MatchesEmailPattern(req.email)
    ensures Decide(rows, req, today, fault) == Some(CreateFailed) ==> fault == InsertFails
  {
  }

  /** The row the insert adds for a complete request. */
  function NewRow(req: BookingRequest, id: nat): (row: Appointment)
    requires req.date.Some?
    ensures row.date == req.date.value && row.time == req.time && row.email == req.email
  {
    Appointment(id, req.firstName, req.lastName, req.email, req.title, req.description, req.date.value, req.time)
  }

  /** Under one booking per slot, `.single()` finds a row exactly when the slot is occupied. */
  lemma {:induction false} MatchCountUnique(rows: seq<Appointment>, date: int, time: string)
    requires OneBookingPerSlot(rows)
    ensures MatchCount(rows, date, time) <= 1
    ensures MatchCount(rows, date, time) == 1 <==> Occupied(rows, date, time)
  {
    if rows != [] {
      MatchCountUnique(rows[1..], date, time);
      if rows[0].date == date && rows[0].time == time {
        assert !Occupied(rows[1..], date, time) by {
          forall i | 0 <= i < |rows| - 1 ensures rows[1..][i].date != date || rows[1..][i].time != time {
            assert rows[1..][i] == rows[i + 1];
          }
        }
      } else if Occupied(rows, date, time) {
        var i :| 0 <= i < |rows| && rows[i].date == date && rows[i].time == time;
        assert rows[1..][i - 1] == rows[i];
      }
    }
  }

  /** The request is accepted exactly when its fields are present, the e-mail has the expected
      shape, neither store call fails, the slot is free, and the date is today or later, a
      weekday, with an hour that is not outside 9 to 18. */
  lemma AcceptedIff(rows: seq<Appointment>, req: BookingRequest, today: int, fault: StoreFault)
    requires OneBookingPerSlot(rows)
    ensures Decide(rows, req, today, fault) == None <==>
      !MissingRequired(req) && MatchesEmailPattern(req.email) && fault == NoFault
      && !Occupied(rows, req.date.value, req.time)
      && req.date.value >= today && IsWeekday(req.date.value)
      && !OutsideBusinessHours(HourNumber(req.time))
  {
    if !MissingRequired(req) {
      MatchCountUnique(rows, req.date.value, req.time);
      WeekdayIffNotWeekend(req.date.value);
    }
  }

  /** A complete request with a valid e-mail for an occupied slot is refused as already booked,
      whatever its date and hour: that check runs before the date, weekday and hour checks. */
  lemma SlotTakenFirst(rows: seq<Appointment>, req: BookingRequest, today: int, fault: StoreFault)
    requires OneBookingPerSlot(rows)
    requires !MissingRequired(req) && MatchesEmailPattern(req.email) && fault != LookupFails
    requires Occupied(rows, req.date.value, req.time)
    ensures Decide(rows, req, today, fault) == Some(SlotTaken)
  {
    MatchCountUnique(rows, req.date.value, req.time);
  }

  /** Past dates, Saturdays and Sundays, and hours outside 9 to 18 are refused with their own
      message once the checks before them pass. */
  lemma DateAndHourRejections(rows: seq<Appointment>, req: BookingRequest, today: int, fault: StoreFault)
    requires OneBookingPerSlot(rows)
    requires !MissingRequired(req) && MatchesEmailPattern(req.email) && fault != LookupFails
    requires !Occupied(rows, req.date.value, req.time)
    ensures req.date.value < today ==> Decide(rows, req, today, fault) == Some(PastDate)
    ensures req.date.value >= today && !IsWeekday(req.date.value) ==>
              Decide(rows, req, today, fault) == Some(NotWeekday)
    ensures req.date.value >= today && IsWeekday(req.date.value) && OutsideBusinessHours(HourNumber(req.time)) ==>
              Decide(rows, req, today, fault) == Some(OutsideHours)
  {
    MatchCountUnique(rows, req.date.value, req.time);
    WeekdayIffNotWeekend(req.date.value);
  }

  /** Only the hour is checked: every time starting `17:` passes the hour check whatever minute
      follows, `17:30`, `17:45` and `17:30:00` among them. */
  lemma HalfPastFivePasses(time: string)
    requires |time| >= 3 && time[0] == '1' && time[1] == '7' && time[2] == ':'
    ensures HourNumber(time) == Some(17.0) && !OutsideBusinessHours(HourNumber(time))
  {
    HourNumberOfTwoDigits(time);
  }

  /** Every time starting `08:` or `18:` fails the hour check, `08:30` and `18:00` among them. */
  lemma EarlyAndLateFail(time: string)
    requires |time| >= 3 && (time[0] == '0' || time[0] == '1') && time[1] == '8' && time[2] == ':'
    ensures OutsideBusinessHours(HourNumber(time))
  {
    HourNumberOfTwoDigits(time);
  }

  /** `ab:00` has hour NaN, which fails both comparisons, so it passes the hour check. */
  lemma NaNHourPasses()
    ensures HourNumber("ab:00") == None && !OutsideBusinessHours(HourNumber("ab:00"))
  {
    FirstField("ab:00", "ab");
    JsNumberEmptyAndText();
  }

  /** Every slot of the grid passes the hour check: its hour is 9 to 17. */
  lemma GridSlotsPassHourCheck()
    ensures forall s | s in Grid() :: !OutsideBusinessHours(HourNumber(s))
  {
    forall s | s in Grid() ensures !OutsideBusinessHours(HourNumber(s)) {
      var i :| 0 <= i < |Grid()| && Grid()[i] == s;
      GridSlotPasses(i);
    }
  }

  lemma GridSlotPasses(i: nat)
    requires i < SlotCount
    ensures !OutsideBusinessHours(HourNumber(GridSlot(i)))
  {
    GridSlotHasHour(i);
  }

  lemma GridSlotHasHour(i: nat)
    requires i < SlotCount
    ensures HourNumber(GridSlot(i)) == Some(SlotHour(i) as real)
  {
    var h := SlotHour(i);
    var s := GridSlot(i);
    GridSlotHour(i);
    GridSlotTail(i);
    assert s[..2] == [s[0], s[1]];
    TwoDigitsValue(s[0], s[1]);
    HourNumberOfTwoDigits(s);
  }

  /** An accepted request adds a row that keeps one booking per slot. */
  lemma AcceptedKeepsOneBookingPerSlot(rows: seq<Appointment>, req: BookingRequest, today: int, fault: StoreFault, id: nat)
    requires OneBookingPerSlot(rows) && Decide(rows, req, today, fault) == None
    ensures OneBookingPerSlot(rows + [NewRow(req, id)])
  {
    AcceptedIff(rows, req, today, fault);
    var row := NewRow(req, id);
    var after := rows + [row];
    forall i, j | 0 <= i < j < |after| ensures after[i].date != after[j].date || after[i].time != after[j].time {
      if j == |rows| {
        assert after[i] == rows[i];
      }
    }
  }

  /** Once a request is accepted, the same request again is refused as already booked. */
  lemma PostThenSlotTaken(rows: seq<Appointment>, req: BookingRequest, today: int, fault: StoreFault,
                          id: nat, laterToday: int, laterFault: StoreFault)
    requires OneBookingPerSlot(rows) && Decide(rows, req, today, fault) == None
    requires laterFault != LookupFails
    ensures Decide(rows + [NewRow(req, id)], req, laterToday, laterFault) == Some(SlotTaken)
  {
    var after := rows + [NewRow(req, id)];
    AcceptedKeepsOneBookingPerSlot(rows, req, today, fault, id);
    assert after[|rows|] == NewRow(req, id);
    SlotTakenFirst(after, req, laterToday, laterFault);
  }

  /** `.select("appointment_time").eq("appointment_date", date)`: the times booked on `day`. */
  function TimesBookedOn(rows: seq<Appointment>, day: int): (times: seq<string>)
    ensures forall i | 0 <= i < |rows| && rows[i].date == day :: rows[i].time in times
    ensures forall t | t in times :: Occupied(rows, day, t)
  {
    if rows == [] then []
    else
      var rest := TimesBookedOn(rows[1..], day);
      assert forall t | t in rest :: Occupied(rows, day, t) by {
        forall t | t in rest ensures Occupied(rows, day, t) {
          var i :| 0 <= i < |rows| - 1 && rows[1..][i].date == day && rows[1..][i].time == t;
          assert rows[i + 1] == rows[1..][i];
        }
      }
      assert forall i | 1 <= i < |rows| && rows[i].date == day :: rows[i].time in rest by {
        forall i | 1 <= i < |rows| && rows[i].date == day ensures rows[i].time in rest {
          assert rows[1..][i - 1] == rows[i];
        }
      }
      if rows[0].date == day then [rows[0].time] + rest else rest
  }

  /** After an accepted booking, its time is no longer offered for its date, whether it was
      sent as `HH:MM` or `HH:MM:SS`. */
  lemma BookedSlotNotOffered(rows: seq<Appointment>, req: BookingRequest, today: int, fault: StoreFault, id: nat)
    requires Decide(rows, req, today, fault) == None
    ensures req.time !in Unbooked(Grid(), TimesBookedOn(rows + [NewRow(req, id)], req.date.value))
    ensures NormalizeTime(req.time) !in Unbooked(Grid(), TimesBookedOn(rows + [NewRow(req, id)], req.date.value))
  {
    var after := rows + [NewRow(req, id)];
    var times := TimesBookedOn(after, req.date.value);
    assert after[|rows|].time == req.time;
    assert req.time in times;
    UnbookedExcludesBooked(times);
  }

  /** A store of appointments: the rows in insertion order and the next id to hand out. */
  class AppointmentStore {
    var rows: seq<Appointment>
    var nextId: nat

    /** Ids grow with insertion order and stay below `nextId`; no two rows share a slot. */
    ghost predicate Valid()
      reads this
    {
      (forall i | 0 <= i < |rows| :: rows[i].id < nextId)
      && (forall i, j | 0 <= i < j < |rows| :: rows[i].id < rows[j].id)
      && OneBookingPerSlot(rows)
    }

    constructor()
      ensures rows == [] && nextId == 1 && Valid()
    {
      rows := [];
      nextId := 1;
    }

    /** `POST /api/appointments`. `body` is `None` when the body cannot be read, `today` is the
        current day, and `fault` says which store call fails. */
    method Post(body: Option<BookingRequest>, today: int, fault: StoreFault) returns (reply: PostReply)
      requires Valid()
      modifies this
      ensures Valid()
      ensures body.None? ==> reply == Rejected(InternalError)
      ensures body.Some? && Decide(old(rows), body.value, today, fault).Some? ==>
                reply == Rejected(Decide(old(rows), body.value, today, fault).value)
      ensures body.Some? && Decide(old(rows), body.value, today, fault).None? ==>
                reply == Created(NewRow(body.value, old(nextId)))
      ensures reply.Created? ==> rows == old(rows) + [reply.row] && nextId == old(nextId) + 1
      ensures reply.Rejected? ==> rows == old(rows) && nextId == old(nextId)
    {
      if body.None? {
        return Rejected(InternalError);
      }
      var req := body.value;
      if MissingRequired(req) {
        return Rejected(MissingFields);
      }
      if !MatchesEmailPattern(req.email) {
        return Rejected(InvalidEmail);
      }
      if fault == LookupFails {
        return Rejected(DatabaseError);
      }
      var date := req.date.value;
      if MatchCount(rows, date, req.time) == 1 {
        return Rejected(SlotTaken);
      }
      if date < today {
        return Rejected(PastDate);
      }
      var dayOfWeek := Weekday(date);
      if dayOfWeek == 0 || dayOfWeek == 6 {
        return Rejected(NotWeekday);
      }
      var hour := HourNumber(req.time);
      if hour.Some? && (hour.value < 9.0 || hour.value >= 18.0) {
        return Rejected(OutsideHours);
      }
      if fault == InsertFails {
        return Rejected(CreateFailed);
      }
      AcceptedKeepsOneBookingPerSlot(rows, req, today, fault, nextId);
      var row := Insert(req);
      return Created(row);
    }

    /** The insert: one row with the request's fields and the next id, appended. */
    method Insert(req: BookingRequest) returns (row: Appointment)
      requires Valid() && req.date.Some? && OneBookingPerSlot(rows + [NewRow(req, nextId)])
      modifies this
      ensures Valid()
      ensures row == NewRow(req, old(nextId))
      ensures rows == old(rows) + [row] && nextId == old(nextId) + 1
    {
      row := NewRow(req, nextId);
      rows := rows + [row];
      nextId := nextId + 1;
    }

    /** `GET /api/appointments`: every row, ordered by date and then time, both descending;
        `fault` says whether the query fails. */
    method List(fault: bool) returns (reply: ListReply)
      ensures reply.ListFailed? <==> fault
      ensures reply.Listed? ==> IsNewestFirst(reply.rows) && multiset(reply.rows) == multiset(rows)
    {
      if fault {
        return ListFailed;
      }
      NewestFirstSorted(rows);
      return Listed(NewestFirst(rows));
    }
  }

  /** A successful booking and the same booking again, on a fresh store. */
  method BookTwice(req: BookingRequest, today: int) returns (first: PostReply, second: PostReply)
    requires Decide([], req, today, NoFault) == None
    ensures first.Created? && first.row == NewRow(req, 1)
    ensures second == Rejected(SlotTaken)
  {
    var store := new AppointmentStore();
    first := store.Post(Some(req), today, NoFault);
    PostThenSlotTaken([], req, today, NoFault, 1, today, NoFault);
    assert [] + [NewRow(req, 1)] == store.rows;
    second := store.Post(Some(req), today, NoFault);
  }

  /** The reply of the list route; a failed query answers "Failed to fetch appointments". */
  datatype ListReply = Listed(rows: seq<Appointment>) | ListFailed

  /** `a` comes no later than `b` in the listing: a later date, or the same date and a time that
      is not before in text order. */
  predicate AtLeastAsNew(a: Appointment, b: Appointment) {
    a.date > b.date || (a.date == b.date && !LexLess(a.time, b.time))
  }

  predicate IsNewestFirst(s: seq<Appointment>) {
    forall i, j | 0 <= i < j < |s| :: AtLeastAsNew(s[i], s[j])
  }

  lemma AtLeastAsNewTotal(a: Appointment, b: Appointment)
    ensures AtLeastAsNew(a, b) || AtLeastAsNew(b, a)
  {
    if a.date == b.date && LexLess(a.time, b.time) && LexLess(b.time, a.time) {
      LexLessTransitive(a.time, b.time, a.time);
      LexLessIrreflexive(a.time);
    }
  }

  lemma AtLeastAsNewTransitive(a: Appointment, b: Appointment, c: Appointment)
    requires AtLeastAsNew(a, b) && AtLeastAsNew(b, c)
    ensures AtLeastAsNew(a, c)
  {
    if a.date == b.date == c.date && LexLess(a.time, c.time) {
      LexLessTotal(a.time, b.time);
      if LexLess(b.time, a.time) {
        LexLessTransitive(b.time, a.time, c.time);
      }
    }
  }

  /** `x` placed before the first row it is at least as new as. */
  function InsertByNewness(x: Appointment, s: seq<Appointment>): (r: seq<Appointment>)
    ensures multiset(r) == multiset(s) + multiset{x}
  {
    if s == [] then [x]
    else if AtLeastAsNew(x, s[0]) then [x] + s
    else
      assert s == [s[0]] + s[1..];
      [s[0]] + InsertByNewness(x, s[1..])
  }

  /** The rows in listing order: insertion sort by `AtLeastAsNew`. */
  function NewestFirst(s: seq<Appointment>): (r: seq<Appointment>)
    ensures multiset(r) == multiset(s)
  {
    if s == [] then []
    else
      assert s == [s[0]] + s[1..];
      InsertByNewness(s[0], NewestFirst(s[1..]))
  }

  lemma {:induction false} InsertKeepsNewestFirst(x: Appointment, s: seq<Appointment>)
    requires IsNewestFirst(s)
    ensures IsNewestFirst(InsertByNewness(x, s))
  {
    if s == [] {
    } else if AtLeastAsNew(x, s[0]) {
      var r := [x] + s;
      forall i, j | 0 <= i < j < |r| ensures AtLeastAsNew(r[i], r[j]) {
        if i == 0 && j > 1 {
          AtLeastAsNewTransitive(x, s[0], s[j - 1]);
        }
      }
    } else {
      AtLeastAsNewTotal(x, s[0]);
      InsertKeepsNewestFirst(x, s[1..]);
      var tail := InsertByNewness(x, s[1..]);
      var r := [s[0]] + tail;
      forall j | 0 <= j < |tail| ensures AtLeastAsNew(s[0], tail[j]) {
        assert tail[j] in multiset(tail);
        assert tail[j] in multiset(s[1..]) + multiset{x};
        if tail[j] != x {
          assert tail[j] in s[1..];
          var k :| 0 <= k < |s[1..]| && s[1..][k] == tail[j];
          assert s[k + 1] == tail[j];
        }
      }
      forall i, j | 0 <= i < j < |r| ensures AtLeastAsNew(r[i], r[j]) {
        if i == 0 {
          assert r[j] == tail[j - 1];
        } else {
          assert r[i] == tail[i - 1] && r[j] == tail[j - 1];
        }
      }
    }
  }

  /** The listing is in order, newest first, and holds every row exactly as often as the table. */
  lemma {:induction false} NewestFirstSorted(s: seq<Appointment>)
    ensures IsNewestFirst(NewestFirst(s)) && multiset(NewestFirst(s)) == multiset(s)
  {
    if s != [] {
      NewestFirstSorted(s[1..]);
      InsertKeepsNewestFirst(s[0], NewestFirst(s[1..]));
    }
  }
}
