# Appointment booking rules, modelled in Dafny

This project models the booking logic of a small Next.js appointment app. Visitors book a
half-hour slot on a weekday. A dashboard lists the appointments and offers cancellation until 24
hours before the start. The model covers:

- the half-hour slot grid and the available-slots route, which removes booked times from the grid
  and falls back to the whole grid when the store fails (`Slots`);
- the booking route: a `POST` handler that checks a request in a fixed order and inserts one row,
  and a `GET` handler that lists the rows newest first (`Appointments`). The store is a class whose
  `rows` sequence the handler appends to;
- the weekday test, and the 24-hour cutoff on cancellation as an integer comparison of
  milliseconds (`TimeRules`);
- the e-mail pattern `^[^\s@]+@[^\s@]+\.[^\s@]+$`, shared by the form and the route (`EmailShape`);
- how JavaScript reads the hour field: `Number` on the server, `parseInt` in the form, with NaN as
  `None` (`JsNumbers`);
- the booking form: the 12-hour slot label, the checks before a request is sent, the calendar's
  disabled dates, and the form's fields as a class (`BookingForm`);
- the upcoming/past split, people served, the first five past appointments, and the cancel
  button's gate, on the home page and the dashboard (`Views`).

Dates are day numbers, where day 0 is 1970-01-01 (a Thursday). Instants are milliseconds. A time
stays the text the client sent. The clock, the store's answers and the store's failures are
parameters.

Where the code's own comments and text promise more than its statements do, the model follows
the statements:

- The comment above the route's slot loop (`app/api/appointments/available-slots/route.ts`
  line 15) says "9 AM to 6 PM, 30-minute intervals". The booking dialog
  (`components/booking-modal.tsx` lines 167-168) says slots run until 6:00 PM. But the loop adds
  `:30` only while the hour is below 17. So the grid has 17 slots and ends at `17:00:00`; no
  `17:30:00` slot is ever offered (`Slots.GridFacts`).
- The route's refusal text says "from 9:00 AM to 6:00 PM", but the route checks only the hour of
  the time. Any minute passes, `17:30` and `17:45` included (`Appointments.HalfPastFivePasses`).
- A non-numeric hour gives NaN, which fails both comparisons. Such a request is not refused for
  its hour (`Appointments.NaNHourPasses`).
- The slot lookup uses `.single()`. It reports an existing appointment only when exactly one row
  matches. While at most one row per slot exists, which every accepted `POST` preserves, that
  means "the slot is occupied" (`Appointments.MatchCountUnique`).

## Model

| member | source | states |
|---|---|---|
| TimeRules.WeekdayIffNotWeekend | lib/utils.ts:43-46 | `isWeekday` holds exactly when the day of the week is neither Sunday (0) nor Saturday (6) |
| TimeRules.WeekdayExamples | lib/utils.ts:43-46 | 2025-03-10 is a Monday and a weekday; 2025-03-08 and 2025-03-09 are Saturday and Sunday and are not |
| TimeRules.WeekdaySuccession | lib/utils.ts:43-46 | the day of the week advances by one each day and repeats every seven days |
| TimeRules.ClockMs | lib/utils.ts:26 | a readable `HH:MM` or `HH:MM:SS` time is a millisecond offset within one day |
| TimeRules.StartInstant | lib/utils.ts:26 | the start exists exactly when the time reads, and it lies within the appointment's own day |
| TimeRules.ClockMsIgnoresZeroSeconds | lib/utils.ts:26 | `HH:MM` and `HH:MM:00` give the same start |
| TimeRules.ClockMsOfFields | lib/utils.ts:26 | `hh:mm:ss` with two-digit fields is worth `h` hours, `m` minutes and `s` seconds in milliseconds when `h` is at most 23 and `m` and `s` at most 59, and is unreadable otherwise |
| TimeRules.ClockMsOfHourMinute | lib/utils.ts:26 | `hh:mm` with two-digit fields is worth `h` hours and `m` minutes in milliseconds when `h` is at most 23 and `m` at most 59, and is unreadable otherwise |
| TimeRules.CutoffBoundary | lib/utils.ts:25-30 | the cutoff is strict: exactly 24 h away is false, 25 h true, 23 h false, 24 h plus 1 ms true |
| TimeRules.CutoffMonotone | lib/utils.ts:28-29 | if the cutoff holds at `now`, it holds at every earlier instant |
| TimeRules.CutoffImpliesFuture | lib/utils.ts:25-30 | a start more than 24 h away is readable and strictly after `now` |
| Slots.GenerateTimeSlots | lib/utils.ts:32-41 | the loop returns exactly the grid: slot `i` is the hour `9 + i/2` in two digits, then `:00:00` or `:30:00`; the available-slots route builds the same grid with its own copy of the loop (`app/api/appointments/available-slots/route.ts` lines 16-22) |
| Slots.PaddedHour | lib/utils.ts:35 | `hour.toString().padStart(2, "0")` below 100 is the tens digit then the units digit |
| Slots.GridFacts | lib/utils.ts:32-41 | 17 slots; first `09:00:00`, last `17:00:00`; `17:30:00` never appears; all of the form `hh:mm:00`; strictly ascending, no duplicates |
| Slots.GridSlotForm | lib/utils.ts:34-38 | every slot is `hh:mm:00` with `hh` two digits worth 9 to 17 and `mm` either `00` or `30` |
| Slots.GridSlotLess | lib/utils.ts:34-38 | a later position in the grid is later in text order |
| Slots.GridSlotFields | lib/utils.ts:34-38 | every slot has exactly two colons, and its fields are the hour, the minute and `00` |
| Slots.NormalizeTimeOneColon | app/api/appointments/available-slots/route.ts:39-46 | a time with exactly one `:` gets `:00` appended; every other time is unchanged |
| Slots.NormalizeTimeIdempotent | app/api/appointments/available-slots/route.ts:39-46 | normalising twice is normalising once |
| Slots.UnbookedExcludesBooked | app/api/appointments/available-slots/route.ts:39-50 | no booked time, as `HH:MM` or `HH:MM:SS`, is offered; every grid slot that no booked time normalises to is offered |
| Slots.UnbookedOrdered | app/api/appointments/available-slots/route.ts:50 | the offered slots are a subsequence of the grid, so ascending and without duplicates |
| Slots.GetAvailableSlots | app/api/appointments/available-slots/route.ts:4-67 | a missing or empty date gives "Date parameter is required"; a failed or throwing read gives the whole grid; otherwise the grid less the booked times; always an ascending subsequence of the grid |
| Seqs.Filter | app/api/appointments/available-slots/route.ts:50 | `filter` keeps exactly the elements that satisfy the predicate, never more often than in the input (exact counts: `Seqs.FilterCounts`) |
| Seqs.FilterCounts | app/api/appointments/available-slots/route.ts:50 | `filter` keeps every occurrence of an element that satisfies the predicate and none of one that does not |
| Seqs.FilterIsSubsequence | app/api/appointments/available-slots/route.ts:50 | `filter` keeps the input order |
| Text.Split | app/api/appointments/available-slots/route.ts:43 | `split` on one character gives one more field than separators, none holding the separator |
| Text.JoinSplit | app/api/appointments/available-slots/route.ts:43 | joining the fields with the separator gives back the text |
| Text.TwoDigitTextDigits | lib/utils.ts:35 | the padded text of a number below 100 is its two decimal digits |
| EmailShape.EmailPatternByParts | app/api/appointments/route.ts:33-34 | `local@domain.ending` with three non-empty runs of `[^\s@]` matches the pattern |
| EmailShape.EmailPatternParts | app/api/appointments/route.ts:33-34 | every matching text splits as `local@domain.ending` with three non-empty runs of `[^\s@]` |
| EmailShape.EmailPatternOneAt | app/api/appointments/route.ts:33-34 | a matching text holds exactly one `@` |
| EmailShape.EmailPatternExamples | app/api/appointments/route.ts:33-36 | `a@b.co` matches; `not-an-email`, `a@b`, `@b.co` and `a b@c.d` do not |
| JsNumbers.TrimStartDrops | app/api/appointments/route.ts:70 | trimming the start drops exactly the leading whitespace |
| JsNumbers.TrimEndDrops | app/api/appointments/route.ts:70 | trimming the end drops exactly the trailing whitespace |
| JsNumbers.JsNumberOfDigits | app/api/appointments/route.ts:70 | `Number` reads a run of digits as its decimal value |
| JsNumbers.HourNumberOfTwoDigits | app/api/appointments/route.ts:70 | a time starting `hh:` with two digits has hour `hh` |
| JsNumbers.JsNumberOfHourFields | app/api/appointments/route.ts:70 | `Number("17")` is 17 and `Number("9")` is 9 |
| JsNumbers.JsNumberTrims | app/api/appointments/route.ts:70 | `Number(" 9 ")` is 9 |
| JsNumbers.JsNumberEmptyAndText | app/api/appointments/route.ts:70 | `Number("")` is 0 and `Number("ab")` is NaN |
| JsNumbers.ParseIntOfDigits | components/booking-modal.tsx:154 | `parseInt` reads a leading run of digits and stops at the first non-digit |
| JsNumbers.ParseIntTwoDigits | components/booking-modal.tsx:154 | `parseInt` of two leading digits is their two-digit number |
| JsNumbers.ParseIntOfHourFields | components/booking-modal.tsx:154 | `parseInt` gives 9 for `09`, 17 for `17` and 12 for `12abc` |
| JsNumbers.ParseIntSignAndText | components/booking-modal.tsx:154 | `parseInt` gives -3 for `-3`, and NaN for `ab` and for the empty text |
| Appointments.NewRow | app/api/appointments/route.ts:76-86 | the inserted row carries the request's date, time and e-mail |
| Appointments.MatchCountUnique | app/api/appointments/route.ts:39-53 | with at most one row per slot, `.single()` finds a row exactly when the slot is occupied |
| Appointments.AcceptedIff | app/api/appointments/route.ts:28-93 | a booking is accepted exactly when: fields present, e-mail matches, no store failure, slot free, date not past, weekday, hour not outside 9 to 18 |
| Appointments.SlotTakenFirst | app/api/appointments/route.ts:39-67 | an occupied slot gives "already booked" whatever the date and hour: that check precedes the date checks |
| Appointments.DateAndHourRejections | app/api/appointments/route.ts:55-73 | once the earlier checks pass: a past date gives the past-date error; a weekend the weekday error; an hour outside 9 to 18 the hours error |
| Appointments.RefusalStatus | app/api/appointments/route.ts:28-93 | with no store fault every refusal has status 400; "Database error" (500) comes exactly when the lookup fails on a request whose fields and e-mail pass; "Failed to create appointment" only when the insert fails |
| Appointments.HalfPastFivePasses | app/api/appointments/route.ts:69-73 | every time starting `17:`, whatever the minute (`17:30`, `17:45`, `17:30:00`), has hour 17 and passes the hour check |
| Appointments.EarlyAndLateFail | app/api/appointments/route.ts:69-73 | every time starting `08:` or `18:` (`08:30`, `18:00`) fails the hour check |
| Appointments.NaNHourPasses | app/api/appointments/route.ts:70-71 | `ab:00` has hour NaN and passes the hour check |
| Appointments.GridSlotsPassHourCheck | app/api/appointments/route.ts:69-73 | every slot of the grid passes the route's hour check |
| Appointments.GridSlotHasHour | app/api/appointments/route.ts:70 | the hour the route reads from slot `i` is `9 + i/2` |
| Appointments.AcceptedKeepsOneBookingPerSlot | app/api/appointments/route.ts:39-88 | an accepted booking keeps at most one row per slot |
| Appointments.PostThenSlotTaken | app/api/appointments/route.ts:39-88 | after a booking is accepted, the same booking again is refused as already booked |
| Appointments.BookTwice | app/api/appointments/route.ts:39-88 | on a fresh store, the first booking creates row 1 and the second gives "This time slot is already booked" |
| Appointments.TimesBookedOn | app/api/appointments/available-slots/route.ts:25-28 | the times read for a date are those of the rows on that date |
| Appointments.BookedSlotNotOffered | app/api/appointments/available-slots/route.ts:39-50 | after a booking is accepted, its time is not offered for its date, whether sent as `HH:MM` or `HH:MM:SS` |
| Appointments.AppointmentStore.Post | app/api/appointments/route.ts:24-100 | an unreadable body gives "Internal server error"; a refusal leaves the table untouched; otherwise exactly one row with the request's fields and the next id is appended; one row per slot is kept |
| Appointments.AppointmentStore.Insert | app/api/appointments/route.ts:75-88 | the insert appends one row with the request's fields and the next id |
| Appointments.AppointmentStore.List | app/api/appointments/route.ts:4-22 | a failed query gives an error; otherwise every row, as often as stored, ordered by date and then time, both descending |
| Appointments.InsertKeepsNewestFirst | app/api/appointments/route.ts:9-10 | inserting a row into a newest-first listing keeps it newest first |
| Appointments.NewestFirstSorted | app/api/appointments/route.ts:9-10 | the listing is newest first and a permutation of the rows |
| BookingForm.DisplayHourRange | components/booking-modal.tsx:157 | for hours 0 to 23 the shown hour is 1 to 12 and agrees with the hour modulo 12 |
| BookingForm.FormatTimeSlotFields | components/booking-modal.tsx:151-159 | the label is the 12-hour hour, `:`, the minute text unchanged, then PM exactly when the hour is 12 or more, else AM; seconds are dropped |
| BookingForm.FormatDropsSeconds | components/booking-modal.tsx:152-158 | `HH:MM:SS` and `HH:MM` get the same label |
| BookingForm.FormatFirstSlot | components/booking-modal.tsx:151-159 | `09:00:00` reads `9:00 AM` |
| BookingForm.FormatNoonHalfHour | components/booking-modal.tsx:151-159 | `12:30:00` reads `12:30 PM` |
| BookingForm.FormatLastSlot | components/booking-modal.tsx:151-159 | `17:00:00` reads `5:00 PM` |
| BookingForm.FormatNaNHour | components/booking-modal.tsx:154-158 | a non-numeric hour field shows as `NaN` with AM |
| BookingForm.ClientCheckAgreesWithServer | components/booking-modal.tsx:78-96 | the form sends a request exactly when the route's field and e-mail checks would pass; it asks to fill the fields exactly when the route would report missing fields |
| BookingForm.ClientCheckedRequestPassesFirstChecks | components/booking-modal.tsx:78-96 | a request the form sends is never refused for missing fields or for its e-mail |
| BookingForm.DateDisabledIffServerRefuses | components/booking-modal.tsx:237-241 | a calendar date is disabled exactly when it is before today or a Saturday or Sunday |
| BookingForm.SelectableDatePassesDateChecks | components/booking-modal.tsx:237-241 | a date the calendar offers is never refused as past or as a weekend |
| BookingForm.Form.constructor | components/booking-modal.tsx:31-38 | every field starts empty, no date selected, no slots |
| BookingForm.Form.EditDetails | components/booking-modal.tsx:176-227 | typing sets the text fields and leaves the date, time and slots alone |
| BookingForm.Form.SelectDate | components/booking-modal.tsx:68-73 | selecting a date loads its slots (none when the fetch fails) and clears the selected time |
| BookingForm.Form.SelectTime | components/booking-modal.tsx:256 | picking a slot sets the selected time only |
| BookingForm.Form.Submit | components/booking-modal.tsx:75-149 | a failed check sends nothing and changes nothing; otherwise the store decides: a refusal leaves the rows and the next id unchanged, and a created appointment appends its row, advances the next id by one and resets every field |
| BookingForm.ToastsTellCausesApart | components/booking-modal.tsx:117-147 | the toast after submitting tells the causes apart: a blocked request, a created appointment and each reason for refusal show different texts |
| Views.AfterOrByNow | app/page.tsx:83-91 | a readable start is either after `now` or at or before it, never both |
| Views.UpcomingPastExclusive | app/page.tsx:83-91 | every appointment with a readable start is in exactly one of upcoming and past; the dashboard's lists (`app/dashboard/page.tsx` lines 82-90) use the same filters |
| Views.UpcomingPastCounts | app/page.tsx:83-91 | upcoming and past together hold each readable appointment exactly as often as the list |
| Views.UpcomingPastTotal | app/page.tsx:83-91 | when every start reads, the two counts add up to the total |
| Views.UpcomingPastOrder | app/page.tsx:83-91 | both lists keep the list order, on the home page and on the dashboard (`app/dashboard/page.tsx` lines 82-90) |
| Views.StartingNowIsPast | app/page.tsx:83-91 | an appointment starting exactly now is past, not upcoming, on both pages |
| Views.Emails | app/page.tsx:93 | the set holds exactly the appointments' e-mails and is no larger than the list |
| Views.PeopleServedBounds | app/page.tsx:93 | people served is at most the number of appointments, at least 1 when there is one, and equal when all e-mails differ |
| Views.PastShown | app/page.tsx:254 | at most five past appointments are shown, and they are the first ones in list order; the dashboard shows the same slice (`app/dashboard/page.tsx` line 213) |
| Views.CancelOnlyUpcoming | app/page.tsx:227 | cancel is offered only for an appointment that is upcoming, on the home page and on the dashboard (`app/dashboard/page.tsx` line 186) |
| Views.CancellableAreUpcoming | app/dashboard/page.tsx:82-85 | the upcoming appointments with a cancel button are exactly those more than 24 h away, in list order |

## Left out

- The DELETE handler (`app/api/appointments/[id]/route.ts`): only the client-side 24-hour gate on the cancel button is modelled.
- Time zones: `new Date("YYYY-MM-DD")` parses as UTC, while `getDay`, `setHours` and the calendar use local time. The model treats every date as a civil day and local time as civil time.
- Locale formatting (`formatDate`, `formatTime`), `cn`, `lib/calendar.ts`, the reminder script, the database setup route, and the e-mail and database stubs: library behaviour or I/O with no rule of its own.
- React plumbing (rendering, the toasts' titles and styling, `confirm`, loading flags, `useSession`, `window.open`). The `POST` made by `Form.Submit` is a direct call to `AppointmentStore.Post`. A `fetch` that throws, and the "Something went wrong" toast it shows, are not modelled.
- BookingForm.Form.SelectDate: the slot fetch is not a call into the model. `SelectDate` takes the fetched slots as a parameter (`fetched`, `None` when the response is not ok or the fetch throws), and nothing ties that list to `Slots.GetAvailableSlots`, because the date text sent (`toISOString().split("T")[0]`) depends on the time zone.
- Concurrent requests: requests are sequential. The check-then-insert race between two `POST`s is therefore not modelled.
- The floating-point division in `isMoreThan24HoursAway`. It is stated as the equivalent integer comparison in milliseconds.
- Store failures are a parameter (`StoreFault`, the `fault` flags, `BookedTimesRead`). PostgREST error codes are not modelled. Exceptions thrown by the store client are not modelled, except for the available-slots route's `catch`, and an unreadable `POST` body, which gives "Internal server error".
- The `created_at` column and the database's id generation: ids come from a counter in the store.
- Absent JSON fields: an absent text field is the empty text, and an absent description is stored as empty, not as null.
- A date text that is not a calendar date: the request's date is a day number or absent. The source's comparisons with an Invalid Date are not modelled.
- JsNumbers.JsNumber: exponent notation, `Infinity`, and `0x`/`0o`/`0b` literals read as NaN here, while JavaScript gives a number; the hour check therefore passes such hours where the source may refuse them.
- JsNumbers.JsNumber: the value is the exact decimal. JavaScript rounds it to the nearest double. So `8.9999999999999999:00` is refused as outside hours here but accepted by the source, where its hour is exactly 9. Likewise `17.9999999999999999:00` is accepted here but refused by the source, where its hour is 18.
- JsNumbers.JsNumberOfDigits: a digit run is read as its exact value; above 2^53 JavaScript's `Number` rounds it to a double.
- JsNumbers.ParseInt: the result is the exact integer; above 2^53 `parseInt` returns a rounded double.
- JsNumbers.ParseInt: a `0x` prefix (which `parseInt` reads in base 16) is read as the digit 0 followed by text.
- TimeRules.ClockMs: only `HH:MM` and `HH:MM:SS` with two-digit fields are read. Fractional seconds, `24:00` and other forms that `Date` may accept count as unreadable.
- Appointments.Occupied: a slot is matched on the exact time text, so `10:00` and `10:00:00` are different slots; a database `time` column would treat them as equal.
- Appointments.AppointmentStore.List: times are ordered as text (`AtLeastAsNew` compares with `LexLess`). A database `time` column orders by clock time: it puts `9:00` before `10:00`, while text order puts it after. The two orders agree on the grid's `hh:mm:ss` times.
- Appointments.AppointmentStore.List: the database's order among rows with equal date and time is unspecified. While one row per slot holds, no such rows exist.
- Views.UpcomingPastExclusive, Views.UpcomingPastCounts, Views.UpcomingPastTotal: the model reads the clock once per render, as one `now` shared by both filters and every cancel gate. The source calls `new Date()` again in each filter callback (`app/page.tsx` lines 85 and 90, `app/dashboard/page.tsx` lines 84 and 89) and in each cancel gate. An appointment whose start falls between the upcoming pass and the past pass is in both lists there. These lemmas hold only for a single `now`.
