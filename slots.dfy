/** The half-hour slot grid (`generateTimeSlots` in lib/utils.ts) and the available-slots query
    (app/api/appointments/available-slots/route.ts): the grid minus the times already booked on
    the requested date, with stored `HH:MM` times read as `HH:MM:00`. */
module Slots {
  import opened Options
  import opened Text
  import opened Seqs

  /** Number of slots the grid loop produces: two per hour for 09..16, one for 17. */
  const SlotCount := 17

  /** Hour of the i-th slot. */
  function SlotHour(i: nat): nat {
    9 + i / 2
  }

  /** The tens digit and the units digit of an hour below 100. */
  function HourDigits(h: nat): string
    requires h < 100
  {
    [DigitChar(h / 10), DigitChar(h % 10)]
  }

  /** The i-th slot as the loop pushes it: `${hh}:00:00` for even i, `${hh}:30:00` for odd i,
      with `hh` the hour in two digits. */
  function GridSlot(i: nat): string
    requires i < SlotCount
  {
    HourDigits(SlotHour(i)) + (if i % 2 == 0 then ":00:00" else ":30:00")
  }

  /** The whole grid, in the order the loop pushes it. */
  function Grid(): seq<string> {
    seq(SlotCount, i requires 0 <= i < SlotCount => GridSlot(i))
  }

  /** `generateTimeSlots()`: for each hour 9..17 push `hh:00:00`, and `hh:30:00` while hour < 17.
      The same loop builds `allTimeSlots` twice in the available-slots route. */
  method GenerateTimeSlots() returns (slots: seq<string>)
    ensures slots == Grid()
  {
    slots := [];
    for hour := 9 to 18
      invariant |slots| == if hour <= 17 then 2 * (hour - 9) else SlotCount
      invariant forall i :: 0 <= i < |slots| ==> slots[i] == GridSlot(i)
    {
      var hh := PaddedHour(hour);
      GridSlotsOfHour(hour);
      slots := slots + [hh + ":00:00"];
      if hour < 17 {
        slots := slots + [hh + ":30:00"];
      }
    }
    GridByIndex(slots);
  }

  /** `hour.toString().padStart(2, "0")`. */
  method PaddedHour(hour: nat) returns (hh: string)
    requires hour < 100
    ensures hh == HourDigits(hour)
  {
    hh := TwoDigitText(hour);
    TwoDigitTextDigits(hour);
  }

  lemma GridByIndex(s: seq<string>)
    requires |s| == SlotCount && forall i :: 0 <= i < |s| ==> s[i] == GridSlot(i)
    ensures s == Grid()
  {
  }

  /** The slots the loop pushes for one hour sit at positions 2 * (hour - 9) and the next. */
  lemma GridSlotsOfHour(hour: nat)
    requires 9 <= hour <= 17
    ensures GridSlot(2 * (hour - 9)) == HourDigits(hour) + ":00:00"
    ensures hour < 17 ==> GridSlot(2 * (hour - 9) + 1) == HourDigits(hour) + ":30:00"
  {
    var k := hour - 9;
    assert (2 * k) / 2 == k && (2 * k) % 2 == 0;
    assert (2 * k + 1) / 2 == k && (2 * k + 1) % 2 == 1;
  }

  /** `hh:mm:00` with `hh` two digits for an hour in 9..17 and `mm` either `00` or `30`. */
  predicate IsSlotForm(s: string) {
    |s| == 8 && s[2] == ':' && s[5] == ':' && s[6..] == "00"
    && AllDigits(s[..2]) && 9 <= DigitsValue(s[..2]) <= 17
    && (s[3..5] == "00" || s[3..5] == "30")
  }

  /** Every element is strictly below every later one in text order. */
  predicate StrictlyAscending(s: seq<string>) {
    forall i, j :: 0 <= i < j < |s| ==> LexLess(s[i], s[j])
  }

  predicate NoDuplicates<T(==)>(s: seq<T>) {
    forall i, j :: 0 <= i < j < |s| ==> s[i] != s[j]
  }

  /** The hour field of the i-th slot is two digits worth the slot's hour. */
  lemma GridSlotHour(i: nat)
    requires i < SlotCount
    ensures GridSlot(i)[..2] == HourDigits(SlotHour(i))
    ensures AllDigits(GridSlot(i)[..2]) && DigitsValue(GridSlot(i)[..2]) == SlotHour(i)
  {
    var h := SlotHour(i);
    assert GridSlot(i)[..2] == HourDigits(h);
    TwoDigitsValue(DigitChar(h / 10), DigitChar(h % 10));
  }

  /** The rest of the i-th slot: a colon, `00` or `30`, a colon and `00`. */
  lemma GridSlotTail(i: nat)
    requires i < SlotCount
    ensures |GridSlot(i)| == 8 && GridSlot(i)[2] == ':' && GridSlot(i)[5] == ':'
    ensures GridSlot(i)[6..] == "00"
    ensures GridSlot(i)[3..5] == if i % 2 == 0 then "00" else "30"
    ensures GridSlot(i)[3] == if i % 2 == 0 then '0' else '3'
  {
    var suffix := if i % 2 == 0 then ":00:00" else ":30:00";
    var s := GridSlot(i);
    assert s[2..] == suffix;
    assert s[6..] == suffix[4..];
    assert s[3..5] == suffix[1..3];
  }

  lemma GridSlotForm(i: nat)
    requires i < SlotCount
    ensures IsSlotForm(GridSlot(i))
  {
    GridSlotHour(i);
    GridSlotTail(i);
  }

  /** The fields between the colons of the i-th slot: hour, minute and `00`. */
  lemma GridSlotFields(i: nat)
    requires i < SlotCount
    ensures Split(GridSlot(i), ':') ==
            [GridSlot(i)[..2], if i % 2 == 0 then "00" else "30", "00"]
    ensures Count(GridSlot(i), ':') == 2
  {
    GridSlotHour(i);
    GridSlotTail(i);
    var s := GridSlot(i);
    var hh, mm := s[..2], s[3..5];
    assert s == hh + [':'] + (mm + [':'] + "00");
    SplitAfterField(hh, ':', mm + [':'] + "00");
    SplitAfterField(mm, ':', "00");
    SplitWithoutSeparator("00", ':');
  }

  /** Slots later in the grid are later in text order. */
  lemma GridSlotLess(i: nat, j: nat)
    requires i < j < SlotCount
    ensures LexLess(GridSlot(i), GridSlot(j))
  {
    GridSlotHour(i);
    GridSlotHour(j);
    GridSlotTail(i);
    GridSlotTail(j);
    var a, b := GridSlot(i), GridSlot(j);
    var hi, hj := SlotHour(i), SlotHour(j);
    if hi / 10 < hj / 10 {
      LexLessAt(a, b, 0);
    } else if hi % 10 < hj % 10 {
      assert a[..1] == b[..1];
      LexLessAt(a, b, 1);
    } else {
      assert hi == hj && i % 2 == 0 && j == i + 1;
      assert a[..3] == b[..3];
      LexLessAt(a, b, 3);
    }
  }

  /** An ascending sequence has no repeated element. */
  lemma AscendingHasNoDuplicates(s: seq<string>)
    requires StrictlyAscending(s)
    ensures NoDuplicates(s)
  {
    forall i, j | 0 <= i < j < |s| ensures s[i] != s[j] {
      if s[i] == s[j] {
        LexLessIrreflexive(s[i]);
      }
    }
  }

  /** What the grid is: 17 slots from `09:00:00` to `17:00:00`, each of the form `hh:mm:00`,
      ascending and without repeats; `17:30:00` is never produced. */
  lemma GridFacts()
    ensures |Grid()| == 17
    ensures Grid()[0] == "09:00:00" && Grid()[16] == "17:00:00"
    ensures forall s | s in Grid() :: IsSlotForm(s) && Count(s, ':') == 2
    ensures "17:30:00" !in Grid()
    ensures StrictlyAscending(Grid()) && NoDuplicates(Grid())
  {
    var g := Grid();
    assert g[0] == "09:00:00";
    assert g[16] == "17:00:00";
    forall s | s in g ensures IsSlotForm(s) && Count(s, ':') == 2 {
      var i :| 0 <= i < |g| && g[i] == s;
      GridSlotForm(i);
      GridSlotFields(i);
    }
    forall i | 0 <= i < |g| ensures g[i] != "17:30:00" {
      GridSlotHour(i);
      GridSlotTail(i);
      if i % 2 == 0 {
        assert g[i][3] != "17:30:00"[3];
      } else {
        TwoDigitsValue('1', '7');
        assert "17:30:00"[..2] == ['1', '7'];
        assert g[i][..2] != "17:30:00"[..2];
      }
    }
    forall i, j | 0 <= i < j < |g| ensures LexLess(g[i], g[j]) {
      GridSlotLess(i, j);
    }
    AscendingHasNoDuplicates(g);
  }

  /** `bookedTimes` entry: a time with exactly one colon (`HH:MM`) gets `:00` appended; any
      other time is kept as it is. */
  function NormalizeTime(t: string): string {
    if ':' in t && |Split(t, ':')| == 2 then t + ":00" else t
  }

  /** Normalisation appends seconds exactly when the time holds a single colon. */
  lemma NormalizeTimeOneColon(t: string)
    ensures NormalizeTime(t) == if Count(t, ':') == 1 then t + ":00" else t
  {
    CountZero(t, ':');
  }

  /** Normalising twice is normalising once. */
  lemma NormalizeTimeIdempotent(t: string)
    ensures NormalizeTime(NormalizeTime(t)) == NormalizeTime(t)
  {
    NormalizeTimeOneColon(t);
    NormalizeTimeOneColon(NormalizeTime(t));
    if Count(t, ':') == 1 {
      CountAppend(t, ":00", ':');
      assert Count(":00", ':') == 1 by {
        assert ":00"[1..] == "00" && "00"[1..] == "0" && "0"[1..] == "";
      }
    }
  }

  /** `bookedSlots.map(...)`: every stored time normalised. */
  function NormalizeAll(booked: seq<string>): (r: seq<string>)
    ensures |r| == |booked|
    ensures forall i :: 0 <= i < |r| ==> r[i] == NormalizeTime(booked[i])
  {
    seq(|booked|, i requires 0 <= i < |booked| => NormalizeTime(booked[i]))
  }

  /** `allTimeSlots.filter((time) => !bookedTimes.includes(time))`. */
  function Unbooked(universe: seq<string>, booked: seq<string>): seq<string> {
    var bookedTimes := NormalizeAll(booked);
    Filter(universe, t => t !in bookedTimes)
  }

  /** No booked time appears among the available slots, whether it was stored as `HH:MM` or
      `HH:MM:SS`; and every grid slot that no booked time normalises to is offered. */
  lemma UnbookedExcludesBooked(booked: seq<string>)
    ensures forall b | b in booked :: b !in Unbooked(Grid(), booked)
                                     && NormalizeTime(b) !in Unbooked(Grid(), booked)
    ensures forall s | s in Grid() && s !in NormalizeAll(booked) :: s in Unbooked(Grid(), booked)
  {
    var r := Unbooked(Grid(), booked);
    var bookedTimes := NormalizeAll(booked);
    GridFacts();
    forall b | b in booked ensures b !in r && NormalizeTime(b) !in r {
      var i :| 0 <= i < |booked| && booked[i] == b;
      assert bookedTimes[i] == NormalizeTime(b);
      NormalizeTimeOneColon(b);
      if Count(b, ':') == 1 {
        assert b !in Grid();
      } else {
        assert b in bookedTimes;
      }
    }
  }

  /** Every subsequence of an ascending sequence is ascending. */
  lemma SubsequenceAscending(a: seq<string>, b: seq<string>)
    requires IsSubsequence(a, b) && StrictlyAscending(b)
    ensures StrictlyAscending(a)
  {
    forall i, j | 0 <= i < j < |a| ensures LexLess(a[i], a[j]) {
      SubsequenceKeepsOrder(a, b, i, j);
    }
  }

  /** The available slots keep the grid's order: they are a subsequence of it, hence
      ascending and without repeats. */
  lemma UnbookedOrdered(booked: seq<string>)
    ensures IsSubsequence(Unbooked(Grid(), booked), Grid())
    ensures StrictlyAscending(Unbooked(Grid(), booked)) && NoDuplicates(Unbooked(Grid(), booked))
  {
    var bookedTimes := NormalizeAll(booked);
    FilterIsSubsequence(Grid(), t => t !in bookedTimes);
    GridFacts();
    SubsequenceAscending(Unbooked(Grid(), booked), Grid());
    AscendingHasNoDuplicates(Unbooked(Grid(), booked));
  }

  /** The answer of the store to "times booked on this date". */
  datatype BookedTimesRead =
    | Booked(times: seq<string>)  // the rows' appointment_time values
    | ReadFailed                  // the query returned an error
    | ReadThrew                   // the query threw

  /** The reply of the available-slots route. */
  datatype SlotsReply =
    | SlotList(slots: seq<string>)
    | DateRequired                // status 400, "Date parameter is required"

  /** `GET /api/appointments/available-slots?date=...`. A missing or empty date is refused;
      otherwise the grid is built and the booked times removed from it, and when the store read
      fails or throws the whole grid is returned instead. */
  method GetAvailableSlots(dateParam: Option<string>, read: BookedTimesRead) returns (reply: SlotsReply)
    ensures reply.DateRequired? <==> dateParam.None? || dateParam.value == ""
    ensures reply.SlotList? && !read.Booked? ==> reply.slots == Grid()
    ensures reply.SlotList? && read.Booked? ==> reply.slots == Unbooked(Grid(), read.times)
    ensures reply.SlotList? ==> IsSubsequence(reply.slots, Grid()) && StrictlyAscending(reply.slots)
  {
    if dateParam.None? || dateParam.value == "" {
      return DateRequired;
    }
    var allTimeSlots := GenerateTimeSlots();
    match read {
      case Booked(times) =>
        UnbookedOrdered(times);
        reply := SlotList(Unbooked(allTimeSlots, times));
      case _ =>
        GridFacts();
        SubsequenceOfItself(allTimeSlots);
        reply := SlotList(allTimeSlots);
    }
  }

  lemma {:induction false} SubsequenceOfItself<T>(s: seq<T>)
    ensures IsSubsequence(s, s)
  {
    if s != [] {
      SubsequenceOfItself(s[1..]);
    }
  }
}
