/** What the home page and the dashboard derive from the listed appointments: the upcoming and
    past lists, the number of people served, the past appointments shown, and the gate on the
    cancel button. `now` is the current instant in milliseconds. */
module Views {
  import opened Options
  import opened Seqs
  import opened TimeRules
  import opened Appointments

  /** `new Date(`${date}T${time}`) > new Date()`; an unreadable start is NaN and compares false. */
  predicate StartsAfter(a: Appointment, now: int) {
    match StartInstant(a.date, a.time)
    case Some(start) => start > now
    case None => false
  }

  /** `new Date(`${date}T${time}`) <= new Date()`. */
  predicate StartsByNow(a: Appointment, now: int) {
    match StartInstant(a.date, a.time)
    case Some(start) => start <= now
    case None => false
  }

  /** The start of the appointment reads as an instant. */
  predicate HasStart(a: Appointment) {
    StartInstant(a.date, a.time).Some?
  }

  function Upcoming(apts: seq<Appointment>, now: int): seq<Appointment> {
    Filter(apts, a => StartsAfter(a, now))
  }

  function Past(apts: seq<Appointment>, now: int): seq<Appointment> {
    Filter(apts, a => StartsByNow(a, now))
  }

  /** Every appointment whose start reads as an instant is in exactly one of the two lists, and
      nothing else is in either. */
  lemma UpcomingPastExclusive(apts: seq<Appointment>, now: int)
    ensures forall a | a in apts && HasStart(a) :: (a in Upcoming(apts, now)) != (a in Past(apts, now))
    ensures forall a | a in Upcoming(apts, now) || a in Past(apts, now) :: a in apts && HasStart(a)
  {
  }

  /** A readable start is either after `now` or not, and never both. */
  lemma AfterOrByNow(a: Appointment, now: int)
    ensures StartsAfter(a, now) || StartsByNow(a, now) <==> HasStart(a)
    ensures !(StartsAfter(a, now) && StartsByNow(a, now))
  {
  }

  /** The two lists hold each appointment whose start reads exactly as often as the whole list
      does. */
  lemma UpcomingPastCounts(apts: seq<Appointment>, now: int)
    ensures multiset(Upcoming(apts, now)) + multiset(Past(apts, now)) == multiset(Filter(apts, HasStart))
  {
    var p := a => StartsAfter(a, now);
    var q := a => StartsByNow(a, now);
    forall a ensures !(p(a) && q(a)) && ((p(a) || q(a)) == HasStart(a)) {
      AfterOrByNow(a, now);
    }
    FilterDisjoint(apts, p, q, HasStart);
  }

  /** When every start reads, the two lists together are the whole list, and their counts add
      up to the total. */
  lemma UpcomingPastTotal(apts: seq<Appointment>, now: int)
    requires forall i | 0 <= i < |apts| :: HasStart(apts[i])
    ensures multiset(Upcoming(apts, now)) + multiset(Past(apts, now)) == multiset(apts)
    ensures |Upcoming(apts, now)| + |Past(apts, now)| == |apts|
  {
    UpcomingPastCounts(apts, now);
    FilterAll(apts, HasStart);
    assert |multiset(Upcoming(apts, now)) + multiset(Past(apts, now))| == |multiset(apts)|;
  }

  /** Both lists keep the order of the whole list. */
  lemma UpcomingPastOrder(apts: seq<Appointment>, now: int)
    ensures IsSubsequence(Upcoming(apts, now), apts) && IsSubsequence(Past(apts, now), apts)
  {
    FilterIsSubsequence(apts, a => StartsAfter(a, now));
    FilterIsSubsequence(apts, a => StartsByNow(a, now));
  }

  /** An appointment that starts exactly now is past, not upcoming. */
  lemma StartingNowIsPast(apts: seq<Appointment>, a: Appointment, now: int)
    requires a in apts && StartInstant(a.date, a.time) == Some(now)
    ensures a in Past(apts, now) && a !in Upcoming(apts, now)
  {
  }

  /** `new Set(appointments.map((apt) => apt.email))`. */
  function Emails(apts: seq<Appointment>): (emails: set<string>)
    ensures |emails| <= |apts|
    ensures forall i | 0 <= i < |apts| :: apts[i].email in emails
    ensures forall e | e in emails :: exists i | 0 <= i < |apts| :: apts[i].email == e
  {
    if apts == [] then {}
    else
      var rest := Emails(apts[1..]);
      assert forall e | e in rest :: exists i | 0 <= i < |apts| :: apts[i].email == e by {
        forall e | e in rest ensures exists i | 0 <= i < |apts| :: apts[i].email == e {
          var i :| 0 <= i < |apts| - 1 && apts[1..][i].email == e;
          assert apts[i + 1].email == e;
        }
      }
      assert forall i | 1 <= i < |apts| :: apts[i].email in rest by {
        forall i | 1 <= i < |apts| ensures apts[i].email in rest {
          assert apts[1..][i - 1] == apts[i];
        }
      }
      {apts[0].email} + rest
  }

  /** "People served": the number of distinct e-mail addresses. */
  function PeopleServed(apts: seq<Appointment>): nat {
    |Emails(apts)|
  }

  /** People served is at most the number of appointments, and at least one when there is any;
      it equals the number of appointments when no two share an e-mail. */
  lemma PeopleServedBounds(apts: seq<Appointment>)
    ensures PeopleServed(apts) <= |apts|
    ensures apts != [] ==> PeopleServed(apts) >= 1
    ensures (forall i, j | 0 <= i < j < |apts| :: apts[i].email != apts[j].email) ==> PeopleServed(apts) == |apts|
  {
    if apts != [] {
      assert apts[0].email in Emails(apts);
    }
    if forall i, j | 0 <= i < j < |apts| :: apts[i].email != apts[j].email {
      DistinctEmails(apts);
    }
  }

  lemma {:induction false} DistinctEmails(apts: seq<Appointment>)
    requires forall i, j | 0 <= i < j < |apts| :: apts[i].email != apts[j].email
    ensures |Emails(apts)| == |apts|
  {
    if apts != [] {
      DistinctEmails(apts[1..]);
      forall i | 0 <= i < |apts| - 1 ensures apts[1..][i].email != apts[0].email {
        assert apts[1..][i] == apts[i + 1];
      }
    }
  }

  /** `pastAppointments.slice(0, 5)`. */
  function PastShown(past: seq<Appointment>): (shown: seq<Appointment>)
    ensures |shown| <= 5 && |shown| <= |past|
    ensures |shown| == 5 || |shown| == |past|
    ensures forall i | 0 <= i < |shown| :: shown[i] == past[i]
  {
    if |past| <= 5 then past else past[..5]
  }

  /** The cancel button's condition. */
  predicate CancelOffered(a: Appointment, now: int) {
    IsMoreThan24HoursAway(a.date, a.time, now)
  }

  /** Cancel is offered only for an appointment that is upcoming. */
  lemma CancelOnlyUpcoming(a: Appointment, now: int)
    requires CancelOffered(a, now)
    ensures StartsAfter(a, now)
  {
    CutoffImpliesFuture(a.date, a.time, now);
  }

  /** The upcoming appointments shown with a cancel button are exactly the appointments whose
      start is more than 24 hours away, in list order; each of them is upcoming. */
  lemma CancellableAreUpcoming(apts: seq<Appointment>, now: int)
    ensures Filter(Upcoming(apts, now), a => CancelOffered(a, now)) == Filter(apts, a => CancelOffered(a, now))
    ensures forall a | a in Filter(apts, a => CancelOffered(a, now)) :: a in Upcoming(apts, now)
  {
    forall a | CancelOffered(a, now) ensures StartsAfter(a, now) {
      CancelOnlyUpcoming(a, now);
    }
    FilterImplied(apts, a => StartsAfter(a, now), a => CancelOffered(a, now));
  }
}
