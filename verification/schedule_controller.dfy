/** The schedule handlers: the "HH:MM" to epoch-milliseconds conversion,
    listing with the organizer check, creation with its ordered validation,
    the whole-record update, and the de-duplicated recipient list of the
    schedule email. */
module ScheduleController {
  import opened Base
  import Text
  import opened EventSchema
  import opened BookingSchema
  import opened UserSchema
  import opened ScheduleSchema
  import opened Database
  import EventController

  // ---- times of day ----

  const MsPerHour: int := 3600000
  const MsPerMinute: int := 60000

  /** The largest magnitude a JavaScript `Date` holds, in milliseconds. */
  const MaxTimeValue: int := 8640000000000000

  predicate IsColon(c: char) {
    c == ':'
  }

  /** The first two fields of `time.split(":")`; None when there is no colon,
      so that the second field is `undefined`. With `i` the first colon, the
      hour field is everything before it and the minute field runs from just
      after it to the next colon or the end. */
  function HourMinuteFields(time: string): (r: Option<(string, string)>)
    ensures r.None? <==> forall k :: 0 <= k < |time| ==> time[k] != ':'
    ensures r.Some? ==>
      var i := |r.value.0|;
      var j := i + 1 + |r.value.1|;
      && j <= |time| && time[i] == ':'
      && r.value.0 == time[..i] && r.value.1 == time[i + 1..j]
      && (forall k :: 0 <= k < i ==> time[k] != ':')
      && (forall k :: i < k < j ==> time[k] != ':')
      && (j == |time| || time[j] == ':')
  {
    match FirstIndex(time, IsColon)
    case None => None
    case Some(i) =>
      var rest := time[i + 1..];
      match FirstIndex(rest, IsColon)
      case None => Some((time[..i], rest))
      case Some(j) =>
        assert rest[..j] == time[i + 1..i + 1 + j];
        Some((time[..i], rest[..j]))
  }

  /** `toUtcDate(time)` as a time value: `Date.UTC(1970, 0, 1, h, m, 0)` for
      the numbers before and after the first colon. None stands for an
      invalid date: a missing colon, a field that is not a number, or a
      value past the `Date` range. */
  function ToUtcMillis(time: string): (r: Option<int>)
    ensures r.Some? ==> 0 <= r.value <= MaxTimeValue
    ensures HourMinuteFields(time).None? ==> r.None?
  {
    match HourMinuteFields(time)
    case None => None
    case Some(fields) =>
      var h := Text.ParseNumber(fields.0);
      var m := Text.ParseNumber(fields.1);
      if h.None? || m.None? then None
      else
        var v := h.value * MsPerHour + m.value * MsPerMinute;
        if v > MaxTimeValue then None else Some(v)
  }

  /** `getUTCHours` and `getUTCMinutes` of a non-negative time value. */
  function UtcHours(ms: nat): nat {
    ms / MsPerHour % 24
  }

  function UtcMinutes(ms: nat): nat {
    ms % MsPerHour / MsPerMinute
  }

  /** The fields of a zero-padded "HH:MM" are its two halves. */
  lemma ClockFields(h: nat, m: nat)
    requires h < 100 && m < 100
    ensures HourMinuteFields(Text.TwoDigits(h) + ":" + Text.TwoDigits(m)) == Some((Text.TwoDigits(h), Text.TwoDigits(m)))
  {
    var hh, mm := Text.TwoDigits(h), Text.TwoDigits(m);
    var time := hh + ":" + mm;
    assert FirstIndex(time, IsColon) == Some(2) by {
      assert IsColon(time[2]);
    }
    assert time[..2] == hh && time[3..] == mm;
    assert FirstIndex(mm, IsColon).None?;
  }

  /** A zero-padded "HH:MM" is stored as that time on 1 January 1970. */
  lemma ClockTimeValue(h: nat, m: nat)
    requires h < 24 && m < 60
    ensures ToUtcMillis(Text.TwoDigits(h) + ":" + Text.TwoDigits(m)) == Some(h * MsPerHour + m * MsPerMinute)
  {
    ClockFields(h, m);
    Text.ParseTwoDigits(h);
    Text.ParseTwoDigits(m);
  }

  /** The hours and minutes read back from such a value are the ones written. */
  lemma ClockTimeRoundTrip(h: nat, m: nat)
    requires h < 24 && m < 60
    ensures UtcHours(h * MsPerHour + m * MsPerMinute) == h
    ensures UtcMinutes(h * MsPerHour + m * MsPerMinute) == m
  {
    var v := h * MsPerHour + m * MsPerMinute;
    assert 0 <= m * MsPerMinute < MsPerHour;
    assert v / MsPerHour == h;
    assert v % MsPerHour == m * MsPerMinute;
  }

  // ---- listing ----

  /** GET /all/:eventId. The route always supplies an event id; the handler
      also treats its absence. With an event id an organizer must own that
      event; without one an organizer sees the schedules of all the events
      they own and every other role sees every schedule. */
  function GetSchedules(es: seq<Event>, ss: seq<Schedule>, caller: User, eventId: Option<Id>): (r: (Reply, seq<Schedule>))
    ensures eventId.Some? && caller.role == Organizer
            && EventController.FindOwnedEvent(es, eventId.value, caller.id).None? ==>
      r.0 == Reply(403, "Not authorized for this event") && r.1 == []
    ensures eventId.Some? && !(caller.role == Organizer
            && EventController.FindOwnedEvent(es, eventId.value, caller.id).None?) ==>
      r.0.status == 200
      && (forall k :: 0 <= k < |r.1| ==> r.1[k] in ss && r.1[k].eventId == eventId.value)
      && (forall k :: 0 <= k < |ss| && ss[k].eventId == eventId.value ==> ss[k] in r.1)
    ensures eventId.None? && caller.role == Organizer ==>
      r.0.status == 200
      && (forall k :: 0 <= k < |r.1| ==>
            r.1[k] in ss && EventController.FindOwnedEvent(es, r.1[k].eventId, caller.id).Some?)
      && (forall k :: 0 <= k < |ss| && EventController.FindOwnedEvent(es, ss[k].eventId, caller.id).Some? ==>
            ss[k] in r.1)
    ensures eventId.None? && caller.role != Organizer ==> r == (Reply(200, "schedules"), ss)
  {
    if eventId.Some? then
      if caller.role == Organizer && EventController.FindOwnedEvent(es, eventId.value, caller.id).None? then
        (Reply(403, "Not authorized for this event"), [])
      else (Reply(200, "schedules"), Filter(ss, (s: Schedule) => s.eventId == eventId.value))
    else if caller.role == Organizer then
      (Reply(200, "schedules"),
       Filter(ss, (s: Schedule) => EventController.FindOwnedEvent(es, s.eventId, caller.id).Some?))
    else (Reply(200, "schedules"), ss)
  }

  // ---- creation and update ----

  /** POST /create. Absent body strings are the empty string; `eventId` is
      None when it is not a well-formed identifier. The checks run in the
      order written and the first failure answers. */
  method CreateSchedule(db: Db, caller: User, eventId: Option<Id>, title: string, startTime: string,
                        endTime: string, speaker: string, description: Option<string>) returns (reply: Reply)
    requires db.Valid()
    modifies db`schedules, db`nextId
    ensures db.Valid()
    ensures reply.status != 201 ==> unchanged(db)
    ensures caller.role != Organizer ==> reply == Reply(403, "Access denied")
    ensures caller.role == Organizer && eventId.None? ==> reply == Reply(400, "Invalid event ID")
    ensures caller.role == Organizer && eventId.Some? ==>
      if title == "" || startTime == "" || endTime == "" || speaker == "" then
        reply == Reply(400, "All fields are required")
      else if EventController.FindOwnedEvent(old(db.events), eventId.value, caller.id).None? then
        reply == Reply(403, "Invalid event")
      else if ToUtcMillis(startTime).None? || ToUtcMillis(endTime).None? then
        reply.status == 500
      else
        reply.status == 201 && db.nextId == old(db.nextId) + 1
        && db.schedules == old(db.schedules) + [Schedule(old(db.nextId), eventId.value, title, description,
                                                         Some(speaker), ToUtcMillis(startTime).value,
                                                         ToUtcMillis(endTime).value, Some(caller.id))]
  {
    if caller.role != Organizer {
      return Reply(403, "Access denied");
    }
    if eventId.None? {
      return Reply(400, "Invalid event ID");
    }
    if title == "" || startTime == "" || endTime == "" || speaker == "" {
      return Reply(400, "All fields are required");
    }
    if EventController.FindOwnedEvent(db.events, eventId.value, caller.id).None? {
      return Reply(403, "Invalid event");
    }
    var st, et := ToUtcMillis(startTime), ToUtcMillis(endTime);
    var s := NewSchedule(db.nextId, eventId, Some(title), description, Some(speaker), st, et, Some(caller.id));
    if s.None? {
      // an invalid date fails the cast when the document is created
      return Reply(500, "Cast to date failed");
    }
    InsertSchedule(db, s.value);
    reply := Reply(201, "Schedule created successfully");
  }

  /** `Schedule.create`: the document takes the next identifier. */
  method InsertSchedule(db: Db, s: Schedule)
    requires db.Valid() && s.id == db.nextId
    modifies db`schedules, db`nextId
    ensures db.Valid()
    ensures db.schedules == old(db.schedules) + [s] && db.nextId == old(db.nextId) + 1
  {
    OkForLargerNext(db, db.nextId + 1);
    db.schedules := db.schedules + [s];
    db.nextId := db.nextId + 1;
  }

  /** PUT /update/:id. No ownership check. Every one of the six fields is
      assigned from the body, so an absent `speaker` or `description` is
      cleared and an absent `eventId` or `title` fails validation; an absent
      time makes the conversion throw. */
  method UpdateSchedule(db: Db, scheduleId: Id, eventId: Option<Id>, title: Option<string>,
                        startTime: Option<string>, endTime: Option<string>, speaker: Option<string>,
                        description: Option<string>) returns (reply: Reply)
    requires db.Valid()
    modifies db`schedules
    ensures db.Valid()
    ensures reply.status != 200 ==> unchanged(db)
    ensures FindSchedule(old(db.schedules), scheduleId).None? ==> reply == Reply(404, "Schedule not found")
    ensures FindSchedule(old(db.schedules), scheduleId).Some? ==>
      var i := FindSchedule(old(db.schedules), scheduleId).value;
      var old_s := old(db.schedules)[i];
      if startTime.None? || endTime.None? then reply.status == 500
      else
        var s := NewSchedule(old_s.id, eventId, title, description, speaker,
                             ToUtcMillis(startTime.value), ToUtcMillis(endTime.value), old_s.createdBy);
        if s.None? then reply.status == 500
        else reply.status == 200 && db.schedules == old(db.schedules)[i := s.value]
  {
    var i := FindSchedule(db.schedules, scheduleId);
    if i.None? {
      return Reply(404, "Schedule not found");
    }
    var current := db.schedules[i.value];
    if startTime.None? || endTime.None? {
      // `time.split` of undefined throws
      return Reply(500, "Cannot read properties of undefined");
    }
    var s := NewSchedule(current.id, eventId, title, description, speaker,
                         ToUtcMillis(startTime.value), ToUtcMillis(endTime.value), current.createdBy);
    if s.None? {
      return Reply(500, "ValidationError");
    }
    db.SetSchedule(i.value, s.value);
    reply := Reply(200, "Schedule updated successfully");
  }

  // ---- the schedule email ----

  /** What a populated booking offers the grouping loop: the user's email
      ("" when the user is gone or has none) and name. */
  datatype Contact = Contact(email: string, name: Option<string>)

  function ContactOf(b: Booking, us: seq<User>): Contact {
    match FindUser(us, b.user)
    case None => Contact("", None)
    case Some(i) => Contact(us[i].email, us[i].name)
  }

  predicate IsRegistered(b: Booking, eventId: Id) {
    b.event == eventId && b.bookingStatus == BookingStatus.Confirmed && b.paymentStatus == Paid
  }

  /** `Booking.find({ event, bookingStatus: "confirmed", paymentStatus: "paid" })`. */
  function RegisteredBookings(bs: seq<Booking>, eventId: Id): (r: seq<Booking>)
    ensures forall k :: 0 <= k < |r| ==> r[k] in bs && IsRegistered(r[k], eventId)
    ensures forall k :: 0 <= k < |bs| && IsRegistered(bs[k], eventId) ==> bs[k] in r
  {
    Filter(bs, (b: Booking) => IsRegistered(b, eventId))
  }

  function ContactsOf(bs: seq<Booking>, us: seq<User>): (r: seq<Contact>)
    ensures |r| == |bs| && forall k :: 0 <= k < |bs| ==> r[k] == ContactOf(bs[k], us)
  {
    seq(|bs|, k requires 0 <= k < |bs| => ContactOf(bs[k], us))
  }

  function EmailsOf(rs: seq<Contact>): set<string> {
    set k | 0 <= k < |rs| :: rs[k].email
  }

  lemma EmailsOfAppend(rs: seq<Contact>, c: Contact)
    ensures EmailsOf(rs + [c]) == EmailsOf(rs) + {c.email}
  {
    var l, r := EmailsOf(rs + [c]), EmailsOf(rs) + {c.email};
    forall e | e in r
      ensures e in l
    {
      if e == c.email {
        assert (rs + [c])[|rs|].email == e;
      } else {
        var k :| 0 <= k < |rs| && rs[k].email == e;
        assert (rs + [c])[k].email == e;
      }
    }
  }

  /** The values of the `groupedByEmail` map in insertion order: a contact
      is added when its email is non-empty and not yet present. */
  function Recipients(cs: seq<Contact>): seq<Contact> {
    if |cs| == 0 then []
    else
      var init := Recipients(cs[..|cs| - 1]);
      var c := cs[|cs| - 1];
      if c.email != "" && c.email !in EmailsOf(init) then init + [c] else init
  }

  /** The grouping loop. */
  method GroupByEmail(cs: seq<Contact>) returns (rs: seq<Contact>)
    ensures rs == Recipients(cs)
  {
    rs := [];
    var seen: set<string> := {};
    var i := 0;
    while i < |cs|
      invariant 0 <= i <= |cs|
      invariant rs == Recipients(cs[..i])
      invariant seen == EmailsOf(rs)
    {
      var c := cs[i];
      assert cs[..i + 1][..i] == cs[..i];
      if c.email != "" && c.email !in seen {
        rs := rs + [c];
        EmailsOfAppend(rs[..|rs| - 1], c);
        assert rs[..|rs| - 1] + [c] == rs;
        seen := seen + {c.email};
      }
      i := i + 1;
    }
    assert cs[..i] == cs;
  }

  function HasEmail(e: string): Contact -> bool {
    (c: Contact) => c.email == e
  }

  /** The position of the first contact with email `e`. */
  function FirstContact(cs: seq<Contact>, e: string): Option<nat> {
    FirstIndex(cs, HasEmail(e))
  }

  /** The recipient list names each non-empty email of the contacts once,
      and no empty email. */
  lemma {:induction false} RecipientsCover(cs: seq<Contact>)
    ensures var r := Recipients(cs);
      && (forall i, j :: 0 <= i < j < |r| ==> r[i].email != r[j].email)
      && (forall j :: 0 <= j < |r| ==> r[j].email != "")
      && (forall k :: 0 <= k < |cs| && cs[k].email != "" ==> cs[k].email in EmailsOf(r))
  {
    if |cs| > 0 {
      var n := |cs| - 1;
      var init, c := cs[..n], cs[n];
      var ri := Recipients(init);
      RecipientsCover(init);
      var r := Recipients(cs);
      if c.email != "" && c.email !in EmailsOf(ri) {
        assert r == ri + [c];
        EmailsOfAppend(ri, c);
        forall i, j | 0 <= i < j < |r|
          ensures r[i].email != r[j].email
        {
          assert r[i] == ri[i];
          if j < |ri| {
            assert r[j] == ri[j];
          } else {
            assert ri[i].email in EmailsOf(ri);
          }
        }
        forall j | 0 <= j < |r|
          ensures r[j].email != ""
        {
          if j < |ri| {
            assert r[j] == ri[j];
          }
        }
      } else {
        assert r == ri;
      }
      forall k | 0 <= k < |cs| && cs[k].email != ""
        ensures cs[k].email in EmailsOf(r)
      {
        if k < n {
          assert cs[k] == init[k];
        } else {
          assert cs[k] == c;
        }
      }
    }
  }

  /** Appending a contact leaves the first contact of every email already
      in the recipient list where it was. */
  lemma FirstContactsStay(init: seq<Contact>, c: Contact)
    requires forall j :: 0 <= j < |Recipients(init)| ==> FirstContact(init, Recipients(init)[j].email).Some?
    ensures forall j :: 0 <= j < |Recipients(init)| ==>
      FirstContact(init + [c], Recipients(init)[j].email) == FirstContact(init, Recipients(init)[j].email)
  {
    var ri := Recipients(init);
    forall j | 0 <= j < |ri|
      ensures FirstContact(init + [c], ri[j].email) == FirstContact(init, ri[j].email)
    {
      FirstIndexExtend(init, c, HasEmail(ri[j].email));
    }
  }

  /** A contact whose email is new is its own first contact. */
  lemma NewEmailFirstHere(init: seq<Contact>, c: Contact)
    requires c.email != "" && c.email !in EmailsOf(Recipients(init))
    ensures FirstContact(init + [c], c.email) == Some(|init|)
  {
    RecipientsCover(init);
    forall k | 0 <= k < |init|
      ensures !HasEmail(c.email)((init + [c])[k])
    {
      assert (init + [c])[k] == init[k];
    }
    assert HasEmail(c.email)((init + [c])[|init|]);
  }

  /** Each recipient is the first contact with its email. */
  lemma {:induction false} RecipientsAreFirstContacts(cs: seq<Contact>)
    ensures var r := Recipients(cs);
      forall j :: 0 <= j < |r| ==>
        FirstContact(cs, r[j].email).Some? && cs[FirstContact(cs, r[j].email).value] == r[j]
  {
    if |cs| > 0 {
      var n := |cs| - 1;
      var init, c := cs[..n], cs[n];
      RecipientsAreFirstContacts(init);
      FirstContactsStay(init, c);
      assert cs == init + [c];
      var ri, r := Recipients(init), Recipients(cs);
      if c.email != "" && c.email !in EmailsOf(ri) {
        NewEmailFirstHere(init, c);
        assert r == ri + [c];
      } else {
        assert r == ri;
      }
      forall j | 0 <= j < |r|
        ensures FirstContact(cs, r[j].email).Some? && cs[FirstContact(cs, r[j].email).value] == r[j]
      {
        if j < |ri| {
          assert r[j] == ri[j];
          var w := FirstContact(init, ri[j].email).value;
          assert cs[w] == init[w];
        }
      }
    }
  }

  /** The first contact of an existing recipient lies in the prefix, and
      appending a contact does not move it. */
  lemma RecipientFirstContact(init: seq<Contact>, c: Contact, i: nat)
    requires i < |Recipients(init)|
    ensures FirstContact(init, Recipients(init)[i].email).Some?
    ensures FirstContact(init, Recipients(init)[i].email).value < |init|
    ensures FirstContact(init + [c], Recipients(init)[i].email) == FirstContact(init, Recipients(init)[i].email)
  {
    RecipientsAreFirstContacts(init);
    FirstIndexExtend(init, c, HasEmail(Recipients(init)[i].email));
  }

  /** Recipients come in the order their emails first appear. */
  lemma {:induction false} RecipientsInFirstSeenOrder(cs: seq<Contact>)
    ensures var r := Recipients(cs);
      forall i, j :: 0 <= i < j < |r| ==>
        FirstContact(cs, r[i].email).Some? && FirstContact(cs, r[j].email).Some? &&
        FirstContact(cs, r[i].email).value < FirstContact(cs, r[j].email).value
  {
    if |cs| > 0 {
      var n := |cs| - 1;
      var init, c := cs[..n], cs[n];
      RecipientsInFirstSeenOrder(init);
      RecipientsAreFirstContacts(cs);
      assert cs == init + [c];
      var ri, r := Recipients(init), Recipients(cs);
      if c.email != "" && c.email !in EmailsOf(ri) {
        NewEmailFirstHere(init, c);
        assert r == ri + [c];
      } else {
        assert r == ri;
      }
      forall i, j | 0 <= i < j < |r|
        ensures FirstContact(cs, r[i].email).Some?
        ensures FirstContact(cs, r[j].email).Some?
        ensures FirstContact(cs, r[i].email).value < FirstContact(cs, r[j].email).value
      {
        assert i < |ri| && r[i] == ri[i];
        RecipientFirstContact(init, c, i);
        if j < |ri| {
          assert r[j] == ri[j];
          RecipientFirstContact(init, c, j);
        }
      }
    }
  }

  /** Appending an element does not move the first match of a prefix that
      already has one. */
  lemma FirstIndexExtend<T>(s: seq<T>, x: T, p: T -> bool)
    requires FirstIndex(s, p).Some?
    ensures FirstIndex(s + [x], p) == FirstIndex(s, p)
  {
    var i := FirstIndex(s, p).value;
    var t := s + [x];
    assert t[i] == s[i];
    var j := FirstIndex(t, p);
    assert j.Some?;
    assert j.value <= i;
    assert t[j.value] == s[j.value];
    assert !(j.value < i);
  }

  /** POST /notify-schedule/:eventId. `scheduleCount` is the length of the body's
      `schedules` (None when absent, so reading `.length` throws). `failAt` is the
      position in the recipient list of the first `sendEmail` that rejects (None
      when every delivery succeeds). Deliveries go out one at a time in recipient
      order and the first rejection ends the loop; `sent` lists the attempted
      deliveries. Nothing is written. */
  method SendScheduleEmailToUsers(db: Db, eventId: Id, scheduleCount: Option<nat>, failAt: Option<nat>)
    returns (reply: Reply, recipients: seq<Contact>, sent: seq<Contact>)
    ensures FindEvent(db.events, eventId).None? ==> reply == Reply(404, "Event not found") && sent == []
    ensures FindEvent(db.events, eventId).Some? ==>
      var registered := RegisteredBookings(db.bookings, eventId);
      if scheduleCount.None? then reply.status == 500 && sent == []
      else if scheduleCount.value == 0 then
        reply == Reply(400, "No schedules found for this event") && sent == []
      else if registered == [] then
        reply == Reply(400, "No registered users for this event") && sent == []
      else
        recipients == Recipients(ContactsOf(registered, db.users))
        && if failAt.Some? && failAt.value < |recipients| then
             sent == recipients[..failAt.value + 1] && reply == Reply(500, "Failed to send schedule emails")
           else
             sent == recipients && reply == Reply(200, "Schedule email sent to all registered users")
  {
    recipients, sent := [], [];
    var ei := FindEvent(db.events, eventId);
    if ei.None? {
      return Reply(404, "Event not found"), recipients, sent;
    }
    if scheduleCount.None? {
      return Reply(500, "Failed to send schedule emails"), recipients, sent;
    }
    if scheduleCount.value == 0 {
      return Reply(400, "No schedules found for this event"), recipients, sent;
    }
    var registered := RegisteredBookings(db.bookings, eventId);
    if registered == [] {
      return Reply(400, "No registered users for this event"), recipients, sent;
    }
    recipients := GroupByEmail(ContactsOf(registered, db.users));
    var delivered;
    sent, delivered := Deliver(recipients, failAt);
    reply := if delivered then Reply(200, "Schedule email sent to all registered users")
             else Reply(500, "Failed to send schedule emails");
  }

  /** The delivery loop: one `sendEmail` per recipient, in order, awaited
      before the next; the rejection at `failAt` ends the loop. Every
      recipient has an email (`RecipientsCover`), so the `continue` never
      fires. */
  method Deliver(recipients: seq<Contact>, failAt: Option<nat>) returns (sent: seq<Contact>, delivered: bool)
    ensures delivered <==> !(failAt.Some? && failAt.value < |recipients|)
    ensures delivered ==> sent == recipients
    ensures !delivered ==> sent == recipients[..failAt.value + 1]
  {
    sent := [];
    var i := 0;
    while i < |recipients|
      invariant 0 <= i <= |recipients|
      invariant sent == recipients[..i]
      invariant failAt.Some? ==> i <= failAt.value
    {
      sent := sent + [recipients[i]];
      if failAt == Some(i) {
        return sent, false;
      }
      i := i + 1;
    }
    delivered := true;
  }
}
