/** The event handlers: creation, the listings, the field-merge update, soft
    deletion, the status whitelist, the attendee list and the live ticket
    availability computed from confirmed, paid bookings. */
module EventController {
  import opened Base
  import Text
  import opened EventSchema
  import opened BookingSchema
  import opened UserSchema
  import opened Database
  import BookingController
  import PaymentController

  // ---- creation ----

  /** POST /create: the event takes the next identifier and its new tiers
      the ones after it; the organizer is the caller. */
  method CreateEvent(db: Db, caller: User, title: string, description: string,
                     category: Option<string>, startDate: Option<int>, endDate: Option<int>,
                     isOnline: Option<bool>, onlineLink: Option<string>, location: Location,
                     tiers: seq<TierDraft>, bannerImage: string, now: int) returns (reply: Reply)
    requires db.Valid()
    modifies db`events, db`nextId
    ensures db.Valid()
    ensures var ne := NewEvent(old(db.nextId), caller.id, title, description, category, startDate,
                               endDate, isOnline, onlineLink, location, tiers, bannerImage, now);
      if ne.None? then reply.status == 500 && unchanged(db)
      else reply.status == 200 && db.events == old(db.events) + [ne.value]
           && db.nextId == old(db.nextId) + 1 + |tiers|
  {
    var ne := NewEvent(db.nextId, caller.id, title, description, category, startDate,
                       endDate, isOnline, onlineLink, location, tiers, bannerImage, now);
    if ne.None? {
      return Reply(500, "Cannot create event Error in Create Event ValidationError");
    }
    db.events := db.events + [ne.value];
    db.nextId := db.nextId + 1 + |tiers|;
    reply := Reply(200, "Event created successfully");
  }

  // ---- listings ----

  /** GET /all-events: every event not soft-deleted. */
  function ListedEvents(es: seq<Event>): (r: seq<Event>)
    ensures forall k :: 0 <= k < |r| ==> r[k] in es && !r[k].isDeleted
    ensures forall k :: 0 <= k < |es| && !es[k].isDeleted ==> es[k] in r
  {
    Filter(es, (e: Event) => !e.isDeleted)
  }

  /** GET /all-published-events: the published events not soft-deleted. */
  function PublishedEvents(es: seq<Event>): (r: seq<Event>)
    ensures forall k :: 0 <= k < |r| ==> r[k] in es && !r[k].isDeleted && r[k].status == Published
    ensures forall k :: 0 <= k < |es| && !es[k].isDeleted && es[k].status == Published ==> es[k] in r
  {
    Filter(es, (e: Event) => !e.isDeleted && e.status == Published)
  }

  /** The filter of GET /my-events. */
  function OwnLive(caller: Id): Event -> bool {
    (e: Event) => !e.isDeleted && e.organizer == caller
  }

  /** GET /my-events: the caller's events not soft-deleted, newest first.
      The table keeps creation order, so newest first is that order reversed
      (`MyEventsOrder`, `MyEventsNewestFirst`). */
  function MyEvents(es: seq<Event>, caller: Id): (r: seq<Event>)
    ensures forall k :: 0 <= k < |r| ==> r[k] in es && !r[k].isDeleted && r[k].organizer == caller
    ensures forall k :: 0 <= k < |es| && !es[k].isDeleted && es[k].organizer == caller ==> es[k] in r
  {
    OwnLiveSound(es, caller);
    OwnLiveComplete(es, caller);
    Reverse(Filter(es, OwnLive(caller)))
  }

  /** The k-th row is the k-th of the caller's live events counted back
      from the latest. */
  lemma MyEventsOrder(es: seq<Event>, caller: Id)
    ensures var mine := Filter(es, OwnLive(caller));
      var r := MyEvents(es, caller);
      |r| == |mine| && forall k :: 0 <= k < |r| ==> r[k] == mine[|mine| - 1 - k]
  {
    assert MyEvents(es, caller) == Reverse(Filter(es, OwnLive(caller)));
  }

  /** Every listed row is one of the caller's live events. */
  lemma OwnLiveSound(es: seq<Event>, caller: Id)
    ensures var r := Reverse(Filter(es, OwnLive(caller)));
      forall k :: 0 <= k < |r| ==> r[k] in es && !r[k].isDeleted && r[k].organizer == caller
  {
    var mine := Filter(es, OwnLive(caller));
    var r := Reverse(mine);
    forall k | 0 <= k < |r|
      ensures r[k] in es && !r[k].isDeleted && r[k].organizer == caller
    {
      assert r[k] == mine[|mine| - 1 - k];
      assert OwnLive(caller)(mine[|mine| - 1 - k]);
    }
  }

  /** Every live event of the caller is listed. */
  lemma OwnLiveComplete(es: seq<Event>, caller: Id)
    ensures var r := Reverse(Filter(es, OwnLive(caller)));
      forall k :: 0 <= k < |es| && !es[k].isDeleted && es[k].organizer == caller ==> es[k] in r
  {
    var mine := Filter(es, OwnLive(caller));
    var r := Reverse(mine);
    forall k | 0 <= k < |es| && !es[k].isDeleted && es[k].organizer == caller
      ensures es[k] in r
    {
      assert OwnLive(caller)(es[k]);
      var i :| 0 <= i < |mine| && mine[i] == es[k];
      assert r[|mine| - 1 - i] == es[k];
    }
  }

  /** An event created after the others heads the caller's listing when it
      is theirs and live, ahead of everything listed before. */
  lemma MyEventsNewestFirst(es: seq<Event>, e: Event, caller: Id)
    ensures MyEvents(es + [e], caller) == (if OwnLive(caller)(e) then [e] else []) + MyEvents(es, caller)
  {
    var mine := Filter(es, OwnLive(caller));
    FilterAppend(es, [e], OwnLive(caller));
    assert [e][..0] == [];
    if OwnLive(caller)(e) {
      assert (mine + [e])[..|mine|] == mine;
    } else {
      assert mine + [] == mine;
    }
  }

  /** `getEventById` (no route serves it): the event with that id, unless it
      is soft-deleted. */
  function GetEventById(es: seq<Event>, id: Id): (r: Option<nat>)
    ensures r.Some? ==> r.value < |es| && es[r.value].id == id && !es[r.value].isDeleted
    ensures r.None? <==> forall k :: 0 <= k < |es| ==> es[k].id != id || es[k].isDeleted
  {
    FirstIndex(es, (e: Event) => e.id == id && !e.isDeleted)
  }

  /** Soft-deleting the event at `i` takes exactly that event out of the
      listing and leaves the rest in their order. */
  lemma DeletedLeavesListing(es: seq<Event>, i: nat)
    requires i < |es|
    ensures ListedEvents(es[i := es[i].(isDeleted := true)]) ==
      ListedEvents(es[..i]) + ListedEvents(es[i + 1..])
  {
    var p := (e: Event) => !e.isDeleted;
    var d := es[i].(isDeleted := true);
    assert es[i := d] == es[..i] + [d] + es[i + 1..];
    FilterAppend(es[..i] + [d], es[i + 1..], p);
    FilterAppend(es[..i], [d], p);
    assert Filter([d], p) == [] by {
      assert [d][..0] == [];
    }
  }

  // ---- update ----

  /** A request field that distinguishes an absent key from an explicit null. */
  datatype Field<T> = Undefined | Null | Given(value: T)

  /** The body of PUT /update/:id, after JSON parsing and date casting.
      `??` treats null and undefined alike, so those fields are Options;
      `isOnline` is tested with `!== undefined` and keeps the distinction. */
  datatype EventPatch = EventPatch(
    title: Option<string>, description: Option<string>, category: Option<string>,
    startDate: Option<int>, endDate: Option<int>, isOnline: Field<bool>,
    onlineLink: Option<string>, tickets: Option<seq<TierDraft>>, location: Option<Location>,
    bannerImage: Option<string>)

  const EmptyPatch := EventPatch(None, None, None, None, None, Undefined, None, None, None, None)

  /** The event after the field-by-field assignment and `save()`: None when
      the save fails validation (an empty title after trimming, an empty
      description, a category outside the enum, a new tier without a type).
      New tiers are given ids from `firstFresh`. */
  function MergeEvent(e: Event, patch: EventPatch, firstFresh: Id): (r: Option<Event>)
    ensures r.Some? ==>
      && r.value.id == e.id && r.value.organizer == e.organizer && r.value.status == e.status
      && r.value.isDeleted == e.isDeleted && r.value.isApproved == e.isApproved
      && r.value.updatedAt == e.updatedAt
    ensures r.Some? ==>
      && r.value.title == Text.Trim(patch.title.GetOr(e.title))
      && r.value.description == patch.description.GetOr(e.description)
      && r.value.startDate == patch.startDate.GetOr(e.startDate)
      && r.value.endDate == patch.endDate.GetOr(e.endDate)
      && r.value.onlineLink == patch.onlineLink.GetOr(e.onlineLink)
      && r.value.location == patch.location.GetOr(e.location)
      && r.value.bannerImage == patch.bannerImage.GetOr(e.bannerImage)
      && r.value.isOnline == (match patch.isOnline
                              case Undefined => e.isOnline
                              case Null => None
                              case Given(b) => Some(b))
      && r.value.tickets == (if patch.tickets.Some? then CastTiers(patch.tickets.value, firstFresh) else e.tickets)
      && (if patch.category.Some? then ParseCategory(patch.category.value) == Some(r.value.category)
          else r.value.category == e.category)
    ensures r.None? <==>
      || Text.Trim(patch.title.GetOr(e.title)) == ""
      || patch.description.GetOr(e.description) == ""
      || (patch.category.Some? && ParseCategory(patch.category.value).None?)
      || (patch.tickets.Some? && !TiersValid(patch.tickets.value))
  {
    var title := Text.Trim(patch.title.GetOr(e.title));
    var description := patch.description.GetOr(e.description);
    var category := if patch.category.Some? then ParseCategory(patch.category.value) else Some(e.category);
    var isOnline := match patch.isOnline
                    case Undefined => e.isOnline
                    case Null => None
                    case Given(b) => Some(b);
    if title == "" || description == "" || category.None?
       || (patch.tickets.Some? && !TiersValid(patch.tickets.value))
    then None
    else
      var tickets := if patch.tickets.Some? then CastTiers(patch.tickets.value, firstFresh) else e.tickets;
      Some(e.(title := title, description := description, category := category.value,
              startDate := patch.startDate.GetOr(e.startDate), endDate := patch.endDate.GetOr(e.endDate),
              isOnline := isOnline, onlineLink := patch.onlineLink.GetOr(e.onlineLink),
              tickets := tickets, location := patch.location.GetOr(e.location),
              bannerImage := patch.bannerImage.GetOr(e.bannerImage)))
  }

  /** An empty body saves the event as it was, when the stored title is
      already trimmed and the required strings are present. */
  lemma EmptyPatchKeepsEvent(e: Event, firstFresh: Id)
    requires Text.IsTrimmed(e.title) && e.title != "" && e.description != ""
    ensures MergeEvent(e, EmptyPatch, firstFresh) == Some(e)
  {
    Text.TrimOfTrimmed(e.title);
  }

  /** A body whose every field already agrees with the stored event saves
      the event unchanged. */
  lemma MergeFixed(e: Event, patch: EventPatch, firstFresh: Id)
    requires patch.tickets.None?
    requires Text.Trim(patch.title.GetOr(e.title)) == e.title != ""
    requires patch.description.GetOr(e.description) == e.description != ""
    requires patch.category.Some? ==> ParseCategory(patch.category.value) == Some(e.category)
    requires patch.startDate.GetOr(e.startDate) == e.startDate && patch.endDate.GetOr(e.endDate) == e.endDate
    requires patch.onlineLink.GetOr(e.onlineLink) == e.onlineLink && patch.location.GetOr(e.location) == e.location
    requires patch.bannerImage.GetOr(e.bannerImage) == e.bannerImage
    requires patch.isOnline.Null? ==> e.isOnline.None?
    requires patch.isOnline.Given? ==> e.isOnline == Some(patch.isOnline.value)
    ensures MergeEvent(e, patch, firstFresh) == Some(e)
  {
    var m := MergeEvent(e, patch, firstFresh);
    assert m.Some?;
    var e' := m.value;
    assert e'.category == e.category;
    assert e'.isOnline == e.isOnline;
    assert e'.tickets == e.tickets;
    assert e' == e;
  }

  /** The title a successful merge stores is already trimmed, so the same
      body trims it to itself. */
  lemma MergedTitleFixed(e: Event, patch: EventPatch, firstFresh: Id)
    requires MergeEvent(e, patch, firstFresh).Some?
    ensures var e' := MergeEvent(e, patch, firstFresh).value;
      Text.Trim(patch.title.GetOr(e'.title)) == e'.title != ""
  {
    var e' := MergeEvent(e, patch, firstFresh).value;
    Text.TrimIsTrimmed(patch.title.GetOr(e.title));
    Text.TrimOfTrimmed(e'.title);
  }

  /** Every other field a successful merge stores already agrees with the body. */
  lemma MergedFieldsFixed(e: Event, patch: EventPatch, firstFresh: Id)
    requires MergeEvent(e, patch, firstFresh).Some?
    ensures var e' := MergeEvent(e, patch, firstFresh).value;
      && patch.description.GetOr(e'.description) == e'.description != ""
      && (patch.category.Some? ==> ParseCategory(patch.category.value) == Some(e'.category))
      && patch.startDate.GetOr(e'.startDate) == e'.startDate && patch.endDate.GetOr(e'.endDate) == e'.endDate
      && patch.onlineLink.GetOr(e'.onlineLink) == e'.onlineLink && patch.location.GetOr(e'.location) == e'.location
      && patch.bannerImage.GetOr(e'.bannerImage) == e'.bannerImage
      && (patch.isOnline.Null? ==> e'.isOnline.None?)
      && (patch.isOnline.Given? ==> e'.isOnline == Some(patch.isOnline.value))
  {
  }

  /** Sending the same body twice gives the same event as sending it once. */
  lemma MergeIdempotent(e: Event, patch: EventPatch, firstFresh: Id)
    requires MergeEvent(e, patch, firstFresh).Some?
    requires patch.tickets.None?
    ensures MergeEvent(MergeEvent(e, patch, firstFresh).value, patch, firstFresh) == MergeEvent(e, patch, firstFresh)
  {
    var e' := MergeEvent(e, patch, firstFresh).value;
    MergedTitleFixed(e, patch, firstFresh);
    MergedFieldsFixed(e, patch, firstFresh);
    MergeFixed(e', patch, firstFresh);
  }

  /** `Event.findOne({ _id, organizer, isDeleted: false })`. */
  function FindOwnedLiveEvent(es: seq<Event>, id: Id, owner: Id): (r: Option<nat>)
    ensures r.Some? ==> r.value < |es| && es[r.value].id == id && es[r.value].organizer == owner
                        && !es[r.value].isDeleted
    ensures r.None? <==> forall k :: 0 <= k < |es| ==>
      es[k].id != id || es[k].organizer != owner || es[k].isDeleted
  {
    FirstIndex(es, (e: Event) => e.id == id && e.organizer == owner && !e.isDeleted)
  }

  /** PUT /update/:id: only the caller's own, live event is updated. */
  method UpdateEvent(db: Db, caller: User, eventId: Id, patch: EventPatch) returns (reply: Reply)
    requires db.Valid()
    modifies db`events, db`nextId
    ensures db.Valid()
    ensures var i := FindOwnedLiveEvent(old(db.events), eventId, caller.id);
      if i.None? then reply == Reply(404, "Event not found or unauthorized") && unchanged(db)
      else
        var m := MergeEvent(old(db.events)[i.value], patch, old(db.nextId));
        if m.None? then reply == Reply(500, "Failed to update event") && unchanged(db)
        else reply == Reply(200, "Event updated successfully")
             && db.events == old(db.events)[i.value := m.value]
             && db.nextId == old(db.nextId) + (if patch.tickets.Some? then |patch.tickets.value| else 0)
  {
    var i := FindOwnedLiveEvent(db.events, eventId, caller.id);
    if i.None? {
      return Reply(404, "Event not found or unauthorized");
    }
    var m := MergeEvent(db.events[i.value], patch, db.nextId);
    if m.None? {
      return Reply(500, "Failed to update event");
    }
    var next := db.nextId + (if patch.tickets.Some? then |patch.tickets.value| else 0);
    db.SetEvent(i.value, m.value, next);
    reply := Reply(200, "Event updated successfully");
  }

  // ---- deletion and status ----

  /** `Event.findOneAndUpdate({ _id, organizer }, ...)`: an already deleted
      event still matches. */
  function FindOwnedEvent(es: seq<Event>, id: Id, owner: Id): (r: Option<nat>)
    ensures r.Some? ==> r.value < |es| && es[r.value].id == id && es[r.value].organizer == owner
    ensures r.None? <==> forall k :: 0 <= k < |es| ==> es[k].id != id || es[k].organizer != owner
  {
    FirstIndex(es, (e: Event) => e.id == id && e.organizer == owner)
  }

  /** DELETE /delete/:id: sets `isDeleted` on the caller's event and nothing else. */
  method DeleteEvent(db: Db, caller: User, eventId: Id) returns (reply: Reply)
    requires db.Valid()
    modifies db`events
    ensures db.Valid()
    ensures var i := FindOwnedEvent(old(db.events), eventId, caller.id);
      if i.None? then reply == Reply(404, "Event not found or unauthorized") && unchanged(db)
      else reply == Reply(200, "Event deleted successfully")
           && db.events == old(db.events)[i.value := old(db.events)[i.value].(isDeleted := true)]
  {
    var i := FindOwnedEvent(db.events, eventId, caller.id);
    if i.None? {
      return Reply(404, "Event not found or unauthorized");
    }
    EventsOkUpdate(db.events, db.nextId, i.value, db.events[i.value].(isDeleted := true));
    db.events := db.events[i.value := db.events[i.value].(isDeleted := true)];
    reply := Reply(200, "Event deleted successfully");
  }

  /** The statuses a client may set: `sold-out` and `ongoing` are reserved
      for the payment handler and the daily sweep. */
  function SettableStatus(s: string): (r: Option<EventStatus>)
    ensures r.Some? ==> StatusName(r.value) == s && r.value != SoldOut && r.value != Ongoing
    ensures r.None? <==> s !in ["pending", "published", "cancelled", "completed"]
  {
    if s in ["pending", "published", "cancelled", "completed"] then ParseStatus(s) else None
  }

  /** PATCH /status/:id. There is no ownership check: any caller that reaches
      the handler may set the status of any event. */
  method UpdateEventStatus(db: Db, status: string, eventId: Id) returns (reply: Reply)
    requires db.Valid()
    modifies db`events
    ensures db.Valid()
    ensures SettableStatus(status).None? ==> reply == Reply(400, "Invalid status value") && unchanged(db)
    ensures SettableStatus(status).Some? ==>
      var i := FindEvent(old(db.events), eventId);
      if i.None? then reply == Reply(404, "Event not found or unauthorized") && unchanged(db)
      else reply.status == 200
           && db.events == old(db.events)[i.value := old(db.events)[i.value].(status := SettableStatus(status).value)]
  {
    var s := SettableStatus(status);
    if s.None? {
      return Reply(400, "Invalid status value");
    }
    var i := FindEvent(db.events, eventId);
    if i.None? {
      return Reply(404, "Event not found or unauthorized");
    }
    EventsOkUpdate(db.events, db.nextId, i.value, db.events[i.value].(status := s.value));
    db.events := db.events[i.value := db.events[i.value].(status := s.value)];
    reply := Reply(200, "Event " + status + " successfully");
  }

  // ---- attendees ----

  /** One row of the attendee list. */
  datatype Attendee = Attendee(bookingId: Id, name: Option<string>, email: string,
                               profileImage: string, tickets: int, totalAmount: int)

  /** `Booking.find({ event, paymentStatus: "paid" }).sort({ createdAt: -1 })`:
      the booking status is not consulted. */
  function PaidBookingsOf(bs: seq<Booking>, eventId: Id): (r: seq<Booking>)
    ensures forall k :: 0 <= k < |r| ==> r[k] in bs && r[k].event == eventId && r[k].paymentStatus == Paid
    ensures forall k :: 0 <= k < |bs| && bs[k].event == eventId && bs[k].paymentStatus == Paid ==> bs[k] in r
  {
    var paid := Filter(bs, (b: Booking) => b.event == eventId && b.paymentStatus == Paid);
    ReverseMembers(paid);
    Reverse(paid)
  }

  /** The rows for `bs`, or None when a booking's user no longer exists (the
      populated `user` is null and reading its `name` throws). */
  function AttendeeRows(bs: seq<Booking>, us: seq<User>): (r: Option<seq<Attendee>>)
    ensures r.None? <==> exists k :: 0 <= k < |bs| && FindUser(us, bs[k].user).None?
    ensures r.Some? ==> |r.value| == |bs| && forall k :: 0 <= k < |bs| ==>
      var u := us[FindUser(us, bs[k].user).value];
      r.value[k] == Attendee(bs[k].id, u.name, u.email, u.profileImage, bs[k].quantity, bs[k].totalAmount)
  {
    if |bs| == 0 then Some([])
    else
      var rest := AttendeeRows(bs[1..], us);
      match FindUser(us, bs[0].user)
      case None => None
      case Some(ui) =>
        if rest.None? then None
        else
          var u := us[ui];
          Some([Attendee(bs[0].id, u.name, u.email, u.profileImage, bs[0].quantity, bs[0].totalAmount)] + rest.value)
  }

  /** GET /:eventId/attendees. No event lookup and no authorisation check: an
      unknown event yields an empty list. */
  function GetEventAttendees(bs: seq<Booking>, us: seq<User>, eventId: Id): (r: (Reply, seq<Attendee>))
    ensures r.0.status == 200 ==> |r.1| == |PaidBookingsOf(bs, eventId)|
    ensures r.0.status == 200 ==> var pb := PaidBookingsOf(bs, eventId);
      forall k :: 0 <= k < |pb| ==>
        FindUser(us, pb[k].user).Some? &&
        var u := us[FindUser(us, pb[k].user).value];
        r.1[k] == Attendee(pb[k].id, u.name, u.email, u.profileImage, pb[k].quantity, pb[k].totalAmount)
    ensures r.0.status == 200 <==> AttendeeRows(PaidBookingsOf(bs, eventId), us).Some?
    ensures r.0.status != 200 ==> r.0.status == 500 && r.1 == []
  {
    match AttendeeRows(PaidBookingsOf(bs, eventId), us)
    case None => (Reply(500, "Failed to fetch attendees"), [])
    case Some(rows) => (Reply(200, "attendees"), rows)
  }

  // ---- live availability ----

  /** The weight of a booking in the booked count of normalised type `key`. */
  function BookedWeight(eventId: Id, key: string): Booking -> int {
    (b: Booking) =>
      if b.event == eventId && b.bookingStatus == BookingStatus.Confirmed && b.paymentStatus == Paid
         && Text.Normalize(b.ticketType) == key
      then b.quantity else 0
  }

  /** Booked seats of type `key`: the `$match` on event, confirmed and paid,
      grouped by trimmed, upper-cased ticket type, with `$sum` of quantity. */
  function Booked(bs: seq<Booking>, eventId: Id, key: string): int {
    Sum(bs, BookedWeight(eventId, key))
  }

  /** `bookedMap[key] || 0`. */
  function Lookup(m: map<string, int>, key: string): int {
    if key in m then m[key] else 0
  }

  /** The grouping stage and the `forEach` that copies its groups into
      `bookedMap`, as one pass over the bookings. */
  method BuildBookedMap(bs: seq<Booking>, eventId: Id) returns (m: map<string, int>)
    ensures forall key :: Lookup(m, key) == Booked(bs, eventId, key)
  {
    m := map[];
    var i := 0;
    while i < |bs|
      invariant 0 <= i <= |bs|
      invariant forall key :: Lookup(m, key) == Booked(bs[..i], eventId, key)
    {
      BookedMapStep(m, bs[..i], bs[i], eventId);
      assert bs[..i + 1] == bs[..i] + [bs[i]];
      m := CountBooking(m, bs[i], eventId);
      i := i + 1;
    }
    assert bs[..i] == bs;
  }

  /** One iteration of the grouping: a confirmed and paid booking of the
      event adds its quantity under its normalised type. */
  function CountBooking(m: map<string, int>, b: Booking, eventId: Id): map<string, int> {
    if b.event == eventId && b.bookingStatus == BookingStatus.Confirmed && b.paymentStatus == Paid
    then m[Text.Normalize(b.ticketType) := Lookup(m, Text.Normalize(b.ticketType)) + b.quantity]
    else m
  }

  /** One step of the grouping loop keeps the map equal to the booked counts. */
  lemma BookedMapStep(m: map<string, int>, bs: seq<Booking>, b: Booking, eventId: Id)
    requires forall key :: Lookup(m, key) == Booked(bs, eventId, key)
    ensures forall key :: Lookup(CountBooking(m, b, eventId), key) == Booked(bs + [b], eventId, key)
  {
    forall key
      ensures Lookup(CountBooking(m, b, eventId), key) == Booked(bs + [b], eventId, key)
    {
      BookedAppend(bs, b, eventId, key);
    }
  }

  /** A booking appended to the collection adds its quantity to the count of
      its own normalised type when it is confirmed and paid, and nothing else. */
  lemma BookedAppend(bs: seq<Booking>, b: Booking, eventId: Id, key: string)
    ensures Booked(bs + [b], eventId, key) == Booked(bs, eventId, key) +
      (if b.event == eventId && b.bookingStatus == BookingStatus.Confirmed && b.paymentStatus == Paid
          && Text.Normalize(b.ticketType) == key then b.quantity else 0)
  {
    SumAppend(bs, b, BookedWeight(eventId, key));
  }

  /** One row of the availability table. */
  datatype TierAvailability = TierAvailability(ticketType: string, price: int, totalTickets: int,
                                               bookedTickets: int, availableTickets: int)

  function Max0(x: int): (r: int)
    ensures r >= 0 && r >= x && (r == x || r == 0)
  {
    if x > 0 then x else 0
  }

  /** `event.tickets.map(...)`: one row per tier, in tier order. */
  function AvailabilityRows(tiers: seq<TicketTier>, m: map<string, int>): (r: seq<TierAvailability>)
    ensures |r| == |tiers|
    ensures forall k :: 0 <= k < |tiers| ==>
      var booked := Lookup(m, Text.Normalize(tiers[k].ticketType));
      && r[k].ticketType == tiers[k].ticketType && r[k].price == tiers[k].price
      && r[k].totalTickets == tiers[k].quantity && r[k].bookedTickets == booked
      && r[k].availableTickets == Max0(tiers[k].quantity - booked)
  {
    seq(|tiers|, k requires 0 <= k < |tiers| =>
      var booked := Lookup(m, Text.Normalize(tiers[k].ticketType));
      TierAvailability(tiers[k].ticketType, tiers[k].price, tiers[k].quantity, booked,
                       Max0(tiers[k].quantity - booked)))
  }

  /** GET /getEvent/:id. Reads only. */
  method GetEventWithAvailability(db: Db, eventId: Id) returns (reply: Reply, rows: seq<TierAvailability>)
    ensures FindEvent(db.events, eventId).None? ==> reply == Reply(404, "Event not found") && rows == []
    ensures FindEvent(db.events, eventId).Some? ==>
      var e := db.events[FindEvent(db.events, eventId).value];
      && reply.status == 200 && |rows| == |e.tickets|
      && forall k :: 0 <= k < |e.tickets| ==>
        var booked := Booked(db.bookings, eventId, Text.Normalize(e.tickets[k].ticketType));
        && rows[k].ticketType == e.tickets[k].ticketType && rows[k].price == e.tickets[k].price
        && rows[k].totalTickets == e.tickets[k].quantity
        && rows[k].bookedTickets == booked
        && rows[k].availableTickets == Max0(e.tickets[k].quantity - booked)
  {
    rows := [];
    var ei := FindEvent(db.events, eventId);
    if ei.None? {
      return Reply(404, "Event not found"), rows;
    }
    var event := db.events[ei.value];
    var m := BuildBookedMap(db.bookings, event.id);
    rows := AvailabilityRows(event.tickets, m);
    reply := Reply(200, "availability");
  }

  /** Every booking contributes a non-negative quantity, so no booked count
      is negative. */
  lemma BookedNonNegative(bs: seq<Booking>, eventId: Id, key: string)
    requires forall k :: 0 <= k < |bs| ==> bs[k].quantity >= 1
    ensures Booked(bs, eventId, key) >= 0
  {
    SumNonNegative(bs, BookedWeight(eventId, key));
  }

  /** A row built from the booked map of a table whose quantities are at
      least 1: its booked count is never negative; while the tier is not
      oversold, booked and available seats add up to the tier's quantity, and
      an oversold tier reports no seat available. */
  lemma BookedPlusAvailable(tiers: seq<TicketTier>, bs: seq<Booking>, eventId: Id,
                            m: map<string, int>, k: int)
    requires forall j :: 0 <= j < |bs| ==> bs[j].quantity >= 1
    requires forall key :: Lookup(m, key) == Booked(bs, eventId, key)
    requires 0 <= k < |tiers|
    ensures var row := AvailabilityRows(tiers, m)[k];
      && row.bookedTickets >= 0
      && (row.bookedTickets <= row.totalTickets ==>
            row.bookedTickets + row.availableTickets == row.totalTickets)
      && (row.bookedTickets > row.totalTickets ==> row.availableTickets == 0)
  {
    BookedNonNegative(bs, eventId, Text.Normalize(tiers[k].ticketType));
  }

  /** A tier that no confirmed, paid booking names reports nothing booked. */
  lemma UnbookedTierReportsZero(bs: seq<Booking>, eventId: Id, key: string)
    requires forall k :: 0 <= k < |bs| ==>
      !(bs[k].event == eventId && bs[k].bookingStatus == BookingStatus.Confirmed
        && bs[k].paymentStatus == Paid && Text.Normalize(bs[k].ticketType) == key)
    ensures Booked(bs, eventId, key) == 0
  {
    SumOfZeros(bs, BookedWeight(eventId, key));
  }

  /** Cancelling and refunding a counted booking releases its seats. */
  lemma CancellationReleasesSeats(bs: seq<Booking>, i: nat, eventId: Id, key: string)
    requires i < |bs|
    ensures Booked(bs[i := BookingController.CancelledBooking(bs[i])], eventId, key) ==
      Booked(bs, eventId, key) - BookedWeight(eventId, key)(bs[i])
  {
    SumUpdate(bs, i, BookingController.CancelledBooking(bs[i]), BookedWeight(eventId, key));
  }

  /** Confirming a booking that was not yet counted adds its quantity to the
      count of its own normalised type. */
  lemma ConfirmationTakesSeats(bs: seq<Booking>, i: nat)
    requires i < |bs|
    requires !(bs[i].bookingStatus == BookingStatus.Confirmed && bs[i].paymentStatus == Paid)
    ensures var key := Text.Normalize(bs[i].ticketType);
      Booked(bs[i := PaymentController.ConfirmedBooking(bs[i])], bs[i].event, key) ==
      Booked(bs, bs[i].event, key) + bs[i].quantity
  {
    SumUpdate(bs, i, PaymentController.ConfirmedBooking(bs[i]),
              BookedWeight(bs[i].event, Text.Normalize(bs[i].ticketType)));
  }
}
