/** The document store: one table per collection, each kept in natural
    (insertion) order, and the counter that issues fresh identifiers. The
    invariant collects what the schemas and their indexes guarantee. */
module Database {
  import opened Base
  import Text
  import opened EventSchema
  import opened BookingSchema
  import opened PaymentSchema
  import opened UserSchema
  import opened EmailOtpSchema
  import opened ScheduleSchema

  class Db {
    var events: seq<Event>
    var bookings: seq<Booking>
    var payments: seq<Payment>
    var users: seq<User>
    var otps: seq<OtpRecord>
    var schedules: seq<Schedule>
    var nextId: nat

    ghost predicate Valid()
      reads this
    {
      && EventsOk(events, nextId) && BookingsOk(bookings, nextId) && PaymentsOk(payments, nextId)
      && UsersOk(users, nextId) && SchedulesOk(schedules, nextId)
    }

    /** Replaces the event at `i` and moves the id counter to `next`. */
    method SetEvent(i: nat, e: Event, next: nat)
      requires Valid() && i < |events| && nextId <= next
      requires e.id < next
      modifies this`events, this`nextId
      ensures Valid()
      ensures events == old(events)[i := e] && nextId == next
    {
      OkForLargerNext(this, next);
      EventsOkUpdate(events, next, i, e);
      events := events[i := e];
      nextId := next;
    }

    /** Replaces the booking at `i`. */
    method SetBooking(i: nat, b: Booking)
      requires Valid() && i < |bookings|
      requires b.id < nextId && b.quantity >= 1
      modifies this`bookings
      ensures Valid() && bookings == old(bookings)[i := b]
    {
      BookingsOkUpdate(bookings, nextId, i, b);
      bookings := bookings[i := b];
    }

    /** Replaces the payment at `i` by one for the same booking. */
    method SetPayment(i: nat, p: Payment)
      requires Valid() && i < |payments|
      requires p.id < nextId && p.booking == payments[i].booking
      modifies this`payments
      ensures Valid() && payments == old(payments)[i := p]
    {
      PaymentsOkUpdate(payments, nextId, i, p);
      payments := payments[i := p];
    }

    /** Replaces the schedule at `i`. */
    method SetSchedule(i: nat, sc: Schedule)
      requires Valid() && i < |schedules| && sc.id < nextId
      modifies this`schedules
      ensures Valid() && schedules == old(schedules)[i := sc]
    {
      SchedulesOkUpdate(schedules, nextId, i, sc);
      schedules := schedules[i := sc];
    }

    constructor ()
      ensures Valid()
      ensures events == [] && bookings == [] && payments == [] && users == []
      ensures otps == [] && schedules == []
    {
      events, bookings, payments, users := [], [], [], [];
      otps, schedules, nextId := [], [], 0;
    }
  }

  // ---- what each table keeps, given the next fresh identifier ----

  /** Events carry issued ids. */
  predicate EventsOk(es: seq<Event>, next: nat) {
    forall i :: 0 <= i < |es| ==> es[i].id < next
  }

  /** Bookings carry issued ids and pass the schema's `min: 1` on quantity. */
  predicate BookingsOk(bs: seq<Booking>, next: nat) {
    forall i :: 0 <= i < |bs| ==> bs[i].id < next && bs[i].quantity >= 1
  }

  /** Payments carry issued ids and the unique index on `booking` holds. */
  predicate PaymentsOk(ps: seq<Payment>, next: nat) {
    (forall i :: 0 <= i < |ps| ==> ps[i].id < next) && OnePerBooking(ps)
  }

  /** Users carry issued ids; the unique `email` and sparse unique `phone`
      indexes and the `lowercase` option hold. */
  predicate UsersOk(us: seq<User>, next: nat) {
    && (forall i :: 0 <= i < |us| ==> us[i].id < next)
    && UniqueEmails(us) && SparseUniquePhones(us) && LowercaseEmails(us)
  }

  predicate SchedulesOk(ss: seq<Schedule>, next: nat) {
    forall i :: 0 <= i < |ss| ==> ss[i].id < next
  }

  /** Moving the counter forward keeps every table's invariant. */
  lemma OkForLargerNext(db: Db, next: nat)
    requires db.Valid() && db.nextId <= next
    ensures EventsOk(db.events, next) && BookingsOk(db.bookings, next) && PaymentsOk(db.payments, next)
    ensures UsersOk(db.users, next) && SchedulesOk(db.schedules, next)
  {
  }

  lemma EventsOkUpdate(es: seq<Event>, next: nat, i: nat, e: Event)
    requires EventsOk(es, next) && i < |es|
    requires e.id < next
    ensures EventsOk(es[i := e], next)
  {
  }

  lemma BookingsOkUpdate(bs: seq<Booking>, next: nat, i: nat, b: Booking)
    requires BookingsOk(bs, next) && i < |bs|
    requires b.id < next && b.quantity >= 1
    ensures BookingsOk(bs[i := b], next)
  {
  }

  /** Rewriting a payment in place, for the same booking, keeps the index. */
  lemma PaymentsOkUpdate(ps: seq<Payment>, next: nat, i: nat, p: Payment)
    requires PaymentsOk(ps, next) && i < |ps|
    requires p.id < next && p.booking == ps[i].booking
    ensures PaymentsOk(ps[i := p], next)
  {
  }

  /** Rewriting a user in place, with the same id, email and phone, keeps
      the indexes. */
  lemma UsersOkUpdate(us: seq<User>, next: nat, i: nat, u: User)
    requires UsersOk(us, next) && i < |us|
    requires u.id == us[i].id && u.email == us[i].email && u.phone == us[i].phone
    ensures UsersOk(us[i := u], next)
  {
  }

  lemma SchedulesOkUpdate(ss: seq<Schedule>, next: nat, i: nat, sc: Schedule)
    requires SchedulesOk(ss, next) && i < |ss|
    requires sc.id < next
    ensures SchedulesOk(ss[i := sc], next)
  {
  }

  // ---- findById / findOne over the tables ----

  function FindEvent(es: seq<Event>, id: Id): (r: Option<nat>)
    ensures r.Some? ==> r.value < |es| && es[r.value].id == id
    ensures r.None? <==> forall i :: 0 <= i < |es| ==> es[i].id != id
  {
    FirstIndex(es, (e: Event) => e.id == id)
  }

  function FindBooking(bs: seq<Booking>, id: Id): (r: Option<nat>)
    ensures r.Some? ==> r.value < |bs| && bs[r.value].id == id
    ensures r.None? <==> forall i :: 0 <= i < |bs| ==> bs[i].id != id
  {
    FirstIndex(bs, (b: Booking) => b.id == id)
  }

  function FindUser(us: seq<User>, id: Id): (r: Option<nat>)
    ensures r.Some? ==> r.value < |us| && us[r.value].id == id
    ensures r.None? <==> forall i :: 0 <= i < |us| ==> us[i].id != id
  {
    FirstIndex(us, (u: User) => u.id == id)
  }

  function FindSchedule(ss: seq<Schedule>, id: Id): (r: Option<nat>)
    ensures r.Some? ==> r.value < |ss| && ss[r.value].id == id
    ensures r.None? <==> forall i :: 0 <= i < |ss| ==> ss[i].id != id
  {
    FirstIndex(ss, (s: Schedule) => s.id == id)
  }

  /** `User.findOne({ email })`: the path's `lowercase` option is applied to
      the query value too, so the lookup ignores ASCII case. */
  function FindUserByEmail(us: seq<User>, email: string): (r: Option<nat>)
    ensures r.Some? ==> r.value < |us| && us[r.value].email == Text.Lower(email)
    ensures r.None? <==> forall i :: 0 <= i < |us| ==> us[i].email != Text.Lower(email)
  {
    FirstIndex(us, (u: User) => u.email == Text.Lower(email))
  }

  /** `Payment.findOne({ booking })`. */
  function PaymentOfBooking(ps: seq<Payment>, booking: Id): (r: Option<nat>)
    ensures r.Some? ==> r.value < |ps| && ps[r.value].booking == booking
    ensures r.None? <==> forall i :: 0 <= i < |ps| ==> ps[i].booking != booking
  {
    FirstIndex(ps, (p: Payment) => p.booking == booking)
  }

  /** `Payment.findOne({ stripePaymentIntentId })`: the first payment, in
      natural order, that holds the intent id. */
  function PaymentOfIntent(ps: seq<Payment>, intentId: string): (r: Option<nat>)
    ensures r.Some? ==> r.value < |ps| && ps[r.value].intentId == intentId
    ensures r.Some? ==> forall j :: 0 <= j < r.value ==> ps[j].intentId != intentId
    ensures r.None? <==> forall i :: 0 <= i < |ps| ==> ps[i].intentId != intentId
  {
    FirstIndex(ps, (p: Payment) => p.intentId == intentId)
  }

  /** With the unique index in force, the payment found for a booking is its
      only one. */
  lemma PaymentOfBookingIsOnly(ps: seq<Payment>, booking: Id, j: nat)
    requires OnePerBooking(ps)
    requires j < |ps| && ps[j].booking == booking
    ensures PaymentOfBooking(ps, booking) == Some(j)
  {
  }
}
