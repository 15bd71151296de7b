/** The booking handlers: the availability pre-check, booking creation with
    its price snapshot, and cancellation with refund. The payment gateway is
    an oracle: the caller of a handler passes in what the gateway answered. */
module BookingController {
  import opened Base
  import opened EventSchema
  import opened BookingSchema
  import opened PaymentSchema
  import opened UserSchema
  import opened Database

  /** `event.tickets.find(ticket => ticket._id.toString() === ticketId)`. */
  function FindTier(tiers: seq<TicketTier>, ticketId: Id): (r: Option<nat>)
    ensures r.Some? ==> r.value < |tiers| && tiers[r.value].id == ticketId
    ensures r.Some? ==> forall j :: 0 <= j < r.value ==> tiers[j].id != ticketId
    ensures r.None? <==> forall j :: 0 <= j < |tiers| ==> tiers[j].id != ticketId
  {
    FirstIndex(tiers, (t: TicketTier) => t.id == ticketId)
  }

  /** A booking after a successful refund: cancelled and refunded, with its
      quantity, price snapshot and total untouched. */
  function CancelledBooking(b: Booking): (r: Booking)
    ensures r.bookingStatus == BookingStatus.Cancelled && r.paymentStatus == PaymentStatus.Refunded
    ensures r.(bookingStatus := b.bookingStatus, paymentStatus := b.paymentStatus) == b
  {
    b.(bookingStatus := BookingStatus.Cancelled, paymentStatus := PaymentStatus.Refunded)
  }

  /** A payment after a successful refund; `refundedAt` is not written. */
  function RefundedPayment(p: Payment): (r: Payment)
    ensures r.status == PaymentState.Refunded
    ensures r.(status := p.status) == p
  {
    p.(status := PaymentState.Refunded)
  }

  /** POST /check-availability. Reads only. The guard
      `event.availableTickets < quantity` reads a path the schema does not
      declare, so it compares `undefined` (NaN) and never holds: every
      known event answers 200, and `remainingTickets` is undefined and left
      out of the reply. */
  method CheckAvailability(db: Db, eventId: Id, quantity: int) returns (reply: Reply)
    ensures FindEvent(db.events, eventId).None? <==> reply == Reply(404, "Event not found")
    ensures FindEvent(db.events, eventId).Some? <==> reply == Reply(200, "available")
  {
    var ei := FindEvent(db.events, eventId);
    if ei.None? {
      return Reply(404, "Event not found");
    }
    reply := Reply(200, "available");
  }

  /** POST /create: an email-verified caller books `quantity` tickets of the
      tier `ticketId`; the tier's type and price are copied into the booking. */
  method CreateBooking(db: Db, caller: User, eventId: Id, quantity: int, ticketId: Id) returns (reply: Reply)
    requires db.Valid()
    modifies db`bookings, db`nextId
    ensures db.Valid()
    ensures !caller.emailVerified ==>
      reply == Reply(403, "Please verify your email") && unchanged(db)
    ensures caller.emailVerified && FindEvent(old(db.events), eventId).None? ==>
      reply == Reply(404, "Event not found") && unchanged(db)
    ensures reply.status != 201 ==> unchanged(db)
    ensures caller.emailVerified && FindEvent(old(db.events), eventId).Some? ==>
      var e := old(db.events)[FindEvent(old(db.events), eventId).value];
      var t := FindTier(e.tickets, ticketId);
      if t.None? then reply.status == 500
      else
        var tier := e.tickets[t.value];
        var nb := NewBooking(old(db.nextId), caller.id, eventId, Some(tier.ticketType),
                             quantity, tier.price, tier.price * quantity);
        if nb.None? then reply.status == 500
        else reply.status == 201 && db.bookings == old(db.bookings) + [nb.value]
             && db.nextId == old(db.nextId) + 1
  {
    if !caller.emailVerified {
      return Reply(403, "Please verify your email");
    }
    var ei := FindEvent(db.events, eventId);
    if ei.None? {
      return Reply(404, "Event not found");
    }
    var event := db.events[ei.value];
    // the "Tickets sold out" guard compares the undeclared `availableTickets`
    // (undefined) with the quantity and never holds
    var ti := FindTier(event.tickets, ticketId);
    if ti.None? {
      // reading `.price` of `undefined` throws a TypeError
      return Reply(500, "Cannot read properties of undefined");
    }
    var price := event.tickets[ti.value].price;
    var ticketType := event.tickets[ti.value].ticketType;
    var totalAmount := price * quantity;
    var booking := NewBooking(db.nextId, caller.id, eventId, Some(ticketType), quantity, price, totalAmount);
    if booking.None? {
      return Reply(500, "ValidationError: quantity");
    }
    db.bookings := db.bookings + [booking.value];
    db.nextId := db.nextId + 1;
    reply := Reply(201, "Booking created successfully With Payment Status pending");
  }

  /** PUT /cancel/:bookingId: a chain of guards, the gateway refund
      (`refundOk` is whether it succeeded), then the payment and booking
      writes, then the notification (`mailOk`). The `$inc` of the event's
      `availableTickets` in between names a path the schema does not
      declare; strict mode strips it, so the event is never changed. */
  method CancelBookingAndRefund(db: Db, caller: User, bookingId: Id, refundOk: bool, mailOk: bool)
    returns (reply: Reply)
    requires db.Valid()
    modifies db`bookings, db`payments
    ensures db.Valid()
    ensures FindBooking(old(db.bookings), bookingId).None? ==>
      reply == Reply(404, "Booking not found") && unchanged(db)
    ensures FindBooking(old(db.bookings), bookingId).Some? ==>
      var bi := FindBooking(old(db.bookings), bookingId).value;
      var b := old(db.bookings)[bi];
      var pi := PaymentOfBooking(old(db.payments), b.id);
      if b.user != caller.id then reply == Reply(403, "Unauthorized") && unchanged(db)
      else if b.bookingStatus == BookingStatus.Cancelled then
        reply == Reply(400, "Booking already cancelled") && unchanged(db)
      else if pi.None? then
        reply == Reply(400, "Payment record missing for this booking") && unchanged(db)
      else if b.paymentStatus == PaymentStatus.Refunded then
        reply == Reply(400, "Payment already refunded") && unchanged(db)
      else if old(db.payments)[pi.value].intentId == "" then
        reply == Reply(400, "Stripe payment reference missing") && unchanged(db)
      else if !refundOk then
        reply == Reply(500, "Something went wrong") && unchanged(db)
      else
        && db.payments == old(db.payments)[pi.value := RefundedPayment(old(db.payments)[pi.value])]
        && db.bookings == old(db.bookings)[bi := CancelledBooking(b)]
        && db.events == old(db.events)
        && reply == (if mailOk then Reply(200, "Booking cancelled and refund processed successfully and Sent Email")
                     else Reply(500, "Something went wrong"))
  {
    var bi := FindBooking(db.bookings, bookingId);
    if bi.None? {
      return Reply(404, "Booking not found");
    }
    var booking := db.bookings[bi.value];
    if booking.user != caller.id {
      return Reply(403, "Unauthorized");
    }
    if booking.bookingStatus == BookingStatus.Cancelled {
      return Reply(400, "Booking already cancelled");
    }
    var pi := PaymentOfBooking(db.payments, booking.id);
    if pi.None? {
      return Reply(400, "Payment record missing for this booking");
    }
    var payment := db.payments[pi.value];
    if booking.paymentStatus == PaymentStatus.Refunded {
      return Reply(400, "Payment already refunded");
    }
    if payment.intentId == "" {
      return Reply(400, "Stripe payment reference missing");
    }
    if !refundOk {
      // the refund call throws; nothing has been saved yet
      return Reply(500, "Something went wrong");
    }
    db.SetPayment(pi.value, RefundedPayment(payment));
    db.SetBooking(bi.value, CancelledBooking(booking));
    if !mailOk {
      // the notification throws after the writes are committed
      return Reply(500, "Something went wrong");
    }
    reply := Reply(200, "Booking cancelled and refund processed successfully and Sent Email");
  }
}
