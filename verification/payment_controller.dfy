/** The payment handlers: creating a payment intent for a booking, confirming
    it from the gateway's answer (with the sold-out rule), and the per-event
    payment totals. Gateway calls are oracle parameters. */
module PaymentController {
  import opened Base
  import opened EventSchema
  import opened BookingSchema
  import opened PaymentSchema
  import opened UserSchema
  import opened Database

  /** The gateway's answer to `paymentIntents.create`. */
  datatype CreatedIntent = CreatedIntent(id: string, clientSecret: string)

  /** The gateway's answer to `paymentIntents.retrieve`. */
  datatype RetrievedIntent = RetrievedIntent(status: string, methodTypes: seq<string>, latestCharge: Option<string>)

  /** The amount handed to the gateway, in paise, for a total in rupees. */
  function GatewayAmount(totalAmount: int): (r: int)
    ensures r == totalAmount * 100
    ensures r % 100 == 0 && r / 100 == totalAmount
  {
    totalAmount * 100
  }

  /** POST /create-intent: a payment intent for an unconfirmed booking, and
      a `created` Payment that stores the booking's total and the intent id.
      `intent` is the gateway's answer (None when the call throws); `charged`
      is the amount sent to the gateway, None when it was not called. */
  method CreatePaymentIntent(db: Db, caller: User, bookingId: Id, eventId: Option<Id>, intent: Option<CreatedIntent>)
    returns (reply: Reply, charged: Option<int>)
    requires db.Valid()
    modifies db`payments, db`nextId
    ensures db.Valid()
    ensures reply.status != 200 ==> unchanged(db)
    ensures FindBooking(old(db.bookings), bookingId).None? ==>
      reply == Reply(404, "Booking not found") && charged.None?
    ensures FindBooking(old(db.bookings), bookingId).Some? ==>
      var b := old(db.bookings)[FindBooking(old(db.bookings), bookingId).value];
      if b.bookingStatus == BookingStatus.Confirmed then
        reply == Reply(400, "Booking already confirmed") && charged.None?
      else
        charged == Some(GatewayAmount(b.totalAmount)) &&
        if intent.None? then reply.status == 500
        else
          var np := NewPayment(old(db.nextId), caller.id, bookingId, eventId, b.totalAmount,
                               intent.value.id, intent.value.clientSecret);
          if np.None? then reply.status == 500
          else if PaymentOfBooking(old(db.payments), bookingId).Some? then reply.status == 500
          else reply.status == 200 && db.payments == old(db.payments) + [np.value]
               && db.nextId == old(db.nextId) + 1
  {
    charged := None;
    var bi := FindBooking(db.bookings, bookingId);
    if bi.None? {
      return Reply(404, "Booking not found"), charged;
    }
    var booking := db.bookings[bi.value];
    if booking.bookingStatus == BookingStatus.Confirmed {
      return Reply(400, "Booking already confirmed"), charged;
    }
    var amount := GatewayAmount(booking.totalAmount);
    charged := Some(amount);
    if intent.None? {
      return Reply(500, "gateway error"), charged;
    }
    var payment := NewPayment(db.nextId, caller.id, bookingId, eventId, booking.totalAmount,
                              intent.value.id, intent.value.clientSecret);
    if payment.None? {
      return Reply(500, "ValidationError"), charged;
    }
    if PaymentOfBooking(db.payments, bookingId).Some? {
      // the unique index on `booking` refuses a second payment
      return Reply(500, "E11000 duplicate key error"), charged;
    }
    db.payments := db.payments + [payment.value];
    db.nextId := db.nextId + 1;
    reply := Reply(200, "client secret issued");
  }

  /** A payment after confirmation: succeeded, stamped with the time, the
      method and (when a charge was read) the receipt; nothing else changes. */
  function SucceededPayment(p: Payment, m: PaymentMethod, paidAt: int, receiptUrl: Option<string>): (r: Payment)
    ensures r.status == Succeeded && r.paidAt == Some(paidAt) && r.paymentMethod == m
    ensures r.receiptUrl == receiptUrl
    ensures r.(status := p.status, paidAt := p.paidAt, paymentMethod := p.paymentMethod,
               receiptUrl := p.receiptUrl) == p
  {
    p.(status := Succeeded, paidAt := Some(paidAt), paymentMethod := m, receiptUrl := receiptUrl)
  }

  /** A booking after confirmation: confirmed and paid, whatever it was. */
  function ConfirmedBooking(b: Booking): (r: Booking)
    ensures r.bookingStatus == BookingStatus.Confirmed && r.paymentStatus == PaymentStatus.Paid
    ensures r.(bookingStatus := b.bookingStatus, paymentStatus := b.paymentStatus) == b
  {
    b.(bookingStatus := BookingStatus.Confirmed, paymentStatus := PaymentStatus.Paid)
  }

  /** Replaying a confirmation writes the same status fields again. */
  lemma ConfirmationReplay(b: Booking, p: Payment, m: PaymentMethod, t: int, t': int, u: Option<string>)
    ensures ConfirmedBooking(ConfirmedBooking(b)) == ConfirmedBooking(b)
    ensures SucceededPayment(SucceededPayment(p, m, t, u), m, t', u).status == Succeeded
  {
  }

  /** No prior status is checked: a cancelled, refunded booking whose intent
      is confirmed again is confirmed and paid once more. */
  lemma ConfirmationOverridesCancellation(b: Booking)
    requires b.bookingStatus == BookingStatus.Cancelled && b.paymentStatus == PaymentStatus.Refunded
    ensures ConfirmedBooking(b).bookingStatus == BookingStatus.Confirmed
    ensures ConfirmedBooking(b).paymentStatus == PaymentStatus.Paid
  {
  }

  const TierSeats: TicketTier -> int := (t: TicketTier) => t.quantity

  /** `event.tickets.reduce((sum, t) => sum + t.quantity, 0)`. */
  function TotalSeats(tiers: seq<TicketTier>): int {
    Sum(tiers, TierSeats)
  }

  /** The weight of a booking in the sold-out count: its quantity when it
      belongs to the event and is confirmed, whatever its payment status. */
  function ConfirmedWeight(eventId: Id): Booking -> int {
    (b: Booking) => if b.event == eventId && b.bookingStatus == BookingStatus.Confirmed then b.quantity else 0
  }

  /** The `$match { event, bookingStatus: "confirmed" }` + `$sum: "$quantity"` stage. */
  function ConfirmedSeats(bs: seq<Booking>, eventId: Id): int {
    Sum(bs, ConfirmedWeight(eventId))
  }

  /** Confirming booking `i` adds its quantity to its event's confirmed
      seats, unless it was already counted. */
  lemma ConfirmedSeatsAfterConfirm(bs: seq<Booking>, i: nat, eventId: Id)
    requires i < |bs|
    ensures ConfirmedSeats(bs[i := ConfirmedBooking(bs[i])], eventId) ==
      ConfirmedSeats(bs, eventId)
      + (if bs[i].event == eventId && bs[i].bookingStatus != BookingStatus.Confirmed then bs[i].quantity else 0)
  {
    SumUpdate(bs, i, ConfirmedBooking(bs[i]), ConfirmedWeight(eventId));
  }

  /** The sold-out rule: the event becomes `sold-out` when the confirmed
      seats reach the total of its tiers, and is otherwise left as it is. */
  function ApplySoldOut(e: Event, bs: seq<Booking>): (r: Event)
    ensures ConfirmedSeats(bs, e.id) >= TotalSeats(e.tickets) ==> r == e.(status := SoldOut)
    ensures ConfirmedSeats(bs, e.id) < TotalSeats(e.tickets) ==> r == e
  {
    if ConfirmedSeats(bs, e.id) >= TotalSeats(e.tickets) then e.(status := SoldOut) else e
  }

  /** The rule never takes an event out of `sold-out`. */
  lemma SoldOutIsSticky(e: Event, bs: seq<Booking>)
    requires e.status == SoldOut
    ensures ApplySoldOut(e, bs).status == SoldOut
  {
  }

  /** An event with no tiers is sold out by any confirmation: no seats at all. */
  lemma NoTiersSoldOut(e: Event, bs: seq<Booking>)
    requires e.tickets == []
    requires forall k :: 0 <= k < |bs| ==> bs[k].quantity >= 1
    ensures ApplySoldOut(e, bs).status == SoldOut
  {
    SumNonNegative(bs, ConfirmedWeight(e.id));
  }

  /** `payment_method_types?.[0] || "card"`. */
  function MethodNameOf(types: seq<string>): (r: string)
    ensures r != ""
    ensures |types| > 0 && types[0] != "" ==> r == types[0]
    ensures !(|types| > 0 && types[0] != "") ==> r == "card"
  {
    if |types| > 0 && types[0] != "" then types[0] else "card"
  }

  /** The writes that follow a succeeded payment: the booking is confirmed
      and paid, then the sold-out rule runs on its event, then the
      notification goes out (`mailOk`). */
  method RecordConfirmation(db: Db, bookingId: Id, mailOk: bool) returns (reply: Reply)
    requires db.Valid()
    modifies db`bookings, db`events
    ensures db.Valid()
    ensures db.payments == old(db.payments)
    ensures FindBooking(old(db.bookings), bookingId).None? ==>
      reply.status == 500 && unchanged(db)
    ensures FindBooking(old(db.bookings), bookingId).Some? ==>
      var bi := FindBooking(old(db.bookings), bookingId).value;
      var b := old(db.bookings)[bi];
      var ei := FindEvent(old(db.events), b.event);
      && db.bookings == old(db.bookings)[bi := ConfirmedBooking(b)]
      && (ei.None? ==> reply == Reply(404, "Event not found") && db.events == old(db.events))
      && (ei.Some? ==>
            && db.events == old(db.events)[ei.value := ApplySoldOut(old(db.events)[ei.value], db.bookings)]
            && reply.status == (if mailOk then 200 else 500))
  {
    var bi := FindBooking(db.bookings, bookingId);
    if bi.None? {
      // `findByIdAndUpdate` matches nothing; reading `booking.event` of null throws
      return Reply(500, "Cannot read properties of null");
    }
    var booking := ConfirmedBooking(db.bookings[bi.value]);
    BookingsOkUpdate(db.bookings, db.nextId, bi.value, booking);
    db.bookings := db.bookings[bi.value := booking];
    var ei := FindEvent(db.events, booking.event);
    if ei.None? {
      return Reply(404, "Event not found");
    }
    var event := ApplySoldOut(db.events[ei.value], db.bookings);
    EventsOkUpdate(db.events, db.nextId, ei.value, event);
    db.events := db.events[ei.value := event];
    if !mailOk {
      return Reply(500, "Payment confirmation failed");
    }
    reply := Reply(200, "Payment successful & booking confirmed and Sent email");
  }

  /** POST /confirm: re-reads the intent from the gateway (`retrieved`, None
      when the call throws), marks the payment succeeded and then records the
      confirmation. `charge` is the charge read for the latest charge: None
      when that call throws, otherwise its `receipt_url`, itself None when
      the gateway leaves it null. */
  method ConfirmPayment(db: Db, intentId: string, retrieved: Option<RetrievedIntent>,
                        charge: Option<Option<string>>, now: int, mailOk: bool) returns (reply: Reply)
    requires db.Valid()
    modifies db`payments, db`bookings, db`events
    ensures db.Valid()
    ensures intentId == "" ==> reply == Reply(400, "PaymentIntent ID missing") && unchanged(db)
    ensures intentId != "" && retrieved.None? ==> reply.status == 500 && unchanged(db)
    ensures intentId != "" && retrieved.Some? && retrieved.value.status != "succeeded" ==>
      reply == Reply(400, "Payment not successful") && unchanged(db)
    ensures intentId != "" && retrieved.Some? && retrieved.value.status == "succeeded"
            && PaymentOfIntent(old(db.payments), intentId).None? ==>
      reply == Reply(404, "Payment record not found") && unchanged(db)
    ensures intentId != "" && retrieved.Some? && retrieved.value.status == "succeeded"
            && PaymentOfIntent(old(db.payments), intentId).Some? ==>
      var pi := PaymentOfIntent(old(db.payments), intentId).value;
      var p := old(db.payments)[pi];
      var r := retrieved.value;
      var hasCharge := r.latestCharge.Some? && r.latestCharge.value != "";
      var m := ParsePaymentMethodOf(r.methodTypes);
      if hasCharge && charge.None? then reply.status == 500 && unchanged(db)
      else if m.None? then reply.status == 500 && unchanged(db)
      else
        var url := if hasCharge then charge.value else p.receiptUrl;
        && db.payments == old(db.payments)[pi := SucceededPayment(p, m.value, now, url)]
        && var bi := FindBooking(old(db.bookings), p.booking);
           (bi.None? ==> reply.status == 500 && db.bookings == old(db.bookings) && db.events == old(db.events))
           && (bi.Some? ==>
                 var b := old(db.bookings)[bi.value];
                 var ei := FindEvent(old(db.events), b.event);
                 && db.bookings == old(db.bookings)[bi.value := ConfirmedBooking(b)]
                 && (ei.None? ==> reply == Reply(404, "Event not found") && db.events == old(db.events))
                 && (ei.Some? ==>
                       && db.events == old(db.events)[ei.value := ApplySoldOut(old(db.events)[ei.value], db.bookings)]
                       && reply.status == (if mailOk then 200 else 500)))
  {
    if intentId == "" {
      return Reply(400, "PaymentIntent ID missing");
    }
    if retrieved.None? {
      return Reply(500, "No such payment_intent");
    }
    var intent := retrieved.value;
    if intent.status != "succeeded" {
      return Reply(400, "Payment not successful");
    }
    var pi := PaymentOfIntent(db.payments, intentId);
    if pi.None? {
      return Reply(404, "Payment record not found");
    }
    var payment := db.payments[pi.value];
    var receiptUrl := payment.receiptUrl;
    if intent.latestCharge.Some? && intent.latestCharge.value != "" {
      if charge.None? {
        return Reply(500, "No such charge");
      }
      receiptUrl := charge.value;
    }
    var m := ParsePaymentMethodOf(intent.methodTypes);
    if m.None? {
      // `payment.save()` fails the enum validator before anything is written
      return Reply(500, "ValidationError: paymentMethod");
    }
    var paid := SucceededPayment(payment, m.value, now, receiptUrl);
    PaymentsOkUpdate(db.payments, db.nextId, pi.value, paid);
    db.payments := db.payments[pi.value := paid];
    reply := RecordConfirmation(db, payment.booking, mailOk);
  }

  /** The method recorded on the payment: the gateway's first method type,
      or "card", checked against the enum. */
  function ParsePaymentMethodOf(types: seq<string>): (r: Option<PaymentMethod>)
    ensures r.Some? ==> MethodName(r.value) == MethodNameOf(types)
    ensures r.None? <==> forall m: PaymentMethod :: MethodName(m) != MethodNameOf(types)
    ensures types == [] ==> r == Some(Card)
  {
    ParseMethod(MethodNameOf(types))
  }

  const IsSucceeded: Payment -> bool := (p: Payment) => p.status == Succeeded

  const PaymentAmount: Payment -> int := (p: Payment) => p.amount

  /** `payments.filter(p => p.status === "succeeded").reduce((s, p) => s + p.amount, 0)`. */
  function Revenue(ps: seq<Payment>): int {
    Sum(Filter(ps, IsSucceeded), PaymentAmount)
  }

  function SucceededAmount(p: Payment): int {
    if p.status == Succeeded then p.amount else 0
  }

  /** Revenue counts each succeeded payment's amount once and nothing else. */
  lemma {:induction false} RevenueIsSucceededTotal(ps: seq<Payment>)
    ensures Revenue(ps) == Sum(ps, SucceededAmount)
  {
    if |ps| > 0 {
      var init, last := ps[..|ps| - 1], ps[|ps| - 1];
      RevenueIsSucceededTotal(init);
      if IsSucceeded(last) {
        SumAppend(Filter(init, IsSucceeded), last, PaymentAmount);
      }
    }
  }

  /** A payment that has not succeeded adds nothing to the revenue. */
  lemma RevenueIgnoresUnsucceeded(ps: seq<Payment>, p: Payment)
    requires p.status != Succeeded
    ensures Revenue(ps + [p]) == Revenue(ps)
  {
    assert (ps + [p])[..|ps|] == ps;
  }

  /** The payments of one event: `Payment.find({ event })`. */
  function PaymentsOfEvent(ps: seq<Payment>, eventId: Id): (r: seq<Payment>)
    ensures forall k :: 0 <= k < |r| ==> r[k].event == eventId && r[k] in ps
    ensures forall k :: 0 <= k < |ps| && ps[k].event == eventId ==> ps[k] in r
  {
    Filter(ps, (p: Payment) => p.event == eventId)
  }

  /** GET /event-payment/:eventId. Reads only. An organizer may see only
      their own events; every other role sees any event. */
  method GetEventPayments(db: Db, caller: User, eventId: Id) returns (reply: Reply, totalPayments: nat, totalRevenue: int)
    ensures FindEvent(db.events, eventId).None? ==> reply == Reply(404, "Event not found")
    ensures FindEvent(db.events, eventId).Some? ==>
      var e := db.events[FindEvent(db.events, eventId).value];
      if caller.role == Organizer && e.organizer != caller.id then
        reply == Reply(403, "Not authorized to view payments for this event")
      else
        reply.status == 200
        && totalPayments == |PaymentsOfEvent(db.payments, eventId)|
        && totalRevenue == Sum(PaymentsOfEvent(db.payments, eventId), SucceededAmount)
  {
    totalPayments, totalRevenue := 0, 0;
    var ei := FindEvent(db.events, eventId);
    if ei.None? {
      return Reply(404, "Event not found"), totalPayments, totalRevenue;
    }
    var event := db.events[ei.value];
    if caller.role == Organizer && event.organizer != caller.id {
      return Reply(403, "Not authorized to view payments for this event"), totalPayments, totalRevenue;
    }
    var ps := PaymentsOfEvent(db.payments, eventId);
    totalPayments := |ps|;
    totalRevenue := Revenue(ps);
    RevenueIsSucceededTotal(ps);
    reply := Reply(200, "payments");
  }
}
