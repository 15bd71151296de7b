/** The booking document: two independent status axes, the defaults of
    `Booking.create` and its `quantity >= 1` validator. */
module BookingSchema {
  import opened Base

  datatype BookingStatus = Pending | Confirmed | Cancelled

  datatype PaymentStatus = Pending | Paid | Failed | Refunded

  function PaymentStatusName(s: PaymentStatus): string {
    match s
    case Pending => "pending"
    case Paid => "paid"
    case Failed => "failed"
    case Refunded => "refunded"
  }

  /** `pricePerTicket` and `totalAmount` are snapshots taken at creation. */
  datatype Booking = Booking(
    id: Id, user: Id, event: Id, ticketType: string, quantity: int,
    pricePerTicket: int, totalAmount: int,
    bookingStatus: BookingStatus, paymentStatus: PaymentStatus)

  const DefaultTicketType := "General"

  /** `Booking.create`: both statuses start pending, an absent ticket type is
      "General", and the `min: 1` validator rejects (None) a quantity below 1. */
  function NewBooking(id: Id, user: Id, event: Id, ticketType: Option<string>, quantity: int,
                      pricePerTicket: int, totalAmount: int): (r: Option<Booking>)
    ensures r.Some? <==> quantity >= 1
    ensures r.Some? ==>
      var b := r.value;
      && b.id == id && b.user == user && b.event == event
      && b.ticketType == ticketType.GetOr(DefaultTicketType)
      && b.quantity == quantity && b.pricePerTicket == pricePerTicket && b.totalAmount == totalAmount
      && b.bookingStatus == BookingStatus.Pending && b.paymentStatus == PaymentStatus.Pending
  {
    if quantity < 1 then None
    else Some(Booking(id, user, event, ticketType.GetOr(DefaultTicketType), quantity,
                      pricePerTicket, totalAmount, BookingStatus.Pending, PaymentStatus.Pending))
  }
}
