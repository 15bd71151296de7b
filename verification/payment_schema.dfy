/** The payment document: its lifecycle enumeration, the method enumeration,
    the defaults of `Payment.create` and the unique index on `booking`. */
module PaymentSchema {
  import opened Base

  datatype PaymentState = Created | Succeeded | Failed | Refunded

  datatype PaymentMethod = Card | Upi | Netbanking | Wallet

  function MethodName(m: PaymentMethod): string {
    match m
    case Card => "card"
    case Upi => "upi"
    case Netbanking => "netbanking"
    case Wallet => "wallet"
  }

  /** The `paymentMethod` enum validator. */
  function ParseMethod(s: string): (r: Option<PaymentMethod>)
    ensures r.Some? ==> MethodName(r.value) == s
    ensures r.None? ==> forall m: PaymentMethod :: MethodName(m) != s
  {
    if s == "card" then Some(Card)
    else if s == "upi" then Some(Upi)
    else if s == "netbanking" then Some(Netbanking)
    else if s == "wallet" then Some(Wallet)
    else None
  }

  /** `amount` is in rupees; `intentId` is the gateway's payment-intent id. */
  datatype Payment = Payment(
    id: Id, user: Id, booking: Id, event: Id, amount: int, currency: string,
    paymentMethod: PaymentMethod, gateway: string, intentId: string, clientSecret: string,
    status: PaymentState, receiptUrl: Option<string>, paidAt: Option<int>, refundedAt: Option<int>)

  /** `Payment.create`: status starts `created`, currency "inr", method card,
      gateway "stripe"; the required `event` and `stripePaymentIntentId`
      paths reject (None) an absent event or an empty intent id. */
  function NewPayment(id: Id, user: Id, booking: Id, event: Option<Id>, amount: int,
                      intentId: string, clientSecret: string): (r: Option<Payment>)
    ensures r.Some? <==> event.Some? && intentId != ""
    ensures r.Some? ==>
      var p := r.value;
      && p.id == id && p.user == user && p.booking == booking && p.event == event.value
      && p.amount == amount && p.intentId == intentId
      && p.status == Created && p.currency == "inr" && p.paymentMethod == Card
      && p.gateway == "stripe" && p.receiptUrl.None? && p.paidAt.None? && p.refundedAt.None?
  {
    if event.None? || intentId == "" then None
    else Some(Payment(id, user, booking, event.value, amount, "inr", Card, "stripe",
                      intentId, clientSecret, Created, None, None, None))
  }

  /** The unique index `{ booking: 1 }`: no two payments share a booking. */
  predicate OnePerBooking(ps: seq<Payment>) {
    forall i, j :: 0 <= i < j < |ps| ==> ps[i].booking != ps[j].booking
  }
}
