# GoEvent backend core, modelled in Dafny

This project models the business logic of the GoEvent event-ticketing backend, an Express
service over MongoDB, Stripe and a mail relay. It covers:

- the booking, payment and refund lifecycle;
- the live ticket-availability query;
- event status rules: the status whitelist, soft delete, the field-merge update and the daily
  status sweep;
- the email OTP store and the registration and session guards;
- the schedule helpers;
- the dashboard's chart and pagination formatting.

Every collection is a `seq` field of one `Database.Db` object, and `nextId` stands in for fresh
ObjectIds. A lookup such as `findOne` returns the first match in insertion order.

Each request handler is a method on that object. It returns `Reply(status, message)`, the HTTP
status and message it sends, and it changes only the tables its `modifies` clause names. Each
handler's `ensures` clause gives its guard chain in the source's order. For every outcome it
states the reply and the whole new state, and every failed guard leaves the database
`unchanged`. `Db.Valid()` collects the schema constraints, and every handler preserves it:

- ids are below `nextId`;
- booking quantities are at least 1;
- there is one payment per booking;
- user emails are unique and lower-case;
- user phones are unique where present.

Outside services are parameters of the handler that uses them:

| outside service | parameter |
|---|---|
| Stripe | what the gateway answered (`intent`, `retrieved`, `charge`, `refundOk`) |
| mail delivery | `mailOk` |
| bcrypt | the hash (`hashed`) and the `compare` function |
| JWT | the `token` |
| OTP generator | the `otp` |
| clock | `now` and the `stamp` values |

Modules follow the source files:

| module | models |
|---|---|
| `BookingController`, `PaymentController`, `EventController`, `UserController`, `ScheduleController`, `DashboardController` | the controllers |
| `EventSchema`, `BookingSchema`, `PaymentSchema`, `UserSchema`, `ScheduleSchema`, `EmailOtpSchema` | the Mongoose models and their validators |
| `EventStatusCron` | the daily job |
| `Database` | the tables and the lookups |
| `Base`, `Text` | shared sequence helpers and the string functions: Mongoose `trim` and `lowercase`, `$trim`/`$toUpper`, `Number` |

Quirks of the code that the model keeps:

- **Capacity guard.** The availability guards (`availableTickets < quantity`) read a path the
  event schema never declares. Under the schema's strict mode that path is never stored and reads
  as `undefined`, and JavaScript evaluates `undefined < q` as false. So the guards never reject
  (`CheckAvailability`, `CreateBooking`). The `$inc` issued by a cancellation is stripped by strict
  mode and changes no event (`CancelBookingAndRefund`). The model's `Event` therefore has no
  `availableTickets`. Nothing in the code bounds the seats sold per tier.
- **Confirmation writes.** Confirmation writes `succeeded` and `confirmed`/`paid` without looking
  at the prior state:
  - a replay succeeds again instead of reporting "already confirmed";
  - a replay after a refund turns a cancelled, refunded booking back into a confirmed, paid one
    (`ConfirmationOverridesCancellation`).
- **Sold-out rule.** The sold-out count sums the quantity of confirmed bookings whatever their
  payment status. An event with no tiers is sold out after any confirmation (`NoTiersSoldOut`).
  The status is never reverted (`SoldOutIsSticky`).
- **Missing ownership checks.** `updateEventStatus`, `updateSchedule` and `getEventAttendees` do
  not check who the caller is.
- **Registration.** Registration trusts the `emailVerified` and `role` sent in the body. It does
  not consult the OTP store.
- **Daily sweep.** The sweep's "not started yet, so untouched" holds only for events whose start
  is not after their end. An event with its dates reversed is marked completed
  (`FutureEventUntouched`).

## Model

| member | source | states |
|---|---|---|
| BookingController.FindTier | Controllers/bookingController.js:49-54 | finds the first tier whose id equals `ticketId`; None exactly when no tier has that id |
| BookingController.CancelledBooking | Controllers/bookingController.js:178-181 | a refunded booking is cancelled/refunded and every other field is unchanged |
| BookingController.RefundedPayment | Controllers/bookingController.js:174-176 | a refunded payment has status refunded and every other field, including the unwritten refundedAt, is unchanged |
| BookingController.CheckAvailability | Controllers/bookingController.js:8-28 | 404 exactly for an unknown event and 200 exactly for a known one: the guard on the undeclared count never rejects |
| BookingController.CreateBooking | Controllers/bookingController.js:31-76 | 403 for an unverified caller, then 404, then (the sold-out guard never rejecting) 500 for an unknown tier, 500 for a quantity below 1; on 201 exactly one pending/pending booking with the tier's price and type and total = price × quantity is appended; every other outcome changes nothing |
| BookingController.CancelBookingAndRefund | Controllers/bookingController.js:114-212 | guards in order 404, 403, 400 cancelled, 400 no payment, 400 refunded, 400 no intent id, each with no change; a failed refund gives 500 with no change; otherwise the payment is refunded, the booking cancelled/refunded and the event table unchanged (the `$inc` is stripped), and the reply is 200 or, when the mail fails, 500 after the writes |
| BookingSchema.NewBooking | Models/bookingSchema.js:18-49 | a booking is created exactly when quantity ≥ 1, with both statuses pending, ticket type defaulting to "General" and the given price and total |
| PaymentSchema.ParseMethod | Models/paymentSchema.js:37-41 | accepts exactly the names card, upi, netbanking, wallet |
| PaymentSchema.NewPayment | Models/paymentSchema.js:3-64 | a payment is created exactly when the event and intent id are present, with status created, currency "inr", method card, gateway "stripe" and no receipt, paid or refund time |
| Database.PaymentOfBookingIsOnly | Models/paymentSchema.js:84-85 | under the unique booking index the payment found for a booking is the only one it has |
| Database.PaymentOfBooking | Controllers/bookingController.js:145 | finds a payment of the booking; None exactly when it has none |
| Database.PaymentOfIntent | Controllers/paymentController.js:69-71 | finds the first payment holding the intent id; None exactly when none does |
| Database.FindUserByEmail | Controllers/userController.js:19 | finds the user whose stored address equals the lower-cased query; None exactly when none does |
| EventSchema.ParseCategory | Models/eventSchema.js:15-28 | accepts exactly the eight category names |
| EventSchema.ParseStatus | Models/eventSchema.js:90-101 | accepts exactly the six status names, "sold-out" included |
| EventSchema.CastTiers | Models/eventSchema.js:69-88 | one stored tier per draft, same type, price and quantity, keeping a given id and drawing a fresh one otherwise |
| EventSchema.NewEvent | Models/eventSchema.js:3-120 | an event is created exactly when the trimmed title, description and both dates are present, every tier has a type and the category is valid; it is pending, not deleted, not approved, category "Other" and isOnline false and link "" by default |
| UserSchema.ParseRole | Models/userSchema.js:39-43 | accepts exactly admin, organizer, user |
| UserSchema.NewUser | Models/userSchema.js:3-57 | a user is created exactly when the email is present and the role valid; the email is stored lower-cased, role defaults to user, emailVerified as given, no phone, not phone-verified, empty image, no token, active |
| ScheduleSchema.NewSchedule | Models/scheduleSchema.js:3-35 | a schedule is stored exactly when the event id, a non-empty title and both times are present; description, speaker and creator are optional |
| Text.TrimIsTrimmed | Models/eventSchema.js:7 | a trimmed string has no leading or trailing white space |
| Text.TrimOfTrimmed | Models/eventSchema.js:7 | trimming a trimmed string changes nothing |
| Text.Upper | Controllers/eventController.js:346 | upper-casing keeps the length and maps each character |
| Text.Lower | Models/userSchema.js:12 | lower-casing keeps the length and maps each character |
| Text.NormalizeIdempotent | Controllers/eventController.js:346 | trim-then-upper-case applied twice equals applied once |
| Text.LowerIdempotent | Models/userSchema.js:12 | lower-casing twice equals lower-casing once |
| Text.ParseNumber | Controllers/scheduleController.js:10 | `Number` of a field: blank is 0, a trimmed run of digits is its decimal value, anything else is NaN (None) |
| Text.ParseTwoDigits | Controllers/scheduleController.js:10 | `Number` reads a zero-padded two-digit field back as its value |
| PaymentController.GatewayAmount | Controllers/paymentController.js:24 | the gateway is charged 100 × the booking total, a whole number of paise that divides back to the total |
| PaymentController.CreatePaymentIntent | Controllers/paymentController.js:10-53 | 404 for an unknown booking and 400 for a confirmed one, charging nothing; otherwise 100 × total is charged; a failed gateway call, a missing event id or a second payment for the booking gives 500 with no change; on 200 one created payment storing the booking total and intent id is appended |
| PaymentController.SucceededPayment | Controllers/paymentController.js:77-85 | a confirmed payment is succeeded with the paid time, method and receipt written, and every other field is unchanged |
| PaymentController.ConfirmedBooking | Controllers/paymentController.js:89-92 | a confirmed booking is confirmed/paid and every other field is unchanged |
| PaymentController.ConfirmationReplay | Controllers/paymentController.js:77-92 | a second confirmation leaves the booking as the first left it, and the payment succeeded |
| PaymentController.ConfirmationOverridesCancellation | Controllers/paymentController.js:89-92 | confirming a cancelled, refunded booking makes it confirmed and paid again |
| PaymentController.ConfirmedSeatsAfterConfirm | Controllers/paymentController.js:106-112 | confirming a booking raises its event's confirmed seat count by its quantity, unless it was already confirmed |
| PaymentController.ApplySoldOut | Controllers/paymentController.js:102-117 | the event becomes sold-out exactly when confirmed seats ≥ the sum of tier quantities, and is otherwise unchanged |
| PaymentController.SoldOutIsSticky | Controllers/paymentController.js:115-123 | the rule never takes an event out of sold-out |
| PaymentController.NoTiersSoldOut | Controllers/paymentController.js:102-117 | an event without tiers is sold out as soon as the rule runs, since 0 seats are always met |
| PaymentController.MethodNameOf | Controllers/paymentController.js:79 | the stored method is the first reported method type when there is one, and "card" otherwise; never empty |
| PaymentController.ParsePaymentMethodOf | Controllers/paymentController.js:79 | the reported method (or card) passes the enum validator exactly when it is one of the four enum names, and then as that name; no reported types gives card |
| PaymentController.RecordConfirmation | Controllers/paymentController.js:89-137 | the booking becomes confirmed/paid; a missing event gives 404 with events unchanged; otherwise the sold-out rule is applied to the updated bookings and the reply is 200, or 500 when the mail fails |
| PaymentController.ConfirmPayment | Controllers/paymentController.js:55-144 | 400 for a missing intent id, 500 when the gateway read fails, 400 when not succeeded, 404 with no payment, 500 on a failed charge read or an invalid method, each with no change; otherwise the payment is written as succeeded with the read receipt (possibly null), then the booking is confirmed (500 when it is gone); a missing event gives 404 with the events unchanged; otherwise exactly that event is replaced by the sold-out rule over the updated bookings, and the reply is 200, or 500 when the mail fails |
| PaymentController.RevenueIsSucceededTotal | Controllers/paymentController.js:182-184 | the filter-then-reduce revenue equals the sum over all payments of the amount of each succeeded one |
| PaymentController.RevenueIgnoresUnsucceeded | Controllers/paymentController.js:182-184 | adding a payment that has not succeeded leaves revenue unchanged |
| PaymentController.PaymentsOfEvent | Controllers/paymentController.js:173 | exactly the event's payments |
| PaymentController.GetEventPayments | Controllers/paymentController.js:146-203 | 404 for an unknown event, 403 only for an organizer who does not own it, otherwise 200 with the count of the event's payments and the sum of its succeeded amounts |
| EventController.CreateEvent | Controllers/eventController.js:5-43 | a validation failure gives 500 with no change; otherwise the new pending event is appended and ids are drawn for it and its tiers |
| EventController.ListedEvents | Controllers/eventController.js:46-66 | exactly the events not deleted |
| EventController.PublishedEvents | Controllers/eventController.js:69-90 | exactly the published events not deleted |
| EventController.MyEvents | Controllers/eventController.js:121-139 | exactly the caller's events not deleted |
| EventController.MyEventsOrder | Controllers/eventController.js:123-126 | newest first: the k-th row is the k-th of the caller's live events counted back from the latest in creation order |
| EventController.MyEventsNewestFirst | Controllers/eventController.js:123-126 | an event created after the others heads the caller's listing when it is theirs and live, ahead of all earlier rows |
| EventController.GetEventById | Controllers/eventController.js:93-118 | finds the event with the id only when it is not deleted |
| EventController.DeletedLeavesListing | Controllers/eventController.js:205-212 | after a soft delete the listing is the listing of the other events, in order |
| EventController.MergeEvent | Controllers/eventController.js:155-184 | each scalar keeps its old value when the body's is null or absent; isOnline is kept only when absent; tickets and location are replaced only when sent; id, owner, status and flags never change; the save fails exactly on an empty title or description, a bad category or a tier without a type |
| EventController.EmptyPatchKeepsEvent | Controllers/eventController.js:168-179 | an update with an empty body leaves a valid event as it was |
| EventController.MergeFixed | Controllers/eventController.js:168-184 | a body without tickets whose every field already agrees with the stored event (title trimmed, strings present, category parsing to the stored one) saves the event unchanged |
| EventController.MergeIdempotent | Controllers/eventController.js:168-184 | applying the same update (without tickets) twice equals applying it once |
| EventController.FindOwnedLiveEvent | Controllers/eventController.js:143-147 | finds the event only when the caller owns it and it is not deleted |
| EventController.UpdateEvent | Controllers/eventController.js:141-200 | 404 unless the event is the caller's and live; 500 when the merged event fails validation; otherwise exactly that event is replaced by the merge |
| EventController.FindOwnedEvent | Controllers/eventController.js:205-209 | finds the event only when the caller owns it, deleted or not |
| EventController.DeleteEvent | Controllers/eventController.js:203-232 | 404 unless the caller owns the event; otherwise only its `isDeleted` becomes true |
| EventController.SettableStatus | Controllers/eventController.js:239-244 | accepts exactly pending, published, cancelled and completed; never sold-out or ongoing |
| EventController.UpdateEventStatus | Controllers/eventController.js:235-274 | 400 outside the whitelist and 404 for an unknown event, with no change; otherwise only that event's status is set, whoever the caller is |
| EventController.PaidBookingsOf | Controllers/eventController.js:280-285 | exactly the event's bookings with payment status paid, whatever their booking status |
| EventController.AttendeeRows | Controllers/eventController.js:287-295 | one row per booking with the booker's name, email and image and the booking's quantity and total; fails exactly when a booker is missing |
| EventController.GetEventAttendees | Controllers/eventController.js:276-308 | 200 exactly when every paid booking's user exists, with row k holding paid booking k's id, quantity and total and its user's name, email and image; otherwise 500 with no rows |
| EventController.BuildBookedMap | Controllers/eventController.js:322-342 | for every key, the map's entry (0 when absent) is the summed quantity of the event's confirmed and paid bookings whose normalised type is that key |
| EventController.BookedAppend | Controllers/eventController.js:322-342 | one more booking adds its quantity to its own group and nothing to the others |
| EventController.Max0 | Controllers/eventController.js:348 | `Math.max(x, 0)`: non-negative, at least x, and equal to x or 0 |
| EventController.AvailabilityRows | Controllers/eventController.js:345-357 | one row per tier in tier order, with its type, price and quantity, booked = the map entry for its normalised type (0 if absent), available = max(quantity − booked, 0) |
| EventController.GetEventWithAvailability | Controllers/eventController.js:312-369 | 404 for an unknown event; otherwise one row per tier whose booked count is the live sum over the bookings table |
| EventController.BookedNonNegative | Controllers/eventController.js:330-334 | with quantities ≥ 1 a booked count is never negative |
| EventController.BookedPlusAvailable | Controllers/eventController.js:322-357 | in a row built from the booked map of a table with quantities ≥ 1, booked is never negative; booked + available = the tier quantity while booked ≤ quantity, and available is 0 once the tier is oversold |
| EventController.UnbookedTierReportsZero | Controllers/eventController.js:347 | a tier no confirmed and paid booking matches reports 0 booked |
| EventController.CancellationReleasesSeats | Controllers/eventController.js:322-329 | cancelling a booking removes exactly its own contribution from every booked count |
| EventController.ConfirmationTakesSeats | Controllers/eventController.js:322-329 | confirming a booking not yet confirmed and paid adds its quantity to its type's booked count |
| UserController.RegisterUser | Controllers/userController.js:13-50 | 500 when hashing fails, 409 for an address already registered in any case, then 400 when not verified, 500 on validation, each with no change; otherwise the new user is appended with the body's role and emailVerified |
| UserController.RegisteredEmailBlocksCaseVariant | Controllers/userController.js:19-25 | an address equal up to case to a stored one is found as already registered |
| UserController.LoginUser | Controllers/userController.js:52-82 | 404 "Invalid email", a 500 when the body has no password (bcrypt rejects it) and 404 "Invalid Password" change nothing; success stores the issued token on that user only |
| UserController.LogoutUser | Controllers/userController.js:85-103 | 404 for an unknown user with no change; otherwise only that user's token is cleared |
| UserController.OtpsFor | Controllers/userController.js:287 | exactly the records of the address |
| UserController.WithoutEmail | Controllers/userController.js:250 | exactly the records of other addresses |
| UserController.Issue | Controllers/userController.js:250-256 | the store after a send: the other addresses' records, then one new record expiring at now + 600000 ms |
| UserController.WithoutEmailClears | Controllers/userController.js:298 | after the delete no record for the address remains |
| UserController.WithoutEmailKeepsOthers | Controllers/userController.js:250 | the delete keeps every other address's records in order |
| UserController.IssueLeavesOne | Controllers/userController.js:250-256 | after a send the address has exactly one record, the new one |
| UserController.IssueKeepsOthers | Controllers/userController.js:250-256 | a send leaves every other address's records as they were |
| UserController.SendEmailOtp | Controllers/userController.js:239-277 | 400 with no change for a missing email; an empty code fails the `required` validator after the delete, leaving the address with no code and answering 500; otherwise the store becomes `Issue`, and the reply is 200, or 500 with the code stored when the mail fails |
| UserController.FindOtp | Controllers/userController.js:287 | finds a record with both the address and the code; None exactly when there is none |
| UserController.VerifyEmailOtp | Controllers/userController.js:279-308 | 400 for missing fields, "Invalid OTP", then "OTP expired" with the record kept, all with no change; success deletes every record of the address |
| UserController.IssuedCodeVerifies | Controllers/userController.js:252-295 | the code just sent is found, counts as expired exactly after now + 10 minutes, and an earlier code for the address is no longer found |
| ScheduleController.HourMinuteFields | Controllers/scheduleController.js:10 | no fields exactly when there is no colon; otherwise the hour field is the text before the first colon and the minute field the text from just after it up to the next colon or the end |
| ScheduleController.ToUtcMillis | Controllers/scheduleController.js:9-12 | a time without a colon is invalid; a valid result lies in the Date range |
| ScheduleController.ClockFields | Controllers/scheduleController.js:10 | "HH:MM" splits into its two halves |
| ScheduleController.ClockTimeValue | Controllers/scheduleController.js:9-12 | "HH:MM" with H < 24 and M < 60 is H × 3600000 + M × 60000 ms after the epoch |
| ScheduleController.ClockTimeRoundTrip | Controllers/scheduleController.js:11 | the UTC hours and minutes of that instant are H and M again |
| ScheduleController.GetSchedules | Controllers/scheduleController.js:15-56 | 403 for an organizer naming an event they do not own; otherwise exactly the event's schedules, the schedules of the organizer's own events, or all of them |
| ScheduleController.CreateSchedule | Controllers/scheduleController.js:58-106 | 403 for a non-organizer, 400 for an invalid event id, 400 for a missing title, time or speaker, 403 for an event the caller does not own, 500 for an unparsable time, each with no change; on 201 exactly the new schedule with the converted times and the caller as creator is appended |
| ScheduleController.InsertSchedule | Controllers/scheduleController.js:87-95 | appends the schedule and draws its id, keeping the tables valid |
| ScheduleController.UpdateSchedule | Controllers/scheduleController.js:108-136 | 404 for an unknown id; a missing time throws (500); otherwise all six fields are overwritten from the body, absent ones cleared, or 500 with no change when validation fails |
| ScheduleController.RegisteredBookings | Controllers/scheduleController.js:173-177 | exactly the event's bookings that are confirmed and paid |
| ScheduleController.ContactsOf | Controllers/scheduleController.js:187-188 | one contact per booking, its user's email and name |
| ScheduleController.GroupByEmail | Controllers/scheduleController.js:185-199 | the grouping loop yields exactly the recipient list |
| ScheduleController.RecipientsCover | Controllers/scheduleController.js:185-199 | recipients have distinct, non-empty emails, and every non-empty email among the contacts is one of them |
| ScheduleController.RecipientsAreFirstContacts | Controllers/scheduleController.js:191-196 | each recipient is the first contact carrying its email, so the first booking's name is kept |
| ScheduleController.RecipientsInFirstSeenOrder | Controllers/scheduleController.js:185-199 | recipients appear in the order their emails are first seen |
| ScheduleController.SendScheduleEmailToUsers | Controllers/scheduleController.js:147-275 | 404 for an unknown event, 500 when no schedule list is sent, 400 for an empty list, 400 with no registered bookings; otherwise mail goes out one recipient at a time, in recipient order, to exactly the recipient list; the first rejected delivery ends the loop with 500 after the recipients up to and including it were attempted |
| ScheduleController.Deliver | Controllers/scheduleController.js:214-262 | deliveries go out in recipient order; with no rejection every recipient is sent to; a rejection at position n stops the loop after recipients 0..n were attempted |
| EventStatusCron.MarkOngoing | Utils/cronUpdateEventStatus.js:11-18 | an event started, not ended and not ongoing becomes ongoing with the new stamp; any other is untouched |
| EventStatusCron.MarkCompleted | Utils/cronUpdateEventStatus.js:21-27 | an ended event not completed becomes completed with the new stamp; any other is untouched |
| EventStatusCron.SweepOutcome | Utils/cronUpdateEventStatus.js:11-27 | after a run an ended event is completed and a running one ongoing, whatever its prior status; others are untouched; only status and updatedAt ever change |
| EventStatusCron.PassesDisjoint | Utils/cronUpdateEventStatus.js:11-27 | an event the first pass writes is not written by the second |
| EventStatusCron.FutureEventUntouched | Utils/cronUpdateEventStatus.js:11-27 | an event not yet started, whose start is not after its end, is left alone |
| EventStatusCron.SweepIdempotent | Utils/cronUpdateEventStatus.js:11-27 | a second run with the same clock changes nothing |
| EventStatusCron.OngoingPass | Utils/cronUpdateEventStatus.js:11-18 | every event of the table is replaced by its `MarkOngoing` image, in place |
| EventStatusCron.CompletedPass | Utils/cronUpdateEventStatus.js:21-27 | every event of the table is replaced by its `MarkCompleted` image, in place |
| EventStatusCron.RunDailySweep | Utils/cronUpdateEventStatus.js:6-27 | every event of the table is replaced by its one-run sweep image |
| DashboardController.MonthLabel | Controllers/dashboardController.js:113-132 | `months[m]` is defined exactly for 0 to 12 and is that table entry |
| DashboardController.MonthIndex | Controllers/dashboardController.js:113-127 | a name found in the table gives its month number, 1 to 12 |
| DashboardController.MonthRoundTrip | Controllers/dashboardController.js:113-127 | each month 1 to 12 is named and its name reads back as the same number; index 0 names no month |
| DashboardController.FindBucket | Controllers/dashboardController.js:134 | finds the bucket stored under a key; None exactly when none is |
| DashboardController.PaymentChart | Controllers/dashboardController.js:129-148 | the loop yields exactly the bucket list of the rows |
| DashboardController.PutRow | Controllers/dashboardController.js:132-143 | one iteration of the loop, written step by step, leaves exactly the buckets `PutStat` describes |
| DashboardController.PutStatKeys | Controllers/dashboardController.js:131-143 | one row keeps every bucket's key and place, appends a bucket only for a new month, and a new bucket holds zero paid, pending and refunded plus the row's count |
| DashboardController.PutStatAt | Controllers/dashboardController.js:143 | one row writes its count into its own month's bucket and leaves every other bucket as it was |
| DashboardController.ChartShape | Controllers/dashboardController.js:129-148 | bucket keys are distinct, every bucket has paid, pending and refunded, and every row's month has a bucket |
| DashboardController.ChartCounts | Controllers/dashboardController.js:99-144 | when each (month, status) pair occurs once, every row's count is read back under its status in its month's bucket, failed included |
| DashboardController.ChartZeroUnlessWritten | Controllers/dashboardController.js:134-143 | a default status that no row of the month wrote reads 0 |
| DashboardController.MonthOf | Controllers/dashboardController.js:113-127 | the month a key names, between 1 and 12 and naming it, or 0 |
| DashboardController.PutStatAscends | Controllers/dashboardController.js:110-148 | a row no earlier than every bucket's month keeps the buckets in ascending month order |
| DashboardController.ChartAscending | Controllers/dashboardController.js:110-148 | rows sorted by month give buckets in strictly ascending month order, none later than the last row's month |
| DashboardController.RevenueChart | Controllers/dashboardController.js:198-201 | one row per input row, same revenue, its month named (and read back) for 1 to 12 and undefined outside 0 to 12 |
| DashboardController.RevenueChartAscending | Controllers/dashboardController.js:179-201 | rows sorted by month come out named in strictly ascending month order |
| DashboardController.Window | Controllers/dashboardController.js:239-240 | a negative skip fails; otherwise at most \|limit\| rows and none past the end; a zero limit returns every row |
| DashboardController.Pages | Controllers/dashboardController.js:251 | undefined exactly for limit 0; for a positive limit the least page count covering the total; for a negative limit the ceiling of the negative quotient |
| DashboardController.WindowIsPage | Controllers/dashboardController.js:239-240 | with page ≥ 1 and limit > 0 the page is exactly rows (page−1)·limit up to page·limit |
| DashboardController.RowOnOnePage | Controllers/dashboardController.js:239-240 | with limit > 0 each row position lies on exactly one page, number ⌊k / limit⌋ + 1 |
| DashboardController.PagesCoverRows | Controllers/dashboardController.js:239-251 | every page up to the reported page count is non-empty and every later one is empty |
| DashboardController.GetPayments | Controllers/dashboardController.js:215-260 | 500 for a negative skip; otherwise 200, total = number of matching bookings, pages from that total, the page number echoed, and the rows are the window of the matching bookings newest first (at most \|limit\|, each a matching booking) |
| DashboardController.NewestFirstPage | Controllers/dashboardController.js:237-239 | with page ≥ 1 and limit > 0 the window over the reversed rows has min(limit, rows − skip) entries, the k-th being the (skip + k)-th counted back from the latest |
| DashboardController.PaymentsPageNewestFirst | Controllers/dashboardController.js:234-239 | with page ≥ 1 and limit > 0 the reply is 200 and its rows skip the (page − 1)·limit newest matching bookings and list the next ones, newest first |
| DashboardController.NewestFirstListed | Controllers/dashboardController.js:223-238 | every listed row is a booking of the table for the caller's own events (organizer) with the requested status |
| DashboardController.WindowInside | Controllers/dashboardController.js:239-240 | a page holds only rows of the list it was cut from |

## Left out

- Stripe, the mail relay, bcrypt, JWT signing, OTP generation and the clock are parameters. Their internals and failure modes beyond "succeeded or threw" are not modelled.
- Concurrency between requests is not modelled. Each handler runs as one atomic step, so the check-then-create gap in booking creation does not arise.
- Query ordering by `sort` is not modelled (`startDate`, `createdAt`, `startTime`). Listings keep table order, and "newest first" is table order reversed. Bookings and payments carry no timestamps.
- The aggregation pipelines of the charts are not modelled. Their output rows are the input of `PaymentChart` and `RevenueChart`. The revenue pipeline sums a field, `amountPaid`, that bookings do not declare.
- getDashboardStats is not modelled. Its pipelines rely on a module it does not import and on fields bookings do not have.
- `populate` is not modelled: attendee and recipient rows look the user up in the users table. The user and event summaries in the JSON replies are left out.
- JSON parsing of `tickets` and `location` is not modelled: they arrive parsed, and a parse error is not represented. Date casting is not modelled either: dates are integers, and a malformed date is an absent one.
- ParseNumber, ToUtcMillis: an hour or minute field is read as a trimmed decimal digit string or a blank (0). Signs, decimals, exponents and hex forms that `Number` also accepts are treated as NaN (an invalid time).
- CastTiers, NewEvent: a tier's price and quantity are integers, and the `Number` cast of non-numeric values is not modelled.
- MonthLabel, BucketKey: only integer month numbers are modelled, since `$month` yields 1 to 12.
- GetPayments: `page` and `limit` arrive as integers. The query-string coercion and `Number(limit)` of non-numeric text are not modelled.
- The OTP TTL index, the node-cron schedule and the cron's log line are not modelled.
- Time-zone and locale rendering of schedule times (`getEventSchedule`, `toLocaleString`) and the mail bodies are not modelled.
- The routes, the auth middleware (the caller arrives as a `User`) and file uploads are not modelled. The uploaded banner path is the `bannerImage` parameter.
- getMyBookings, deleteSchedule, getUserProfile, getAllUsers, updateUserProfile, deleteUserProfile, forgotPassword, resetPassword and isEmailVerified are not modelled. They lie outside the modelled core.
- `cancelBooking` in the booking controller is commented out in the source.
- Text.Trim, Text.Upper, Text.Lower: white space and case are ASCII only. JavaScript `trim` also strips Unicode spaces such as U+00A0 and U+FEFF, and `toUpperCase`/`toLowerCase` map non-ASCII letters (sometimes changing the length), while Mongo's `$toUpper` maps only ASCII. The model uses one ASCII normalisation on both sides of the availability lookup, so a non-ASCII tier type such as "Café", whose booked count the source misses ("CAFÉ" against "CAFé"), is counted; `RegisteredEmailBlocksCaseVariant` holds for ASCII case only; a title of only non-ASCII spaces passes `NewEvent` where the source rejects it.
- An absent string in a request body is modelled as "" where the handler only tests truthiness. Elsewhere it is None.
- Malformed ObjectIds are not modelled: every id is a `nat`. In the source a `findById` or `findOne` on an id that is not a valid ObjectId throws a CastError, which the handler's catch answers with 500 (for instance `Controllers/eventController.js:95-98` and `:109-116`, `Controllers/bookingController.js:42` and `:74`, `Controllers/scheduleController.js:110` and `:152`). The model has no malformed id, only ids missing from a table, which get the handler's not-found reply. `CreateSchedule` models the one explicit `isValid` check (`Controllers/scheduleController.js:69`).
- CreateBooking, NewBooking: the quantity is an integer. The source takes it as a JavaScript `Number`, so a fractional quantity such as 1.5 passes `min: 1` and is stored with a fractional total. An absent quantity makes `totalAmount` NaN, and the create fails with 500. Neither case is modelled.
- The `payment` reference and `bookedAt` field of a booking, the user's `location` and `bio`, and the schedule's timestamps are not modelled, since no modelled operation reads them.
