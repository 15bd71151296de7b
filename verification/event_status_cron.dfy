/** The body of the daily event-status job: two `updateMany` passes over
    the events, the first marking running events `ongoing`, the second
    marking ended events `completed`. `now` is the job's clock reading and
    `stamp1`, `stamp2` the `new Date()` each pass writes to `updatedAt`. */
module EventStatusCron {
  import opened EventSchema
  import opened Database

  /** The filter of the first pass: started, not ended, not yet ongoing. */
  predicate RunningNotOngoing(e: Event, now: int) {
    e.startDate <= now && now <= e.endDate && e.status != Ongoing
  }

  /** The filter of the second pass: ended, not yet completed. */
  predicate EndedNotCompleted(e: Event, now: int) {
    e.endDate < now && e.status != Completed
  }

  function MarkOngoing(e: Event, now: int, stamp: int): (r: Event)
    ensures RunningNotOngoing(e, now) ==> r == e.(status := Ongoing, updatedAt := stamp)
    ensures !RunningNotOngoing(e, now) ==> r == e
  {
    if RunningNotOngoing(e, now) then e.(status := Ongoing, updatedAt := stamp) else e
  }

  function MarkCompleted(e: Event, now: int, stamp: int): (r: Event)
    ensures EndedNotCompleted(e, now) ==> r == e.(status := Completed, updatedAt := stamp)
    ensures !EndedNotCompleted(e, now) ==> r == e
  {
    if EndedNotCompleted(e, now) then e.(status := Completed, updatedAt := stamp) else e
  }

  /** One run, on one event: the first pass, then the second. */
  function Sweep(e: Event, now: int, stamp1: int, stamp2: int): Event {
    MarkCompleted(MarkOngoing(e, now, stamp1), now, stamp2)
  }

  /** The status one run leaves: `completed` once ended, `ongoing` while
      running, whatever the status was before (cancelled and sold-out
      included); otherwise the event is untouched. */
  lemma SweepOutcome(e: Event, now: int, stamp1: int, stamp2: int)
    ensures e.endDate < now ==> Sweep(e, now, stamp1, stamp2).status == Completed
    ensures e.startDate <= now <= e.endDate ==> Sweep(e, now, stamp1, stamp2).status == Ongoing
    ensures !(e.endDate < now) && !(e.startDate <= now <= e.endDate) ==> Sweep(e, now, stamp1, stamp2) == e
    ensures var r := Sweep(e, now, stamp1, stamp2);
      r.(status := e.status, updatedAt := e.updatedAt) == e
  {
  }

  /** No event is written by both passes of one run. */
  lemma PassesDisjoint(e: Event, now: int, stamp1: int)
    requires RunningNotOngoing(e, now)
    ensures !EndedNotCompleted(MarkOngoing(e, now, stamp1), now)
  {
  }

  /** A well-formed event that has not started is left alone. Nothing
      orders an event's dates, and one that ends before it starts is
      completed by a run before its start (the first clause of SweepOutcome). */
  lemma FutureEventUntouched(e: Event, now: int, stamp1: int, stamp2: int)
    requires now < e.startDate && e.startDate <= e.endDate
    ensures Sweep(e, now, stamp1, stamp2) == e
  {
  }

  /** A second run with the same clock changes nothing. */
  lemma SweepIdempotent(e: Event, now: int, stamp1: int, stamp2: int, stamp3: int, stamp4: int)
    ensures Sweep(Sweep(e, now, stamp1, stamp2), now, stamp3, stamp4) == Sweep(e, now, stamp1, stamp2)
  {
  }

  /** The first `updateMany`, in place over the table. */
  method OngoingPass(db: Db, now: int, stamp: int)
    requires db.Valid()
    modifies db`events
    ensures db.Valid()
    ensures |db.events| == |old(db.events)|
    ensures forall k :: 0 <= k < |db.events| ==> db.events[k] == MarkOngoing(old(db.events)[k], now, stamp)
  {
    var i := 0;
    while i < |db.events|
      invariant 0 <= i <= |db.events| == |old(db.events)|
      invariant db.Valid()
      invariant forall k :: 0 <= k < i ==> db.events[k] == MarkOngoing(old(db.events)[k], now, stamp)
      invariant forall k :: i <= k < |db.events| ==> db.events[k] == old(db.events)[k]
    {
      var e := MarkOngoing(db.events[i], now, stamp);
      EventsOkUpdate(db.events, db.nextId, i, e);
      db.events := db.events[i := e];
      i := i + 1;
    }
  }

  /** The second `updateMany`, in place over the table. */
  method CompletedPass(db: Db, now: int, stamp: int)
    requires db.Valid()
    modifies db`events
    ensures db.Valid()
    ensures |db.events| == |old(db.events)|
    ensures forall k :: 0 <= k < |db.events| ==> db.events[k] == MarkCompleted(old(db.events)[k], now, stamp)
  {
    var i := 0;
    while i < |db.events|
      invariant 0 <= i <= |db.events| == |old(db.events)|
      invariant db.Valid()
      invariant forall k :: 0 <= k < i ==> db.events[k] == MarkCompleted(old(db.events)[k], now, stamp)
      invariant forall k :: i <= k < |db.events| ==> db.events[k] == old(db.events)[k]
    {
      var e := MarkCompleted(db.events[i], now, stamp);
      EventsOkUpdate(db.events, db.nextId, i, e);
      db.events := db.events[i := e];
      i := i + 1;
    }
  }

  /** The daily callback. Soft-deleted events are swept like any other. */
  method RunDailySweep(db: Db, now: int, stamp1: int, stamp2: int)
    requires db.Valid()
    modifies db`events
    ensures db.Valid()
    ensures |db.events| == |old(db.events)|
    ensures forall k :: 0 <= k < |db.events| ==> db.events[k] == Sweep(old(db.events)[k], now, stamp1, stamp2)
  {
    OngoingPass(db, now, stamp1);
    CompletedPass(db, now, stamp2);
  }
}
