/** The dashboard's formatting: the month table, the per-month payment-status
    buckets of the payment chart, the month labels of the revenue chart, and
    the filter and pagination of the payment list. The aggregation pipelines
    that produce the chart rows are inputs here. */
module DashboardController {
  import opened Base
  import opened EventSchema
  import opened BookingSchema
  import opened UserSchema
  import EventController

  // ---- month names ----

  /** The handlers' `months` array: index 0 is empty, 1 to 12 name the months. */
  const Months: seq<string> :=
    ["", "Jan", "Feb", "Mar", "Apr", "May", "Jun", "Jul", "Aug", "Sep", "Oct", "Nov", "Dec"]

  /** `months[m]`: None (undefined) outside the table. */
  function MonthLabel(m: int): (r: Option<string>)
    ensures r.Some? <==> 0 <= m <= 12
    ensures r.Some? ==> r.value == Months[m]
  {
    if 0 <= m <= 12 then Some(Months[m]) else None
  }

  /** The month number a label names. */
  function MonthIndex(name: string): (r: Option<nat>)
    ensures r.Some? ==> 1 <= r.value <= 12 && Months[r.value] == name
  {
    if name == "Jan" then Some(1) else if name == "Feb" then Some(2)
    else if name == "Mar" then Some(3) else if name == "Apr" then Some(4)
    else if name == "May" then Some(5) else if name == "Jun" then Some(6)
    else if name == "Jul" then Some(7) else if name == "Aug" then Some(8)
    else if name == "Sep" then Some(9) else if name == "Oct" then Some(10)
    else if name == "Nov" then Some(11) else if name == "Dec" then Some(12)
    else None
  }

  /** Every month number 1 to 12 is named, and reading the name back gives
      the number; the empty label at index 0 names no month. */
  lemma MonthRoundTrip(m: int)
    requires 1 <= m <= 12
    ensures MonthLabel(m).Some? && MonthIndex(MonthLabel(m).value) == Some(m)
    ensures MonthIndex(Months[0]).None?
  {
  }

  // ---- the payment chart ----

  /** One row of the grouping stage: a month, a payment status and how many
      bookings have both. */
  datatype ChartStat = ChartStat(month: int, status: string, count: int)

  /** One entry of `formatted`: its property key, the `month` it shows, and
      its status counts. */
  datatype ChartBucket = ChartBucket(key: string, month: Option<string>, counts: map<string, int>)

  /** The property key `months[m]` is stored under (an undefined label is
      the key "undefined"). */
  function BucketKey(m: int): string {
    if 0 <= m <= 12 then Months[m] else "undefined"
  }

  const EmptyCounts: map<string, int> := map["paid" := 0, "pending" := 0, "refunded" := 0]

  function HasKey(key: string): ChartBucket -> bool {
    (b: ChartBucket) => b.key == key
  }

  /** `formatted[key]`: the position of the bucket stored under `key`. */
  function FindBucket(bs: seq<ChartBucket>, key: string): (r: Option<nat>)
    ensures r.Some? ==> r.value < |bs| && bs[r.value].key == key
    ensures r.None? <==> forall k :: 0 <= k < |bs| ==> bs[k].key != key
  {
    FirstIndex(bs, HasKey(key))
  }

  predicate DistinctKeys(bs: seq<ChartBucket>) {
    forall i, j :: 0 <= i < j < |bs| ==> bs[i].key != bs[j].key
  }

  /** Every bucket reports the three default statuses. */
  predicate HasDefaults(bs: seq<ChartBucket>) {
    forall j :: 0 <= j < |bs| ==> "paid" in bs[j].counts && "pending" in bs[j].counts && "refunded" in bs[j].counts
  }

  /** With distinct keys the lookup finds the one bucket holding the key. */
  lemma FindUnique(bs: seq<ChartBucket>, j: nat)
    requires DistinctKeys(bs) && j < |bs|
    ensures FindBucket(bs, bs[j].key) == Some(j)
  {
  }

  /** `formatted[key][status] = count` on the bucket at `i`. */
  function SetCount(bs: seq<ChartBucket>, i: nat, s: ChartStat): seq<ChartBucket>
    requires i < |bs|
  {
    bs[i := bs[i].(counts := bs[i].counts[s.status := s.count])]
  }

  /** What one iteration does to the buckets, as a value: a bucket with
      zero counts is created for a month not seen yet, then the row's count
      is written under its status. */
  function PutStat(bs: seq<ChartBucket>, s: ChartStat): seq<ChartBucket> {
    var key := BucketKey(s.month);
    match FindBucket(bs, key)
    case None => SetCount(bs + [ChartBucket(key, MonthLabel(s.month), EmptyCounts)], |bs|, s)
    case Some(i) => SetCount(bs, i, s)
  }

  /** `Object.values(formatted)` after the loop over `stats`. */
  function ChartBuckets(stats: seq<ChartStat>): seq<ChartBucket> {
    if |stats| == 0 then [] else PutStat(ChartBuckets(stats[..|stats| - 1]), stats[|stats| - 1])
  }

  /** GET /payments-chart, from the rows of the grouping stage. */
  method PaymentChart(stats: seq<ChartStat>) returns (buckets: seq<ChartBucket>)
    ensures buckets == ChartBuckets(stats)
  {
    buckets := [];
    var n := 0;
    while n < |stats|
      invariant 0 <= n <= |stats|
      invariant buckets == ChartBuckets(stats[..n])
    {
      ChartBucketsStep(stats, n);
      buckets := PutRow(buckets, stats[n]);
      n := n + 1;
    }
    assert stats[..n] == stats;
  }

  /** The body of the `forEach`, step by step: find or append the month's
      bucket, then write the status count into it. */
  method PutRow(buckets: seq<ChartBucket>, item: ChartStat) returns (r: seq<ChartBucket>)
    ensures r == PutStat(buckets, item)
  {
    var key := BucketKey(item.month);
    var found := FindBucket(buckets, key);
    r := buckets;
    var i: nat;
    if found.None? {
      r := r + [ChartBucket(key, MonthLabel(item.month), EmptyCounts)];
      i := |r| - 1;
    } else {
      i := found.value;
    }
    r := r[i := r[i].(counts := r[i].counts[item.status := item.count])];
  }

  /** The buckets of one more row are the buckets so far with that row put in. */
  lemma ChartBucketsStep(stats: seq<ChartStat>, n: nat)
    requires n < |stats|
    ensures ChartBuckets(stats[..n + 1]) == PutStat(ChartBuckets(stats[..n]), stats[n])
  {
    assert stats[..n + 1][..n] == stats[..n];
  }

  /** One step keeps every earlier bucket's key and position, adds a bucket
      at the end exactly when the row's month is new, and writes the row's
      count into the bucket of its month. */
  lemma PutStatKeys(bs: seq<ChartBucket>, s: ChartStat)
    ensures var r := PutStat(bs, s);
      |r| == (if FindBucket(bs, BucketKey(s.month)).None? then |bs| + 1 else |bs|)
    ensures var r := PutStat(bs, s);
      forall j :: 0 <= j < |bs| ==> r[j].key == bs[j].key
    ensures var r := PutStat(bs, s);
      FindBucket(bs, BucketKey(s.month)).None? ==>
        r[|bs|].key == BucketKey(s.month) && r[|bs|].counts == EmptyCounts[s.status := s.count]
  {
  }

  /** Under distinct keys, the bucket of the row's month gets the row's count
      and every other bucket is unchanged. */
  lemma PutStatAt(bs: seq<ChartBucket>, s: ChartStat, j: nat)
    requires DistinctKeys(bs) && j < |bs|
    ensures var r := PutStat(bs, s);
      bs[j].key != BucketKey(s.month) ==> r[j] == bs[j]
    ensures var r := PutStat(bs, s);
      bs[j].key == BucketKey(s.month) ==> r[j].counts == bs[j].counts[s.status := s.count]
  {
    if bs[j].key == BucketKey(s.month) {
      FindUnique(bs, j);
    }
  }

  /** One step keeps the keys distinct and the defaults in every bucket. */
  lemma PutStatShape(bs: seq<ChartBucket>, s: ChartStat)
    requires DistinctKeys(bs) && HasDefaults(bs)
    ensures DistinctKeys(PutStat(bs, s)) && HasDefaults(PutStat(bs, s))
    ensures FindBucket(PutStat(bs, s), BucketKey(s.month)).Some?
  {
    PutStatKeys(bs, s);
    var r := PutStat(bs, s);
    forall j | 0 <= j < |bs|
      ensures "paid" in r[j].counts && "pending" in r[j].counts && "refunded" in r[j].counts
    {
      PutStatAt(bs, s, j);
    }
    if FindBucket(bs, BucketKey(s.month)).Some? {
      assert r[FindBucket(bs, BucketKey(s.month)).value].key == BucketKey(s.month);
    } else {
      assert r[|bs|].key == BucketKey(s.month);
    }
  }

  /** A key present before a step that keeps every earlier key is still present. */
  lemma KeyKept(bs: seq<ChartBucket>, r: seq<ChartBucket>, key: string)
    requires FindBucket(bs, key).Some?
    requires |bs| <= |r| && forall j :: 0 <= j < |bs| ==> r[j].key == bs[j].key
    ensures FindBucket(r, key).Some?
  {
    assert r[FindBucket(bs, key).value].key == key;
  }

  /** The buckets have distinct keys, one for the month of every row, and
      every bucket reports paid, pending and refunded, zero when no row
      wrote them. */
  lemma {:induction false} ChartShape(stats: seq<ChartStat>)
    ensures DistinctKeys(ChartBuckets(stats)) && HasDefaults(ChartBuckets(stats))
    ensures forall k :: 0 <= k < |stats| ==> FindBucket(ChartBuckets(stats), BucketKey(stats[k].month)).Some?
  {
    if |stats| > 0 {
      var n := |stats| - 1;
      var init := stats[..n];
      ChartShape(init);
      var ri := ChartBuckets(init);
      PutStatShape(ri, stats[n]);
      PutStatKeys(ri, stats[n]);
      var r := ChartBuckets(stats);
      assert r == PutStat(ri, stats[n]);
      forall k | 0 <= k < |stats|
        ensures FindBucket(r, BucketKey(stats[k].month)).Some?
      {
        if k < n {
          assert stats[k] == init[k];
          KeyKept(ri, r, BucketKey(init[k].month));
        } else {
          assert k == n;
        }
      }
    }
  }

  /** `formatted[key][status] == count`. */
  predicate CountAt(bs: seq<ChartBucket>, key: string, status: string, count: int) {
    FindBucket(bs, key).Some? && status in bs[FindBucket(bs, key).value].counts
    && bs[FindBucket(bs, key).value].counts[status] == count
  }

  /** A step writes its own row's count. */
  lemma PutStatWrites(bs: seq<ChartBucket>, s: ChartStat)
    requires DistinctKeys(bs) && HasDefaults(bs)
    ensures CountAt(PutStat(bs, s), BucketKey(s.month), s.status, s.count)
  {
    var key := BucketKey(s.month);
    var r := PutStat(bs, s);
    PutStatKeys(bs, s);
    PutStatShape(bs, s);
    if FindBucket(bs, key).None? {
      FindUnique(r, |bs|);
    } else {
      var i := FindBucket(bs, key).value;
      FindUnique(r, i);
      PutStatAt(bs, s, i);
    }
  }

  /** A step keeps every count written under another month or status. */
  lemma PutStatKeepsCount(bs: seq<ChartBucket>, s: ChartStat, key: string, status: string, count: int)
    requires DistinctKeys(bs) && HasDefaults(bs) && CountAt(bs, key, status, count)
    requires key != BucketKey(s.month) || status != s.status
    ensures CountAt(PutStat(bs, s), key, status, count)
  {
    var r := PutStat(bs, s);
    PutStatKeys(bs, s);
    PutStatShape(bs, s);
    var i := FindBucket(bs, key).value;
    FindUnique(r, i);
    PutStatAt(bs, s, i);
  }

  /** When the grouping stage yields each (month, status) pair once, every
      row's count is read back from its month's bucket under its status. */
  lemma {:induction false} ChartCounts(stats: seq<ChartStat>, k: nat)
    requires forall i, j :: 0 <= i < j < |stats| ==>
      BucketKey(stats[i].month) != BucketKey(stats[j].month) || stats[i].status != stats[j].status
    requires k < |stats|
    ensures CountAt(ChartBuckets(stats), BucketKey(stats[k].month), stats[k].status, stats[k].count)
  {
    var n := |stats| - 1;
    var init, s := stats[..n], stats[n];
    ChartShape(init);
    var ri := ChartBuckets(init);
    assert ChartBuckets(stats) == PutStat(ri, s);
    if k == n {
      PutStatWrites(ri, s);
    } else {
      assert stats[k] == init[k];
      ChartCounts(init, k);
      PutStatKeepsCount(ri, s, BucketKey(init[k].month), init[k].status, init[k].count);
    }
  }

  /** A key a step makes present that was absent is the row's month key. */
  lemma NewKeyIsRowKey(bs: seq<ChartBucket>, s: ChartStat, key: string)
    requires FindBucket(bs, key).None? && FindBucket(PutStat(bs, s), key).Some?
    ensures key == BucketKey(s.month)
  {
    PutStatKeys(bs, s);
    assert FindBucket(PutStat(bs, s), key).value == |bs|;
  }

  /** A bucket created by a step holds 0 under every default status but the
      row's own. */
  lemma PutStatNewZero(bs: seq<ChartBucket>, s: ChartStat, key: string, status: string)
    requires DistinctKeys(bs) && HasDefaults(bs) && status in EmptyCounts && status != s.status
    requires FindBucket(bs, key).None? && FindBucket(PutStat(bs, s), key).Some?
    ensures CountAt(PutStat(bs, s), key, status, 0)
  {
    var r := PutStat(bs, s);
    PutStatKeys(bs, s);
    PutStatShape(bs, s);
    assert r[|bs|].key == key;
    FindUnique(r, |bs|);
  }

  /** A default status that no row of a month wrote stays 0 in that
      month's bucket. */
  lemma {:induction false} ChartZeroUnlessWritten(stats: seq<ChartStat>, key: string, status: string)
    requires status in EmptyCounts
    requires FindBucket(ChartBuckets(stats), key).Some?
    requires forall k :: 0 <= k < |stats| ==> BucketKey(stats[k].month) != key || stats[k].status != status
    ensures CountAt(ChartBuckets(stats), key, status, 0)
  {
    if |stats| > 0 {
      var n := |stats| - 1;
      var init, s := stats[..n], stats[n];
      ChartShape(init);
      var ri := ChartBuckets(init);
      assert ChartBuckets(stats) == PutStat(ri, s);
      assert forall k :: 0 <= k < n ==> init[k] == stats[k];
      if FindBucket(ri, key).Some? {
        ChartZeroUnlessWritten(init, key, status);
        PutStatKeepsCount(ri, s, key, status, 0);
      } else {
        NewKeyIsRowKey(ri, s, key);
        PutStatNewZero(ri, s, key, status);
      }
    }
  }

  /** The month number a bucket key names, 0 when it names none. */
  function MonthOf(key: string): (r: int)
    ensures 0 <= r <= 12
    ensures 1 <= r ==> Months[r] == key
  {
    match MonthIndex(key)
    case None => 0
    case Some(m) => m
  }

  /** Every bucket's key names a month no later than `last`. */
  predicate MonthKeysUpTo(bs: seq<ChartBucket>, last: int) {
    forall j :: 0 <= j < |bs| ==> 1 <= MonthOf(bs[j].key) <= last
  }

  predicate AscendingKeys(bs: seq<ChartBucket>) {
    forall i, j :: 0 <= i < j < |bs| ==> MonthOf(bs[i].key) < MonthOf(bs[j].key)
  }

  /** The bucket key of a month reads back as that month. */
  lemma MonthOfBucketKey(m: int)
    requires 1 <= m <= 12
    ensures MonthOf(BucketKey(m)) == m
  {
    MonthRoundTrip(m);
  }

  /** A row no earlier than every bucket's month keeps the buckets ascending. */
  lemma PutStatAscends(bs: seq<ChartBucket>, s: ChartStat, last: int)
    requires DistinctKeys(bs) && MonthKeysUpTo(bs, last) && AscendingKeys(bs)
    requires 1 <= s.month <= 12 && last <= s.month
    ensures MonthKeysUpTo(PutStat(bs, s), s.month) && AscendingKeys(PutStat(bs, s))
  {
    PutStatKeys(bs, s);
    var r := PutStat(bs, s);
    forall j | 0 <= j < |bs|
      ensures MonthOf(r[j].key) == MonthOf(bs[j].key)
    {
      assert r[j].key == bs[j].key;
    }
    if FindBucket(bs, BucketKey(s.month)).None? {
      MonthOfBucketKey(s.month);
      assert MonthOf(r[|bs|].key) == s.month;
      forall i, j | 0 <= i < j < |r|
        ensures MonthOf(r[i].key) < MonthOf(r[j].key)
      {
        assert MonthOf(r[i].key) == MonthOf(bs[i].key);
        if j < |bs| {
          assert MonthOf(r[j].key) == MonthOf(bs[j].key);
        } else {
          assert MonthOf(bs[i].key) <= last;
        }
      }
    }
  }

  /** Buckets are emitted in the order months first occur, so rows sorted by
      month (as the `$sort` stage leaves them) give buckets in ascending
      month order, each naming a month. */
  lemma {:induction false} ChartAscending(stats: seq<ChartStat>)
    requires forall k :: 0 <= k < |stats| ==> 1 <= stats[k].month <= 12
    requires forall i, j :: 0 <= i < j < |stats| ==> stats[i].month <= stats[j].month
    ensures MonthKeysUpTo(ChartBuckets(stats), if |stats| == 0 then 0 else stats[|stats| - 1].month)
    ensures AscendingKeys(ChartBuckets(stats))
  {
    if |stats| > 0 {
      var n := |stats| - 1;
      var init, s := stats[..n], stats[n];
      ChartAscending(init);
      ChartShape(init);
      var ri := ChartBuckets(init);
      assert ChartBuckets(stats) == PutStat(ri, s);
      if n > 0 {
        assert init[n - 1] == stats[n - 1];
        PutStatAscends(ri, s, init[n - 1].month);
      } else {
        PutStatAscends(ri, s, 0);
      }
    }
  }

  // ---- the revenue chart ----

  /** One row of the revenue grouping stage: a month and its sum. */
  datatype RevenueStat = RevenueStat(month: int, revenue: int)

  datatype RevenueRow = RevenueRow(month: Option<string>, revenue: int)

  /** GET /revenue-chart: each row's month number becomes its name. */
  function RevenueChart(stats: seq<RevenueStat>): (r: seq<RevenueRow>)
    ensures |r| == |stats|
    ensures forall k :: 0 <= k < |stats| ==>
      r[k].revenue == stats[k].revenue
      && (1 <= stats[k].month <= 12 ==> r[k].month.Some? && MonthIndex(r[k].month.value) == Some(stats[k].month))
      && (r[k].month.None? <==> !(0 <= stats[k].month <= 12))
  {
    seq(|stats|, k requires 0 <= k < |stats| => RevenueRow(MonthLabel(stats[k].month), stats[k].revenue))
  }

  /** The `$sort` stage leaves one row per month in ascending order, and the
      rows come out named in that order. */
  lemma RevenueChartAscending(stats: seq<RevenueStat>)
    requires forall k :: 0 <= k < |stats| ==> 1 <= stats[k].month <= 12
    requires forall i, j :: 0 <= i < j < |stats| ==> stats[i].month < stats[j].month
    ensures var r := RevenueChart(stats);
      forall i, j :: 0 <= i < j < |r| ==>
        r[i].month.Some? && r[j].month.Some? && MonthOf(r[i].month.value) < MonthOf(r[j].month.value)
  {
    var r := RevenueChart(stats);
    forall k | 0 <= k < |r|
      ensures r[k].month.Some? && MonthOf(r[k].month.value) == stats[k].month
    {
      MonthRoundTrip(stats[k].month);
    }
  }

  // ---- the payment list ----

  /** The query filter of GET /payments: an organizer sees the bookings of
      the events they own; a non-empty `status` must equal the booking's
      payment status. */
  predicate ListedPayment(b: Booking, es: seq<Event>, caller: User, status: string) {
    && (caller.role == Organizer ==> EventController.FindOwnedEvent(es, b.event, caller.id).Some?)
    && (status != "" ==> PaymentStatusName(b.paymentStatus) == status)
  }

  function Listed(es: seq<Event>, caller: User, status: string): Booking -> bool {
    (b: Booking) => ListedPayment(b, es, caller, status)
  }

  function Abs(x: int): nat {
    if x < 0 then -x else x
  }

  /** `.skip((page - 1) * limit).limit(limit)` over `rows`: None when the skip
      is negative (the database refuses it); a zero limit means no limit and
      a negative one is taken by its magnitude. */
  function Window<T>(rows: seq<T>, page: int, limit: int): (r: Option<seq<T>>)
    ensures r.None? <==> (page - 1) * limit < 0
    ensures r.Some? && limit != 0 ==> |r.value| <= Abs(limit)
    ensures r.Some? && (page - 1) * limit >= |rows| ==> r.value == []
    ensures limit == 0 ==> r == Some(rows)
  {
    var skip := (page - 1) * limit;
    if skip < 0 then None
    else
      var rest := if skip <= |rows| then rows[skip..] else [];
      if limit == 0 || Abs(limit) >= |rest| then Some(rest) else Some(rest[..Abs(limit)])
  }

  /** `Math.ceil(total / limit)`: None for a zero limit (the division gives
      Infinity, sent as null). */
  function Pages(total: nat, limit: int): (r: Option<int>)
    ensures r.None? <==> limit == 0
    ensures limit > 0 ==> r.value >= 0 && (r.value - 1) * limit < total <= r.value * limit
    ensures limit < 0 ==> r.value <= 0 && r.value * limit <= total < (r.value - 1) * limit
  {
    if limit == 0 then None
    else if limit > 0 then Some((total + limit - 1) / limit)
    else Some(-(total / -limit))
  }

  /** With a positive limit, page `p` holds the rows at positions
      `(p - 1) * limit` up to `p * limit`, so every row is on exactly one page. */
  lemma WindowIsPage<T>(rows: seq<T>, page: int, limit: int)
    requires page >= 1 && limit > 0 && (page - 1) * limit <= |rows|
    ensures Window(rows, page, limit).Some?
    ensures var hi := if page * limit <= |rows| then page * limit else |rows|;
      Window(rows, page, limit).value == rows[(page - 1) * limit..hi]
  {
    assert (page - 1) * limit + limit == page * limit;
  }

  lemma MulMono(a: int, b: int, limit: int)
    requires a <= b && limit > 0
    ensures a * limit <= b * limit
  {
    assert b * limit - a * limit == (b - a) * limit;
  }

  lemma RowOnOnePage(limit: int, k: nat, page: int)
    requires limit > 0 && page >= 1
    ensures (page - 1) * limit <= k < page * limit <==> page == k / limit + 1
  {
    var q := k / limit;
    assert k == q * limit + k % limit;
    assert (q + 1) * limit == q * limit + limit;
    if page <= q {
      MulMono(page, q, limit);
    } else if page >= q + 2 {
      MulMono(q + 1, page - 1, limit);
    } else {
      assert page == q + 1;
    }
  }

  /** Every page up to `Pages` is non-empty and every later page is empty. */
  lemma PagesCoverRows<T>(rows: seq<T>, limit: int, page: int)
    requires limit > 0 && page >= 1
    ensures page <= Pages(|rows|, limit).value ==> Window(rows, page, limit).value != []
    ensures page > Pages(|rows|, limit).value ==> Window(rows, page, limit).value == []
  {
    var p := Pages(|rows|, limit).value;
    if page <= p {
      assert (page - 1) * limit <= (p - 1) * limit;
    } else {
      assert (page - 1) * limit >= p * limit;
    }
  }

  /** `page` is what skipping `skip` rows of `rows` newest first and keeping
      at most `limit` leaves: its k-th row is the (skip + k)-th counted back
      from the latest row. */
  ghost predicate NewestFirstSlice<T>(page: seq<T>, rows: seq<T>, skip: int, limit: int) {
    && skip >= 0
    && |page| == (if skip >= |rows| then 0 else if |rows| - skip < limit then |rows| - skip else limit)
    && forall k :: 0 <= k < |page| ==> page[k] == rows[|rows| - 1 - (skip + k)]
  }

  /** With page >= 1 and a positive limit, the window over the reversed rows
      is that slice. */
  lemma NewestFirstPage<T>(rows: seq<T>, page: int, limit: int)
    requires page >= 1 && limit > 0
    ensures Window(Reverse(rows), page, limit).Some?
    ensures NewestFirstSlice(Window(Reverse(rows), page, limit).value, rows, (page - 1) * limit, limit)
  {
    var lo := (page - 1) * limit;
    var rev := Reverse(rows);
    assert lo >= 0;
    if lo <= |rows| {
      WindowIsPage(rev, page, limit);
      var w := Window(rev, page, limit).value;
      forall k | 0 <= k < |w|
        ensures w[k] == rows[|rows| - 1 - (lo + k)]
      {
        assert w[k] == rev[lo + k];
      }
    }
  }

  datatype PaymentsPage = PaymentsPage(reply: Reply, rows: seq<Booking>, total: nat, page: int, pages: Option<int>)

  /** GET /payments: the matching bookings newest first, one page of them,
      their total, the page number echoed back and the page count. Bookings
      are kept in creation order, so newest first is the reverse of the
      matching bookings in table order. */
  function GetPayments(bs: seq<Booking>, es: seq<Event>, caller: User, status: string,
                       page: int, limit: int): (r: PaymentsPage)
    ensures (page - 1) * limit < 0 ==> r.reply.status == 500
    ensures (page - 1) * limit >= 0 ==>
      && r.reply.status == 200
      && r.total == |Filter(bs, Listed(es, caller, status))|
      && r.pages == Pages(r.total, limit)
      && (limit != 0 ==> |r.rows| <= Abs(limit))
      && (forall k :: 0 <= k < |r.rows| ==> r.rows[k] in bs && ListedPayment(r.rows[k], es, caller, status))
      && r.page == page
      && Some(r.rows) == Window(Reverse(Filter(bs, Listed(es, caller, status))), page, limit)
  {
    var matching := Filter(bs, Listed(es, caller, status));
    var newestFirst := Reverse(matching);
    match Window(newestFirst, page, limit)
    case None => PaymentsPage(Reply(500, "skip must be non-negative"), [], 0, page, None)
    case Some(rows) =>
      NewestFirstListed(bs, es, caller, status);
      WindowInside(newestFirst, page, limit);
      PaymentsPage(Reply(200, "payments"), rows, |matching|, page, Pages(|matching|, limit))
  }

  /** With page ≥ 1 and a positive limit, the page skips the (page - 1) *
      limit newest matching bookings and lists the next ones, newest first:
      its k-th row is the (skip + k)-th matching booking counted back from
      the latest. */
  lemma PaymentsPageNewestFirst(bs: seq<Booking>, es: seq<Event>, caller: User, status: string,
                                page: int, limit: int)
    requires page >= 1 && limit > 0
    ensures GetPayments(bs, es, caller, status, page, limit).reply.status == 200
    ensures NewestFirstSlice(GetPayments(bs, es, caller, status, page, limit).rows,
                             Filter(bs, Listed(es, caller, status)), (page - 1) * limit, limit)
  {
    var m := Filter(bs, Listed(es, caller, status));
    NewestFirstPage(m, page, limit);
  }

  /** Every row of the newest-first list is a listed booking of the table. */
  lemma NewestFirstListed(bs: seq<Booking>, es: seq<Event>, caller: User, status: string)
    ensures var rows := Reverse(Filter(bs, Listed(es, caller, status)));
      forall k :: 0 <= k < |rows| ==> rows[k] in bs && ListedPayment(rows[k], es, caller, status)
  {
    var matching := Filter(bs, Listed(es, caller, status));
    var rows := Reverse(matching);
    forall k | 0 <= k < |rows|
      ensures rows[k] in bs && ListedPayment(rows[k], es, caller, status)
    {
      var i := |matching| - 1 - k;
      assert rows[k] == matching[i];
      assert Listed(es, caller, status)(matching[i]);
    }
  }

  /** A page holds only rows of the list it was cut from. */
  lemma WindowInside<T>(rows: seq<T>, page: int, limit: int)
    requires Window(rows, page, limit).Some?
    ensures forall k :: 0 <= k < |Window(rows, page, limit).value| ==> Window(rows, page, limit).value[k] in rows
  {
    var w := Window(rows, page, limit).value;
    var skip := (page - 1) * limit;
    forall k | 0 <= k < |w|
      ensures w[k] in rows
    {
      assert w[k] == rows[skip + k];
    }
  }
}
