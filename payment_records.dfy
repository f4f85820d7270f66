// The back-end payment service: the `payments` table, the date-range and month queries over
// `created_at`, the payment statistics, and the delete that first removes the payment's
// attachments through the attachment service.

module PaymentRecords {
  import opened Wrappers
  import opened Text
  import opened Seqs
  import opened Calendar
  import opened Entities
  import opened Tables
  import opened AttachmentRecords

  /** The row `createPayment` inserts at time `now`; `amount` is NOT NULL without a default. */
  function NewPayment(id: int, data: PaymentPatch, now: JsDate): (r: Result<Payment, string>)
    ensures r.Ok? <==> data.amount.Has?
    ensures r.Ok? ==> r.value.id == id && r.value.amount == data.amount.value && r.value.createdAt == now
  {
    if !data.amount.Has? then Err("NOT NULL constraint failed: payments.amount")
    else Ok(Payment(id, data.amount.value, data.paymentDate.Stored(), data.description.Stored(),
                    data.jobId.Stored(), now))
  }

  /** `repository.update(id, data)`: every property the patch carries is written. */
  function ApplyUpdate(p: Payment, d: PaymentPatch): (r: Payment)
    requires !d.amount.Null?
    ensures r.id == p.id && r.createdAt == p.createdAt
    ensures SetFrom(d.amount, p.amount, r.amount)
    ensures WrittenFrom(d.paymentDate, p.paymentDate, r.paymentDate) && WrittenFrom(d.description, p.description, r.description)
    ensures WrittenFrom(d.jobId, p.jobId, r.jobId)
    ensures d == PaymentPatch(Missing, Missing, Missing, Missing) ==> r == p
  {
    p.(amount := if d.amount.Has? then d.amount.value else p.amount,
       paymentDate := d.paymentDate.Over(p.paymentDate),
       description := d.description.Over(p.description),
       jobId := d.jobId.Over(p.jobId))
  }

  /** `created_at >= start AND created_at <= end`. */
  predicate InRange(p: Payment, start: JsDate, end: JsDate) {
    NotLater(start, p.createdAt) && NotLater(p.createdAt, end)
  }

  function Between(start: JsDate, end: JsDate): Payment -> bool {
    (p: Payment) => InRange(p, start, end)
  }

  /** `getPaymentsByDateRange(start, end)`, newest first. */
  function ByDateRange(t: seq<Payment>, start: JsDate, end: JsDate): (r: seq<Payment>)
    ensures |r| <= |t|
    ensures forall k :: 0 <= k < |r| ==> InRange(r[k], start, end)
  {
    Reverse(Filter(t, Between(start, end)))
  }

  /** `new Date(year, month - 1, 1)`: midnight of day 1. */
  function MonthStart(year: int, month: int): (r: JsDate)
    ensures 1 <= month <= 12 && !(0 <= year <= 99) ==> r == At(Civil(year, month, 1), 0)
  {
    if 1 <= month <= 12 then FirstDayOfMonth(year, month); NewDate(Int(year), Int(month - 1), Int(1))
    else NewDate(Int(year), Int(month - 1), Int(1))
  }

  /** `new Date(year, month, 0)`: day 0 of the next month, which is midnight at the start of
      the month's last day; February of a leap year ends on the 29th. */
  function MonthEndAsWritten(year: int, month: int): (r: JsDate)
    ensures 1 <= month <= 12 && !(0 <= year <= 99) ==> r == At(Civil(year, month, DaysInMonth(year, month)), 0)
  {
    if 1 <= month <= 12 then LastDayOfMonth(year, month); NewDate(Int(year), Int(month), Int(0))
    else NewDate(Int(year), Int(month), Int(0))
  }

  /** The last millisecond of the month's last day. */
  function MonthEnd(year: int, month: int): JsDate {
    var e := MonthEndAsWritten(year, month);
    if e.At? then At(e.date, MsPerDay - 1) else e
  }

  /** `getPaymentsByMonth(year, month)` as written. */
  function ByMonthAsWritten(t: seq<Payment>, year: int, month: int): (r: seq<Payment>)
    ensures |r| <= |t|
    ensures 1 <= month <= 12 && !(0 <= year <= 99) ==>
      forall k :: 0 <= k < |r| ==> CreatedInAsWritten(r[k], year, month)
  {
    var r := ByDateRange(t, MonthStart(year, month), MonthEndAsWritten(year, month));
    if 1 <= month <= 12 && !(0 <= year <= 99) then
      assert forall k :: 0 <= k < |r| ==> CreatedInAsWritten(r[k], year, month) by {
        forall k | 0 <= k < |r| ensures CreatedInAsWritten(r[k], year, month) {
          InMonthRangeAsWritten(r[k], year, month);
        }
      }
      r
    else r
  }

  /** `getPaymentsByMonth(year, month)` taking in the whole of the last day. */
  function ByMonth(t: seq<Payment>, year: int, month: int): (r: seq<Payment>)
    ensures |r| <= |t|
    ensures 1 <= month <= 12 && !(0 <= year <= 99) ==>
      forall k :: 0 <= k < |r| ==> CreatedIn(r[k], year, month)
  {
    var r := ByDateRange(t, MonthStart(year, month), MonthEnd(year, month));
    if 1 <= month <= 12 && !(0 <= year <= 99) then
      assert forall k :: 0 <= k < |r| ==> CreatedIn(r[k], year, month) by {
        forall k | 0 <= k < |r| ensures CreatedIn(r[k], year, month) {
          InMonthRange(r[k], year, month);
        }
      }
      r
    else r
  }

  /** The payment was created in the given calendar month. */
  predicate CreatedIn(p: Payment, year: int, month: int) {
    p.createdAt.At? && p.createdAt.date.year == year && p.createdAt.date.month == month
  }

  /** What the month query as written keeps: a payment of that calendar month, except one
      created on the month's last day after midnight. */
  predicate CreatedInAsWritten(p: Payment, year: int, month: int) {
    CreatedIn(p, year, month) && (p.createdAt.date.day < DaysInMonth(year, month) || p.createdAt.time == 0)
  }

  function SumAmounts(t: seq<Payment>): (r: int)
    ensures (forall k :: 0 <= k < |t| ==> t[k].amount >= 0) ==> r >= 0
    ensures |t| == 1 ==> r == t[0].amount
  {
    if t == [] then 0 else t[0].amount + SumAmounts(t[1..])
  }

  datatype PaymentStats = PaymentStats(totalAmount: int, totalCount: nat, monthlyAmount: int, monthlyCount: nat)

  /** `getPaymentStats` at time `now`: totals over the table, and over what the month query
      as written returns for the month `now` falls in. `SUM` over no rows is NULL, which
      `parseFloat(...) || 0` turns into 0. */
  function Stats(t: seq<Payment>, now: Date): (r: PaymentStats)
    ensures r.totalCount == |t| && r.monthlyCount <= r.totalCount
    ensures t == [] ==> r == PaymentStats(0, 0, 0, 0)
  {
    var monthly := ByMonthAsWritten(t, now.year, now.month);
    PaymentStats(SumAmounts(t), |t|, SumAmounts(monthly), |monthly|)
  }

  /** `getPaymentStats` over the corrected month query. */
  function StatsIntended(t: seq<Payment>, now: Date): (r: PaymentStats)
    ensures r.totalCount == |t| && r.monthlyCount <= r.totalCount
    ensures t == [] ==> r == PaymentStats(0, 0, 0, 0)
  {
    var monthly := ByMonth(t, now.year, now.month);
    PaymentStats(SumAmounts(t), |t|, SumAmounts(monthly), |monthly|)
  }

  /** The rows in insertion order carry the insertion clock: every `created_at` is a valid
      date, and no row was created before one inserted ahead of it. */
  predicate Chronological(t: seq<Payment>) {
    forall i, j :: 0 <= i <= j < |t| ==> NotLater(t[i].createdAt, t[j].createdAt)
  }

  /** `ORDER BY created_at DESC`: no row was created after one listed ahead of it. */
  predicate NewestFirst(t: seq<Payment>) {
    forall i, j :: 0 <= i <= j < |t| ==> NotLater(t[j].createdAt, t[i].createdAt)
  }

  /** The attachment survives the cascade of a delete of `paymentId`: it belongs to another
      payment, or its own delete failed. */
  function Survives(paymentId: int, failing: set<int>): Attachment -> bool {
    (a: Attachment) => !(a.paymentId == Some(paymentId) && a.id !in failing)
  }

  /** The ids of the attachments in `s` whose delete succeeds. */
  function DeletedIds(s: seq<Attachment>, failing: set<int>): set<int> {
    set a | a in s && a.id !in failing :: a.id
  }

  function IdNotIn(ids: set<int>): Attachment -> bool {
    (a: Attachment) => a.id !in ids
  }

  /** The disk after the cascade has deleted the attachments of `s` in order; a failed lookup
      (`failing`) or a failed unlink (`unlinkFailing`) leaves the file in place. A failed row
      delete comes after the unlink, so it removes the file all the same. */
  function FilesAfter(disk: map<string, Bytes>, s: seq<Attachment>, failing: set<int>, unlinkFailing: set<int>): map<string, Bytes> {
    if s == [] then disk
    else
      var d := FilesAfter(disk, s[..|s| - 1], failing, unlinkFailing);
      var a := s[|s| - 1];
      if a.id !in failing && a.id !in unlinkFailing then d - {a.filePath} else d
  }

  // ----- Properties -----

  /** `getPaymentsByDateRange` returns exactly the payments created within the range, both ends
      included. */
  lemma ByDateRangeExactly(t: seq<Payment>, start: JsDate, end: JsDate, p: Payment)
    ensures p in ByDateRange(t, start, end) <==> p in t && InRange(p, start, end)
  {
    var f := Filter(t, Between(start, end));
    FilterMembers(t, Between(start, end));
    var r := ByDateRange(t, start, end);
    if p in r {
      var i :| 0 <= i < |r| && r[i] == p;
      assert f[|f| - 1 - i] == p;
    }
    if p in t && InRange(p, start, end) {
      assert p in f;
      var k :| 0 <= k < |f| && f[k] == p;
      assert r[|f| - 1 - k] == p;
    }
  }

  /** A range whose ends are the same instant contains what was created at that instant. */
  lemma ByDateRangeIncludesBothEnds(p: Payment)
    requires p.createdAt.At?
    ensures InRange(p, p.createdAt, p.createdAt)
  {
  }

  function ForJob(jobId: int): Payment -> bool {
    (p: Payment) => p.jobId == Some(jobId)
  }

  /** `getPaymentsByJob(jobId)`, newest first. */
  function ByJob(t: seq<Payment>, jobId: int): (r: seq<Payment>)
    ensures forall p :: p in r <==> p in t && p.jobId == Some(jobId)
  {
    var f := Filter(t, ForJob(jobId));
    FilterMembers(t, ForJob(jobId));
    assert forall p :: p in Reverse(f) <==> p in f by {
      forall p ensures p in Reverse(f) <==> p in f {
        if p in f {
          var k :| 0 <= k < |f| && f[k] == p;
          assert Reverse(f)[|f| - 1 - k] == p;
        }
      }
    }
    Reverse(f)
  }

  /** With the whole last day taken in, the month query selects exactly the payments created in
      that calendar month. */
  lemma InMonthRange(p: Payment, year: int, month: int)
    requires 1 <= month <= 12 && !(0 <= year <= 99)
    ensures InRange(p, MonthStart(year, month), MonthEnd(year, month)) <==> CreatedIn(p, year, month)
  {
  }

  /** As written, the month query selects the payments of that calendar month except those
      created on its last day after midnight. */
  lemma InMonthRangeAsWritten(p: Payment, year: int, month: int)
    requires 1 <= month <= 12 && !(0 <= year <= 99)
    ensures InRange(p, MonthStart(year, month), MonthEndAsWritten(year, month)) <==> CreatedInAsWritten(p, year, month)
  {
  }

  lemma ByMonthAsWrittenExactly(t: seq<Payment>, year: int, month: int, p: Payment)
    requires 1 <= month <= 12 && !(0 <= year <= 99)
    ensures p in ByMonthAsWritten(t, year, month) <==> p in t && CreatedInAsWritten(p, year, month)
  {
    ByDateRangeExactly(t, MonthStart(year, month), MonthEndAsWritten(year, month), p);
    InMonthRangeAsWritten(p, year, month);
  }

  lemma ByMonthExactly(t: seq<Payment>, year: int, month: int, p: Payment)
    requires 1 <= month <= 12 && !(0 <= year <= 99)
    ensures p in ByMonth(t, year, month) <==> p in t && CreatedIn(p, year, month)
  {
    ByDateRangeExactly(t, MonthStart(year, month), MonthEnd(year, month), p);
    InMonthRange(p, year, month);
  }

  /** As written, a payment created on the month's last day after midnight is left out of
      that month. */
  lemma ByMonthAsWrittenMissesLastDay(year: int, month: int, p: Payment)
    requires 1 <= month <= 12 && !(0 <= year <= 99)
    requires p.createdAt.At? && p.createdAt.date == Civil(year, month, DaysInMonth(year, month)) && p.createdAt.time > 0
    ensures CreatedIn(p, year, month)
    ensures !InRange(p, MonthStart(year, month), MonthEndAsWritten(year, month))
    ensures InRange(p, MonthStart(year, month), MonthEnd(year, month))
  {
  }

  lemma {:induction false} SumConcat(a: seq<Payment>, b: seq<Payment>)
    ensures SumAmounts(a + b) == SumAmounts(a) + SumAmounts(b)
    decreases |a|
  {
    if a == [] {
      assert a + b == b;
    } else {
      SumConcat(a[1..], b);
      assert (a + b)[1..] == a[1..] + b;
    }
  }

  lemma {:induction false} SumReverse(t: seq<Payment>)
    ensures SumAmounts(Reverse(t)) == SumAmounts(t)
    decreases |t|
  {
    if t != [] {
      SumReverse(t[1..]);
      SumConcat(Reverse(t[1..]), [t[0]]);
    }
  }

  /** As written, the monthly figures are the count and the sum of the payments created in
      the month of `now` other than those of its last day after midnight; the totals are zero
      for an empty table. */
  lemma StatsSpec(t: seq<Payment>, now: Date)
    requires !(0 <= now.year <= 99)
    ensures Stats(t, now).monthlyCount == |Filter(t, CreatedInMonthAsWritten(now.year, now.month))|
    ensures Stats(t, now).monthlyAmount == SumAmounts(Filter(t, CreatedInMonthAsWritten(now.year, now.month)))
    ensures Stats(t, now).monthlyCount <= Stats(t, now).totalCount
    ensures t == [] ==> Stats(t, now).totalAmount == 0 && Stats(t, now).monthlyAmount == 0
  {
    var start := MonthStart(now.year, now.month);
    var end := MonthEndAsWritten(now.year, now.month);
    forall i | 0 <= i < |t|
      ensures Between(start, end)(t[i]) == CreatedInMonthAsWritten(now.year, now.month)(t[i])
    {
      InMonthRangeAsWritten(t[i], now.year, now.month);
    }
    FilterCongruent(t, Between(start, end), CreatedInMonthAsWritten(now.year, now.month));
    SumReverse(Filter(t, Between(start, end)));
  }

  /** Over the corrected month query, the monthly figures are the count and the sum of all the
      payments created in the month of `now`. */
  lemma StatsIntendedSpec(t: seq<Payment>, now: Date)
    requires !(0 <= now.year <= 99)
    ensures StatsIntended(t, now).monthlyCount == |Filter(t, CreatedInMonth(now.year, now.month))|
    ensures StatsIntended(t, now).monthlyAmount == SumAmounts(Filter(t, CreatedInMonth(now.year, now.month)))
    ensures StatsIntended(t, now).monthlyCount <= StatsIntended(t, now).totalCount
    ensures t == [] ==> StatsIntended(t, now).totalAmount == 0 && StatsIntended(t, now).monthlyAmount == 0
  {
    var start := MonthStart(now.year, now.month);
    var end := MonthEnd(now.year, now.month);
    forall i | 0 <= i < |t|
      ensures Between(start, end)(t[i]) == CreatedInMonth(now.year, now.month)(t[i])
    {
      InMonthRange(t[i], now.year, now.month);
    }
    FilterCongruent(t, Between(start, end), CreatedInMonth(now.year, now.month));
    SumReverse(Filter(t, Between(start, end)));
  }

  /** Reading a chronological table from last to first lists it newest first. */
  lemma ReverseNewestFirst(t: seq<Payment>)
    requires Chronological(t)
    ensures NewestFirst(Reverse(t))
  {
    var r := Reverse(t);
    forall i, j | 0 <= i <= j < |r|
      ensures NotLater(r[j].createdAt, r[i].createdAt)
    {
      assert r[j] == t[|t| - 1 - j] && r[i] == t[|t| - 1 - i];
    }
  }

  /** Any selection of a chronological table is chronological. */
  lemma {:induction false} FilterChronological(t: seq<Payment>, p: Payment -> bool)
    requires Chronological(t)
    ensures Chronological(Filter(t, p))
    decreases |t|
  {
    if t != [] {
      var tail := t[1..];
      assert Chronological(tail) by {
        forall i, j | 0 <= i <= j < |tail|
          ensures NotLater(tail[i].createdAt, tail[j].createdAt)
        {
          assert tail[i] == t[i + 1] && tail[j] == t[j + 1];
        }
      }
      FilterChronological(tail, p);
      var rest := Filter(tail, p);
      FilterMembers(tail, p);
      if p(t[0]) {
        var f := [t[0]] + rest;
        assert Filter(t, p) == f;
        forall i, j | 0 <= i <= j < |f|
          ensures NotLater(f[i].createdAt, f[j].createdAt)
        {
          if i == 0 {
            if j == 0 {
              assert NotLater(t[0].createdAt, t[0].createdAt);
            } else {
              assert f[j] == rest[j - 1] && rest[j - 1] in tail;
              var k :| 0 <= k < |tail| && tail[k] == f[j];
              assert t[k + 1] == f[j];
            }
          } else {
            assert f[i] == rest[i - 1] && f[j] == rest[j - 1];
          }
        }
      } else {
        assert Filter(t, p) == rest;
      }
    }
  }

  /** Inserting a row created no earlier than the last one keeps the table chronological. */
  lemma AppendChronological(t: seq<Payment>, p: Payment)
    requires Chronological(t) && p.createdAt.At?
    requires t != [] ==> NotLater(t[|t| - 1].createdAt, p.createdAt)
    ensures Chronological(t + [p])
  {
    var s := t + [p];
    forall i, j | 0 <= i <= j < |s|
      ensures NotLater(s[i].createdAt, s[j].createdAt)
    {
      if j == |t| {
        if i < |t| {
          NotLaterTransitive(t[i].createdAt, t[|t| - 1].createdAt, p.createdAt);
        } else {
          EarlierTrichotomy(p.createdAt, p.createdAt);
        }
      }
    }
  }

  /** Rewriting a row in place, with its creation time kept, keeps the table chronological. */
  lemma ReplacedChronological(t: seq<Payment>, id: int, x: Payment)
    requires Chronological(t)
    requires forall i :: 0 <= i < |t| && t[i].id == id ==> t[i].createdAt == x.createdAt
    ensures Chronological(Replaced(t, PaymentKey, id, x))
  {
    var r := Replaced(t, PaymentKey, id, x);
    forall i, j | 0 <= i <= j < |r|
      ensures NotLater(r[i].createdAt, r[j].createdAt)
    {
      assert r[i].createdAt == t[i].createdAt && r[j].createdAt == t[j].createdAt;
    }
  }

  /** The as-written and the intended statistics differ exactly in the payments of the last
      day of the month after midnight: at 10:00 on 31 January 2024 with one payment made that
      morning, the source reports no monthly payment. */
  lemma StatsMissLastDay(p: Payment, now: Date)
    requires now == Civil(2024, 1, 31)
    requires p.createdAt == At(Civil(2024, 1, 31), 36000000)
    ensures Stats([p], now).monthlyCount == 0
    ensures StatsIntended([p], now).monthlyCount == 1
  {
    InMonthRangeAsWritten(p, 2024, 1);
    InMonthRange(p, 2024, 1);
    assert Filter([p], Between(MonthStart(2024, 1), MonthEndAsWritten(2024, 1))) == [];
    assert Filter([p], Between(MonthStart(2024, 1), MonthEnd(2024, 1))) == [p];
  }

  function CreatedInMonth(year: int, month: int): Payment -> bool {
    (p: Payment) => CreatedIn(p, year, month)
  }

  function CreatedInMonthAsWritten(year: int, month: int): Payment -> bool {
    (p: Payment) => CreatedInAsWritten(p, year, month)
  }

  /** An attachment id is among those deleted exactly when some attachment of `s` with that id
      does not fail. */
  lemma DeletedIdsStep(s: seq<Attachment>, a: Attachment, failing: set<int>)
    ensures DeletedIds(s + [a], failing) == DeletedIds(s, failing) + (if a.id !in failing then {a.id} else {})
  {
  }

  /** Deleting one more attachment is filtering out one more id. */
  lemma DeleteOneMore(t: seq<Attachment>, ids: set<int>, x: int)
    ensures Without(Filter(t, IdNotIn(ids)), AttachmentKey, x) == Filter(t, IdNotIn(ids + {x}))
  {
    forall i | 0 <= i < |t|
      ensures IdNotIn(ids + {x})(t[i]) == (IdNotIn(ids)(t[i]) && KeyIsNot(AttachmentKey, x)(t[i]))
    {
      assert AttachmentKey(t[i]) == t[i].id;
    }
    FilterFilter(t, IdNotIn(ids), KeyIsNot(AttachmentKey, x), IdNotIn(ids + {x}));
  }

  lemma FilesAfterStep(disk: map<string, Bytes>, s: seq<Attachment>, i: int, failing: set<int>, unlinkFailing: set<int>)
    requires 0 <= i < |s|
    ensures FilesAfter(disk, s[..i + 1], failing, unlinkFailing)
         == if s[i].id !in failing && s[i].id !in unlinkFailing
            then FilesAfter(disk, s[..i], failing, unlinkFailing) - {s[i].filePath}
            else FilesAfter(disk, s[..i], failing, unlinkFailing)
  {
    assert s[..i + 1][..i] == s[..i];
  }

  /** A linked attachment not yet reached has not been deleted by an earlier step. */
  lemma NotYetDeleted(linked: seq<Attachment>, i: int, failing: set<int>)
    requires UniqueKeys(linked, AttachmentKey) && 0 <= i < |linked|
    ensures linked[i].id !in DeletedIds(linked[..i], failing)
  {
  }

  lemma DeletedIdsNext(s: seq<Attachment>, i: int, failing: set<int>)
    requires 0 <= i < |s|
    ensures s[i].id in failing ==> DeletedIds(s[..i + 1], failing) == DeletedIds(s[..i], failing)
    ensures s[i].id !in failing ==> DeletedIds(s[..i + 1], failing) == DeletedIds(s[..i], failing) + {s[i].id}
  {
    assert s[..i + 1] == s[..i] + [s[i]];
    DeletedIdsStep(s[..i], s[i], failing);
  }

  /** One step of the cascade: an attachment not yet deleted is still found, and deleting it
      filters out one more id. */
  lemma DeleteNext(t: seq<Attachment>, next: int, done: set<int>, a: Attachment)
    requires WellKeyed(t, AttachmentKey, next) && a in t && a.id !in done
    ensures Lookup(Filter(t, IdNotIn(done)), AttachmentKey, a.id) == Some(a)
    ensures Without(Filter(t, IdNotIn(done)), AttachmentKey, a.id) == Filter(t, IdNotIn(done + {a.id}))
  {
    var rows := Filter(t, IdNotIn(done));
    FilterMembers(t, IdNotIn(done));
    FilterWellKeyed(t, AttachmentKey, next, IdNotIn(done));
    var j :| 0 <= j < |t| && t[j] == a;
    assert a in rows;
    var k :| 0 <= k < |rows| && rows[k] == a;
    LookupUnique(rows, AttachmentKey, a.id, k);
    DeleteOneMore(t, done, a.id);
  }

  /** After the whole cascade, the attachments left are those of other payments and those whose
      delete failed. */
  lemma CascadeLeaves(t: seq<Attachment>, next: int, paymentId: int, failing: set<int>)
    requires WellKeyed(t, AttachmentKey, next)
    ensures Filter(t, IdNotIn(DeletedIds(Filter(t, LinkedToPayment(paymentId)), failing)))
         == Filter(t, Survives(paymentId, failing))
  {
    var linked := Filter(t, LinkedToPayment(paymentId));
    FilterMembers(t, LinkedToPayment(paymentId));
    var ids := DeletedIds(linked, failing);
    forall i | 0 <= i < |t|
      ensures IdNotIn(ids)(t[i]) == Survives(paymentId, failing)(t[i])
    {
      if t[i].id in ids {
        var a :| a in linked && a.id !in failing && a.id == t[i].id;
        var j :| 0 <= j < |t| && t[j] == a;
        assert i == j;
      } else if t[i].paymentId == Some(paymentId) {
        assert t[i] in linked;
      }
    }
    FilterCongruent(t, IdNotIn(ids), Survives(paymentId, failing));
  }

  /** The in-memory `payments` table behind `PaymentService`, with the attachment service it
      creates for itself. */
  class PaymentService {
    var payments: seq<Payment>
    var nextId: int
    const attachmentService: AttachmentService

    ghost predicate Valid()
      reads this, attachmentService
    {
      WellKeyed(payments, PaymentKey, nextId) && Chronological(payments) && attachmentService.Valid()
    }

    constructor(userData: string, stored: Option<string>, files: map<string, Bytes>)
      ensures Valid() && payments == [] && fresh(attachmentService)
      ensures attachmentService.rows == [] && attachmentService.disk == files
    {
      payments := [];
      nextId := 1;
      attachmentService := new AttachmentService(userData, stored, files);
    }

    /** `createPayment` at time `now`, the clock `created_at` is stamped from; the clock does not
        run backwards. */
    method CreatePayment(data: PaymentPatch, now: JsDate) returns (r: Result<Payment, string>)
      requires Valid()
      requires now.At? && (payments != [] ==> NotLater(payments[|payments| - 1].createdAt, now))
      modifies this
      ensures Valid()
      ensures r == NewPayment(old(nextId), data, now)
      ensures r.Ok? ==> payments == old(payments) + [r.value]
      ensures r.Err? ==> payments == old(payments)
    {
      r := NewPayment(nextId, data, now);
      if r.Ok? {
        AppendWellKeyed(payments, PaymentKey, nextId, r.value);
        AppendChronological(payments, r.value);
        payments := payments + [r.value];
        nextId := nextId + 1;
      }
    }

    /** `getAllPayments`, newest first. */
    method GetAllPayments() returns (r: seq<Payment>)
      requires Valid()
      ensures r == Reverse(payments) && NewestFirst(r)
    {
      r := Reverse(payments);
      ReverseNewestFirst(payments);
    }

    method GetPaymentById(id: int) returns (r: Option<Payment>)
      ensures r == Lookup(payments, PaymentKey, id)
    {
      r := Lookup(payments, PaymentKey, id);
    }

    method GetPaymentsByJob(jobId: int) returns (r: seq<Payment>)
      requires Valid()
      ensures r == ByJob(payments, jobId) && NewestFirst(r)
    {
      r := ByJob(payments, jobId);
      FilterChronological(payments, ForJob(jobId));
      ReverseNewestFirst(Filter(payments, ForJob(jobId)));
    }

    /** `updatePayment`: a store failure (`failure`, the store's message) propagates as it
        is. The `UPDATE` matches no row when `id` is missing, so a missing row reads back as
        nothing whatever the patch; on an existing row a null amount is an error. */
    method UpdatePayment(id: int, d: PaymentPatch, failure: Option<string>) returns (r: Result<Option<Payment>, string>)
      requires Valid()
      modifies this
      ensures Valid() && nextId == old(nextId)
      ensures r.Err? ==> payments == old(payments)
      ensures failure.Some? ==> r == Err(failure.value)
      ensures failure.None? && Lookup(old(payments), PaymentKey, id).None? ==>
        r == Ok(None) && payments == old(payments)
      ensures failure.None? && Lookup(old(payments), PaymentKey, id).Some? && d.amount.Null? ==>
        r == Err("NOT NULL constraint failed: payments.amount")
      ensures failure.None? && Lookup(old(payments), PaymentKey, id).Some? && !d.amount.Null? ==>
        r == Ok(Some(ApplyUpdate(Lookup(old(payments), PaymentKey, id).value, d)))
        && payments == Replaced(old(payments), PaymentKey, id, r.value.value)
    {
      if failure.Some? {
        return Err(failure.value);
      }
      var cur := Lookup(payments, PaymentKey, id);
      if cur.None? {
        return Ok(None);
      }
      if d.amount.Null? {
        return Err("NOT NULL constraint failed: payments.amount");
      }
      var p := ApplyUpdate(cur.value, d);
      ReplacedWellKeyed(payments, PaymentKey, nextId, id, p);
      forall i | 0 <= i < |payments| && payments[i].id == id
        ensures payments[i].createdAt == p.createdAt
      {
        var k :| 0 <= k < |payments| && payments[k] == cur.value;
        assert PaymentKey(payments[i]) == PaymentKey(payments[k]);
      }
      ReplacedChronological(payments, id, p);
      payments := Replaced(payments, PaymentKey, id, p);
      r := Ok(Some(p));
    }

    method GetPaymentsByDateRange(start: JsDate, end: JsDate) returns (r: seq<Payment>)
      requires Valid()
      ensures r == ByDateRange(payments, start, end) && NewestFirst(r)
    {
      r := ByDateRange(payments, start, end);
      FilterChronological(payments, Between(start, end));
      ReverseNewestFirst(Filter(payments, Between(start, end)));
    }

    method GetPaymentsByMonth(year: int, month: int) returns (r: seq<Payment>)
      requires Valid()
      ensures r == ByMonthAsWritten(payments, year, month) && NewestFirst(r)
      ensures 1 <= month <= 12 && !(0 <= year <= 99) ==>
        forall p :: p in r <==> p in payments && CreatedInAsWritten(p, year, month)
    {
      r := ByMonthAsWritten(payments, year, month);
      var between := Between(MonthStart(year, month), MonthEndAsWritten(year, month));
      FilterChronological(payments, between);
      ReverseNewestFirst(Filter(payments, between));
      if 1 <= month <= 12 && !(0 <= year <= 99) {
        forall p
          ensures p in r <==> p in payments && CreatedInAsWritten(p, year, month)
        {
          ByMonthAsWrittenExactly(payments, year, month, p);
        }
      }
    }

    method GetTotalPayments() returns (r: int)
      ensures r == SumAmounts(payments)
    {
      r := SumAmounts(payments);
    }

    method GetPaymentStats(now: Date) returns (r: PaymentStats)
      ensures r == Stats(payments, now)
      ensures !(0 <= now.year <= 99) ==>
        r.monthlyCount == |Filter(payments, CreatedInMonthAsWritten(now.year, now.month))|
        && r.monthlyAmount == SumAmounts(Filter(payments, CreatedInMonthAsWritten(now.year, now.month)))
        && r.totalAmount == SumAmounts(payments) && r.totalCount == |payments|
    {
      r := Stats(payments, now);
      if !(0 <= now.year <= 99) {
        StatsSpec(payments, now);
      }
    }

    /** The first half of `deletePayment`: each attachment of the payment is deleted in turn,
        carrying on past those whose delete throws, at the lookup (`findFailing`) or at the row
        delete after the unlink (`rowFailing`). */
    method DeleteAttachmentsOf(id: int, findFailing: set<int>, rowFailing: set<int>, unlinkFailing: set<int>)
      requires Valid()
      modifies attachmentService
      ensures Valid()
      ensures attachmentService.attachmentsPath == old(attachmentService.attachmentsPath)
      ensures attachmentService.rows == Filter(old(attachmentService.rows), Survives(id, findFailing + rowFailing))
      ensures attachmentService.disk == FilesAfter(old(attachmentService.disk),
        Filter(old(attachmentService.rows), LinkedToPayment(id)), findFailing, unlinkFailing)
    {
      var failing := findFailing + rowFailing;
      var rows0 := attachmentService.rows;
      var disk0 := attachmentService.disk;
      var next := attachmentService.nextId;
      var linked := Filter(rows0, LinkedToPayment(id));
      FilterMembers(rows0, LinkedToPayment(id));
      assert DeletedIds(linked[..0], failing) == {};
      FilterAllPass(rows0, IdNotIn({}));
      FilterWellKeyed(rows0, AttachmentKey, next, LinkedToPayment(id));
      var i := 0;
      while i < |linked|
        invariant 0 <= i <= |linked|
        invariant attachmentService.Valid() && attachmentService.nextId == next
        invariant attachmentService.rows == Filter(rows0, IdNotIn(DeletedIds(linked[..i], failing)))
        invariant attachmentService.disk == FilesAfter(disk0, linked[..i], findFailing, unlinkFailing)
        invariant attachmentService.attachmentsPath == old(attachmentService.attachmentsPath)
      {
        var a := linked[i];
        FilesAfterStep(disk0, linked, i, findFailing, unlinkFailing);
        DeletedIdsNext(linked, i, failing);
        if a.id !in findFailing {
          NotYetDeleted(linked, i, failing);
          DeleteNext(rows0, next, DeletedIds(linked[..i], failing), a);
        }
        var failure := if a.id in findFailing then LookupFails
                       else if a.id in rowFailing then RowDeleteFails
                       else NoFailure;
        var _ := attachmentService.DeleteAttachment(a.id, failure, a.id in unlinkFailing);
        i := i + 1;
      }
      assert linked[..i] == linked;
      CascadeLeaves(rows0, next, id, failing);
    }

    /** `deletePayment`: the payment's attachments first, then the payment row. A failing
        attachment listing (`lookupFails`) or payment delete (`deleteFails`) yields false. */
    method DeletePayment(id: int, lookupFails: bool, findFailing: set<int>, rowFailing: set<int>,
                         unlinkFailing: set<int>, deleteFails: bool) returns (r: bool)
      requires Valid()
      modifies this, attachmentService
      ensures Valid() && nextId == old(nextId)
      ensures attachmentService.attachmentsPath == old(attachmentService.attachmentsPath)
      ensures lookupFails ==>
        (!r && payments == old(payments)
         && attachmentService.rows == old(attachmentService.rows)
         && attachmentService.disk == old(attachmentService.disk))
      ensures !lookupFails ==>
        attachmentService.rows == Filter(old(attachmentService.rows), Survives(id, findFailing + rowFailing))
      ensures !lookupFails ==>
        attachmentService.disk == FilesAfter(old(attachmentService.disk),
          Filter(old(attachmentService.rows), LinkedToPayment(id)), findFailing, unlinkFailing)
      ensures !lookupFails && deleteFails ==> !r && payments == old(payments)
      ensures !lookupFails && !deleteFails ==>
        (r <==> Lookup(old(payments), PaymentKey, id).Some?) && payments == Without(old(payments), PaymentKey, id)
    {
      if lookupFails {
        return false;
      }
      DeleteAttachmentsOf(id, findFailing, rowFailing, unlinkFailing);
      if deleteFails {
        return false;
      }
      r := Lookup(payments, PaymentKey, id).Some?;
      WithoutWellKeyed(payments, PaymentKey, nextId, id);
      FilterChronological(payments, KeyIsNot(PaymentKey, id));
      payments := Without(payments, PaymentKey, id);
    }
  }
}
