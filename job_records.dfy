// The back-end job service: the `jobs` table and the rules its methods apply to it.
// The table is kept in insertion order, which is `created_at` order, so "newest first"
// (`ORDER BY created_at DESC`) is the reverse of the table.

module JobRecords {
  import opened Wrappers
  import opened Text
  import opened Seqs
  import opened Entities
  import opened Tables

  /** `jobData.status || JobStatus.PENDING`. */
  function InitialStatus(f: Field<string>): (s: string)
    ensures s != ""
    ensures f.IsTruthy("") ==> s == f.value
    ensures !f.IsTruthy("") ==> s == PENDING
  {
    if f.IsTruthy("") then f.value else PENDING
  }

  /** The row `createJob` inserts for `data` under primary key `id`. */
  function NewJob(id: int, data: JobPatch): (r: Job)
    requires data.title.Has?
    ensures r.id == id && r.title == data.title.value && r.status != ""
    ensures data.status.IsTruthy("") ==> r.status == data.status.value
    ensures !data.status.IsTruthy("") ==> r.status == PENDING
    ensures r.completedDate == data.completedDate.Stored() && r.price == data.price.Stored()
  {
    Job(id, data.title.value, data.description.Stored(), InitialStatus(data.status),
        data.price.Stored(), data.clientId.Stored(), data.jobTypeId.Stored(),
        data.dueDate.Stored(), data.startDate.Stored(), data.completedDate.Stored())
  }

  /** What `updateJob` writes into a row: title, description, status, price, client, due date
      and start date, each only when the patch carries it. */
  function ApplyUpdate(j: Job, p: JobPatch): (r: Job)
    ensures r.id == j.id && r.jobTypeId == j.jobTypeId && r.completedDate == j.completedDate
    ensures p.title.Has? ==> r.title == p.title.value
    ensures p.status.Has? ==> r.status == p.status.value
    ensures SetFrom(p.title, j.title, r.title) && SetFrom(p.status, j.status, r.status)
    ensures WrittenFrom(p.description, j.description, r.description) && WrittenFrom(p.price, j.price, r.price)
    ensures WrittenFrom(p.clientId, j.clientId, r.clientId)
    ensures WrittenFrom(p.dueDate, j.dueDate, r.dueDate) && WrittenFrom(p.startDate, j.startDate, r.startDate)
    ensures p == JobPatch(Missing, Missing, Missing, Missing, Missing, p.jobTypeId, Missing, Missing, p.completedDate) ==> r == j
  {
    j.(title := if p.title.Has? then p.title.value else j.title,
       description := p.description.Over(j.description),
       status := if p.status.Has? then p.status.value else j.status,
       price := p.price.Over(j.price),
       clientId := p.clientId.Over(j.clientId),
       dueDate := p.dueDate.Over(j.dueDate),
       startDate := p.startDate.Over(j.startDate))
  }

  /** `title` and `status` are NOT NULL columns: setting either to null makes the update fail. */
  predicate Writable(p: JobPatch) {
    !p.title.Null? && !p.status.Null?
  }

  /** SQLite `column LIKE '%term%'`: containment with ASCII letters compared case-insensitively. */
  predicate Like(column: string, term: string) {
    Contains(Lower(column), Lower(term))
  }

  /** The `WHERE` of `searchJobs`, over the job and its joined client. */
  predicate JobMatches(j: Job, clients: seq<Client>, term: string) {
    Like(j.title, term)
    || (j.description.Some? && Like(j.description.value, term))
    || (ClientOf(j, clients).Some? && Like(ClientOf(j, clients).value.name, term))
  }

  function Matching(clients: seq<Client>, term: string): Job -> bool {
    (j: Job) => JobMatches(j, clients, term)
  }

  /** `searchJobs(term)`, newest first. */
  function SearchResults(t: seq<Job>, clients: seq<Client>, term: string): (r: seq<Job>)
    ensures |r| <= |t|
    ensures forall k :: 0 <= k < |r| ==> JobMatches(r[k], clients, term)
  {
    Reverse(Filter(t, Matching(clients, term)))
  }

  /** The rows of one status (`getJobsByStatus`), newest first. */
  function WithStatus(status: string): Job -> bool {
    (j: Job) => j.status == status
  }

  /** The rows of one client (`getJobsByClient`). */
  function WithClient(clientId: int): Job -> bool {
    (j: Job) => j.clientId == Some(clientId)
  }

  function CountStatus(t: seq<Job>, status: string): (n: nat)
    ensures n <= |t|
    ensures n == 0 <==> forall i :: 0 <= i < |t| ==> t[i].status != status
  {
    if t == [] then 0 else (if t[0].status == status then 1 else 0) + CountStatus(t[1..], status)
  }

  datatype JobStats = JobStats(total: nat, pending: nat, inProgress: nat, completed: nat, cancelled: nat)

  /** `getJobStats`. */
  function Stats(t: seq<Job>): (r: JobStats)
    ensures r.total == |t|
    ensures r.pending <= r.total && r.inProgress <= r.total && r.completed <= r.total && r.cancelled <= r.total
    ensures t == [] ==> r == JobStats(0, 0, 0, 0, 0)
  {
    JobStats(|t|, CountStatus(t, PENDING), CountStatus(t, IN_PROGRESS),
             CountStatus(t, COMPLETED), CountStatus(t, CANCELLED))
  }

  predicate IsKnownStatus(s: string) {
    s == PENDING || s == IN_PROGRESS || s == COMPLETED || s == CANCELLED
  }

  /** `ORDER BY price DESC` ranks `a` no lower than `b`; SQLite sorts NULL below every number. */
  predicate PriceAtLeast(a: Job, b: Job) {
    b.price.None? || (a.price.Some? && a.price.value >= b.price.value)
  }

  /** `getJobsWithHighestPrice`: ordered by price, highest first, at most ten rows. */
  function HighestPriced(t: seq<Job>): (r: seq<Job>)
    ensures |r| == if |t| < 10 then |t| else 10
    ensures forall j :: j in r ==> j in t
  {
    var sorted := SortBy(t, PriceAtLeast);
    assert |multiset(sorted)| == |multiset(t)|;
    var r := Take(sorted, 10);
    assert forall j :: j in r ==> j in multiset(sorted);
    r
  }

  // ----- Properties -----

  /** `searchJobs` returns exactly the matching jobs. */
  lemma SearchJobsExactly(t: seq<Job>, clients: seq<Client>, term: string, j: Job)
    ensures j in SearchResults(t, clients, term) <==> j in t && JobMatches(j, clients, term)
  {
    var f := Filter(t, Matching(clients, term));
    FilterMembers(t, Matching(clients, term));
    var r := SearchResults(t, clients, term);
    if j in r {
      var i :| 0 <= i < |r| && r[i] == j;
      assert f[|f| - 1 - i] == j;
    }
    if j in t && JobMatches(j, clients, term) {
      var i :| 0 <= i < |t| && t[i] == j;
      assert j in f;
      var k :| 0 <= k < |f| && f[k] == j;
      assert r[|f| - 1 - k] == j;
    }
  }

  /** Newest first: a job created after the others leads the results when it matches. */
  lemma SearchJobsNewestFirst(t: seq<Job>, j: Job, clients: seq<Client>, term: string)
    ensures SearchResults(t + [j], clients, term) ==
      (if JobMatches(j, clients, term) then [j] else []) + SearchResults(t, clients, term)
  {
    var p := Matching(clients, term);
    FilterConcat(t, [j], p);
    ReverseConcat(Filter(t, p), Filter([j], p));
  }

  /** The per-status counts never exceed the total, and add up to it when every job carries
      one of the four statuses. */
  lemma {:induction false} StatsAddUp(t: seq<Job>)
    ensures Stats(t).pending + Stats(t).inProgress + Stats(t).completed + Stats(t).cancelled <= Stats(t).total
    ensures (forall i :: 0 <= i < |t| ==> IsKnownStatus(t[i].status)) ==>
      Stats(t).pending + Stats(t).inProgress + Stats(t).completed + Stats(t).cancelled == Stats(t).total
    decreases |t|
  {
    if t != [] {
      StatsAddUp(t[1..]);
    }
  }

  lemma PriceAtLeastIsTotalPreorder()
    ensures IsTotalPreorder(PriceAtLeast)
  {
  }

  /** `getJobsWithHighestPrice` returns at most ten jobs of the table, highest price first, and
      no job it leaves out is priced above one it returns. */
  lemma HighestPricedSpec(t: seq<Job>)
    ensures |HighestPriced(t)| == if |t| < 10 then |t| else 10
    ensures SortedBy(HighestPriced(t), PriceAtLeast)
    ensures multiset(HighestPriced(t)) <= multiset(t)
    ensures forall x, y :: x in HighestPriced(t) && y in multiset(t) - multiset(HighestPriced(t)) ==>
      PriceAtLeast(x, y)
  {
    PriceAtLeastIsTotalPreorder();
    TopOfSortBy(t, 10, PriceAtLeast);
  }

  /** The in-memory `jobs` table behind `JobService`. */
  class JobService {
    var jobs: seq<Job>
    var nextId: int

    ghost predicate Valid()
      reads this
    {
      WellKeyed(jobs, JobKey, nextId)
    }

    constructor()
      ensures Valid() && jobs == []
    {
      jobs := [];
      nextId := 1;
    }

    /** `createJob`: the new row has the supplied status, or pending when none is supplied. */
    method CreateJob(data: JobPatch) returns (r: Result<Job, string>)
      requires Valid()
      modifies this
      ensures Valid()
      ensures data.title.Has? ==> r == Ok(NewJob(old(nextId), data)) && jobs == old(jobs) + [r.value]
      ensures !data.title.Has? ==> r.Err? && jobs == old(jobs)
    {
      if !data.title.Has? {
        r := Err("NOT NULL constraint failed: jobs.title");
        return;
      }
      var j := NewJob(nextId, data);
      AppendWellKeyed(jobs, JobKey, nextId, j);
      jobs := jobs + [j];
      nextId := nextId + 1;
      r := Ok(j);
    }

    /** `getAllJobs`, newest first. */
    method GetAllJobs() returns (r: seq<Job>)
      ensures r == Reverse(jobs)
    {
      r := Reverse(jobs);
    }

    method GetJobById(id: int) returns (r: Option<Job>)
      ensures r == Lookup(jobs, JobKey, id)
    {
      r := Lookup(jobs, JobKey, id);
    }

    /** `getJobsByStatus`, newest first. */
    method GetJobsByStatus(status: string) returns (r: seq<Job>)
      ensures r == Reverse(Filter(jobs, WithStatus(status)))
    {
      r := Reverse(Filter(jobs, WithStatus(status)));
    }

    /** `getJobsByClient`, newest first. */
    method GetJobsByClient(clientId: int) returns (r: seq<Job>)
      ensures r == Reverse(Filter(jobs, WithClient(clientId)))
    {
      r := Reverse(Filter(jobs, WithClient(clientId)));
    }

    /** `updateJob`: nothing when the row is missing or the store fails (`fails`); otherwise
        the row rewritten by the whitelist, read back. */
    method UpdateJob(id: int, p: JobPatch, fails: bool) returns (r: Option<Job>)
      requires Valid()
      modifies this
      ensures Valid() && nextId == old(nextId)
      ensures fails || Lookup(old(jobs), JobKey, id).None? || !Writable(p) ==> r.None? && jobs == old(jobs)
      ensures !fails && Lookup(old(jobs), JobKey, id).Some? && Writable(p) ==>
        r == Some(ApplyUpdate(Lookup(old(jobs), JobKey, id).value, p))
        && jobs == Replaced(old(jobs), JobKey, id, r.value)
    {
      var cur := Lookup(jobs, JobKey, id);
      if fails || cur.None? || !Writable(p) {
        return None;
      }
      var j := ApplyUpdate(cur.value, p);
      ReplacedWellKeyed(jobs, JobKey, nextId, id, j);
      jobs := Replaced(jobs, JobKey, id, j);
      r := Some(j);
    }

    /** `updateStatus`: changes the status of the row and nothing else. */
    method UpdateStatus(id: int, status: string, fails: bool) returns (r: Option<Job>)
      requires Valid()
      modifies this
      ensures Valid() && nextId == old(nextId)
      ensures fails || Lookup(old(jobs), JobKey, id).None? ==> r.None? && jobs == old(jobs)
      ensures !fails && Lookup(old(jobs), JobKey, id).Some? ==>
        r == Some(Lookup(old(jobs), JobKey, id).value.(status := status))
        && jobs == Replaced(old(jobs), JobKey, id, r.value)
    {
      var cur := Lookup(jobs, JobKey, id);
      if fails || cur.None? {
        return None;
      }
      var j := cur.value.(status := status);
      ReplacedWellKeyed(jobs, JobKey, nextId, id, j);
      jobs := Replaced(jobs, JobKey, id, j);
      r := Some(j);
    }

    /** `deleteJob`: true exactly when a row was removed. */
    method DeleteJob(id: int) returns (removed: bool)
      requires Valid()
      modifies this
      ensures Valid() && nextId == old(nextId)
      ensures removed <==> Lookup(old(jobs), JobKey, id).Some?
      ensures jobs == Without(old(jobs), JobKey, id)
    {
      removed := Lookup(jobs, JobKey, id).Some?;
      WithoutWellKeyed(jobs, JobKey, nextId, id);
      jobs := Without(jobs, JobKey, id);
    }

    method SearchJobs(clients: seq<Client>, term: string) returns (r: seq<Job>)
      ensures r == SearchResults(jobs, clients, term)
    {
      r := SearchResults(jobs, clients, term);
    }

    method GetJobStats() returns (r: JobStats)
      ensures r == Stats(jobs)
      ensures r.pending + r.inProgress + r.completed + r.cancelled <= r.total
    {
      StatsAddUp(jobs);
      r := Stats(jobs);
    }

    method GetJobsWithHighestPrice() returns (r: seq<Job>)
      ensures r == HighestPriced(jobs)
      ensures |r| <= 10 && SortedBy(r, PriceAtLeast)
    {
      HighestPricedSpec(jobs);
      r := HighestPriced(jobs);
    }
  }

  /** After an update, reading the row back by id gives the rewritten row, which still carries
      the job type and the completion date it had before. */
  lemma UpdateReadBack(t: seq<Job>, id: int, p: JobPatch)
    requires UniqueKeys(t, JobKey) && Lookup(t, JobKey, id).Some?
    ensures var j := ApplyUpdate(Lookup(t, JobKey, id).value, p);
      Lookup(Replaced(t, JobKey, id, j), JobKey, id) == Some(j)
      && j.jobTypeId == Lookup(t, JobKey, id).value.jobTypeId
      && j.completedDate == Lookup(t, JobKey, id).value.completedDate
  {
    var j := ApplyUpdate(Lookup(t, JobKey, id).value, p);
    ReplacedLookup(t, JobKey, id, j, id);
  }
}
