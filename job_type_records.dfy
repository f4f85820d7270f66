// The back-end job-type service: the `job_types` table, listed by name.

module JobTypeRecords {
  import opened Wrappers
  import opened Seqs
  import opened Entities
  import opened Tables
  import JobRecords

  const DEFAULT_BASE_PRICE: int := 0
  /** One hour, in hundredths of an hour. */
  const DEFAULT_BASE_HOURS: int := 100
  const DEFAULT_COLOR: string := "#3B82F6"

  /** A column with a default: an absent property takes the default. */
  function OrDefault<T>(f: Field<T>, default: T): T
    requires !f.Null?
  {
    if f.Has? then f.value else default
  }

  /** The row `createJobType` inserts. `name` has no default; a null written into a NOT NULL
      column fails. */
  function NewJobType(id: int, data: JobTypePatch): (r: Result<JobType, string>)
    ensures r.Ok? <==> data.name.Has? && !data.basePrice.Null? && !data.baseHours.Null? && !data.colorHex.Null?
    ensures r.Ok? ==> r.value.id == id && r.value.name == data.name.value
    ensures r.Ok? && data.basePrice.Missing? ==> r.value.basePrice == DEFAULT_BASE_PRICE
    ensures r.Ok? && data.baseHours.Missing? ==> r.value.baseHours == DEFAULT_BASE_HOURS
    ensures r.Ok? && data.colorHex.Missing? ==> r.value.colorHex == DEFAULT_COLOR
  {
    if !data.name.Has? then Err("Failed to create job type: NOT NULL constraint failed: job_types.name")
    else if data.basePrice.Null? || data.baseHours.Null? || data.colorHex.Null? then
      Err("Failed to create job type: NOT NULL constraint failed")
    else
      Ok(JobType(id, data.name.value, data.description.Stored(),
                 OrDefault(data.basePrice, DEFAULT_BASE_PRICE), OrDefault(data.baseHours, DEFAULT_BASE_HOURS),
                 OrDefault(data.colorHex, DEFAULT_COLOR)))
  }

  /** `repository.update(id, data)`: every property the patch carries is written. */
  function ApplyUpdate(t: JobType, p: JobTypePatch): (r: JobType)
    requires Writable(p)
    ensures r.id == t.id
    ensures SetFrom(p.name, t.name, r.name) && WrittenFrom(p.description, t.description, r.description)
    ensures SetFrom(p.basePrice, t.basePrice, r.basePrice) && SetFrom(p.baseHours, t.baseHours, r.baseHours)
    ensures SetFrom(p.colorHex, t.colorHex, r.colorHex)
    ensures p == JobTypePatch(Missing, Missing, Missing, Missing, Missing) ==> r == t
  {
    t.(name := OrDefault(p.name, t.name),
       description := p.description.Over(t.description),
       basePrice := OrDefault(p.basePrice, t.basePrice),
       baseHours := OrDefault(p.baseHours, t.baseHours),
       colorHex := OrDefault(p.colorHex, t.colorHex))
  }

  predicate Writable(p: JobTypePatch) {
    !p.name.Null? && !p.basePrice.Null? && !p.baseHours.Null? && !p.colorHex.Null?
  }

  /** `a` sorts before `b` or equal to it: SQLite's binary collation, character code by
      character code, a prefix first. */
  predicate StringAtMost(a: string, b: string) {
    a == [] || (b != [] && (a[0] < b[0] || (a[0] == b[0] && StringAtMost(a[1..], b[1..]))))
  }

  lemma {:induction false} StringAtMostTotal(a: string, b: string)
    ensures StringAtMost(a, b) || StringAtMost(b, a)
    decreases |a|
  {
    if a != [] && b != [] && a[0] == b[0] {
      StringAtMostTotal(a[1..], b[1..]);
    }
  }

  lemma {:induction false} StringAtMostTransitive(a: string, b: string, c: string)
    requires StringAtMost(a, b) && StringAtMost(b, c)
    ensures StringAtMost(a, c)
    decreases |a|
  {
    if a != [] && a[0] == b[0] && b[0] == c[0] {
      StringAtMostTransitive(a[1..], b[1..], c[1..]);
    }
  }

  /** `ORDER BY name ASC`. */
  predicate NameAtMost(a: JobType, b: JobType) {
    StringAtMost(a.name, b.name)
  }

  lemma NameOrderIsTotalPreorder()
    ensures IsTotalPreorder(NameAtMost)
  {
    forall a: JobType, b: JobType
      ensures NameAtMost(a, b) || NameAtMost(b, a)
    {
      StringAtMostTotal(a.name, b.name);
    }
    forall a: JobType, b: JobType, c: JobType | NameAtMost(a, b) && NameAtMost(b, c)
      ensures NameAtMost(a, c)
    {
      StringAtMostTransitive(a.name, b.name, c.name);
    }
  }

  /** `getAllJobTypes`. */
  /** `getAllJobTypes` lists every job type once, in ascending name order. */
  function ByName(t: seq<JobType>): (r: seq<JobType>)
    ensures SortedBy(r, NameAtMost)
    ensures multiset(r) == multiset(t)
  {
    NameOrderIsTotalPreorder();
    SortBySorted(t, NameAtMost);
    SortBy(t, NameAtMost)
  }

  predicate TypeMatches(jt: JobType, term: string) {
    JobRecords.Like(jt.name, term) || (jt.description.Some? && JobRecords.Like(jt.description.value, term))
  }

  function Matching(term: string): JobType -> bool {
    (jt: JobType) => TypeMatches(jt, term)
  }

  /** `searchJobTypes(term)`: exactly the matching job types, in ascending name order. */
  function SearchResults(t: seq<JobType>, term: string): (r: seq<JobType>)
    ensures SortedBy(r, NameAtMost)
    ensures forall jt :: jt in r <==> jt in t && TypeMatches(jt, term)
  {
    var f := Filter(t, Matching(term));
    FilterMembers(t, Matching(term));
    NameOrderIsTotalPreorder();
    SortBySorted(f, NameAtMost);
    var r := SortBy(f, NameAtMost);
    assert forall jt :: jt in r <==> jt in multiset(f);
    r
  }

  function UsesType(id: int): Job -> bool {
    (j: Job) => j.jobTypeId == Some(id)
  }

  /** The prefix `updateJobType` puts before the message of whatever the store throws. */
  const UPDATE_ERROR_PREFIX: string := "Failed to update job type: "

  /** The prefix `deleteJobType` puts before the message of whatever its body throws. */
  const DELETE_ERROR_PREFIX: string := "Failed to delete job type: "

  /** The error `deleteJobType` reports for a type still in use. */
  const IN_USE_ERROR: string := DELETE_ERROR_PREFIX + "Cannot delete job type that is being used by existing jobs"

  /** SQLite's message for an `UPDATE` that writes NULL into a NOT NULL column; the first such
      column in table order is named. */
  function NotNullError(p: JobTypePatch): string {
    "NOT NULL constraint failed: job_types." +
    (if p.name.Null? then "name" else if p.basePrice.Null? then "base_price"
     else if p.baseHours.Null? then "base_hours" else "color_hex")
  }

  /** The in-memory `job_types` table behind `JobTypeService`. */
  class JobTypeService {
    var types: seq<JobType>
    var nextId: int

    ghost predicate Valid()
      reads this
    {
      WellKeyed(types, JobTypeKey, nextId)
    }

    constructor()
      ensures Valid() && types == []
    {
      types := [];
      nextId := 1;
    }

    method CreateJobType(data: JobTypePatch) returns (r: Result<JobType, string>)
      requires Valid()
      modifies this
      ensures Valid()
      ensures r == NewJobType(old(nextId), data)
      ensures r.Ok? ==> types == old(types) + [r.value]
      ensures r.Err? ==> types == old(types)
    {
      r := NewJobType(nextId, data);
      if r.Ok? {
        AppendWellKeyed(types, JobTypeKey, nextId, r.value);
        types := types + [r.value];
        nextId := nextId + 1;
      }
    }

    method GetAllJobTypes() returns (r: seq<JobType>)
      ensures r == ByName(types)
      ensures SortedBy(r, NameAtMost) && multiset(r) == multiset(types)
    {
      r := ByName(types);
    }

    method GetJobTypeById(id: int) returns (r: Option<JobType>)
      ensures r == Lookup(types, JobTypeKey, id)
    {
      r := Lookup(types, JobTypeKey, id);
    }

    /** `updateJobType`: a store failure (`failure`, the store's message) is an error. The
        `UPDATE` matches no row when `id` is missing, so a missing row reads back as nothing
        whatever the patch; on an existing row a null in a NOT NULL column is an error. */
    method UpdateJobType(id: int, p: JobTypePatch, failure: Option<string>) returns (r: Result<Option<JobType>, string>)
      requires Valid()
      modifies this
      ensures Valid() && nextId == old(nextId)
      ensures r.Err? ==> types == old(types) && UPDATE_ERROR_PREFIX <= r.error
      ensures failure.Some? ==> r == Err(UPDATE_ERROR_PREFIX + failure.value)
      ensures failure.None? && Lookup(old(types), JobTypeKey, id).None? ==>
        r == Ok(None) && types == old(types)
      ensures failure.None? && Lookup(old(types), JobTypeKey, id).Some? && !Writable(p) ==>
        r == Err(UPDATE_ERROR_PREFIX + NotNullError(p))
      ensures failure.None? && Lookup(old(types), JobTypeKey, id).Some? && Writable(p) ==>
        r == Ok(Some(ApplyUpdate(Lookup(old(types), JobTypeKey, id).value, p)))
        && types == Replaced(old(types), JobTypeKey, id, r.value.value)
    {
      if failure.Some? {
        return Err(UPDATE_ERROR_PREFIX + failure.value);
      }
      var cur := Lookup(types, JobTypeKey, id);
      if cur.None? {
        return Ok(None);
      }
      if !Writable(p) {
        return Err(UPDATE_ERROR_PREFIX + NotNullError(p));
      }
      var jt := ApplyUpdate(cur.value, p);
      ReplacedWellKeyed(types, JobTypeKey, nextId, id, jt);
      types := Replaced(types, JobTypeKey, id, jt);
      r := Ok(Some(jt));
    }

    /** `deleteJobType`: refused while any job refers to the type; a store failure (`failure`,
        the store's message) is reported under the same prefix; otherwise true exactly when a
        row was removed. */
    method DeleteJobType(id: int, jobs: seq<Job>, failure: Option<string>) returns (r: Result<bool, string>)
      requires Valid()
      modifies this
      ensures Valid() && nextId == old(nextId)
      ensures r.Err? <==>
        failure.Some? || (Lookup(old(types), JobTypeKey, id).Some? && Filter(jobs, UsesType(id)) != [])
      ensures r.Err? ==> types == old(types) && DELETE_ERROR_PREFIX <= r.error
      ensures failure.Some? ==> r == Err(DELETE_ERROR_PREFIX + failure.value)
      ensures failure.None? && Lookup(old(types), JobTypeKey, id).Some? && Filter(jobs, UsesType(id)) != [] ==>
        r == Err(IN_USE_ERROR)
      ensures r.Ok? ==>
        (r.value == Lookup(old(types), JobTypeKey, id).Some? && types == Without(old(types), JobTypeKey, id))
    {
      if failure.Some? {
        return Err(DELETE_ERROR_PREFIX + failure.value);
      }
      var found := Lookup(types, JobTypeKey, id);
      if found.Some? && Filter(jobs, UsesType(id)) != [] {
        return Err(IN_USE_ERROR);
      }
      WithoutWellKeyed(types, JobTypeKey, nextId, id);
      types := Without(types, JobTypeKey, id);
      r := Ok(found.Some?);
    }

    method SearchJobTypes(term: string) returns (r: seq<JobType>)
      ensures r == SearchResults(types, term)
      ensures SortedBy(r, NameAtMost)
    {
      r := SearchResults(types, term);
    }
  }

  /** The guard of `deleteJobType` holds exactly when some job refers to the type. */
  lemma DeleteGuard(id: int, jobs: seq<Job>)
    ensures (exists i :: 0 <= i < |jobs| && jobs[i].jobTypeId == Some(id)) <==> Filter(jobs, UsesType(id)) != []
  {
    FilterMembers(jobs, UsesType(id));
    if exists i :: 0 <= i < |jobs| && jobs[i].jobTypeId == Some(id) {
      var i :| 0 <= i < |jobs| && jobs[i].jobTypeId == Some(id);
      assert jobs[i] in Filter(jobs, UsesType(id));
    }
    if Filter(jobs, UsesType(id)) != [] {
      var f := Filter(jobs, UsesType(id));
      assert f[0] in jobs;
      var i :| 0 <= i < |jobs| && jobs[i] == f[0];
    }
  }
}
