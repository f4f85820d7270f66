// The front-end job service's own date helpers and the canonicalisation of a job's date fields
// before the job is sent to the back end.

module JobRequests {
  import opened Wrappers
  import opened Text
  import opened Calendar
  import opened Entities
  import opened DateUtils

  /** A `Partial<Job>` as the front end builds it: the date fields may hold strings or `Date`
      objects. */
  datatype JobData = JobData(
    title: Field<string>,
    description: Field<string>,
    status: Field<string>,
    price: Field<int>,
    clientId: Field<int>,
    jobTypeId: Field<int>,
    dueDate: Field<DateInput>,
    startDate: Field<DateInput>,
    completedDate: Field<DateInput>)

  /** JavaScript truthiness of a date property: a non-empty string, or any `Date` object. */
  predicate TruthyDate(v: Field<DateInput>) {
    v.Has? && (v.value.Obj? || (v.value.Str? && v.value.s != ""))
  }

  /** A `Date` written field by field with no validity guard: an invalid date gives `NaN` in
      each field. */
  function FormatAny(d: JsDate): string {
    if d.Invalid? then "NaN/NaN/NaN" else FormatDay(d.date)
  }

  /** The service's private `dateToString`: a DD/MM/YYYY string is kept, any other string goes
      through the host parser. */
  function JobDateToString(v: DateInput, host: HostParser): (r: string)
    requires !v.Nothing?
    ensures v.Str? && IsCanonical(v.s) ==> r == v.s
    ensures v.Obj? && v.d.Invalid? ==> r == "NaN/NaN/NaN"
  {
    match v
    case Str(s) => if IsCanonical(s) then s else FormatAny(host(s))
    case Obj(d) => FormatAny(d)
  }

  /** The service's private `stringToDate`: `split('/').map(Number)` destructured into day,
      month and year. A real day of a year the `Date` constructor does not remap comes out as
      midnight of that day. */
  function StringToDate(s: string): (r: JsDate)
    ensures IsCanonical(s) && IsValid(Spelled(s)) && Spelled(s).year >= 100 ==> r == At(Spelled(s), 0)
  {
    var parts := Split(s, '/');
    var r := NewDate(NumberAt(parts, 2), NumberAt(parts, 1).Plus(-1), NumberAt(parts, 0));
    if IsCanonical(s) && IsValid(Spelled(s)) && Spelled(s).year >= 100 then
      CanonicalParts(s);
      NewDateOfValid(Spelled(s));
      r
    else r
  }

  function Canonical(v: Field<DateInput>, host: HostParser): Field<DateInput> {
    if TruthyDate(v) then Has(Str(JobDateToString(v.value, host))) else v
  }

  /** `processJobDataForBackend`: a copy whose truthy date fields are written as strings. */
  function ProcessJobData(d: JobData, host: HostParser): (r: JobData)
    ensures r.title == d.title && r.description == d.description && r.status == d.status
    ensures r.price == d.price && r.clientId == d.clientId && r.jobTypeId == d.jobTypeId
    ensures !TruthyDate(d.completedDate) ==> r.completedDate == d.completedDate
    ensures !TruthyDate(d.startDate) ==> r.startDate == d.startDate
    ensures !TruthyDate(d.dueDate) ==> r.dueDate == d.dueDate
  {
    d.(startDate := Canonical(d.startDate, host),
       dueDate := Canonical(d.dueDate, host),
       completedDate := Canonical(d.completedDate, host))
  }

  /** A date field ready for the back end: absent, null, undefined, empty, or a DD/MM/YYYY
      string. */
  predicate Sendable(v: Field<DateInput>) {
    !v.Has? || v.value.Nothing? || (v.value.Str? && (v.value.s == "" || IsCanonical(v.value.s)))
  }

  /** A date field the canonicalisation can write: falsy, a DD/MM/YYYY string, or a valid `Date`
      of a four-digit year. */
  predicate Writable(v: Field<DateInput>) {
    !TruthyDate(v) || (v.value.Str? && IsCanonical(v.value.s))
    || (v.value.Obj? && v.value.d.At? && 1000 <= v.value.d.date.year <= 9999 && IsValid(v.value.d.date))
  }

  // ----- Properties -----

  /** Writing the date a DD/MM/YYYY string spells gives the string back. */
  lemma StringToDateRoundTrip(s: string, host: HostParser)
    requires IsCanonical(s) && IsValid(Spelled(s)) && Spelled(s).year >= 1000
    ensures JobDateToString(Obj(StringToDate(s)), host) == s
  {
    FormatSpelled(s);
  }

  /** Unlike the shared helper, this `dateToString` writes an invalid `Date` as `NaN/NaN/NaN`
      rather than the empty string. */
  lemma InvalidDateDiffers(host: HostParser)
    ensures JobDateToString(Obj(Invalid), host) == "NaN/NaN/NaN"
    ensures DateUtils.DateToString(Obj(Invalid), host) == ""
  {
  }

  lemma CanonicalSendable(v: Field<DateInput>, host: HostParser)
    requires Writable(v)
    ensures Sendable(Canonical(v, host))
    ensures IsCanonicalField(v) ==> Canonical(v, host) == v
  {
  }

  predicate IsCanonicalField(v: Field<DateInput>) {
    v.Has? && v.value.Str? && IsCanonical(v.value.s)
  }

  /** Every date field `processJobDataForBackend` can write reaches the back end as a DD/MM/YYYY
      string (or stays absent, null, undefined or empty), and a second pass changes nothing. */
  lemma ProcessJobDataCanonical(d: JobData, host: HostParser)
    requires Writable(d.startDate) && Writable(d.dueDate) && Writable(d.completedDate)
    ensures Sendable(ProcessJobData(d, host).startDate)
    ensures Sendable(ProcessJobData(d, host).dueDate)
    ensures Sendable(ProcessJobData(d, host).completedDate)
    ensures ProcessJobData(ProcessJobData(d, host), host) == ProcessJobData(d, host)
  {
    CanonicalSendable(d.startDate, host);
    CanonicalSendable(d.dueDate, host);
    CanonicalSendable(d.completedDate, host);
    var r := ProcessJobData(d, host);
    CanonicalSendable(r.startDate, host);
    CanonicalSendable(r.dueDate, host);
    CanonicalSendable(r.completedDate, host);
  }
}
