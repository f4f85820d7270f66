// A job's completion date end to end: what the dialog's `saveJob` decides, how the front-end
// job service writes the dates, and what the back-end job service stores.

module Lifecycle {
  import opened Wrappers
  import opened Calendar
  import opened Entities
  import opened DateUtils
  import JobRequests
  import JobRecords
  import GlobalDialog

  /** A date property after canonicalisation, as the back end receives it; an `undefined`
      property is dropped on the way. */
  function PatchDate(v: Field<DateInput>): Field<string>
    requires !(v.Has? && v.value.Obj?)
  {
    match v
    case Missing => Missing
    case Null => Null
    case Has(d) => if d.Str? then Has(d.s) else Missing
  }

  predicate NoDateObjects(d: JobRequests.JobData) {
    !(d.dueDate.Has? && d.dueDate.value.Obj?)
    && !(d.startDate.Has? && d.startDate.value.Obj?)
    && !(d.completedDate.Has? && d.completedDate.value.Obj?)
  }

  /** The canonicalisation leaves no `Date` object behind. */
  lemma ProcessedHasNoDateObjects(d: JobRequests.JobData, host: HostParser)
    ensures NoDateObjects(JobRequests.ProcessJobData(d, host))
  {
  }

  /** The job data as the back end's `createJob` and `updateJob` receive it. */
  function ToPatch(d: JobRequests.JobData): JobPatch
    requires NoDateObjects(d)
  {
    JobPatch(d.title, d.description, d.status, d.price, d.clientId, d.jobTypeId,
             PatchDate(d.dueDate), PatchDate(d.startDate), PatchDate(d.completedDate))
  }

  /** What the dialog sends when saving `form`: `saveJob`, then `processJobDataForBackend`. */
  function Sent(form: GlobalDialog.JobForm, editing: Option<Job>, now: JsDate, host: HostParser): JobPatch {
    var d := JobRequests.ProcessJobData(GlobalDialog.SaveJobData(form, editing, now), host);
    ProcessedHasNoDateObjects(GlobalDialog.SaveJobData(form, editing, now), host);
    ToPatch(d)
  }

  /** A job carries a completion date exactly when it is completed. */
  predicate Dated(j: Job) {
    j.status == COMPLETED <==> (j.completedDate.Some? && j.completedDate.value != "")
  }

  /** Adding a job through the dialog stores a completion date exactly when the job is added as
      completed: the current day, written DD/MM/YYYY. */
  lemma AddedJobDated(form: GlobalDialog.JobForm, now: JsDate, host: HostParser, id: int)
    requires form.status != ""
    ensures Dated(JobRecords.NewJob(id, Sent(form, None, now, host)))
    ensures form.status == COMPLETED && now.At? ==>
      JobRecords.NewJob(id, Sent(form, None, now, host)).completedDate == Some(FormatDay(now.date))
    ensures JobRecords.NewJob(id, Sent(form, None, now, host)).startDate == None
  {
    if form.status == COMPLETED && now.At? {
      PadNat(now.date.day);
    }
  }

  /** The update the dialog intends on an edit: the back end's whitelist plus the completion
      date the dialog computed. */
  function IntendedUpdate(j: Job, p: JobPatch): (r: Job)
    ensures r.completedDate == p.completedDate.Over(j.completedDate)
  {
    JobRecords.ApplyUpdate(j, p).(completedDate := p.completedDate.Over(j.completedDate))
  }

  /** Had the completion date been written, every edit through the dialog would keep a job
      dated exactly when completed. */
  lemma IntendedEditKeepsDated(form: GlobalDialog.JobForm, j: Job, now: JsDate, host: HostParser)
    requires Dated(j) && form.status != "" && now.At?
    ensures Dated(IntendedUpdate(j, Sent(form, Some(j), now, host)))
  {
    if form.status == COMPLETED && j.status != COMPLETED {
      PadNat(now.date.day);
    }
  }

  /** As the back end is written, `updateJob` keeps the stored completion date, so a job edited
      from in progress to completed is stored completed without a completion date. */
  lemma EditedCompletionNotStored(form: GlobalDialog.JobForm, j: Job, now: JsDate, host: HostParser)
    requires Dated(j) && j.status == IN_PROGRESS && form.status == COMPLETED
    ensures Sent(form, Some(j), now, host).completedDate.Has?
    ensures JobRecords.ApplyUpdate(j, Sent(form, Some(j), now, host)).status == COMPLETED
    ensures JobRecords.ApplyUpdate(j, Sent(form, Some(j), now, host)).completedDate == j.completedDate
    ensures !Dated(JobRecords.ApplyUpdate(j, Sent(form, Some(j), now, host)))
  {
  }

  /** Likewise, reopening a completed job leaves its old completion date in place. */
  lemma ReopenedKeepsDate(form: GlobalDialog.JobForm, j: Job, now: JsDate, host: HostParser)
    requires Dated(j) && j.status == COMPLETED && form.status == PENDING
    ensures Sent(form, Some(j), now, host).completedDate == Null
    ensures !Dated(JobRecords.ApplyUpdate(j, Sent(form, Some(j), now, host)))
  {
  }
}
