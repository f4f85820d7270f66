// The jobs page: the job list as the back end returns it, the client names and status badges
// shown beside each job, and the list update after a deletion.

module JobsPage {
  import opened Wrappers
  import opened Seqs
  import opened Entities
  import opened Tables
  import JobRecords
  import JobCalendar

  /** `getStatusSeverity` of the jobs page. */
  function StatusSeverity(status: string): (r: string)
    ensures r == "success" <==> status == COMPLETED
    ensures r == "info" <==> status == IN_PROGRESS
    ensures r == "danger" <==> status == CANCELLED
    ensures r == "warn" <==> status != COMPLETED && status != IN_PROGRESS && status != CANCELLED
  {
    if status == COMPLETED then "success"
    else if status == IN_PROGRESS then "info"
    else if status == CANCELLED then "danger"
    else "warn"
  }

  function ClientHasId(id: int): Client -> bool {
    (c: Client) => c.id == id
  }

  /** `getClientName`: the name of the first client with the id, or `Unknown Client`. */
  function ClientName(clients: seq<Client>, clientId: int): (r: string)
    ensures (forall i :: 0 <= i < |clients| ==> clients[i].id != clientId) ==> r == "Unknown Client"
    ensures forall i :: (0 <= i < |clients| && clients[i].id == clientId
                     && (forall j :: 0 <= j < i ==> clients[j].id != clientId)) ==> r == clients[i].name
  {
    var i := FindIndex(clients, ClientHasId(clientId));
    if i >= 0 then clients[i].name else "Unknown Client"
  }

  // ----- Properties -----

  /** The two pages badge the four statuses alike; any other status is `info` on the calendar and
      `warn` on the jobs page. */
  lemma SeveritiesCompared(status: string)
    ensures status == COMPLETED || status == IN_PROGRESS || status == PENDING || status == CANCELLED ==>
      StatusSeverity(status) == JobCalendar.StatusSeverity(status)
    ensures !(status == COMPLETED || status == IN_PROGRESS || status == PENDING || status == CANCELLED) ==>
      StatusSeverity(status) == "warn" && JobCalendar.StatusSeverity(status) == "info"
  {
  }

  /** Filtering the shown list after a deletion gives what a fresh listing would show. */
  lemma DeleteKeepsListInSync(table: seq<Job>, id: int)
    ensures Without(Reverse(table), JobKey, id) == Reverse(Without(table, JobKey, id))
  {
    FilterReverse(table, KeyIsNot(JobKey, id));
  }

  class JobsView {
    var jobs: seq<Job>
    var clients: seq<Client>
    /** The back-end job service the page reaches through IPC. */
    const backend: JobRecords.JobService

    constructor(backend: JobRecords.JobService)
      ensures this.backend == backend && jobs == [] && clients == []
    {
      this.backend := backend;
      jobs := [];
      clients := [];
    }

    /** `listJobs`: the list is emptied, then replaced by the back end's listing. */
    method ListJobs()
      modifies this
      ensures jobs == Reverse(backend.jobs) && clients == old(clients)
    {
      jobs := [];
      jobs := backend.GetAllJobs();
    }

    /** `loadClients`, with the rows the client service answers. */
    method LoadClients(rows: seq<Client>)
      modifies this
      ensures clients == rows && jobs == old(jobs)
    {
      clients := rows;
    }

    /** `addJob` and `editJob` once the job dialog has closed: `outcome` is the dialog's
        `success` flag, or `None` when the dialog promise is rejected. A successful dialog
        reloads the list; the answer is the toast shown, if any. */
    method AfterJobDialog(isEdit: bool, outcome: Option<bool>) returns (toast: Option<string>)
      modifies this
      ensures clients == old(clients)
      ensures outcome == Some(true) ==> jobs == Reverse(backend.jobs)
      ensures outcome == Some(true) ==>
        toast == Some(if isEdit then "Job updated successfully" else "Job created successfully")
      ensures outcome != Some(true) ==> jobs == old(jobs)
      ensures outcome == Some(false) ==> toast == None
      ensures outcome == None ==>
        toast == Some(if isEdit then "Failed to update job" else "Failed to create job")
    {
      toast := None;
      if outcome == None {
        toast := Some(if isEdit then "Failed to update job" else "Failed to create job");
      } else if outcome.value {
        ListJobs();
        toast := Some(if isEdit then "Job updated successfully" else "Job created successfully");
      }
    }

    /** `deleteJob`, once the confirmation is answered: on success the page drops every job with
        that id and keeps the rest in order; `fails` stands for a rejected back-end call, which
        leaves both the table and the list as they were. */
    method DeleteJob(job: Job, confirmed: bool, fails: bool) returns (toast: Option<string>)
      requires backend.Valid()
      modifies this, backend
      ensures backend.Valid() && clients == old(clients)
      ensures !confirmed ==> toast == None && jobs == old(jobs) && backend.jobs == old(backend.jobs)
      ensures confirmed && fails ==>
        toast == Some("Failed to delete job") && jobs == old(jobs) && backend.jobs == old(backend.jobs)
      ensures confirmed && !fails ==> toast == Some("Job deleted successfully")
      ensures confirmed && !fails ==> backend.jobs == Without(old(backend.jobs), JobKey, job.id)
      ensures confirmed && !fails ==> jobs == Without(old(jobs), JobKey, job.id)
    {
      toast := None;
      if !confirmed {
        return;
      }
      if fails {
        toast := Some("Failed to delete job");
        return;
      }
      var _ := backend.DeleteJob(job.id);
      jobs := Filter(jobs, KeyIsNot(JobKey, job.id));
      toast := Some("Job deleted successfully");
    }

    method GetClientName(clientId: int) returns (r: string)
      ensures r == ClientName(clients, clientId)
    {
      r := ClientName(clients, clientId);
    }
  }
}
