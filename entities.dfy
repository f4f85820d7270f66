// Record shapes of the application's tables (the TypeORM entities) and of the partial objects
// the services receive. Money columns (decimal with two places) are integer cents and
// `base_hours` is integer hundredths of an hour. Every record's `id` is its primary key.

module Entities {
  import opened Wrappers
  import opened Calendar

  /** The job statuses the application offers. */
  datatype Status = Pending | InProgress | Completed | Cancelled {
    /** The string stored in the `status` column. */
    function Value(): string {
      match this
      case Pending => "pending"
      case InProgress => "in_progress"
      case Completed => "completed"
      case Cancelled => "cancelled"
    }
  }

  const PENDING: string := Pending.Value()
  const IN_PROGRESS: string := InProgress.Value()
  const COMPLETED: string := Completed.Value()
  const CANCELLED: string := Cancelled.Value()

  /** One property of a partial object (`Partial<T>`): absent (`undefined`), `null`, or a value. */
  datatype Field<T(==)> = Missing | Null | Has(value: T) {
    /** JavaScript truthiness of the property, given what counts as a falsy value. */
    predicate IsTruthy(falsy: T) {
      Has? && value != falsy
    }

    /** The column after an update that carries this property: an absent property leaves the
        column as it was, `null` clears it. */
    function Over(current: Option<T>): Option<T> {
      match this
      case Missing => current
      case Null => None
      case Has(v) => Some(v)
    }

    /** The column of a newly inserted row: absent and `null` both store NULL. */
    function Stored(): Option<T> {
      if Has? then Some(value) else None
    }
  }

  /** An update wrote the nullable column from the property `f`: a carried value is stored,
      `null` clears the column, and an absent property leaves it as it was. */
  predicate WrittenFrom<T(==)>(f: Field<T>, before: Option<T>, after: Option<T>) {
    (f.Has? ==> after == Some(f.value)) && (f.Null? ==> after == None) && (f.Missing? ==> after == before)
  }

  /** An update wrote the NOT NULL column from the property `f`: a carried value is stored, and
      an absent property leaves the column as it was. */
  predicate SetFrom<T(==)>(f: Field<T>, before: T, after: T) {
    (f.Has? ==> after == f.value) && (f.Missing? ==> after == before)
  }

  /** A row of the `jobs` table; `clientId` and `jobTypeId` are the `client` and `job_type`
      relations, and the three dates are DD/MM/YYYY strings. */
  datatype Job = Job(
    id: int,
    title: string,
    description: Option<string>,
    status: string,
    price: Option<int>,
    clientId: Option<int>,
    jobTypeId: Option<int>,
    dueDate: Option<string>,
    startDate: Option<string>,
    completedDate: Option<string>)

  /** A `Partial<Job>` as it reaches the back end. */
  datatype JobPatch = JobPatch(
    title: Field<string>,
    description: Field<string>,
    status: Field<string>,
    price: Field<int>,
    clientId: Field<int>,
    jobTypeId: Field<int>,
    dueDate: Field<string>,
    startDate: Field<string>,
    completedDate: Field<string>)

  /** A row of the `clients` table. */
  datatype Client = Client(
    id: int,
    name: string,
    email: string,
    phone: Option<string>,
    discord: Option<string>)

  datatype ClientPatch = ClientPatch(
    name: Field<string>,
    email: Field<string>,
    phone: Field<string>,
    discord: Field<string>)

  /** A row of the `job_types` table. */
  datatype JobType = JobType(
    id: int,
    name: string,
    description: Option<string>,
    basePrice: int,
    baseHours: int,
    colorHex: string)

  datatype JobTypePatch = JobTypePatch(
    name: Field<string>,
    description: Field<string>,
    basePrice: Field<int>,
    baseHours: Field<int>,
    colorHex: Field<string>)

  /** A row of the `payments` table; `createdAt` is the `created_at` timestamp. */
  datatype Payment = Payment(
    id: int,
    amount: int,
    paymentDate: Option<string>,
    description: Option<string>,
    jobId: Option<int>,
    createdAt: JsDate)

  datatype PaymentPatch = PaymentPatch(
    amount: Field<int>,
    paymentDate: Field<string>,
    description: Field<string>,
    jobId: Field<int>)

  /** A row of the `attachments` table. */
  datatype Attachment = Attachment(
    id: int,
    fileName: string,
    fileExtension: string,
    filePath: string,
    jobId: Option<int>,
    paymentId: Option<int>)

  /** A row of the `config` table, keyed by `key`. */
  datatype Config = Config(key: string, value: string)

  // The primary key of each record, as the argument the tables are keyed by.
  function JobKey(j: Job): int { j.id }
  function ClientKey(c: Client): int { c.id }
  function JobTypeKey(t: JobType): int { t.id }
  function PaymentKey(p: Payment): int { p.id }
  function AttachmentKey(a: Attachment): int { a.id }

  /** The client a job's `client` relation loads, looked up among the given clients. */
  function ClientOf(j: Job, clients: seq<Client>): (r: Option<Client>)
    ensures r.Some? ==> r.value in clients && Some(r.value.id) == j.clientId
    ensures r.None? ==> j.clientId.None? || forall c :: c in clients ==> c.id != j.clientId.value
  {
    if j.clientId.None? || clients == [] then None
    else if clients[0].id == j.clientId.value then Some(clients[0])
    else ClientOf(j, clients[1..])
  }
}
