# Freelancer manager: a Dafny model of its core logic

The application is a desktop freelancer manager built with Electron and Angular. Its back end
keeps jobs, clients, job types, payments, file attachments and key/value settings in SQLite. Its
front end offers job and payment dialogs, a job calendar, a file uploader and a Pomodoro timer.
This project models the logic underneath, and proves properties about it:

- **Dates.**
  - The DD/MM/YYYY codec, validator and comparisons of the shared `DateUtils` class (`DateUtils`).
  - The front-end job service's date helpers and date canonicalisation (`JobRequests`).
  - The DD/MM/YY pair used for payment dates in the job dialog (`GlobalDialog`).
  - These rest on a model of JavaScript's `Date` constructor over the proleptic Gregorian
    calendar (`Calendar`), including month and day roll-over and the mapping of years 0-99 to
    1900-1999.
- **Completion dates.**
  - The dialog's rule for a job's completion date (`GlobalDialog.CompletionDate`).
  - How that rule combines with the front-end canonicalisation and the back-end whitelists
    (`Lifecycle`).
  - The back-end `updateJob` does not write `completed_date`. So a job edited to completed is
    stored without a completion date, and a reopened job keeps its old one
    (`Lifecycle.EditedCompletionNotStored`, `Lifecycle.ReopenedKeepsDate`).
  - It is unclear whether the whitelist omits the column on purpose. The model therefore keeps
    the back end as written, and states the intended update beside it
    (`Lifecycle.IntendedUpdate`).
- **The back-end services, as classes over in-memory tables.**
  - The services are `JobRecords`, `ClientRecords`, `JobTypeRecords`, `PaymentRecords`,
    `AttachmentRecords`, `ConfigRecords` and `ConfigEntity`.
  - A table is the sequence of its rows in insertion order (`Tables`). Insertion order stands
    for `created_at` order, so "newest first" is the reversed table.
  - Ids come from a counter.
  - An `ORDER BY` on another column is a stable sort (`Seqs`).
  - SQL `LIKE '%term%'` is containment, with ASCII letters compared case-insensitively.
  - Money columns are integer cents.
- **The Pomodoro timer as a state machine** (`Pomodoro`). Its settings are stored in the
  configuration table.
- **Front-end list and state logic.**
  - The payment list of the job dialog.
  - The file uploader's list and previews (`FileUploader`).
  - The calendar's event mapping and day panel (`JobCalendar`).
  - The jobs page (`JobsPage`).
  - The shared dialog state and its promises (`DialogService`).
  - The start-up flags (`AppInit`).

Everything outside the program's own logic becomes a parameter:
- the clock;
- the host's `new Date(string)` parser;
- the outcome of the file-system calls, of the back-end updates, of the payment, attachment and job-type deletes, and of the IPC calls the pages and dialogs await (the store calls modelled as never failing are listed under "## Left out");
- the user's answer to a confirmation.

JavaScript numbers are NaN or an integer (`Text.Num`), and `parseInt` and `toString` are modelled
over them.

## Model

| member | source | states |
|---|---|---|
| DateUtils.ParseStringToDate | src/app/core/utils/date.utils.ts:12-34 | null, undefined and the empty string give null; a `Date` object is returned as it is; a string yields null or a valid date, never an invalid one |
| DateUtils.DateToString | src/app/core/utils/date.utils.ts:41-62 | falsy input gives `''`; a string already in DD/MM/YYYY form comes back unchanged |
| DateUtils.GetTodayString | src/app/core/utils/date.utils.ts:93-95 | today (passed in as the clock) is written in DD/MM/YYYY form and spells today's day, for four-digit years |
| DateUtils.CompareDates | src/app/core/utils/date.utils.ts:103-115 | the result is -1, 0 or 1, and it is null exactly when one side does not parse |
| DateUtils.IsValidDateStringIff | src/app/core/utils/date.utils.ts:69-87 | `isValidDateString(s)` holds iff `s` matches `^\d{2}/\d{2}/\d{4}$`, spells a day that exists in its month (leap years included), and that day's year is 1900 or later |
| DateUtils.IsValidDateString | src/app/core/utils/date.utils.ts:69-87 | a string that passes is in DD/MM/YYYY form |
| DateUtils.ParseThreeParts | src/app/core/utils/date.utils.ts:19-24 | a three-part string whose numbers pass the guard becomes that day at midnight; a day the month lacks is rolled over into another day |
| DateUtils.ParseEarlyYearGoesToHost | src/app/core/utils/date.utils.ts:22-33 | the year guard is strict, so a DD/MM/YYYY string of year 1900 or earlier falls through to the host parser |
| DateUtils.ParseValidString | src/app/core/utils/date.utils.ts:19-24 | every valid date string after 1900 parses to midnight of the day it spells |
| DateUtils.ParseThenFormat | src/app/core/utils/date.utils.ts:19-58 | round trip: `dateToString(parseStringToDate(s)) == s` for every valid date string after 1900 |
| DateUtils.FormatThenParse | src/app/core/utils/date.utils.ts:55-87 | the other round trip: a day from 1901 to 9999 is written as a valid date string that parses back to that day |
| DateUtils.FormatDay | src/app/core/utils/date.utils.ts:54-59 | a real day of a four-digit year is written as a two-digit day, a two-digit month and the year, spelling that same day |
| DateUtils.FormatSpelled | src/app/core/utils/date.utils.ts:54-59 | writing the day that a DD/MM/YYYY string spells gives the string back, for years from 1000 |
| DateUtils.DateToStringIdempotent | src/app/core/utils/date.utils.ts:44-59 | a written date is left unchanged when written again |
| DateUtils.CompareDatesAntisymmetric | src/app/core/utils/date.utils.ts:103-115 | swapping the arguments negates the result, and a null result stays null |
| DateUtils.CompareDatesChronological | src/app/core/utils/date.utils.ts:103-115 | on valid date strings after 1900 the result is -1, 0 or 1 exactly when the first day is before, equal to or after the second |
| DateUtils.CompareWithInvalidDate | src/app/core/utils/date.utils.ts:12-115 | an invalid `Date` object passes the null check and compares as 0 against anything that parses |
| DateUtils.IsSameDay | src/app/core/utils/date.utils.ts:123-135 | true exactly when both sides parse to valid dates on the same year, month and day |
| DateUtils.SameDayDifferentTimes | src/app/core/utils/date.utils.ts:103-135 | two times on one day are the same day, even though `compareDates` orders them |
| Calendar.DaysInMonth | src/app/core/utils/date.utils.ts:82-86 | a month has 28 to 31 days, and 29 exactly for February of a Gregorian leap year |
| Calendar.NormalizeDay | src/app/core/utils/date.utils.ts:83 | a day that exists in its month is kept unchanged, as the `Date` constructor does |
| Calendar.NewDateRoundTrip | src/app/core/utils/date.utils.ts:83-86 | `new Date(y, m - 1, d)` gives back (y, m, d) exactly when that day exists, for years outside 0-99 |
| Calendar.NewDateOfValid | src/app/core/utils/date.utils.ts:23 | the constructor gives every existing day outside the years 0-99 back at midnight |
| Calendar.NewDateRollsOver | src/app/core/utils/date.utils.ts:83-86 | a day the month lacks never comes back unchanged |
| Calendar.FirstDayOfMonth | app/backend/services/payment.service.ts:99 | day 1 of month index m - 1 is the first of month m |
| Calendar.LastDayOfMonth | app/backend/services/payment.service.ts:100 | day 0 of month index m is the last day of month m, including 29 February in leap years |
| Calendar.EarlierTrichotomy | src/app/core/utils/date.utils.ts:112-114 | on valid dates `<` on the time value is a strict total order |
| Calendar.EarlierTransitive | src/app/core/utils/date.utils.ts:112-113 | `<` on the time value is transitive |
| JobRequests.JobDateToString | src/app/core/services/job.service.ts:14-29 | a DD/MM/YYYY string comes back unchanged; with no validity guard, an invalid `Date` is written `NaN/NaN/NaN` |
| JobRequests.ProcessJobData | src/app/core/services/job.service.ts:38-54 | every non-date field is copied unchanged, and a date field that is falsy (null `completed_date` included) passes through as it is |
| JobRequests.StringToDate | src/app/core/services/job.service.ts:32-35 | `stringToDate("dd/mm/yyyy")` is midnight of year y, month m, day d, for a real day of a year from 100 |
| JobRequests.StringToDateRoundTrip | src/app/core/services/job.service.ts:14-35 | writing what `stringToDate` reads gives the DD/MM/YYYY string back, for four-digit years |
| JobRequests.InvalidDateDiffers | src/app/core/services/job.service.ts:25-28 | unlike the shared `DateUtils.dateToString`, which gives `''`, this helper writes an invalid date as `NaN/NaN/NaN` |
| JobRequests.CanonicalSendable | src/app/core/services/job.service.ts:41-51 | one canonicalised date field is falsy or in DD/MM/YYYY form, and a field already in that form is left alone |
| JobRequests.ProcessJobDataCanonical | src/app/core/services/job.service.ts:38-54 | every date field that can be written reaches the back end falsy or in DD/MM/YYYY form, and a second pass changes nothing |
| GlobalDialog.SaveJobData | src/app/core/global-dialog/global-dialog.component.ts:430-447 | the saved data carries the form's fields, no start date, and the completion date the status policy decides |
| GlobalDialog.CompletionDate | src/app/core/global-dialog/global-dialog.component.ts:434-447 | saving as completed a new job or a job that was not completed stamps the current time; leaving completed clears the date to null; staying completed keeps a non-empty stored date; any other save leaves the date unset |
| GlobalDialog.FullYear | src/app/core/global-dialog/global-dialog.component.ts:892 | a parsed year under 50 becomes 2000 + y, one from 50 to 99 becomes 1900 + y, one of 100 or more is kept, and NaN stays NaN |
| GlobalDialog.ParseDateString | src/app/core/global-dialog/global-dialog.component.ts:882-896 | null exactly for the empty string or a string that does not split into three parts on `/` |
| GlobalDialog.FormattedFields | src/app/core/global-dialog/global-dialog.component.ts:875-880 | a day of 1950-2049 is written as three `/`-separated fields that `parseInt` reads as the day, the month and the year modulo 100 |
| GlobalDialog.FormatDateToString | src/app/core/global-dialog/global-dialog.component.ts:875-880 | a valid date is written as two digits, `/`, two digits, `/` and the year's last digits; an invalid one, and only that, as `NaN/NaN/aN` |
| GlobalDialog.FormatThenParseDate | src/app/core/global-dialog/global-dialog.component.ts:875-896 | round trip: writing a day of 1950-2049 DD/MM/YY and parsing it back gives midnight of that same day |
| GlobalDialog.ShortYearShift | src/app/core/global-dialog/global-dialog.component.ts:878 | `slice(-2)` keeps the same two digits for years a century apart |
| GlobalDialog.CenturyLater | src/app/core/global-dialog/global-dialog.component.ts:892-895 | a day of 1900-1949 also exists a century later, so the wrapped date is the same day and month |
| GlobalDialog.TwoDigitYearWraps | src/app/core/global-dialog/global-dialog.component.ts:875-896 | for 1900-1949 the round trip moves the day a century forward, into the 2000s |
| GlobalDialog.DialogClientSearchSpec | src/app/core/global-dialog/global-dialog.component.ts:550-556 | a client is kept iff its lower-cased name or e-mail contains the lower-cased query; the filter keeps list order; it agrees, reversed, with the back end's client search |
| GlobalDialog.DialogClientSearch | src/app/core/global-dialog/global-dialog.component.ts:550-556 | the filtered list is no longer than the client list, and holds only listed clients that match the query |
| GlobalDialog.CapitalizeFirst | src/app/core/global-dialog/global-dialog.component.ts:785-787 | same length; the first character is upper-cased; each later character is unchanged or a `_` turned into a space |
| GlobalDialog.CapitalizeFirstExample | src/app/core/global-dialog/global-dialog.component.ts:785-787 | `capitalizeFirst("due_date")` is `"Due date"` |
| GlobalDialog.GetFieldError | src/app/core/global-dialog/global-dialog.component.ts:773-783 | the message is empty iff the control is missing, untouched or has none of the five errors; a required error gives "<Name> is required" |
| GlobalDialog.SpliceOne | src/app/core/global-dialog/global-dialog.component.ts:647 | `splice(i, 1)` with i in range removes exactly element i; an index past the end removes nothing; otherwise the length drops by one |
| GlobalDialog.SpliceOneRemovesExactly | src/app/core/global-dialog/global-dialog.component.ts:647 | deleting entry i keeps every other entry in order and removes one occurrence of entry i |
| GlobalDialog.DialogPayments.constructor | src/app/core/global-dialog/global-dialog.component.ts:95-98 | the dialog starts with no payments, the editing index at -1 and the add form hidden |
| GlobalDialog.DialogPayments.ResetPaymentForm | src/app/core/global-dialog/global-dialog.component.ts:661-667 | the form, the attachments and the selected files are cleared; the editing index becomes -1 and the add form is hidden; the payment list is untouched |
| GlobalDialog.DialogPayments.OnPaymentFilesChanged | src/app/core/global-dialog/global-dialog.component.ts:563-565 | only the selected payment files change |
| GlobalDialog.DialogPayments.EditPayment | src/app/core/global-dialog/global-dialog.component.ts:629-639 | the form shows the payment with its DD/MM/YY date parsed back; the editing index is set and the form shown; the list is untouched |
| GlobalDialog.DialogPayments.AddPayment | src/app/core/global-dialog/global-dialog.component.ts:567-626 | an invalid form changes nothing and shows no toast; editing overwrites amount, date and description of that entry in place and shows `Payment updated successfully`; index -1 appends exactly one entry with empty attachments and shows `Payment added successfully`; the form is reset after either; an index past the end throws inside the `try`, changes nothing and shows `Failed to save payment` |
| GlobalDialog.DialogPayments.DeletePayment | src/app/core/global-dialog/global-dialog.component.ts:641-655 | once confirmed, the list is the old list with element `index` spliced out and the toast `Payment deleted successfully` is shown; otherwise nothing changes and no toast is shown |
| Entities.ClientOf | app/backend/services/job.service.ts:106-108 | the joined client has the job's client id and comes from the client table; no client is joined when the job has no client or no row carries that id |
| JobRecords.InitialStatus | app/backend/services/job.service.ts:16 | the stored status is never empty: the supplied status when it is truthy, and pending otherwise |
| JobRecords.NewJob | app/backend/services/job.service.ts:13-17 | the new row has the given id, the title, price and completion date supplied, and a non-empty status: the supplied one when truthy, pending otherwise |
| JobRecords.ApplyUpdate | app/backend/services/job.service.ts:56-64 | `updateJob` keeps the id, the job type and the completion date; each of the seven whitelisted fields the patch carries is written, a `null` clears a nullable column, and an absent one keeps its value; so a patch carrying none of them changes nothing |
| JobRecords.SearchJobsExactly | app/backend/services/job.service.ts:105-114 | a job is returned iff it is in the table and its title, description or joined client name contains the term |
| JobRecords.SearchResults | app/backend/services/job.service.ts:105-114 | the search never lengthens the table, and every job it returns matches the term |
| JobRecords.SearchJobsNewestFirst | app/backend/services/job.service.ts:112 | a job created after the others comes first in the results when it matches |
| JobRecords.StatsAddUp | app/backend/services/job.service.ts:116-130 | the four status counts never exceed the total, and add up to it when every job has one of the four statuses |
| JobRecords.CountStatus | app/backend/services/job.service.ts:118-121 | a status count never exceeds the table, and is 0 exactly when no job has the status |
| JobRecords.Stats | app/backend/services/job.service.ts:116-130 | the total is the table's length, each status count is at most the total, and an empty table gives all zeros |
| JobRecords.PriceAtLeastIsTotalPreorder | app/backend/services/job.service.ts:136 | `ORDER BY price DESC`, with NULLs last, is a total preorder |
| JobRecords.HighestPricedSpec | app/backend/services/job.service.ts:132-139 | at most ten jobs of the table, fewer only when the table is smaller, in non-increasing price order, and none left out is priced above one returned |
| JobRecords.HighestPriced | app/backend/services/job.service.ts:132-139 | exactly ten jobs, or all when fewer, every one from the table |
| JobRecords.UpdateReadBack | app/backend/services/job.service.ts:73 | reading the row back after an update gives the rewritten row, which still has its old job type and completion date |
| JobRecords.JobService.constructor | app/backend/services/job.service.ts:9-11 | the table starts empty |
| JobRecords.JobService.CreateJob | app/backend/services/job.service.ts:13-19 | the new row is appended under the next id with the supplied status or pending; a missing title fails the NOT NULL constraint and nothing is stored |
| JobRecords.JobService.GetAllJobs | app/backend/services/job.service.ts:21-26 | all jobs, newest first |
| JobRecords.JobService.GetJobById | app/backend/services/job.service.ts:28-33 | the row with that id, or null |
| JobRecords.JobService.GetJobsByStatus | app/backend/services/job.service.ts:43-49 | the jobs of that status, newest first |
| JobRecords.JobService.GetJobsByClient | app/backend/services/job.service.ts:35-41 | the jobs of that client, newest first |
| JobRecords.JobService.UpdateJob | app/backend/services/job.service.ts:51-78 | null and no change when the row is missing, the store fails or a NOT NULL column would be cleared; otherwise the row is rewritten through the whitelist and read back |
| JobRecords.JobService.UpdateStatus | app/backend/services/job.service.ts:80-98 | null and no change when the row is missing or the store fails; otherwise only the status of that row changes |
| JobRecords.JobService.DeleteJob | app/backend/services/job.service.ts:100-103 | true iff a row with that id existed; afterwards no row has that id and the others keep their order |
| JobRecords.JobService.SearchJobs | app/backend/services/job.service.ts:105-114 | the matching jobs, newest first |
| JobRecords.JobService.GetJobStats | app/backend/services/job.service.ts:116-130 | the per-status counts and the total, whose parts never exceed it |
| JobRecords.JobService.GetJobsWithHighestPrice | app/backend/services/job.service.ts:132-139 | at most ten jobs in non-increasing price order |
| Tables.Lookup | app/backend/services/job.service.ts:28-33 | `findOne({ where: { id } })` returns a row with that id and comes from the table; it returns null exactly when no row has the id |
| Tables.Replaced | app/backend/services/job.service.ts:53-66 | an `UPDATE ... WHERE id` keeps the table's length and rewrites exactly the rows with that id |
| Tables.WithoutRows | app/backend/services/job.service.ts:100-103 | `delete(id)` leaves exactly the rows with other ids, in their order |
| Tables.ReplacedLookup | app/backend/services/job.service.ts:73 | after a rewrite, reading the rewritten id gives the new row and any other id gives the old one |
| Tables.LookupUnique | app/backend/services/job.service.ts:28-33 | with unique keys, the lookup returns the one row that has the id |
| ClientRecords.NewClient | app/backend/services/client.service.ts:12-15 | the row is created iff name and e-mail are supplied (both NOT NULL); it carries the supplied fields, with absent phone and discord stored as NULL |
| ClientRecords.ApplyUpdate | app/backend/services/client.service.ts:44-49 | `updateClient` keeps the id; name and e-mail are written when the patch carries them, phone and discord are written or cleared by `null`, and an absent field keeps its value; so an empty patch changes nothing |
| ClientRecords.ByEmail | app/backend/services/client.service.ts:31-36 | the result has that e-mail and comes from the table; it is null exactly when no client has the e-mail |
| ClientRecords.SearchClientsExactly | app/backend/services/client.service.ts:70-79 | a client is returned iff it is in the table and its name or e-mail contains the term |
| ClientRecords.SearchResults | app/backend/services/client.service.ts:70-79 | the search never lengthens the table, and every client it returns matches the term |
| ClientRecords.SearchClientsNewestFirst | app/backend/services/client.service.ts:77 | a client created after the others comes first in the results when it matches |
| ClientRecords.ClientService.constructor | app/backend/services/client.service.ts:8-10 | the table starts empty |
| ClientRecords.ClientService.CreateClient | app/backend/services/client.service.ts:12-15 | a client that can be created is appended under the next id; otherwise the error is returned and nothing is stored |
| ClientRecords.ClientService.GetAllClients | app/backend/services/client.service.ts:17-22 | all clients, newest first |
| ClientRecords.ClientService.GetClientById | app/backend/services/client.service.ts:24-29 | the row with that id, or null |
| ClientRecords.ClientService.GetClientByEmail | app/backend/services/client.service.ts:31-36 | the client with that e-mail, or null |
| ClientRecords.ClientService.UpdateClient | app/backend/services/client.service.ts:38-63 | null and no change when the row is missing, the store fails or name or e-mail would be cleared; otherwise only the four whitelisted fields of that row are written, and the row is read back |
| ClientRecords.ClientService.DeleteClient | app/backend/services/client.service.ts:65-68 | true iff a row with that id existed; afterwards no row has that id |
| ClientRecords.ClientService.SearchClients | app/backend/services/client.service.ts:70-79 | the matching clients, newest first |
| Tables.AppendWellKeyed | app/backend/entities/base.entity.ts:5-6 | inserting a row under the next generated key keeps the primary keys unique and below the next key |
| Tables.ReplacedWellKeyed | app/backend/entities/base.entity.ts:5-6 | rewriting a row without changing its key keeps the primary keys unique |
| Tables.FilterWellKeyed | app/backend/entities/base.entity.ts:5-6 | any selection of the rows of a well-formed table is well formed |
| Tables.WithoutWellKeyed | app/backend/entities/base.entity.ts:5-6 | a delete keeps the table well formed, and the deleted key is no longer found |
| JobTypeRecords.NewJobType | app/backend/services/job-type.service.ts:12-19 | the row is created iff a name is supplied and no NOT NULL column is set to null; an absent base price, base hours or colour takes the column default 0, 1 hour or `#3B82F6` (app/backend/entities/job-type.entity.ts:13-20) |
| JobTypeRecords.ApplyUpdate | app/backend/services/job-type.service.ts:47 | `update(id, data)` keeps the id; name, base price, base hours and colour are written when the patch carries them, the description is written or cleared by `null`, and an absent field keeps its value; so an empty patch changes nothing |
| JobTypeRecords.StringAtMostTotal | app/backend/services/job-type.service.ts:25 | `ORDER BY name` compares any two names |
| JobTypeRecords.StringAtMostTransitive | app/backend/services/job-type.service.ts:25 | `ORDER BY name` is transitive |
| JobTypeRecords.NameOrderIsTotalPreorder | app/backend/services/job-type.service.ts:24-26 | ordering job types by name is a total preorder |
| JobTypeRecords.ByName | app/backend/services/job-type.service.ts:24-26 | `ORDER BY name ASC` lists every job type once, in ascending name order |
| JobTypeRecords.SearchResults | app/backend/services/job-type.service.ts:75-87 | exactly the job types whose name or description contains the term, in ascending name order |
| JobTypeRecords.DeleteGuard | app/backend/services/job-type.service.ts:58-63 | the guard's list of referencing jobs is non-empty iff some job refers to the type |
| JobTypeRecords.JobTypeService.constructor | app/backend/services/job-type.service.ts:8-10 | the table starts empty |
| JobTypeRecords.JobTypeService.CreateJobType | app/backend/services/job-type.service.ts:12-20 | a row that can be created is appended under the next id; otherwise the prefixed error is returned and nothing is stored |
| JobTypeRecords.JobTypeService.GetAllJobTypes | app/backend/services/job-type.service.ts:22-31 | every job type, once each, by name ascending |
| JobTypeRecords.JobTypeService.GetJobTypeById | app/backend/services/job-type.service.ts:33-43 | the row with that id, or null |
| JobTypeRecords.JobTypeService.UpdateJobType | app/backend/services/job-type.service.ts:45-53 | a store failure is an error with the "Failed to update job type: " prefix; a missing row reads back as null whatever the patch; an existing row patched with a null in a NOT NULL column gives that prefix and the constraint message; every error changes nothing; otherwise the patched row is written and returned |
| JobTypeRecords.JobTypeService.DeleteJobType | app/backend/services/job-type.service.ts:55-73 | an error with the "Failed to delete job type: " prefix, and no change, iff the store fails or the type exists and some job uses it; otherwise true iff a row was removed |
| JobTypeRecords.JobTypeService.SearchJobTypes | app/backend/services/job-type.service.ts:75-87 | the matching job types, by name ascending |
| PaymentRecords.NewPayment | app/backend/services/payment.service.ts:18-21 | the row is created iff an amount is supplied; it carries the next id, that amount and the creation time |
| PaymentRecords.ApplyUpdate | app/backend/services/payment.service.ts:59 | `update(id, data)` keeps the id and the creation time; the amount is written when the patch carries it, payment date, description and job are written or cleared by `null`, and an absent field keeps its value; so an empty patch changes nothing |
| PaymentRecords.ByDateRangeExactly | app/backend/services/payment.service.ts:45-56 | a payment is returned iff it is in the table and was created no earlier than the start and no later than the end |
| PaymentRecords.ByDateRange | app/backend/services/payment.service.ts:50 | the range query never lengthens the table, and every payment it returns lies in the range |
| PaymentRecords.ByDateRangeIncludesBothEnds | app/backend/services/payment.service.ts:50 | both ends of the range are inclusive |
| PaymentRecords.ByJob | app/backend/services/payment.service.ts:37-43 | exactly the payments of that job |
| PaymentRecords.MonthStart | app/backend/services/payment.service.ts:99 | the month query starts at midnight of day 1 of that month |
| PaymentRecords.MonthEndAsWritten | app/backend/services/payment.service.ts:100 | as written, the month query ends at midnight at the start of the month's last day, 29 February in a leap year |
| PaymentRecords.ByMonthAsWrittenMissesLastDay | app/backend/services/payment.service.ts:100-102 | as written, a payment created on the month's last day after midnight is left out of the month |
| PaymentRecords.ByMonthAsWritten | app/backend/services/payment.service.ts:98-103 | the month query as written never lengthens the table, and every payment it returns was created in that month, on the last day only at midnight |
| PaymentRecords.InMonthRangeAsWritten | app/backend/services/payment.service.ts:98-103 | as written, a payment is in the month's range iff it was created in that month and, on the last day, at midnight |
| PaymentRecords.ByMonthAsWrittenExactly | app/backend/services/payment.service.ts:98-103 | the month query as written returns exactly the payments created in that month, on the last day only at midnight |
| PaymentRecords.ByMonth | app/backend/services/payment.service.ts:98-103 | the corrected month query never lengthens the table, and every payment it returns was created in that calendar month |
| PaymentRecords.InMonthRange | app/backend/services/payment.service.ts:98-103 | once the whole last day is included, a payment is in the month's range iff it was created in that calendar month |
| PaymentRecords.ByMonthExactly | app/backend/services/payment.service.ts:98-103 | the corrected month query returns exactly the payments created in that calendar month |
| PaymentRecords.SumConcat | app/backend/services/payment.service.ts:115 | the amount sum of two lists joined is the sum of their sums |
| PaymentRecords.SumReverse | app/backend/services/payment.service.ts:115 | the order of the rows does not change the amount sum |
| PaymentRecords.StatsSpec | app/backend/services/payment.service.ts:105-122 | as written, `monthlyCount` and `monthlyAmount` are the count and the amount sum of the payments created in the current month, the last day only at midnight; the totals cover the whole table |
| PaymentRecords.Stats | app/backend/services/payment.service.ts:105-122 | the total count is the table's length, the monthly count never exceeds it, and an empty table gives all zeros |
| PaymentRecords.StatsIntended | app/backend/services/payment.service.ts:105-122 | with the corrected month query: the same bounds as the statistics as written |
| PaymentRecords.StatsIntendedSpec | app/backend/services/payment.service.ts:105-122 | with the corrected month query, the monthly figures are the count and the amount sum of the payments created in the current month, the whole last day included |
| PaymentRecords.StatsMissLastDay | app/backend/services/payment.service.ts:100-121 | a payment at 10:00 on 31 January 2024 counts as this month's only with the corrected query |
| PaymentRecords.SumAmounts | app/backend/services/payment.service.ts:115 | non-negative amounts sum to a non-negative total, and one payment sums to its amount |
| PaymentRecords.DeletedIdsStep | app/backend/services/payment.service.ts:71-78 | one more attachment delete adds its id when it succeeds, and nothing when it throws |
| PaymentRecords.DeleteOneMore | app/backend/services/payment.service.ts:73 | deleting one more attachment filters one more id out of the table |
| PaymentRecords.FilesAfterStep | app/backend/services/payment.service.ts:73 | one more attachment delete removes its file unless the delete or the unlink fails |
| PaymentRecords.NotYetDeleted | app/backend/services/payment.service.ts:71 | an attachment not yet reached by the loop has not been deleted earlier |
| PaymentRecords.DeletedIdsNext | app/backend/services/payment.service.ts:71-78 | the set of deleted ids after step i of the loop |
| PaymentRecords.DeleteNext | app/backend/services/payment.service.ts:71-78 | an attachment not yet deleted is still found, and deleting it filters out exactly its id |
| PaymentRecords.CascadeLeaves | app/backend/services/payment.service.ts:66-78 | after the whole loop, the attachments left are those of other payments and those whose delete failed |
| PaymentRecords.PaymentService.constructor | app/backend/services/payment.service.ts:12-16 | the table starts empty, with an attachment service of its own |
| PaymentRecords.PaymentService.CreatePayment | app/backend/services/payment.service.ts:18-21 | a payment with an amount is appended under the next id, stamped by a clock that never runs backwards, so the table stays in `created_at` order; otherwise nothing is stored |
| PaymentRecords.PaymentService.GetAllPayments | app/backend/services/payment.service.ts:23-28 | all payments, newest first by `created_at` |
| PaymentRecords.PaymentService.GetPaymentById | app/backend/services/payment.service.ts:30-35 | the row with that id, or null |
| PaymentRecords.PaymentService.GetPaymentsByJob | app/backend/services/payment.service.ts:37-43 | the payments of that job, newest first by `created_at` |
| PaymentRecords.PaymentService.UpdatePayment | app/backend/services/payment.service.ts:58-61 | a store failure is returned as the error; a missing row reads back as null whatever the patch; an existing row patched with a null amount fails the NOT NULL constraint; every error changes nothing; otherwise the patched row is written and returned |
| PaymentRecords.PaymentService.GetPaymentsByDateRange | app/backend/services/payment.service.ts:45-56 | the payments created within the inclusive range, newest first by `created_at` |
| PaymentRecords.PaymentService.GetPaymentsByMonth | app/backend/services/payment.service.ts:98-103 | as written: the payments created in that calendar month, the last day only at midnight, newest first by `created_at` |
| PaymentRecords.ReverseNewestFirst | app/backend/services/payment.service.ts:23-28 | a table in `created_at` order, reversed, is newest first |
| PaymentRecords.FilterChronological | app/backend/services/payment.service.ts:37-56 | a `where` filter keeps a table in `created_at` order |
| PaymentRecords.AppendChronological | app/backend/services/payment.service.ts:18-21 | appending a row stamped no earlier than the last one keeps the table in `created_at` order |
| PaymentRecords.ReplacedChronological | app/backend/services/payment.service.ts:58-61 | an update that keeps each row's creation time keeps the table in `created_at` order |
| Calendar.NotLaterTransitive | app/backend/services/payment.service.ts:50 | "not later than" on timestamps is transitive |
| PaymentRecords.PaymentService.GetTotalPayments | app/backend/services/payment.service.ts:89-96 | the sum of all amounts, 0 for an empty table |
| PaymentRecords.PaymentService.GetPaymentStats | app/backend/services/payment.service.ts:105-122 | the total count and amount of the table, and the count and amount sum of the payments the as-written month query finds for the current month |
| PaymentRecords.PaymentService.DeleteAttachmentsOf | app/backend/services/payment.service.ts:65-78 | every attachment of the payment is deleted in turn; one that throws is skipped and the loop carries on: a failed lookup keeps row and file, a failed row delete comes after the unlink and keeps only the row, a failed unlink keeps only the file; no other attachment and no other file changes |
| PaymentRecords.PaymentService.DeletePayment | app/backend/services/payment.service.ts:63-87 | the attachments go first, then the payment row; true iff the row existed; a failing lookup or a failing delete gives false instead of an error, and a failing lookup changes nothing; an attachment whose row delete throws after the unlink loses its file but keeps its row |
| AttachmentRecords.LastSegment | app/backend/services/attachment.service.ts:106 | the last segment of a path holds no `/`, and a plain name is its own last segment |
| AttachmentRecords.SegmentExt | app/backend/services/attachment.service.ts:105 | a segment's extension is empty, or starts at the segment's last `.`, holds no other dot and is a proper suffix of the segment |
| AttachmentRecords.ExtName | app/backend/services/attachment.service.ts:105 | `path.extname` is empty or a single leading dot and no `/` |
| AttachmentRecords.SegmentBase | app/backend/services/attachment.service.ts:106 | stripping the extension from a segment never adds a `/` |
| AttachmentRecords.BaseName | app/backend/services/attachment.service.ts:106 | `path.basename` has no `/` |
| AttachmentRecords.BaseNameThenExtName | app/backend/services/attachment.service.ts:105-106 | the base name followed by the extension is the file's last path segment |
| AttachmentRecords.ExtNameOfSuffix | app/backend/services/attachment.service.ts:105 | a plain name followed by an extension has that extension |
| AttachmentRecords.ExtNameOfUndotted | app/backend/services/attachment.service.ts:105 | a plain name whose only dot, if any, leads it has no extension |
| AttachmentRecords.StemShape | app/backend/services/attachment.service.ts:108 | `<base>_<timestamp>` is a plain name that ends in neither `.` nor `/` |
| AttachmentRecords.UniqueFileName | app/backend/services/attachment.service.ts:105-108 | the unique name holds no `/` and ends in the extension of the original name, after at least one character |
| AttachmentRecords.UniqueNameKeepsDottedExtension | app/backend/services/attachment.service.ts:105-108 | a name with an extension is stored under a unique name with the same extension |
| AttachmentRecords.UniqueNameKeepsNoExtension | app/backend/services/attachment.service.ts:105-108 | a name without an extension is stored under a unique name without one |
| AttachmentRecords.UniqueNameKeepsExtension | app/backend/services/attachment.service.ts:105-138 | the unique stored name has the extension the record keeps, for every name but `..` |
| AttachmentRecords.LinkOf | app/backend/services/attachment.service.ts:140-141 | a relation is linked iff its id is truthy, and then to that id |
| AttachmentRecords.DirectoryFor | app/backend/services/attachment.service.ts:113-122 | a truthy job id puts the file under `jobs/<jobId>`, in its `payments` folder when the payment id is truthy too; without one the file goes to `general` |
| AttachmentRecords.NewAttachment | app/backend/services/attachment.service.ts:136-142 | the record keeps the original name and its extension, lies in the chosen directory, and links a job or payment exactly when its id is truthy |
| AttachmentRecords.PaymentFilesInsideJobFolder | app/backend/services/attachment.service.ts:113-118 | with a job and a payment id, the file goes to the `payments` folder inside that job's folder |
| AttachmentRecords.GeneralWithoutJob | app/backend/services/attachment.service.ts:113-122 | without a truthy job id, a payment id included, the file goes to `general` |
| AttachmentRecords.DistinctJobsDistinctFolders | app/backend/services/attachment.service.ts:116-118 | two distinct job ids never share a folder |
| AttachmentRecords.SavedFileReadsBack | app/backend/services/attachment.service.ts:127-160 | a saved file whose write succeeded reads back with the contents written |
| AttachmentRecords.LoadedPath | app/backend/services/attachment.service.ts:30-35 | the intended rule: a non-empty stored path replaces the default, and otherwise the default stays |
| AttachmentRecords.LoadedPathAsWritten | app/backend/services/attachment.service.ts:30-35 | as written, the path either stays or becomes empty, and it stays for every stored value except the empty one |
| AttachmentRecords.StoredPathIgnoredAsWritten | app/backend/services/attachment.service.ts:33-34 | as written, a configured non-empty path is ignored, where the intended rule takes it |
| AttachmentRecords.AttachmentService.constructor | app/backend/services/attachment.service.ts:14-20 | the service starts with `<userData>/attachments` and applies the configured path with the guard as written, so only a stored empty value replaces it |
| AttachmentRecords.AttachmentService.SetAttachmentsPathAsWritten | app/backend/services/attachment.service.ts:30-35 | as written: only a stored empty value is ever assigned; nothing else changes |
| AttachmentRecords.AttachmentService.SetAttachmentsPath | app/backend/services/attachment.service.ts:30-35 | with the intended guard: a non-empty stored value replaces the path; nothing else changes |
| AttachmentRecords.AttachmentService.GetAttachmentsPath | app/backend/services/attachment.service.ts:167-169 | the current attachments path |
| AttachmentRecords.AttachmentService.GetAllAttachments | app/backend/services/attachment.service.ts:42-47 | all attachments, newest first |
| AttachmentRecords.AttachmentService.GetAttachmentById | app/backend/services/attachment.service.ts:49-54 | the row with that id, or null |
| AttachmentRecords.AttachmentService.GetAttachmentsByJob | app/backend/services/attachment.service.ts:56-61 | the attachments of that job, in table order |
| AttachmentRecords.AttachmentService.SaveFile | app/backend/services/attachment.service.ts:83-145 | a failed directory creation rejects the call and changes nothing; otherwise the record, which keeps the original name, the extension and the path `<directory>/<unique name>`, is appended even when the write fails, and the disk gains the file only when the write succeeds |
| AttachmentRecords.AttachmentService.DeleteAttachment | app/backend/services/attachment.service.ts:68-81 | the file of an existing record is removed unless the unlink fails, which is swallowed; then the row is deleted and the answer is true iff a row existed; a throwing lookup changes nothing, a throwing row delete comes after the unlink and keeps the row; a throw gives null |
| AttachmentRecords.AttachmentService.GetFileContent | app/backend/services/attachment.service.ts:155-165 | null for a missing record or a failed read, and otherwise the file's bytes |
| ConfigEntity.GetAttachmentsPath | app/backend/entities/config.entity.ts:13-16 | the value of the first row keyed `attachmentsPath` when it is non-empty, and `./attachments` when there is no such row or its value is empty; never empty |
| ConfigEntity.OtherKeysIrrelevant | app/backend/entities/config.entity.ts:13-16 | inserting a row with another key anywhere in the list never changes the result |
| ConfigEntity.FirstKeyed | app/backend/entities/config.entity.ts:13-16 | `find` takes the first matching row: the first row decides when it carries the key, and otherwise the rest of the list does |
| ConfigRecords.Get | app/backend/services/config.service.ts:30-33 | `getConfig` gives a value iff the key is stored with a non-empty value, and then the stored value |
| ConfigRecords.OrFallback | app/backend/services/config.service.ts:67-85 | each named getter gives the stored non-empty value, otherwise its fallback, and never the empty string |
| ConfigRecords.SetThenGet | app/backend/services/config.service.ts:30-45 | after `setConfig(k, v)`, `getConfig(k)` reads `v` when `v` is non-empty and null otherwise; other keys read as before |
| ConfigRecords.DeleteThenGet | app/backend/services/config.service.ts:51-54 | after `deleteConfig(k)`, `getConfig(k)` is null; other keys read as before |
| ConfigRecords.SeedAllSpec | app/backend/services/config.service.ts:13-28 | seeding rows with distinct keys keeps a key's non-empty stored value, otherwise stores its default, and leaves every other key as it was |
| ConfigRecords.SeedOne | app/backend/services/config.service.ts:22-27 | seeding one default adds its key, keeps a non-empty stored value, stores the default for an unset key, and leaves other keys alone |
| ConfigRecords.SeedAll | app/backend/services/config.service.ts:13-28 | seeding keeps every stored key and its non-empty value, and stores every default key |
| ConfigRecords.SeededDefaultsReadable | app/backend/services/config.service.ts:13-28 | after seeding, every default key reads non-null, and a key that already read non-null still reads the same |
| ConfigRecords.AsBooleanSpec | app/backend/services/config.service.ts:61-64 | the boolean getter falls back only when the key reads null, reads `TRUE` and `True` as true and `yes` and `1` as false |
| ConfigRecords.AsBoolean | app/backend/services/config.service.ts:61-64 | a missing or empty value gives the default, and any other value is true exactly when it lower-cases to `true` |
| ConfigRecords.EntityHelperAgrees | app/backend/services/config.service.ts:67-69 | the service's getter and the entity helper give the same path on any one-row-per-key listing of the table |
| ConfigRecords.ConfigService.constructor | app/backend/services/config.service.ts:8-11 | the service seeds the defaults over the stored table as it is created |
| ConfigRecords.ConfigService.InitializeDefaultConfig | app/backend/services/config.service.ts:13-28 | the table after the loop is the stored table seeded with the five defaults in order |
| ConfigRecords.ConfigService.GetConfig | app/backend/services/config.service.ts:30-33 | the value `getConfig` gives for the current table |
| ConfigRecords.ConfigService.SetConfig | app/backend/services/config.service.ts:35-45 | the key maps to the new value, whether it existed or not; every other key is unchanged |
| ConfigRecords.ConfigService.GetAllConfigs | app/backend/services/config.service.ts:47-49 | every stored key/value pair |
| ConfigRecords.ConfigService.DeleteConfig | app/backend/services/config.service.ts:51-54 | true iff the key was stored; afterwards it is not, and nothing else changes |
| ConfigRecords.ConfigService.GetConfigAsBoolean | app/backend/services/config.service.ts:61-64 | the boolean reading of the key for the current table |
| ConfigRecords.ConfigService.GetAttachmentsPath | app/backend/services/config.service.ts:67-69 | the stored path or `./attachments`, never empty |
| ConfigRecords.ConfigService.GetCurrency | app/backend/services/config.service.ts:71-73 | the stored currency or `USD`, never empty |
| ConfigRecords.ConfigService.GetCompanyName | app/backend/services/config.service.ts:79-81 | the stored company name or `Your Company`, never empty |
| ConfigRecords.ConfigService.GetCompanyEmail | app/backend/services/config.service.ts:83-85 | the stored company email or `contact@yourcompany.com`, never empty |
| Pomodoro.StartNext | src/app/core/services/pomodoro.service.ts:200-235 | the next session has the requested type, its full length, is neither running nor paused, and keeps the counters |
| Pomodoro.Complete | src/app/core/services/pomodoro.service.ts:168-198 | after work comes a break, long exactly when the new pomodoro count is a multiple of the interval, and one more pomodoro and round; after a break comes work with the counters kept; the session is fresh and the counters stay consistent |
| Pomodoro.Ticked | src/app/core/services/pomodoro.service.ts:157-166 | a tick takes one second off, and a session reaching zero completes; NaN time never reaches zero |
| Pomodoro.ResetTimerOf | src/app/core/services/pomodoro.service.ts:107-131 | resetting keeps the type and counters and restarts the session at full length, stopped |
| Pomodoro.FirstSession | src/app/core/services/pomodoro.service.ts:138-151 | the reset session is the first round's work session with no pomodoro completed |
| Pomodoro.NumberSetting | src/app/core/services/pomodoro.service.ts:357-360 | a missing or empty stored value gives the default, and a stored decimal numeral its value |
| Pomodoro.FlagSetting | src/app/core/services/pomodoro.service.ts:361-365 | a missing or empty stored value gives the default, and any other value is true exactly when it is `true` |
| Pomodoro.FormatTime | src/app/core/services/pomodoro.service.ts:382-386 | non-negative seconds print as `<minutes>:<SS>`, the digits reading back as the minutes and the seconds within the minute, five characters below 100 minutes; NaN prints as `NaN:NaN` |
| Pomodoro.PaddedNat | src/app/core/services/pomodoro.service.ts:385 | padding a natural number to two digits keeps its value and gives exactly two characters below 100 |
| Pomodoro.TicksCountDown | src/app/core/services/pomodoro.service.ts:157-166 | fewer ticks than the seconds left take exactly that many seconds off |
| Pomodoro.SessionLastsItsRemaining | src/app/core/services/pomodoro.service.ts:157-166 | a session with `r` seconds counts down through every value and completes at exactly the `r`-th tick |
| Pomodoro.WorkBreakCycle | src/app/core/services/pomodoro.service.ts:168-198 | every work and break pair, from a work session, adds one pomodoro and one round and returns to work |
| Pomodoro.LongBreakEveryInterval | src/app/core/services/pomodoro.service.ts:168-198 | after a reset, the break after the `k`-th pomodoro is a break, and a long one exactly when `k` is a multiple of the interval |
| Pomodoro.NumTextReadsBack | src/app/core/services/pomodoro.service.ts:315-360 | `parseInt` reads back every number `toString` writes, NaN included, and the text is never empty |
| Pomodoro.SavedValues | src/app/core/services/pomodoro.service.ts:311-328 | each of the nine keys holds the text of the setting saved under it |
| Pomodoro.LoadAfterSave | src/app/core/services/pomodoro.service.ts:311-379 | loading after saving gives back the saved settings, whatever else the table holds |
| Pomodoro.Decode | src/app/core/services/pomodoro.service.ts:356-366 | a table without Pomodoro keys loads the default settings, and a stored decimal work duration loads as its value |
| Pomodoro.FlagLetterCase | src/app/core/services/pomodoro.service.ts:361-365 | a stored `TRUE` reads false here, while the configuration service's boolean getter reads it true |
| Pomodoro.MergeSpec | src/app/core/services/pomodoro.service.ts:76-86 | a patch with every property replaces the settings, and applying a patch twice is the same as once |
| Pomodoro.Merged | src/app/core/services/pomodoro.service.ts:76-77 | an empty patch keeps the settings, and a patch with every property gives those settings |
| Pomodoro.IsLongBreak | src/app/core/services/pomodoro.service.ts:186-187 | a long break needs a positive interval, and never comes before that many pomodoros |
| Pomodoro.SessionTypeLabel | src/app/core/services/pomodoro.service.ts:393-400 | `Work Session` exactly for work, and a label ending in `Break` exactly for the two breaks |
| Pomodoro.PomodoroService.constructor | src/app/core/services/pomodoro.service.ts:34-66 | the service starts from the first session of the loaded settings, or of the defaults when loading fails |
| Pomodoro.PomodoroService.LoadConfig | src/app/core/services/pomodoro.service.ts:330-379 | the settings become the stored ones unless loading fails; a stopped session is restarted at its new length |
| Pomodoro.PomodoroService.GetSession | src/app/core/services/pomodoro.service.ts:68-70 | the current session |
| Pomodoro.PomodoroService.GetConfig | src/app/core/services/pomodoro.service.ts:72-74 | the current settings |
| Pomodoro.PomodoroService.SaveConfig | src/app/core/services/pomodoro.service.ts:311-328 | the table holds the nine settings as text; other keys are unchanged |
| Pomodoro.PomodoroService.UpdateConfig | src/app/core/services/pomodoro.service.ts:76-86 | the settings take the patch, are saved, and a stopped session restarts at its new length |
| Pomodoro.PomodoroService.ResetConfigToDefaults | src/app/core/services/pomodoro.service.ts:153-155 | the settings become the defaults and are saved |
| Pomodoro.PomodoroService.StartTimer | src/app/core/services/pomodoro.service.ts:88-97 | a stopped session starts running and is not paused; a running one is untouched |
| Pomodoro.PomodoroService.PauseTimer | src/app/core/services/pomodoro.service.ts:99-105 | a running session stops and is paused; a stopped one is untouched |
| Pomodoro.PomodoroService.ResetTimer | src/app/core/services/pomodoro.service.ts:107-131 | the session restarts at full length, stopped, with its type and counters |
| Pomodoro.PomodoroService.ResetPomodoro | src/app/core/services/pomodoro.service.ts:138-151 | the session becomes the first work session |
| Pomodoro.PomodoroService.StartNextSession | src/app/core/services/pomodoro.service.ts:200-235 | the session becomes the next one, with the given counters when there are any, and the answer says whether the timer starts itself |
| Pomodoro.PomodoroService.CompleteSession | src/app/core/services/pomodoro.service.ts:168-198 | the session moves to the one after it, keeping the counters consistent |
| Pomodoro.PomodoroService.Tick | src/app/core/services/pomodoro.service.ts:157-166 | the session takes one tick, and starts itself only when it completed and the settings say so |
| Pomodoro.PomodoroService.SkipSession | src/app/core/services/pomodoro.service.ts:133-136 | skipping completes the session at once |
| FileUploader.InitialItems | src/app/shared/components/file-uploader/file-uploader.component.ts:64-87 | one uploaded item per stored attachment, in order, each with the next serial |
| FileUploader.InitialItemSpec | src/app/shared/components/file-uploader/file-uploader.component.ts:68-74 | a stored attachment becomes an uploaded item with its id, its attachment, size 0, no file, its file name when that is non-empty, and never an empty name |
| FileUploader.TrackByFileName | src/app/shared/components/file-uploader/file-uploader.component.ts:268-270 | the key is the file name followed by its truthy id, or else by the index |
| FileUploader.SizedItems | src/app/shared/components/file-uploader/file-uploader.component.ts:64-114 | the listed items after the reads: each takes its file's size where its content is read |
| FileUploader.NewItems | src/app/shared/components/file-uploader/file-uploader.component.ts:116-138 | one pending item per picked file, in order, each with the next serial |
| FileUploader.PendingFiles | src/app/shared/components/file-uploader/file-uploader.component.ts:272-274 | an item is pending exactly when it is listed and not uploaded |
| FileUploader.LowerFrom | src/app/shared/components/file-uploader/file-uploader.component.ts:254-258 | lower-casing commutes with taking a suffix |
| FileUploader.IsImageFileSpec | src/app/shared/components/file-uploader/file-uploader.component.ts:254-258 | a name is an image exactly when it has a dot and, in any letter case, its text from the last dot on is an image extension |
| FileUploader.UpperCaseImage | src/app/shared/components/file-uploader/file-uploader.component.ts:254-258 | `photo.JPG` is an image |
| FileUploader.LastDotDecides | src/app/shared/components/file-uploader/file-uploader.component.ts:254-258 | `photo.jpg.pdf` is not an image: only the last extension counts |
| FileUploader.ClearKeepsUploaded | src/app/shared/components/file-uploader/file-uploader.component.ts:152-156 | after clearing, nothing is pending and every uploaded item is still listed |
| FileUploader.PreviewsUpToSpec | src/app/shared/components/file-uploader/file-uploader.component.ts:89-114 | after loading, the previews are the names of exactly the image attachments whose content is read |
| FileUploader.ImagesUpToSpec | src/app/shared/components/file-uploader/file-uploader.component.ts:116-138 | the previews a selection adds are the names of exactly the picked image files |
| FileUploader.FileUploaderComponent.constructor | src/app/shared/components/file-uploader/file-uploader.component.ts:41-42 | no item and no preview |
| FileUploader.FileUploaderComponent.LoadInitialFiles | src/app/shared/components/file-uploader/file-uploader.component.ts:64-87 | the list becomes one uploaded item per attachment, sized where its content is read, with the previews of exactly the readable images |
| FileUploader.FileUploaderComponent.ReadContents | src/app/shared/components/file-uploader/file-uploader.component.ts:77-82 | the loop over the listed items sizes each one and collects the previews |
| FileUploader.FileUploaderComponent.GenerateUploadedImagePreview | src/app/shared/components/file-uploader/file-uploader.component.ts:89-114 | an item whose content is read takes its size and, if an image, adds its preview; nothing else changes |
| FileUploader.FileUploaderComponent.OnFileSelect | src/app/shared/components/file-uploader/file-uploader.component.ts:116-138 | the picked files are appended as pending items, and each picked image gains a preview |
| FileUploader.FileUploaderComponent.OnFileRemove | src/app/shared/components/file-uploader/file-uploader.component.ts:140-150 | the first item holding the removed file is taken out with its preview; a file not listed changes nothing |
| FileUploader.FileUploaderComponent.OnClear | src/app/shared/components/file-uploader/file-uploader.component.ts:152-156 | only uploaded items stay, in order, and every preview goes |
| FileUploader.FileUploaderComponent.KeptSerials | src/app/shared/components/file-uploader/file-uploader.component.ts:152-156 | items with distinct serials still have distinct serials after the clear |
| FileUploader.FileUploaderComponent.RemoveFileFromUI | src/app/shared/components/file-uploader/file-uploader.component.ts:218-243 | the first item with the removed serial is spliced out, and every other item stays in order; its preview goes exactly when it was listed; an unlisted item changes nothing |
| FileUploader.FileUploaderComponent.RemoveFile | src/app/shared/components/file-uploader/file-uploader.component.ts:158-212 | a pending item is spliced out at once; an uploaded one only after confirmation and a successful delete, with the toast each outcome shows; a cancelled, unstored or failed removal leaves the items and previews unchanged |
| FileUploader.FileUploaderComponent.GetPendingFiles | src/app/shared/components/file-uploader/file-uploader.component.ts:272-274 | the items not yet uploaded |
| JobCalendar.JobToEvent | src/app/shared/components/job-calendar/job-calendar.component.ts:99-129 | an event carries the job, its id, title and status, the status colour or the pending one, all day and fixed; a completed job's event starts and ends on its completion date, and otherwise it runs from the start date, or now, to the due date |
| JobCalendar.Events | src/app/shared/components/job-calendar/job-calendar.component.ts:91-97 | one event per job that is not cancelled, in order: the i-th event is the calendar event of the i-th active job |
| JobCalendar.StatusSeverity | src/app/shared/components/job-calendar/job-calendar.component.ts:178-191 | `success`, `warn` and `danger` exactly for completed, pending and cancelled jobs, and `info` for anything else |
| JobCalendar.StatusColor | src/app/shared/components/job-calendar/job-calendar.component.ts:24-41 | a colour exists exactly for the four statuses |
| JobCalendar.CssClass | src/app/shared/components/job-calendar/job-calendar.component.ts:121 | the class is `job-event status-` followed by the status, with its first `_` turned into `-` and every other character lower-cased |
| JobCalendar.IndexOfLower | src/app/shared/components/job-calendar/job-calendar.component.ts:121 | lower-casing moves no `_`, so `replace('_', '-')` finds the same first `_` before and after `toLowerCase` |
| JobCalendar.EventsExactlyActive | src/app/shared/components/job-calendar/job-calendar.component.ts:91-97 | a job has an event exactly when it is listed and not cancelled |
| JobCalendar.CompletedJobOnItsDay | src/app/shared/components/job-calendar/job-calendar.component.ts:103-116 | a completed job with a readable completion date is shown on that one day |
| JobCalendar.StatusLabel | src/app/shared/components/job-calendar/job-calendar.component.ts:193-195 | the label keeps the status's length and letters, in any case, with its first `_` turned to a space |
| JobCalendar.InProgressLabel | src/app/shared/components/job-calendar/job-calendar.component.ts:193-195 | `in_progress` is labelled `In Progress` |
| JobCalendar.InProgressCss | src/app/shared/components/job-calendar/job-calendar.component.ts:121 | an `in_progress` job's event has class `job-event status-in-progress` |
| JobCalendar.JobCalendarView.constructor | src/app/shared/components/job-calendar/job-calendar.component.ts:63-79 | the month view of today, no events, the active day open |
| JobCalendar.JobCalendarView.SetJobs | src/app/shared/components/job-calendar/job-calendar.component.ts:87-89 | new jobs rebuild the events from them; the view is unchanged |
| JobCalendar.JobCalendarView.UpdateEvents | src/app/shared/components/job-calendar/job-calendar.component.ts:91-97 | the events become those of the current jobs; nothing else changes |
| JobCalendar.JobCalendarView.DayClicked | src/app/shared/components/job-calendar/job-calendar.component.ts:131-144 | a day in the shown month becomes the view date, and its panel opens unless it was already open on that day or the day has no events; a day in another month changes nothing |
| JobCalendar.JobCalendarView.SetView | src/app/shared/components/job-calendar/job-calendar.component.ts:152-156 | the view becomes the chosen one; nothing else changes |
| JobCalendar.JobCalendarView.CloseOpenMonthViewDay | src/app/shared/components/job-calendar/job-calendar.component.ts:158-160 | the day panel closes; nothing else changes |
| JobCalendar.JobCalendarView.GoToToday | src/app/shared/components/job-calendar/job-calendar.component.ts:172-176 | the view moves to today with the day panel closed |
| JobsPage.StatusSeverity | src/app/jobs/jobs.component.ts:143-150 | `success`, `info` and `danger` exactly for completed, in-progress and cancelled jobs, and `warn` for anything else |
| JobsPage.ClientName | src/app/jobs/jobs.component.ts:152-155 | the name of the first client with the id, or `Unknown Client` when there is none |
| JobsPage.SeveritiesCompared | src/app/jobs/jobs.component.ts:143-150 | the jobs page and the calendar badge the four statuses alike, and differ on any other status |
| JobsPage.DeleteKeepsListInSync | src/app/jobs/jobs.component.ts:123-124 | dropping the deleted job from the shown list gives what a fresh listing of the table would show |
| JobsPage.JobsView.constructor | src/app/jobs/jobs.component.ts:24-25 | no job and no client shown |
| JobsPage.JobsView.ListJobs | src/app/jobs/jobs.component.ts:44-49 | the shown jobs become the back end's listing, newest first |
| JobsPage.JobsView.LoadClients | src/app/jobs/jobs.component.ts:51-55 | the clients become the rows the client service answers |
| JobsPage.JobsView.AfterJobDialog | src/app/jobs/jobs.component.ts:59-104 | a successful dialog reloads the list and shows the created or updated toast; a cancelled one changes nothing and shows none; a rejected one shows the failure toast |
| JobsPage.JobsView.DeleteJob | src/app/jobs/jobs.component.ts:106-139 | a declined confirmation changes nothing; a confirmed delete removes the job from the table and the shown list with the success toast, and a failed one shows the error toast |
| JobsPage.JobsView.GetClientName | src/app/jobs/jobs.component.ts:152-155 | the shown name of the job's client |
| DialogService.Configured | src/app/core/dialog.service.ts:50-90 | the caller's properties override the defaults: the `Add`/`Edit` title of the kind, `50vw` or `60vw` wide, modal, not closable, mask dismissable |
| DialogService.Opened | src/app/core/dialog.service.ts:50-90 | an open call publishes a visible dialog of its kind with its data, configuration and promise |
| DialogService.Settled | src/app/core/dialog.service.ts:92-104 | closing settles a promise exactly when the state holds one, and then that promise, with the result |
| DialogService.CloseSettlesOpener | src/app/core/dialog.service.ts:50-104 | closing a dialog settles exactly the promise its open call returned |
| DialogService.CloseWhenClosed | src/app/core/dialog.service.ts:92-104 | closing an already closed dialog settles nothing |
| DialogService.EditOnlyRetitles | src/app/core/dialog.service.ts:50-90 | without overrides, the add and edit dialogs of a kind differ only in their title |
| DialogService.DialogService.constructor | src/app/core/dialog.service.ts:41-46 | the dialog starts closed, with nothing settled |
| DialogService.DialogService.Open | src/app/core/dialog.service.ts:50-90 | the state becomes the opened dialog holding a fresh promise; an earlier open dialog is replaced without settling |
| DialogService.DialogService.Close | src/app/core/dialog.service.ts:92-104 | the state returns to closed, and the pending promise, if any, is settled with the result |
| AppInit.ErrorText | src/app/core/services/app-initialization.service.ts:58-62 | a thrown message is published as is, and a throw without one as `Unknown initialization error` |
| AppInit.Started | src/app/core/services/app-initialization.service.ts:44-45 | while the wait is in flight, the service is initializing, not initialized, with no error |
| AppInit.Ended | src/app/core/services/app-initialization.service.ts:55-65 | from any flags, after the wait the service is not initializing, initialized iff it already was or the wait succeeded, errored with the thrown message after a throw, and keeps its earlier error after a success |
| AppInit.InitializeFromRest | src/app/core/services/app-initialization.service.ts:39-66 | from rest, a call ends at rest: an initialized service is untouched, and otherwise it is initialized iff the wait succeeded, with the error text otherwise |
| AppInit.InitializeIdempotent | src/app/core/services/app-initialization.service.ts:40-42 | once initialized, further calls change nothing |
| AppInit.RetryAfterFailure | src/app/core/services/app-initialization.service.ts:39-66 | a failed start leaves the error, and a later success initializes and clears it |
| AppInit.AppInitializationService.constructor | src/app/core/services/app-initialization.service.ts:9-11 | neither initialized nor initializing, no error |
| AppInit.AppInitializationService.Start | src/app/core/services/app-initialization.service.ts:39-45 | the call proceeds exactly when neither initialized nor initializing, and then sets the flags of a start in flight; otherwise nothing changes |
| AppInit.AppInitializationService.Finish | src/app/core/services/app-initialization.service.ts:46-65 | in any state, the flags become those after a wait that ends with the given outcome |
| AppInit.AppInitializationService.Initialize | src/app/core/services/app-initialization.service.ts:39-66 | a whole call without another in between |
| AppInit.AppInitializationService.Reset | src/app/core/services/app-initialization.service.ts:68-72 | all flags back to their initial values |
| Lifecycle.ProcessedHasNoDateObjects | src/app/core/services/job.service.ts:38-54 | the front-end canonicalisation leaves no `Date` object in the job data |
| Lifecycle.AddedJobDated | src/app/core/global-dialog/global-dialog.component.ts:434-447 | a job added through the dialog is stored with a completion date exactly when added as completed, today's date, and never with a start date |
| Lifecycle.IntendedUpdate | app/backend/services/job.service.ts:56-64 | the update the dialog intends stores the completion date it sends |
| Lifecycle.IntendedEditKeepsDated | src/app/core/global-dialog/global-dialog.component.ts:434-447 | with that update, every edit keeps a job dated exactly when it is completed |
| Lifecycle.EditedCompletionNotStored | app/backend/services/job.service.ts:56-64 | as written, an in-progress job edited to completed is stored completed with its old, empty completion date, although the dialog sent one |
| Lifecycle.ReopenedKeepsDate | app/backend/services/job.service.ts:56-64 | as written, reopening a completed job keeps its completion date, although the dialog sent null |
| Seqs.Filter | src/app/jobs/jobs.component.ts:123-124 | `filter` keeps only passing elements and never lengthens the list |
| Seqs.FilterMembers | src/app/jobs/jobs.component.ts:123-124 | an element survives the filter exactly when it was listed and passes |
| Seqs.FilterReverse | app/backend/services/job.service.ts:37-49 | filtering the newest-first listing is the newest-first order of the filtered table |
| Seqs.Reverse | app/backend/services/job.service.ts:21-26 | `ORDER BY created_at DESC` over rows kept in insertion order reads them from last to first |
| Seqs.Take | app/backend/services/job.service.ts:137 | `LIMIT n` keeps the first `n` rows, or all when fewer |
| Seqs.FindIndex | src/app/shared/components/file-uploader/file-uploader.component.ts:142 | `findIndex` gives the first passing position, or -1 exactly when none passes |
| Seqs.RemoveAt | src/app/shared/components/file-uploader/file-uploader.component.ts:146 | `splice(i, 1)` drops the element at `i` and shifts the rest down in order |
| Seqs.SortBy | app/backend/services/job.service.ts:136 | the sorted listing holds the same rows |
| Seqs.SortBySorted | app/backend/services/job.service.ts:136 | under a total preorder, sorting yields an ordered permutation |
| Seqs.TopOfSortBy | app/backend/services/job.service.ts:136-137 | the first `n` of the sorted rows are ordered, drawn from the table, and rank no lower than every row left out |
| Text.NatToString | src/app/core/global-dialog/global-dialog.component.ts:876 | `toString` of a natural number is a digit run denoting it, one digit exactly below 10, without a leading zero |
| Text.LastTwoDigits | src/app/core/global-dialog/global-dialog.component.ts:878 | `slice(-2)` of a four-digit year is its last two digits, the year modulo 100 |
| Text.Split | src/app/core/global-dialog/global-dialog.component.ts:885 | `split` gives at least one piece, none holding the separator |
| Text.JoinSplit | src/app/core/global-dialog/global-dialog.component.ts:885 | joining the pieces of a split with the separator gives the string back |
| Text.ParseIntOfDigits | src/app/core/global-dialog/global-dialog.component.ts:888-890 | `parseInt` of a digit run, leading zeros included, is its value |
| Text.ParseIntOfIntToString | src/app/core/global-dialog/global-dialog.component.ts:888-890 | `parseInt` reads back every integer `toString` writes |
| Text.IndexOf | src/app/core/global-dialog/global-dialog.component.ts:786 | `indexOf` gives the first position of the character, or -1 exactly when it is absent |
| Text.LastIndexOf | src/app/shared/components/file-uploader/file-uploader.component.ts:256 | `lastIndexOf` gives the last position of the character, or -1 exactly when it is absent |
| Text.ContainsIffOccurs | app/backend/services/client.service.ts:73-75 | `%term%` containment holds exactly when the term occurs at some position |

## Left out

- Floating point: `getConfigAsNumber`, `getTaxRate`, `getProgress`, `formatFileSize` and the `parseFloat` of SQL sums are not modelled. Amounts are integer cents.
- JavaScript numbers are NaN or integers. Fractions, infinities and the 2^53 limit are outside the model, and so are the whitespace, decimal and exponent forms of `Number(s)`. `parseInt` has no hexadecimal prefix.
- The host's `new Date(string)` parser is implementation-defined, so it is a function parameter.
- Time zones, daylight saving and the `Date` range limit are not modelled. Every date is a local calendar date plus milliseconds into the day.
- SQL `LIKE` wildcards inside a search term (`%`, `_`) are not modelled. Case folding covers ASCII letters only, as in SQLite.
- TypeORM details are not modelled: an `update` with an empty patch, foreign-key constraints, and the `relations` joins beyond the client name each view needs.
- `created_at` timestamps are not modelled apart from payments. Insertion order stands for creation order. Payment creation times come from a clock that never runs backwards, so the payments table is in `created_at` order; equal timestamps keep insertion order, where SQLite leaves their order open.
- `getAllConfigs` answers the table as a map. The ORM's row order is not modelled.
- `path.join` normalisation of `..` and repeated slashes is not modelled. Paths are joined with a single `/`. So with the empty attachments path that the as-written guard can assign, the model saves to `/general/<name>` where `path.join` gives the relative `general/<name>`.
- The debug log that `saveFile` appends to is not modelled, and neither is its unused `subPath` argument.
- Attachment records the front end creates or updates through IPC are not part of this model. They only forward to the repository.
- `getClientsWithJobCount` is not part of this model. It is a join query with a count, and no rule of the application depends on it.
- `getJobsByDateRange` is called by the front end but defined in no back-end file, so it is not modelled. Neither are the `moment` week and month wrappers built on it.
- The job-type repository accessor the service calls is missing from the database service. The service is modelled against its table alone.
- Updating a job sends its client as `client: { id }`. The model stores that as the job's client id.
- Unicode case mapping is ASCII only, in `toLowerCase`, `toUpperCase` and `\w`.
- Audio, desktop notifications, `FileReader`, blob URLs and DOM events are not modelled.
- Angular change detection, `EventEmitter` outputs, rxjs subjects and subscriptions are not modelled. A subject is the field it holds.
- Timers: the rxjs `interval` and the `setTimeout` auto-start become the `autoStart` answer and an explicit `Tick` call. The 100 ms start-up wait is not modelled either.
- Store failures of the creates are not modelled: `createJob`, `createClient`, `createPayment` and `createJobType` fail only on a NOT NULL column. So the `Failed to create job type: ` prefix wraps only that error here, where the source wraps every store error (app/backend/services/job-type.service.ts:16-19).
- The read queries of the job-type service are not modelled as failing, and neither are the `Failed to fetch job types: `, `Failed to fetch job type: ` and `Failed to search job types: ` messages they re-throw (app/backend/services/job-type.service.ts:27-30, 39-42, 83-86). The reads of the other services, which do not catch, are not modelled as failing either.
- `saveFile`'s final `createAttachment` is not modelled as failing, so a file written with no row to record it is outside the model (app/backend/services/attachment.service.ts:144).
- The row deletes of `deleteJob` and `deleteClient`, and the calls of the configuration service, are not modelled as failing.
- Concurrency of asynchronous calls is not modelled, except the start-up flags' split into `Start` and `Finish`. Promises that can be rejected take their outcome as a parameter.
- A failed Pomodoro save is not modelled, because the source only logs it. A failed load is a parameter.
- An explicit `undefined` property in a `Partial<PomodoroConfig>` patch is not modelled. The patch treats an absent and an `undefined` property alike.
- A dialog's data and result payload is a client or job record. Payloads of any other shape are not modelled.
- Confirmation dialogs and toasts are not modelled as UI. The user's answer is a parameter, and the toast text is returned.
- `listJobs` does not await its promise. The model applies the listing at once.
- The dialog's `saveJobPayments` and `uploadFiles` loops are not modelled. They forward payments and files over IPC one by one.
- The compiled `.js` copies of the back-end services and entities are not modelled. They are stale duplicates of the `.ts` sources.
- Angular forms and validators are not modelled, apart from the error messages of `getFieldError` and the payment form's validity.

## Findings

| source | as written | input that shows it | evidently intended | confidence | as-written member | corrected member |
|---|---|---|---|---|---|---|
| app/backend/services/attachment.service.ts:33-34 | `if (config == null \|\| config.value) return;` returns early for every non-empty stored path, and assigns only an empty one | stored path `/data/files` with current path `/home/user/attachments`: the path stays `/home/user/attachments` | a non-empty stored path replaces the default (`if (config == null \|\| !config.value) return;`) | not executed | AttachmentRecords.StoredPathIgnoredAsWritten | AttachmentRecords.LoadedPath |
| app/backend/services/payment.service.ts:99-102 | `new Date(year, month, 0)` is midnight at the start of the month's last day, and the range query is inclusive up to that instant | a payment created at 10:00 on 31 January 2024; `getPaymentsByMonth(2024, 1)` leaves it out | the query covers the whole of the last day | not executed | PaymentRecords.ByMonthAsWrittenMissesLastDay | PaymentRecords.ByMonthExactly |

The service classes keep both pieces of code as written. The corrected rules are stated and proved beside them: `AttachmentRecords.AttachmentService.SetAttachmentsPath` applies the intended guard, and `PaymentRecords.StatsIntendedSpec` gives the monthly figures over the whole last day. `PaymentRecords.StatsMissLastDay` shows the two statistics differing on the payment above.

