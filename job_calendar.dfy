// The job calendar: jobs turned into all-day calendar events, the day panel of the month view,
// and the status badges.

module JobCalendar {
  import opened Wrappers
  import opened Text
  import opened Seqs
  import opened Calendar
  import opened Entities
  import opened DateUtils

  datatype Color = Color(primary: string, secondary: string)

  /** `statusColors`: one colour pair per status, nothing for any other string. */
  function StatusColor(status: string): (r: Option<Color>)
    ensures r.Some? <==> status == PENDING || status == IN_PROGRESS || status == COMPLETED || status == CANCELLED
  {
    if status == PENDING then Some(Color("#f97316", "#fed7aa"))
    else if status == IN_PROGRESS then Some(Color("#3b82f6", "#dbeafe"))
    else if status == COMPLETED then Some(Color("#10b981", "#d1fae5"))
    else if status == CANCELLED then Some(Color("#ef4444", "#fee2e2"))
    else None
  }

  /** `CalendarEvent` as the component builds it; `meta` is the job, its status and the client
      name. */
  datatype CalendarEvent = CalendarEvent(
    id: int,
    start: JsDate,
    end: Option<JsDate>,
    title: string,
    color: Color,
    job: Job,
    status: string,
    client: string,
    cssClass: string,
    resizableBeforeStart: bool,
    resizableAfterEnd: bool,
    draggable: bool,
    allDay: bool)

  datatype CalendarView = Month | Week | Day

  /** A job's date column as `parseStringToDate` reads it when the column is truthy. */
  function ParsedColumn(v: Option<string>, host: HostParser): Option<JsDate> {
    if v.Some? && v.value != "" then ParseStringToDate(Str(v.value), host) else None
  }

  predicate Truthy(v: Option<string>) {
    v.Some? && v.value != ""
  }

  /** `job-event status-` and the status, lower-cased, with its first `_` turned into `-`. */
  function CssClass(status: string): (r: string)
    ensures |r| == 17 + |status| && r[..17] == "job-event status-"
    ensures '_' !in status ==> r[17..] == Lower(status)
    ensures forall i :: 0 <= i < |status| ==>
      r[17 + i] == if i == IndexOf(status, '_') then '-' else LowerChar(status[i])
  {
    ReplaceFirstByChar(Lower(status), '_', '-');
    IndexOfLower(status);
    var r := "job-event status-" + ReplaceFirst(Lower(status), '_', "-");
    assert r[..17] == "job-event status-";
    r
  }

  /** The name of the job's client, or `No Client`. */
  function ClientName(j: Job, clients: seq<Client>): string {
    var c := ClientOf(j, clients);
    if c.Some? && c.value.name != "" then c.value.name else "No Client"
  }

  /** `jobToCalendarEvent`; `now` is `new Date()`. */
  function JobToEvent(j: Job, clients: seq<Client>, now: JsDate, host: HostParser): (r: CalendarEvent)
    ensures r.id == j.id && r.title == j.title && r.job == j && r.status == j.status
    ensures r.color == StatusColor(j.status).GetOr(StatusColor(PENDING).value)
    ensures r.allDay && !r.draggable && !r.resizableBeforeStart && !r.resizableAfterEnd
    ensures Truthy(j.completedDate) ==>
      r.end == ParsedColumn(j.completedDate, host) && r.start == r.end.GetOr(now)
    ensures !Truthy(j.completedDate) ==>
      r.start == ParsedColumn(j.startDate, host).GetOr(now) && r.end == ParsedColumn(j.dueDate, host)
  {
    var start0 := if Truthy(j.startDate) then ParsedColumn(j.startDate, host) else Some(now);
    var end := if Truthy(j.completedDate) then ParsedColumn(j.completedDate, host)
               else if Truthy(j.dueDate) then ParsedColumn(j.dueDate, host)
               else None;
    var start := if Truthy(j.completedDate) then end else start0;
    CalendarEvent(
      j.id, start.GetOr(now), end, j.title,
      StatusColor(j.status).GetOr(StatusColor(PENDING).value),
      j, j.status, ClientName(j, clients), CssClass(j.status),
      false, false, false, true)
  }

  function NotCancelled(j: Job): bool {
    j.status != CANCELLED
  }

  /** The events `updateEvents` shows: one per job that is not cancelled, in the jobs' order. */
  function Events(jobs: seq<Job>, clients: seq<Client>, now: JsDate, host: HostParser): (r: seq<CalendarEvent>)
    ensures |r| == |Filter(jobs, NotCancelled)|
    ensures forall i :: 0 <= i < |r| ==> r[i] == JobToEvent(Filter(jobs, NotCancelled)[i], clients, now, host)
  {
    var active := Filter(jobs, NotCancelled);
    seq(|active|, i requires 0 <= i < |active| => JobToEvent(active[i], clients, now, host))
  }

  /** date-fns `isSameMonth`: false when either date is invalid. */
  predicate SameMonth(a: JsDate, b: JsDate) {
    a.At? && b.At? && a.date.year == b.date.year && a.date.month == b.date.month
  }

  /** date-fns `isSameDay`. */
  predicate SameDay(a: JsDate, b: JsDate) {
    a.At? && b.At? && a.date == b.date
  }

  /** `getStatusSeverity` of the calendar. */
  function StatusSeverity(status: string): (r: string)
    ensures r == "success" <==> status == COMPLETED
    ensures r == "warn" <==> status == PENDING
    ensures r == "danger" <==> status == CANCELLED
    ensures r == "info" <==> status != COMPLETED && status != PENDING && status != CANCELLED
  {
    if status == COMPLETED then "success"
    else if status == IN_PROGRESS then "info"
    else if status == PENDING then "warn"
    else if status == CANCELLED then "danger"
    else "info"
  }

  /** `getStatusLabel`: the first `_` becomes a space, then every word is capitalised. The
      label has the status's length and, up to letter case, its characters, except for the
      space where the first `_` stood. */
  function StatusLabel(status: string): (r: string)
    ensures |r| == |status|
    ensures forall i :: 0 <= i < |status| && i == IndexOf(status, '_') ==> r[i] == ' '
    ensures forall i :: 0 <= i < |status| && i != IndexOf(status, '_') ==> LowerChar(r[i]) == LowerChar(status[i])
  {
    var t := ReplaceFirst(status, '_', " ");
    ReplaceFirstByChar(status, '_', ' ');
    LowerLetters(t);
    CapitalizeLetters(Lower(t));
    CapitalizeWords(Lower(t))
  }

  // ----- Properties -----

  /** Exactly the jobs that are not cancelled have an event. */
  lemma EventsExactlyActive(jobs: seq<Job>, clients: seq<Client>, now: JsDate, host: HostParser, j: Job)
    ensures (exists i :: 0 <= i < |Events(jobs, clients, now, host)| && Events(jobs, clients, now, host)[i].job == j)
            <==> j in jobs && j.status != CANCELLED
  {
    var r := Events(jobs, clients, now, host);
    var active := Filter(jobs, NotCancelled);
    FilterMembers(jobs, NotCancelled);
    if i :| 0 <= i < |r| && r[i].job == j {
      assert active[i] in active;
    }
    if j in jobs && j.status != CANCELLED {
      assert j in active;
      var k :| 0 <= k < |active| && active[k] == j;
      assert r[k].job == j;
    }
  }

  /** A completed job whose date parses is a one-day event on its completion date. */
  lemma CompletedJobOnItsDay(j: Job, clients: seq<Client>, now: JsDate, host: HostParser)
    requires Truthy(j.completedDate) && ParsedColumn(j.completedDate, host).Some?
    ensures JobToEvent(j, clients, now, host).end == Some(JobToEvent(j, clients, now, host).start)
  {
  }

  lemma LowerLetters(s: string)
    ensures |Lower(s)| == |s|
    ensures forall i :: 0 <= i < |s| ==> LowerChar(Lower(s)[i]) == LowerChar(s[i])
    ensures forall i :: 0 <= i < |s| && s[i] == ' ' ==> Lower(s)[i] == ' '
  {
  }

  lemma CaseOfUpper(c: char)
    ensures LowerChar(UpperChar(c)) == LowerChar(c)
  {
  }

  lemma CapitalizeLetters(s: string)
    ensures |CapitalizeWords(s)| == |s|
    ensures forall i :: 0 <= i < |s| ==> LowerChar(CapitalizeWords(s)[i]) == LowerChar(s[i])
    ensures forall i :: 0 <= i < |s| && s[i] == ' ' ==> CapitalizeWords(s)[i] == ' '
  {
    var r := CapitalizeWords(s);
    forall i | 0 <= i < |s|
      ensures LowerChar(r[i]) == LowerChar(s[i])
    {
      CaseOfUpper(s[i]);
    }
  }

  /** Lower-casing moves no `_`: the first one sits where it was. */
  lemma {:induction false} IndexOfLower(s: string)
    ensures IndexOf(Lower(s), '_') == IndexOf(s, '_')
    decreases |s|
  {
    if s != [] {
      assert Lower(s)[1..] == Lower(s[1..]);
      IndexOfLower(s[1..]);
    }
  }

  lemma ReplaceFirstByChar(s: string, c: char, d: char)
    ensures |ReplaceFirst(s, c, [d])| == |s|
    ensures forall i :: 0 <= i < |s| ==> ReplaceFirst(s, c, [d])[i] == if i == IndexOf(s, c) then d else s[i]
  {
  }

  lemma CapitalizeInProgress()
    ensures CapitalizeWords("in progress") == "In Progress"
  {
    var cw := CapitalizeWords("in progress");
    assert cw[0] == 'I' && cw[3] == 'P';
    assert forall i :: 0 <= i < 11 && i != 0 && i != 3 ==> cw[i] == "in progress"[i];
  }

  lemma InProgressSpaced()
    ensures Lower(ReplaceFirst(IN_PROGRESS, '_', " ")) == "in progress"
  {
    IndexOfAt(IN_PROGRESS, '_', 2);
    SpacedLiteral();
    LowerSpaced();
  }

  lemma LowerSpaced()
    ensures Lower("in progress") == "in progress"
  {
    LowerOfLowercase("in progress");
  }

  lemma SpacedLiteral()
    ensures IN_PROGRESS[..2] + " " + IN_PROGRESS[3..] == "in progress"
  {
  }

  /** `in_progress` reads as `In Progress` on its badge. */
  lemma InProgressLabel()
    ensures StatusLabel(IN_PROGRESS) == "In Progress"
  {
    InProgressSpaced();
    CapitalizeInProgress();
  }

  /** `in_progress` gives the css class `status-in-progress`. */
  lemma InProgressCss()
    ensures CssClass(IN_PROGRESS) == "job-event status-in-progress"
  {
    LowerInProgress();
    DashedInProgress();
    CssLiteral();
  }

  lemma LowerInProgress()
    ensures Lower(IN_PROGRESS) == IN_PROGRESS
  {
    LowerOfLowercase(IN_PROGRESS);
  }

  lemma DashedInProgress()
    ensures ReplaceFirst(IN_PROGRESS, '_', "-") == "in-progress"
  {
    IndexOfAt(IN_PROGRESS, '_', 2);
    DashedLiteral();
  }

  lemma DashedLiteral()
    ensures IN_PROGRESS[..2] + "-" + IN_PROGRESS[3..] == "in-progress"
  {
  }

  lemma CssLiteral()
    ensures "job-event status-" + "in-progress" == "job-event status-in-progress"
  {
  }

  /** The component's view state. */
  class JobCalendarView {
    var jobs: seq<Job>
    var events: seq<CalendarEvent>
    var view: CalendarView
    var viewDate: JsDate
    var activeDayIsOpen: bool

    constructor(jobs: seq<Job>, now: JsDate)
      ensures this.jobs == jobs && events == [] && view == Month && viewDate == now && activeDayIsOpen
    {
      this.jobs := jobs;
      events := [];
      view := Month;
      viewDate := now;
      activeDayIsOpen := true;
    }

    /** `ngOnChanges`: new jobs arrive and the events are rebuilt. */
    method SetJobs(newJobs: seq<Job>, clients: seq<Client>, now: JsDate, host: HostParser)
      modifies this
      ensures jobs == newJobs && events == Events(newJobs, clients, now, host)
      ensures view == old(view) && viewDate == old(viewDate) && activeDayIsOpen == old(activeDayIsOpen)
    {
      jobs := newJobs;
      UpdateEvents(clients, now, host);
    }

    method UpdateEvents(clients: seq<Client>, now: JsDate, host: HostParser)
      modifies this
      ensures events == Events(jobs, clients, now, host)
      ensures jobs == old(jobs) && view == old(view) && viewDate == old(viewDate)
      ensures activeDayIsOpen == old(activeDayIsOpen)
    {
      events := Events(jobs, clients, now, host);
    }

    /** `dayClicked`: only a day of the viewed month is acted on; the panel closes when the same
        day is clicked while open or the day has no events, and opens otherwise. */
    method DayClicked(date: JsDate, dayEvents: seq<CalendarEvent>)
      modifies this
      ensures jobs == old(jobs) && events == old(events) && view == old(view)
      ensures !SameMonth(date, old(viewDate)) ==> viewDate == old(viewDate) && activeDayIsOpen == old(activeDayIsOpen)
      ensures SameMonth(date, old(viewDate)) ==> viewDate == date
      ensures SameMonth(date, old(viewDate)) ==>
        (activeDayIsOpen <==> !(SameDay(old(viewDate), date) && old(activeDayIsOpen)) && |dayEvents| != 0)
    {
      if SameMonth(date, viewDate) {
        if (SameDay(viewDate, date) && activeDayIsOpen) || |dayEvents| == 0 {
          activeDayIsOpen := false;
        } else {
          activeDayIsOpen := true;
        }
        viewDate := date;
      }
    }

    method SetView(v: CalendarView)
      modifies this
      ensures view == v
      ensures jobs == old(jobs) && events == old(events) && viewDate == old(viewDate)
      ensures activeDayIsOpen == old(activeDayIsOpen)
    {
      view := v;
    }

    /** `closeOpenMonthViewDay`, which `previousView` and `nextView` also do (the view date is
        moved by the calendar's own navigation). */
    method CloseOpenMonthViewDay()
      modifies this
      ensures !activeDayIsOpen
      ensures jobs == old(jobs) && events == old(events) && view == old(view) && viewDate == old(viewDate)
    {
      activeDayIsOpen := false;
    }

    method GoToToday(now: JsDate)
      modifies this
      ensures viewDate == now && !activeDayIsOpen
      ensures jobs == old(jobs) && events == old(events) && view == old(view)
    {
      viewDate := now;
      CloseOpenMonthViewDay();
    }
  }
}
