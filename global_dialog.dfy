// The logic of the global dialog component: the completion-date policy of `saveJob`, the
// in-dialog list of a job's payments, the DD/MM/YY date pair used for payment dates, the client
// autocomplete filter and the form error messages.

module GlobalDialog {
  import opened Wrappers
  import opened Text
  import opened Seqs
  import opened Calendar
  import opened Entities
  import opened DateUtils
  import ClientRecords
  import JobRequests

  // ----- The completion-date policy of `saveJob` -----

  /** The job form's value, with the ids of the selected client and job type. The form has no
      start or completion date control. */
  datatype JobForm = JobForm(
    title: string,
    description: string,
    status: string,
    price: int,
    clientId: Option<int>,
    jobTypeId: Option<int>,
    dueDate: DateInput)

  /** What `saveJob` puts in `formData.completed_date`, given the new status, the job being
      edited (none when adding) and the clock. `Missing` leaves the property unset. Moving to
      completed (or adding a completed job) stamps the current time, leaving completed clears
      the date, and staying completed keeps it. */
  function CompletionDate(status: string, editing: Option<Job>, now: JsDate): (r: Field<DateInput>)
    ensures status == COMPLETED && (editing.None? || editing.value.status != COMPLETED) ==>
      r == Has(Obj(now))
    ensures status != COMPLETED && editing.Some? && editing.value.status == COMPLETED ==>
      r == Null
    ensures status == COMPLETED && editing.Some? && editing.value.status == COMPLETED ==>
      (r == if editing.value.completedDate.Some? && editing.value.completedDate.value != "" then
              Has(Str(editing.value.completedDate.value))
            else Missing)
    ensures status != COMPLETED && (editing.None? || editing.value.status != COMPLETED) ==>
      r == Missing
  {
    var previous := if editing.Some? then Some(editing.value.status) else None;
    if status == COMPLETED && previous != Some(COMPLETED) then Has(Obj(now))
    else if status != COMPLETED && previous == Some(COMPLETED) then Null
    else if status == COMPLETED && editing.Some? && editing.value.completedDate.Some?
            && editing.value.completedDate.value != "" then
      Has(Str(editing.value.completedDate.value))
    else Missing
  }

  function OptionField<T(==)>(o: Option<T>): Field<T> {
    if o.Some? then Has(o.value) else Missing
  }

  function DateField(d: DateInput): Field<DateInput> {
    if d.Nothing? then Null else Has(d)
  }

  /** The object `saveJob` hands to the front-end job service. */
  function SaveJobData(form: JobForm, editing: Option<Job>, now: JsDate): (r: JobRequests.JobData)
    ensures r.startDate == Missing
    ensures r.completedDate == CompletionDate(form.status, editing, now)
  {
    JobRequests.JobData(Has(form.title), Has(form.description), Has(form.status), Has(form.price),
                        OptionField(form.clientId), OptionField(form.jobTypeId),
                        DateField(form.dueDate), Missing, CompletionDate(form.status, editing, now))
  }

  // ----- The DD/MM/YY payment date pair -----

  /** `formatDateToString`: two-digit day, month and year. An invalid date prints `NaN` in each
      field, of which `slice(-2)` keeps `aN`. */
  function FormatDateToString(d: JsDate): (r: string)
    ensures d.At? ==> |r| >= 6 && r[2] == '/' && r[5] == '/' && AllDigits(r[..2]) && AllDigits(r[3..5])
    ensures d.Invalid? <==> r == "NaN/NaN/aN"
  {
    if d.Invalid? then "NaN/NaN/aN"
    else
      var dd := PadStart2(IntToString(d.date.day));
      var mm := PadStart2(IntToString(d.date.month));
      var r := dd + "/" + mm + "/" + SliceLast2(IntToString(d.date.year));
      PadNat(d.date.day);
      PadNat(d.date.month);
      assert r[..2] == dd && r[3..5] == mm;
      assert !IsDigit('N');
      r
  }

  /** The year `parseDateString` builds from a parsed year field. */
  function FullYear(y: Num): (r: Num)
    ensures y.Int? && y.v < 50 ==> r == Int(2000 + y.v)
    ensures y.Int? && 50 <= y.v < 100 ==> r == Int(1900 + y.v)
    ensures y.Int? && y.v >= 100 ==> r == y
    ensures y.NaN? ==> r.NaN?
  {
    if y.Int? && y.v < 50 then Int(2000 + y.v)
    else if y.Int? && y.v < 100 then Int(1900 + y.v)
    else y
  }

  /** `parseDateString`. */
  function ParseDateString(s: string): (r: Option<JsDate>)
    ensures r.None? <==> s == "" || |Split(s, '/')| != 3
  {
    if s == "" then None
    else
      var parts := Split(s, '/');
      if |parts| != 3 then None
      else Some(NewDate(FullYear(ParseInt(parts[2])), ParseInt(parts[1]).Plus(-1), ParseInt(parts[0])))
  }

  lemma PaddedField(n: nat)
    requires n < 100
    ensures '/' !in PadStart2(IntToString(n))
    ensures ParseInt(PadStart2(IntToString(n))) == Int(n)
  {
    PadNat(n);
    DigitsExclude(PadStart2(IntToString(n)), '/');
    ParseIntOfDigits(PadStart2(IntToString(n)));
  }

  lemma SplitThree(a: string, b: string, c: string)
    requires '/' !in a && '/' !in b && '/' !in c
    ensures Split(a + "/" + b + "/" + c, '/') == [a, b, c]
  {
    assert a + "/" + b + "/" + c == a + ['/'] + (b + ['/'] + c);
    SplitAtSep(a, b + ['/'] + c, '/');
    SplitAtSep(b, c, '/');
    SplitNoSep(c, '/');
  }

  lemma CenturyOf(y: int)
    requires 1950 <= y <= 2049
    ensures FullYear(Int(y % 100)) == Int(y)
  {
    if y < 2000 {
      assert y == 19 * 100 + (y - 1900);
      assert y % 100 == y - 1900;
    } else {
      assert y == 20 * 100 + (y - 2000);
      assert y % 100 == y - 2000;
    }
  }

  /** The pair is a round trip for the days of 1950 to 2049: the two-digit year is mapped back
      into that century. */
  lemma FormatThenParseDate(c: Date, t: TimeOfDay)
    requires 1950 <= c.year <= 2049
    ensures ParseDateString(FormatDateToString(At(c, t))) == Some(At(c, 0))
  {
    var s := FormatDateToString(At(c, t));
    FormattedFields(c, t);
    CenturyOf(c.year);
    assert ParseDateString(s) == Some(NewDate(Int(c.year), Int(c.month - 1), Int(c.day)));
    NewDateOfValid(c);
  }

  /** The three fields of a formatted day of 1950 to 2049, and what `parseInt` reads from each. */
  lemma FormattedFields(c: Date, t: TimeOfDay)
    requires 1950 <= c.year <= 2049
    ensures FormatDateToString(At(c, t)) != ""
    ensures |Split(FormatDateToString(At(c, t)), '/')| == 3
    ensures ParseInt(Split(FormatDateToString(At(c, t)), '/')[0]) == Int(c.day)
    ensures ParseInt(Split(FormatDateToString(At(c, t)), '/')[1]) == Int(c.month)
    ensures ParseInt(Split(FormatDateToString(At(c, t)), '/')[2]) == Int(c.year % 100)
  {
    var dd, mm := PadStart2(IntToString(c.day)), PadStart2(IntToString(c.month));
    var yy := SliceLast2(IntToString(c.year));
    PaddedField(c.day);
    PaddedField(c.month);
    LastTwoDigits(c.year);
    DigitsExclude(yy, '/');
    ParseIntOfDigits(yy);
    assert FormatDateToString(At(c, t)) == dd + "/" + mm + "/" + yy;
    SplitThree(dd, mm, yy);
  }

  lemma CenturyDigits(y: nat, z: nat)
    requires z == y + 100
    ensures (z / 10) % 10 == (y / 10) % 10 && z % 10 == y % 10
  {
    assert z / 10 == y / 10 + 10;
  }

  /** Years a century apart end in the same two digits. */
  lemma ShortYearShift(y: nat, z: nat)
    requires 1000 <= y <= 9899 && z == y + 100
    ensures SliceLast2(IntToString(y)) == SliceLast2(IntToString(z))
  {
    LastTwoDigits(y);
    LastTwoDigits(z);
    CenturyDigits(y, z);
  }

  /** Between 1900 and 1949 a year has no more days in a month than the year a century later. */
  lemma CenturyLater(c: Date)
    requires 1900 <= c.year < 1950
    ensures IsValid(Civil(c.year + 100, c.month, c.day))
  {
    if c.month == 2 && IsLeapYear(c.year) {
      assert c.year != 1900;
      assert IsLeapYear(c.year + 100);
    }
  }

  /** Before 1950 the round trip moves the date a century forward: the two-digit year reads
      back in the 2000s. */
  lemma TwoDigitYearWraps(c: Date, t: TimeOfDay)
    requires 1900 <= c.year < 1950
    ensures IsValid(Civil(c.year + 100, c.month, c.day))
    ensures ParseDateString(FormatDateToString(At(c, t))) == Some(At(Civil(c.year + 100, c.month, c.day), 0))
  {
    CenturyLater(c);
    var later: Date := Civil(c.year + 100, c.month, c.day);
    ShortYearShift(c.year, later.year);
    assert FormatDateToString(At(c, t)) == FormatDateToString(At(later, t));
    FormatThenParseDate(later, t);
  }

  // ----- The client autocomplete -----

  /** `searchClients(event)`: the clients whose lower-cased name or email contains the
      lower-cased query, in list order. */
  function DialogClientSearch(clients: seq<Client>, query: string): (r: seq<Client>)
    ensures |r| <= |clients|
    ensures forall c :: c in r ==> c in clients && ClientRecords.ClientMatches(c, query)
  {
    FilterMembers(clients, ClientRecords.Matching(query));
    Filter(clients, ClientRecords.Matching(query))
  }

  lemma DialogClientSearchSpec(a: seq<Client>, b: seq<Client>, query: string, c: Client)
    ensures c in DialogClientSearch(a, query) <==>
      c in a && (Contains(Lower(c.name), Lower(query)) || Contains(Lower(c.email), Lower(query)))
    ensures DialogClientSearch(a + b, query) == DialogClientSearch(a, query) + DialogClientSearch(b, query)
    ensures Reverse(DialogClientSearch(a, query)) == ClientRecords.SearchResults(a, query)
  {
    FilterMembers(a, ClientRecords.Matching(query));
    if c in a && ClientRecords.ClientMatches(c, query) {
      var i :| 0 <= i < |a| && a[i] == c;
    }
    FilterConcat(a, b, ClientRecords.Matching(query));
  }

  // ----- Form error messages -----

  /** `capitalizeFirst`: the first character upper-cased and the first `_` of the rest turned
      into a space. */
  function CapitalizeFirst(s: string): (r: string)
    ensures |r| == |s|
    ensures s != "" ==> r[0] == UpperChar(s[0])
    ensures forall i :: 1 <= i < |s| ==> r[i] == s[i] || (s[i] == '_' && r[i] == ' ')
  {
    if s == "" then ""
    else
      var rest := ReplaceFirst(s[1..], '_', " ");
      assert forall i :: 0 <= i < |s| - 1 ==> rest[i] == s[1..][i] || (s[1..][i] == '_' && rest[i] == ' ');
      [UpperChar(s[0])] + rest
  }

  lemma CapitalizeFirstExample()
    ensures CapitalizeFirst("due_date") == "Due date"
  {
    DueDateTail();
    IndexOfAt("ue_date", '_', 2);
    UeDateSpaced();
    assert UpperChar('d') == 'D';
    DueDateJoined();
  }

  lemma DueDateTail()
    ensures "due_date"[0] == 'd' && "due_date"[1..] == "ue_date"
  {
  }

  lemma UeDateSpaced()
    ensures "ue_date"[..2] + " " + "ue_date"[3..] == "ue date"
  {
  }

  lemma DueDateJoined()
    ensures ['D'] + "ue date" == "Due date"
  {
  }

  /** The validation errors Angular reports on a control. */
  datatype Errors = Errors(required: bool, email: bool, minLength: Option<int>, pattern: bool, min: Option<int>)

  datatype Control = Control(errors: Option<Errors>, touched: bool)

  /** `getFieldError(form, name)`: the message for the first error, in a fixed order, of a
      touched control; the empty string otherwise. */
  function GetFieldError(control: Option<Control>, name: string): (r: string)
    ensures r == "" <==>
      (control.None? || control.value.errors.None? || !control.value.touched
       || (var e := control.value.errors.value;
           !e.required && !e.email && e.minLength.None? && !e.pattern && e.min.None?))
    ensures control.Some? && control.value.touched && control.value.errors.Some? && control.value.errors.value.required ==>
      r == CapitalizeFirst(name) + " is required"
  {
    if control.Some? && control.value.errors.Some? && control.value.touched then
      var e := control.value.errors.value;
      if e.required then CapitalizeFirst(name) + " is required"
      else if e.email then "Please enter a valid email"
      else if e.minLength.Some? then
        CapitalizeFirst(name) + " must be at least " + IntToString(e.minLength.value) + " characters"
      else if e.pattern then "Please enter a valid phone number"
      else if e.min.Some? then
        CapitalizeFirst(name) + " must be greater than or equal to " + IntToString(e.min.value)
      else ""
    else ""
  }

  // ----- The payment list of the job dialog -----

  /** A payment as the dialog holds it before the job is saved: loaded from the back end (with
      an id) or added in the dialog. */
  datatype DraftPayment = DraftPayment(
    id: Option<int>,
    amount: int,
    paymentDate: Option<string>,
    description: Option<string>,
    attachments: Option<seq<Attachment>>)

  /** The payment form's value; `reset()` sets every control to null. */
  datatype PaymentForm = PaymentForm(amount: Option<int>, paymentDate: DateInput, description: Option<string>)

  const EMPTY_FORM: PaymentForm := PaymentForm(None, Nothing, None)

  /** The payment form's validators: an amount of at least 0.01 (one cent) and a date. */
  predicate FormValid(f: PaymentForm) {
    f.amount.Some? && f.amount.value >= 1
    && (f.paymentDate.Obj? || (f.paymentDate.Str? && f.paymentDate.s != ""))
  }

  /** The date string `addPayment` stores: a `Date` is written DD/MM/YY, a string is kept. */
  function PaymentDateString(d: DateInput): string {
    match d
    case Obj(v) => FormatDateToString(v)
    case Str(s) => s
    case Nothing => ""
  }

  /** `splice(index, 1)`: a negative index counts from the end; an index past the end removes
      nothing. */
  function SpliceOne<T>(s: seq<T>, index: int): (r: seq<T>)
    ensures 0 <= index < |s| ==> r == s[..index] + s[index + 1..]
    ensures index >= |s| ==> r == s
    ensures |r| == if s == [] || index >= |s| then |s| else |s| - 1
  {
    var start := if index < 0 then (if |s| + index < 0 then 0 else |s| + index) else index;
    if start < |s| then RemoveAt(s, start) else s
  }

  /** The payment part of the dialog component's state. */
  class DialogPayments {
    var payments: seq<DraftPayment>
    var editingIndex: int
    var showAddForm: bool
    var form: PaymentForm
    var paymentAttachments: seq<Attachment>
    var selectedFiles: seq<string>

    constructor()
      ensures payments == [] && editingIndex == -1 && !showAddForm && form == EMPTY_FORM
      ensures paymentAttachments == [] && selectedFiles == []
    {
      payments := [];
      editingIndex := -1;
      showAddForm := false;
      form := EMPTY_FORM;
      paymentAttachments := [];
      selectedFiles := [];
    }

    /** `resetPaymentForm`. */
    method ResetPaymentForm()
      modifies this
      ensures payments == old(payments)
      ensures form == EMPTY_FORM && paymentAttachments == [] && selectedFiles == []
      ensures editingIndex == -1 && !showAddForm
    {
      form := EMPTY_FORM;
      paymentAttachments := [];
      selectedFiles := [];
      editingIndex := -1;
      showAddForm := false;
    }

    method OnPaymentFilesChanged(files: seq<string>)
      modifies this
      ensures selectedFiles == files
      ensures payments == old(payments) && editingIndex == old(editingIndex) && form == old(form)
      ensures showAddForm == old(showAddForm) && paymentAttachments == old(paymentAttachments)
    {
      selectedFiles := files;
    }

    /** `editPayment(payment, index)`: the form shows the payment, its date read back from
        DD/MM/YY. */
    method EditPayment(p: DraftPayment, index: int)
      modifies this
      ensures payments == old(payments) && editingIndex == index && showAddForm
      ensures form == PaymentForm(Some(p.amount),
        (var d := ParseDateString(p.paymentDate.GetOr("")); if d.Some? then Obj(d.value) else Nothing),
        p.description)
      ensures paymentAttachments == p.attachments.GetOr([]) && selectedFiles == []
    {
      editingIndex := index;
      var d := ParseDateString(p.paymentDate.GetOr(""));
      form := PaymentForm(Some(p.amount), if d.Some? then Obj(d.value) else Nothing, p.description);
      paymentAttachments := p.attachments.GetOr([]);
      selectedFiles := [];
      showAddForm := true;
    }

    /** `addPayment`: with a valid form, the payment being edited is overwritten in place, or a
        new one is appended, and the form is reset; the toast says which. An editing index past
        the end of the list throws inside the `try`: nothing changes and the error toast shows. */
    method AddPayment() returns (toast: Option<string>)
      modifies this
      ensures !FormValid(old(form)) ==> toast == None
      ensures FormValid(old(form)) && old(editingIndex) >= |old(payments)| ==> toast == Some("Failed to save payment")
      ensures FormValid(old(form)) && 0 <= old(editingIndex) < |old(payments)| ==> toast == Some("Payment updated successfully")
      ensures FormValid(old(form)) && old(editingIndex) < 0 ==> toast == Some("Payment added successfully")
      ensures !FormValid(old(form)) || old(editingIndex) >= |old(payments)| ==>
        (payments == old(payments) && editingIndex == old(editingIndex) && form == old(form)
         && showAddForm == old(showAddForm) && selectedFiles == old(selectedFiles)
         && paymentAttachments == old(paymentAttachments))
      ensures FormValid(old(form)) && 0 <= old(editingIndex) < |old(payments)| ==>
        (var e := old(payments)[old(editingIndex)];
         payments == old(payments)[old(editingIndex) := e.(
           amount := old(form).amount.value,
           paymentDate := Some(PaymentDateString(old(form).paymentDate)),
           description := old(form).description,
           attachments := if old(selectedFiles) != [] then Some(e.attachments.GetOr([])) else e.attachments)])
      ensures FormValid(old(form)) && old(editingIndex) < 0 ==>
        payments == old(payments) + [DraftPayment(None, old(form).amount.value,
          Some(PaymentDateString(old(form).paymentDate)), old(form).description, Some([]))]
      ensures FormValid(old(form)) && old(editingIndex) < |old(payments)| ==>
        (form == EMPTY_FORM && editingIndex == -1 && !showAddForm && selectedFiles == [] && paymentAttachments == [])
    {
      if !FormValid(form) {
        return None;
      }
      if editingIndex >= |payments| {
        return Some("Failed to save payment");
      }
      var date := PaymentDateString(form.paymentDate);
      if editingIndex >= 0 {
        var e := payments[editingIndex];
        var updated := e.(amount := form.amount.value, paymentDate := Some(date), description := form.description,
                          attachments := if selectedFiles != [] then Some(e.attachments.GetOr([])) else e.attachments);
        payments := payments[editingIndex := updated];
        toast := Some("Payment updated successfully");
      } else {
        payments := payments + [DraftPayment(None, form.amount.value, Some(date), form.description, Some([]))];
        toast := Some("Payment added successfully");
      }
      ResetPaymentForm();
    }

    /** `deletePayment(payment, index)`: once confirmed, the element at `index` is spliced out
        and a success toast is shown. */
    method DeletePayment(index: int, confirmed: bool) returns (toast: Option<string>)
      modifies this
      ensures payments == if confirmed then SpliceOne(old(payments), index) else old(payments)
      ensures toast == if confirmed then Some("Payment deleted successfully") else None
      ensures editingIndex == old(editingIndex) && form == old(form) && showAddForm == old(showAddForm)
      ensures selectedFiles == old(selectedFiles) && paymentAttachments == old(paymentAttachments)
    {
      toast := None;
      if confirmed {
        payments := SpliceOne(payments, index);
        toast := Some("Payment deleted successfully");
      }
    }
  }

  /** Deleting entry `i` keeps the others, in order, and removes one occurrence of it. */
  lemma SpliceOneRemovesExactly(s: seq<DraftPayment>, i: int)
    requires 0 <= i < |s|
    ensures forall j :: 0 <= j < i ==> SpliceOne(s, i)[j] == s[j]
    ensures forall j :: i <= j < |s| - 1 ==> SpliceOne(s, i)[j] == s[j + 1]
    ensures multiset(SpliceOne(s, i)) + multiset{s[i]} == multiset(s)
  {
    assert s == s[..i] + [s[i]] + s[i + 1..];
  }
}
