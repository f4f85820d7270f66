// The dialog service: one shared dialog state that the client and job dialogs are opened into,
// and the promise each open call returns, settled when the dialog closes.

module DialogService {
  import opened Wrappers
  import opened Entities

  datatype DialogType = ClientDialog | JobDialog

  datatype DialogConfig = DialogConfig(
    title: string,
    width: Option<string>,
    height: Option<string>,
    modal: Option<bool>,
    closable: Option<bool>,
    dismissableMask: Option<bool>)

  /** A caller's `Partial<DialogConfig>`: each present property overrides the default. */
  datatype ConfigOverride = ConfigOverride(
    title: Option<string>,
    width: Option<string>,
    height: Option<string>,
    modal: Option<bool>,
    closable: Option<bool>,
    dismissableMask: Option<bool>)

  const NO_OVERRIDE := ConfigOverride(None, None, None, None, None, None)

  /** The record a dialog edits or returns. */
  datatype Record = ClientRecord(client: Client) | JobRecord(job: Job)

  /** `ClientDialogData` / `JobDialogData`. */
  datatype DialogData = DialogData(record: Option<Record>, isEdit: Option<bool>)

  datatype DialogResult = DialogResult(success: bool, data: Option<Record>, cancelled: Option<bool>)

  /** The result `closeDialog` passes on when called without one. */
  const CANCELLED := DialogResult(false, None, Some(true))

  /** `DialogState`; `resolver` names the pending promise whose `resolve` the state holds, and
      `data` is `None` for the `null` of the closed state. */
  datatype DialogState = DialogState(
    kind: Option<DialogType>,
    visible: bool,
    config: DialogConfig,
    data: Option<DialogData>,
    resolver: Option<nat>)

  /** The state the subject starts in and returns to on every close. */
  const CLOSED := DialogState(None, false, DialogConfig("", None, None, None, None, None), None, None)

  /** A promise settled with a result. */
  datatype Resolution = Resolution(promise: nat, result: DialogResult)

  /** The default configuration of a dialog kind, spread over by the caller's override. */
  function Configured(kind: DialogType, data: DialogData, over: ConfigOverride): (r: DialogConfig)
    ensures over.title.None? ==> r.title == match kind
      case ClientDialog => (if data.isEdit == Some(true) then "Edit Client" else "Add Client")
      case JobDialog => (if data.isEdit == Some(true) then "Edit Job" else "Add Job")
    ensures over.width.None? ==> r.width == Some(if kind == ClientDialog then "50vw" else "60vw")
    ensures r.modal == Some(over.modal.GetOr(true))
    ensures r.closable == Some(over.closable.GetOr(false))
    ensures r.dismissableMask == Some(over.dismissableMask.GetOr(true))
    ensures r.height == over.height
    ensures over.title.Some? ==> r.title == over.title.value
    ensures over.width.Some? ==> r.width == over.width
  {
    var edit := data.isEdit == Some(true);
    var title := if kind == ClientDialog then (if edit then "Edit Client" else "Add Client")
                 else (if edit then "Edit Job" else "Add Job");
    var width := if kind == ClientDialog then "50vw" else "60vw";
    DialogConfig(over.title.GetOr(title), Some(over.width.GetOr(width)), over.height,
                 Some(over.modal.GetOr(true)), Some(over.closable.GetOr(false)),
                 Some(over.dismissableMask.GetOr(true)))
  }

  /** The state an open call publishes, holding the resolver of promise `p`. */
  function Opened(kind: DialogType, data: DialogData, over: ConfigOverride, p: nat): (r: DialogState)
    ensures r.kind == Some(kind) && r.visible && r.data == Some(data) && r.resolver == Some(p)
    ensures r.config == Configured(kind, data, over)
  {
    DialogState(Some(kind), true, Configured(kind, data, over), Some(data), Some(p))
  }

  /** `closeDialog` on state `s`: the promise settled, if the state holds a resolver. */
  function Settled(s: DialogState, result: DialogResult): (r: Option<Resolution>)
    ensures r.Some? <==> s.resolver.Some?
    ensures r.Some? ==> r.value.promise == s.resolver.value && r.value.result == result
  {
    if s.resolver.Some? then Some(Resolution(s.resolver.value, result)) else None
  }

  // ----- Properties -----

  /** Closing a dialog settles exactly the promise its open call returned, with the result. */
  lemma CloseSettlesOpener(kind: DialogType, data: DialogData, over: ConfigOverride, p: nat, result: DialogResult)
    ensures Settled(Opened(kind, data, over, p), result) == Some(Resolution(p, result))
  {
  }

  /** Closing an already closed dialog settles nothing. */
  lemma CloseWhenClosed(result: DialogResult)
    ensures Settled(CLOSED, result) == None
  {
  }

  /** Without a caller override, the add and edit dialogs differ only in their title. */
  lemma EditOnlyRetitles(kind: DialogType, record: Option<Record>)
    ensures Configured(kind, DialogData(record, Some(true)), NO_OVERRIDE)
         == Configured(kind, DialogData(record, None), NO_OVERRIDE).(title :=
              if kind == ClientDialog then "Edit Client" else "Edit Job")
  {
  }

  class DialogService {
    var state: DialogState
    /** The promises settled so far, in order. */
    var settled: seq<Resolution>
    /** The name the next open call gives its promise. */
    var nextPromise: nat

    ghost predicate Valid()
      reads this
    {
      state.resolver.Some? ==> state.resolver.value < nextPromise
    }

    constructor()
      ensures Valid() && state == CLOSED && settled == [] && nextPromise == 0
    {
      state := CLOSED;
      settled := [];
      nextPromise := 0;
    }

    /** `openClientDialog` and `openJobDialog`: the answer is the promise returned. A dialog that
        was still open is replaced and its promise never settles. */
    method Open(kind: DialogType, data: DialogData, over: ConfigOverride) returns (p: nat)
      requires Valid()
      modifies this
      ensures Valid() && p == old(nextPromise) && nextPromise == p + 1
      ensures state == Opened(kind, data, over, p) && settled == old(settled)
    {
      p := nextPromise;
      nextPromise := nextPromise + 1;
      state := Opened(kind, data, over, p);
    }

    /** `closeDialog(result)`; callers that pass no result pass `CANCELLED`. */
    method Close(result: DialogResult)
      requires Valid()
      modifies this
      ensures Valid() && state == CLOSED && nextPromise == old(nextPromise)
      ensures settled == old(settled) + match Settled(old(state), result)
        case Some(res) => [res]
        case None => []
    {
      var res := Settled(state, result);
      if res.Some? {
        settled := settled + [res.value];
      }
      state := CLOSED;
    }
  }
}
