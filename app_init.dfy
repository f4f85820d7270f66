// Application start-up: the three flags the initialisation service publishes while it waits for
// the database to be initialised.

module AppInit {
  import opened Wrappers

  /** How the wait for the database ends: it resolves, or it throws, with `Some(message)` for an
      `Error` and `None` for anything else. */
  datatype Outcome = Succeeded | Threw(message: Option<string>)

  datatype Flags = Flags(initialized: bool, initializing: bool, error: Option<string>)

  const IDLE := Flags(false, false, None)

  /** The error text published for a failed start. */
  function ErrorText(message: Option<string>): (r: string)
    ensures message.Some? ==> r == message.value
    ensures message.None? ==> r == "Unknown initialization error"
  {
    message.GetOr("Unknown initialization error")
  }

  /** Whether `initialize` does anything from these flags. */
  predicate Starts(f: Flags) {
    !f.initialized && !f.initializing
  }

  /** The flags while the wait is in flight. */
  function Started(f: Flags): (r: Flags)
    requires Starts(f)
    ensures r.initializing && !r.initialized && r.error == None
  {
    Flags(false, true, None)
  }

  /** The flags once the wait has ended, after the `finally`. */
  function Ended(f: Flags, o: Outcome): (r: Flags)
    ensures !r.initializing
    ensures r.initialized <==> f.initialized || o.Succeeded?
    ensures o.Succeeded? ==> r.error == f.error
    ensures o.Threw? ==> r.error == Some(ErrorText(o.message))
  {
    match o
    case Succeeded => Flags(true, false, f.error)
    case Threw(m) => Flags(f.initialized, false, Some(ErrorText(m)))
  }

  /** A whole `initialize` call that runs without another call in between. */
  function Initialized(f: Flags, o: Outcome): Flags {
    if Starts(f) then Ended(Started(f), o) else f
  }

  /** At rest: nothing in flight, and no error beside a completed start. */
  predicate AtRest(f: Flags) {
    !f.initializing && !(f.initialized && f.error.Some?)
  }

  // ----- Properties -----

  /** From rest, `initialize` ends at rest, initialized exactly when the wait succeeded (or it
      already was), with the error exactly when it failed. */
  lemma InitializeFromRest(f: Flags, o: Outcome)
    requires AtRest(f)
    ensures AtRest(Initialized(f, o))
    ensures f.initialized ==> Initialized(f, o) == f
    ensures !f.initialized ==> (Initialized(f, o).initialized <==> o.Succeeded?)
    ensures !f.initialized ==> Initialized(f, o).error == (if o.Succeeded? then None else Some(ErrorText(o.message)))
  {
  }

  /** Once initialized, further calls change nothing. */
  lemma InitializeIdempotent(f: Flags, o1: Outcome, o2: Outcome)
    requires AtRest(f) && Initialized(f, o1).initialized
    ensures Initialized(Initialized(f, o1), o2) == Initialized(f, o1)
  {
  }

  /** A failed start can be retried, and a later success clears the error. */
  lemma RetryAfterFailure(message: Option<string>)
    ensures Initialized(IDLE, Threw(message)) == Flags(false, false, Some(ErrorText(message)))
    ensures Initialized(Initialized(IDLE, Threw(message)), Succeeded) == Flags(true, false, None)
  {
  }

  class AppInitializationService {
    var initialized: bool
    var initializing: bool
    var error: Option<string>

    function Current(): Flags
      reads this
    {
      Flags(initialized, initializing, error)
    }

    constructor()
      ensures Current() == IDLE
    {
      initialized := false;
      initializing := false;
      error := None;
    }

    /** The synchronous part of `initialize`, up to the first `await`; the answer says whether it
        went on to wait. A call while another is waiting returns at once. */
    method Start() returns (started: bool)
      modifies this
      ensures started <==> Starts(old(Current()))
      ensures started ==> Current() == Started(old(Current()))
      ensures !started ==> Current() == old(Current())
    {
      if initialized || initializing {
        return false;
      }
      initializing := true;
      error := None;
      started := true;
    }

    /** The rest of `initialize`, once the wait has ended with `o`. */
    method Finish(o: Outcome)
      modifies this
      ensures Current() == Ended(old(Current()), o)
    {
      match o {
        case Succeeded =>
          initialized := true;
        case Threw(m) =>
          error := Some(ErrorText(m));
      }
      initializing := false;
    }

    /** `initialize` with no other call during its wait. */
    method Initialize(o: Outcome)
      modifies this
      ensures Current() == Initialized(old(Current()), o)
    {
      var started := Start();
      if started {
        Finish(o);
      }
    }

    method Reset()
      modifies this
      ensures Current() == IDLE
    {
      initialized := false;
      initializing := false;
      error := None;
    }
  }
}
