/**
 * The application error state machine (components/app_errors): five states
 * on two independent flags, "no server connection" and "handleable error",
 * plus an absorbing fatal state. The flashing error LED is driven by a
 * timer that exists exactly while only the connection error is present.
 */
module AppErrors {

  datatype ErrState =
    | NoErr
    | NoServerConnectErr
    | HandleableErr
    | HandleableAndNoServerConnectErr
    | FatalErr

  /** What the transitions read and write: the state, and whether the
      flashing timer exists (`errTimer != NULL`). */
  datatype Status = Status(err: ErrState, flashing: bool)

  /** throwFatalError: the timer is stopped and the state becomes fatal; the
      caller then waits forever. */
  const FATAL: Status := Status(FatalErr, false)

  /** Does the state include the missing server connection? */
  predicate HasNoConn(e: ErrState) {
    e == NoServerConnectErr || e == HandleableAndNoServerConnectErr
  }

  /** Does the state include a handleable error? */
  predicate HasHandleable(e: ErrState) {
    e == HandleableErr || e == HandleableAndNoServerConnectErr
  }

  /** The non-fatal state holding exactly the given errors. */
  function Compose(noConn: bool, handleable: bool): (e: ErrState)
    ensures e != FatalErr && HasNoConn(e) == noConn && HasHandleable(e) == handleable
  {
    if noConn && handleable then HandleableAndNoServerConnectErr
    else if noConn then NoServerConnectErr
    else if handleable then HandleableErr
    else NoErr
  }

  /** throwNoConnError: the two no-connection states (reached from NO_ERR by
      falling through) start flashing if no timer exists; a handleable error
      keeps the solid LED and gains the connection error. */
  function ThrowNoConn(s: Status): Status {
    match s.err
    case NoErr => Status(NoServerConnectErr, true)
    case NoServerConnectErr => Status(NoServerConnectErr, true)
    case HandleableErr => Status(HandleableAndNoServerConnectErr, s.flashing)
    case HandleableAndNoServerConnectErr => s
    case FatalErr => FATAL
  }

  /** throwHandleableError: flashing is always stopped first; a second
      handleable error is fatal. */
  function ThrowHandleable(s: Status): Status {
    match s.err
    case NoErr => Status(HandleableErr, false)
    case NoServerConnectErr => Status(HandleableAndNoServerConnectErr, false)
    case HandleableErr => FATAL
    case HandleableAndNoServerConnectErr => FATAL
    case FatalErr => FATAL
  }

  /** resolveNoConnError: flashing is stopped first; resolving a connection
      error that is not there is allowed only with `resolveNone`. */
  function ResolveNoConn(s: Status, resolveNone: bool): Status {
    match s.err
    case NoServerConnectErr => Status(NoErr, false)
    case HandleableAndNoServerConnectErr => Status(HandleableErr, false)
    case NoErr => if resolveNone then Status(NoErr, false) else FATAL
    case HandleableErr => if resolveNone then Status(HandleableErr, false) else FATAL
    case FatalErr => FATAL
  }

  /** resolveHandleableError: a remaining connection error restarts
      flashing if no timer exists. */
  function ResolveHandleable(s: Status, resolveNone: bool): Status {
    match s.err
    case HandleableErr => Status(NoErr, s.flashing)
    case HandleableAndNoServerConnectErr => Status(NoServerConnectErr, true)
    case NoErr => if resolveNone then s else FATAL
    case NoServerConnectErr => if resolveNone then s else FATAL
    case FatalErr => FATAL
  }

  /** Every non-fatal state is the composition of its two flags. */
  lemma ComposeOfFlags(e: ErrState)
    requires e != FatalErr
    ensures Compose(HasNoConn(e), HasHandleable(e)) == e
  {
  }

  /** Throwing the connection error sets its flag and keeps the other. */
  lemma ThrowNoConnSetsFlag(s: Status)
    requires s.err != FatalErr
    ensures ThrowNoConn(s).err == Compose(true, HasHandleable(s.err))
  {
  }

  /** Throwing a handleable error sets its flag and keeps the other, unless
      one is already there, which is fatal. */
  lemma ThrowHandleableSetsFlag(s: Status)
    requires s.err != FatalErr
    ensures HasHandleable(s.err) ==> ThrowHandleable(s) == FATAL
    ensures !HasHandleable(s.err) ==> ThrowHandleable(s).err == Compose(HasNoConn(s.err), true)
    ensures !ThrowHandleable(s).flashing
  {
  }

  /** Resolving the connection error clears its flag and keeps the other;
      with the flag absent the state is kept under `resolveNone` and is
      fatal otherwise. */
  lemma ResolveNoConnClearsFlag(s: Status, resolveNone: bool)
    requires s.err != FatalErr
    ensures HasNoConn(s.err) || resolveNone ==>
      ResolveNoConn(s, resolveNone).err == Compose(false, HasHandleable(s.err))
    ensures !HasNoConn(s.err) && !resolveNone ==> ResolveNoConn(s, resolveNone) == FATAL
  {
  }

  /** Resolving the handleable error clears its flag and keeps the other,
      with the same rule for an absent flag. */
  lemma ResolveHandleableClearsFlag(s: Status, resolveNone: bool)
    requires s.err != FatalErr
    ensures HasHandleable(s.err) || resolveNone ==>
      ResolveHandleable(s, resolveNone).err == Compose(HasNoConn(s.err), false)
    ensures !HasHandleable(s.err) && !resolveNone ==> ResolveHandleable(s, resolveNone) == FATAL
  {
  }

  /** FATAL_ERR is absorbing: every throw and resolve keeps it. */
  lemma FatalIsAbsorbing(s: Status, resolveNone: bool)
    requires s.err == FatalErr
    ensures ThrowNoConn(s) == FATAL && ThrowHandleable(s) == FATAL
    ensures ResolveNoConn(s, resolveNone) == FATAL && ResolveHandleable(s, resolveNone) == FATAL
  {
  }

  /** From no error, a throw followed by the resolve of the same kind comes
      back to no error and no flashing. */
  lemma ThrowThenResolve(resolveNone: bool)
    ensures ResolveNoConn(ThrowNoConn(Status(NoErr, false)), resolveNone) == Status(NoErr, false)
    ensures ResolveHandleable(ThrowHandleable(Status(NoErr, false)), resolveNone) == Status(NoErr, false)
  {
  }

  /** The timer exists exactly in the state with only the connection error. */
  predicate FlashingInvariant(s: Status) {
    s.flashing <==> s.err == NoServerConnectErr
  }

  /** Every transition keeps the flashing invariant. */
  lemma TransitionsKeepFlashingInvariant(s: Status, resolveNone: bool)
    requires FlashingInvariant(s)
    ensures FlashingInvariant(ThrowNoConn(s)) && FlashingInvariant(ThrowHandleable(s))
    ensures FlashingInvariant(ResolveNoConn(s, resolveNone))
    ensures FlashingInvariant(ResolveHandleable(s, resolveNone))
  {
  }

  /** The shared error resources; the mutex and the GPIO level are not
      modelled. */
  class ErrorResources {
    var err: ErrState
    var flashing: bool

    constructor ()
      ensures err == NoErr && !flashing
    {
      err, flashing := NoErr, false;
    }

    method StartErrorFlashing()
      modifies this`flashing
      ensures flashing
    {
      flashing := true;
    }

    method StopErrorFlashing()
      modifies this`flashing
      ensures !flashing
    {
      flashing := false;
    }

    /** The state a fatal error leaves behind, before the caller blocks. */
    method ThrowFatalError()
      modifies this
      ensures Status(err, flashing) == FATAL
    {
      if flashing {
        StopErrorFlashing();
      }
      err := FatalErr;
    }

    method ThrowNoConnError()
      modifies this
      ensures Status(err, flashing) == ThrowNoConn(old(Status(err, flashing)))
    {
      match err {
        case NoErr =>
          err := NoServerConnectErr;
          if !flashing {
            StartErrorFlashing();
          }
        case NoServerConnectErr =>
          if !flashing {
            StartErrorFlashing();
          }
        case HandleableErr =>
          err := HandleableAndNoServerConnectErr;
        case HandleableAndNoServerConnectErr =>
        case FatalErr =>
          ThrowFatalError();
      }
    }

    method ThrowHandleableError()
      modifies this
      ensures Status(err, flashing) == ThrowHandleable(old(Status(err, flashing)))
    {
      if flashing {
        StopErrorFlashing();
      }
      match err {
        case NoErr =>
          err := HandleableErr;
        case NoServerConnectErr =>
          err := HandleableAndNoServerConnectErr;
        case _ =>
          ThrowFatalError();
      }
    }

    method ResolveNoConnError(resolveNone: bool)
      modifies this
      ensures Status(err, flashing) == ResolveNoConn(old(Status(err, flashing)), resolveNone)
    {
      if flashing {
        StopErrorFlashing();
      }
      match err {
        case NoServerConnectErr =>
          err := NoErr;
        case HandleableAndNoServerConnectErr =>
          err := HandleableErr;
        case NoErr =>
          if !resolveNone {
            ThrowFatalError();
          }
        case HandleableErr =>
          if !resolveNone {
            ThrowFatalError();
          }
        case FatalErr =>
          ThrowFatalError();
      }
    }

    method ResolveHandleableError(resolveNone: bool)
      modifies this
      ensures Status(err, flashing) == ResolveHandleable(old(Status(err, flashing)), resolveNone)
    {
      match err {
        case HandleableErr =>
          err := NoErr;
        case HandleableAndNoServerConnectErr =>
          err := NoServerConnectErr;
          if !flashing {
            StartErrorFlashing();
          }
        case NoErr =>
          if !resolveNone {
            ThrowFatalError();
          }
        case NoServerConnectErr =>
          if !resolveNone {
            ThrowFatalError();
          }
        case FatalErr =>
          ThrowFatalError();
      }
    }
  }
}
