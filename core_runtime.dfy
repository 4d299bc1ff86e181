/**
 * The runtime's boot-stage guard and exit codes (src/core.c).  The runtime
 * state records how far booting has gone; Scm_Init runs only from the first
 * stage and leaves the runtime initialized, and the REPL entry points then
 * record which REPL is running.  Scm_ObjToExitCode turns a Scheme value
 * into a process exit status.
 */
module CoreRuntime {

  /** ScmRuntimeState, in the order gauche.h (not part of this model)
      declares it; only "INITIALIZING is the first stage" is relied on. */
  datatype RuntimeState = Initializing | Initialized | MiniRepl | FullRepl

  function Stage(s: RuntimeState): nat {
    match s
    case Initializing => 0
    case Initialized => 1
    case MiniRepl => 2
    case FullRepl => 3
  }

  /** The calls that move the runtime state: Scm_Init and Scm_SetRuntimeReplState. */
  datatype Event = CallInit | SetReplState(full: bool)

  /** The state after one call, and whether the call ran the initialisers. */
  function Apply(s: RuntimeState, e: Event): (r: (RuntimeState, bool))
    ensures r.1 <==> e == CallInit && s == Initializing
    ensures r.0 != Initializing
  {
    match e
    case CallInit => if Stage(s) > Stage(Initializing) then (s, false) else (Initialized, true)
    case SetReplState(full) => (if full then FullRepl else MiniRepl, false)
  }

  /** How many times the initialisers run over a sequence of calls. */
  function InitRuns(s: RuntimeState, events: seq<Event>): nat
    decreases |events|
  {
    if events == [] then 0
    else var r := Apply(s, events[0]); (if r.1 then 1 else 0) + InitRuns(r.0, events[1..])
  }

  /** The guard makes the runtime boot once: from any state the
      initialisers run at most once over any sequence of calls, and not at
      all once the first stage is over. */
  lemma {:induction false} InitRunsAtMostOnce(s: RuntimeState, events: seq<Event>)
    ensures InitRuns(s, events) <= 1
    ensures s != Initializing ==> InitRuns(s, events) == 0
    decreases |events|
  {
    if events != [] {
      var r := Apply(s, events[0]);
      InitRunsAtMostOnce(r.0, events[1..]);
    }
  }

  class Runtime {
    var state: RuntimeState
    /** How many times the initialisation sequence (CALL_INIT ...) has run. */
    var initRuns: nat

    constructor ()
      ensures state == Initializing && initRuns == 0
    {
      state := Initializing;
      initRuns := 0;
    }

    /** Scm_Init: does nothing once booting has got past the first stage;
        otherwise runs the initialisers (not part of this model) and marks
        the runtime initialized. */
    method Init()
      modifies this
      ensures (state, initRuns > old(initRuns)) == Apply(old(state), CallInit)
      ensures initRuns - old(initRuns) == InitRuns(old(state), [CallInit])
    {
      if Stage(state) > Stage(Initializing) {
        return;
      }
      initRuns := initRuns + 1;
      state := Initialized;
    }

    /** Scm_SetRuntimeReplState */
    method SetRuntimeReplState(full: bool)
      modifies this`state
      ensures state == Apply(old(state), SetReplState(full)).0
    {
      state := if full then FullRepl else MiniRepl;
    }
  }

  /** The scheme values Scm_ObjToExitCode distinguishes. */
  datatype Obj = True | False | Integer(value: int) | Other

  /** EX_SOFTWARE from sysexits.h. */
  const EX_SOFTWARE: int := 70

  /** EXIT_CODE: the low byte of a (two's-complement) status. */
  function ExitCode(code: int): (r: int)
    ensures 0 <= r < 0x100 && (code - r) % 0x100 == 0
  {
    code % 0x100
  }

  /** Scm_ObjToExitCode: #t is success, #f is 1, an exact integer (fixnum or
      bignum alike) gives its low eight bits, anything else EX_SOFTWARE. */
  function ObjToExitCode(obj: Obj): (r: int)
    ensures 0 <= r < 0x100
    ensures obj == True ==> r == 0
    ensures obj == False ==> r == 1
    ensures obj.Integer? ==> (obj.value - r) % 0x100 == 0
    ensures obj == Other ==> r == EX_SOFTWARE
  {
    match obj
    case True => 0
    case False => 1
    case Integer(v) => v % 0x100
    case Other => EX_SOFTWARE
  }

  /** The exit status a Scheme value produces is already an exit code:
      EXIT_CODE leaves it unchanged. */
  lemma ExitCodeOfObj(obj: Obj)
    ensures ExitCode(ObjToExitCode(obj)) == ObjToExitCode(obj)
  {
  }
}
