/**
 * The supervisor runtime of the Windows service wrapper (src/Wrapper/service.c):
 * the status reporter with its process-wide checkpoint counter, the control
 * handler that raises the manual-reset stop event, the shutdown coordinator that
 * waits for "child exited" or "stop requested", and the orchestration from
 * START_PENDING to exactly one STOPPED.
 *
 * Every operating-system outcome is an input: the result of each SetServiceStatus
 * call (the constant `scm`, indexed by call number), event creation and opening,
 * child creation, the multi-object wait and the successive single-object waits of
 * the stop loop.
 */
module Service {
  import opened Win32
  import Paths

  // SERVICE_STATUS.dwCurrentState values
  const SERVICE_STOPPED: Dword := 1
  const SERVICE_START_PENDING: Dword := 2
  const SERVICE_STOP_PENDING: Dword := 3
  const SERVICE_RUNNING: Dword := 4
  const SERVICE_CONTINUE_PENDING: Dword := 5
  const SERVICE_PAUSE_PENDING: Dword := 6
  const SERVICE_PAUSED: Dword := 7

  const SERVICE_WIN32_OWN_PROCESS: Dword := 0x10
  const SERVICE_ACCEPT_STOP: Dword := 1

  // Control codes
  const SERVICE_CONTROL_STOP: Dword := 1
  const SERVICE_CONTROL_INTERROGATE: Dword := 4

  /** Wait hint of the START_PENDING report. */
  const StartWaitHint: Dword := 3000
  /** The stop loop's single-object wait, and the wait hint reported before each one. */
  const StopWaitQuantum: Dword := 5000
  /** Size, in bytes, of the buffer the child's command line is copied into. */
  const CommandLineBufferBytes: nat := 32768

  // ---------------------------------------------------------------------------
  // Status text

  const KnownStates: set<Dword> := {
    SERVICE_STOPPED, SERVICE_START_PENDING, SERVICE_STOP_PENDING, SERVICE_RUNNING,
    SERVICE_CONTINUE_PENDING, SERVICE_PAUSE_PENDING, SERVICE_PAUSED }

  /** wrapper_service_get_status_text: the name of a service state, for the log. */
  function StatusText(state: Dword): (r: string)
    ensures r == "UNKNOWN" <==> state !in KnownStates
  {
    if state == SERVICE_STOPPED then "SERVICE_STOPPED"
    else if state == SERVICE_START_PENDING then "SERVICE_START_PENDING"
    else if state == SERVICE_STOP_PENDING then "SERVICE_STOP_PENDING"
    else if state == SERVICE_RUNNING then "SERVICE_RUNNING"
    else if state == SERVICE_CONTINUE_PENDING then "SERVICE_CONTINUE_PENDING"
    else if state == SERVICE_PAUSE_PENDING then "SERVICE_PAUSE_PENDING"
    else if state == SERVICE_PAUSED then "SERVICE_PAUSED"
    else "UNKNOWN"
  }

  /** Reads a state back from its name: the inverse of StatusText on the seven states. */
  function StateNamed(text: string): (r: Option<Dword>)
    ensures r.Some? ==> r.value in KnownStates
  {
    if text == "SERVICE_STOPPED" then Some(SERVICE_STOPPED)
    else if text == "SERVICE_START_PENDING" then Some(SERVICE_START_PENDING)
    else if text == "SERVICE_STOP_PENDING" then Some(SERVICE_STOP_PENDING)
    else if text == "SERVICE_RUNNING" then Some(SERVICE_RUNNING)
    else if text == "SERVICE_CONTINUE_PENDING" then Some(SERVICE_CONTINUE_PENDING)
    else if text == "SERVICE_PAUSE_PENDING" then Some(SERVICE_PAUSE_PENDING)
    else if text == "SERVICE_PAUSED" then Some(SERVICE_PAUSED)
    else None
  }

  /** Each of the seven states has its own name; every other value is "UNKNOWN", which names no state. */
  lemma StatusTextRoundTrip(state: Dword)
    ensures StateNamed(StatusText(state)) == (if state in KnownStates then Some(state) else None)
  {
  }

  /** Two states with the same name are the same state, unless both are unknown. */
  lemma StatusTextInjective(a: Dword, b: Dword)
    requires a in KnownStates || b in KnownStates
    requires StatusText(a) == StatusText(b)
    ensures a == b
  {
    StatusTextRoundTrip(a);
    StatusTextRoundTrip(b);
  }

  // ---------------------------------------------------------------------------
  // Status records

  /** SERVICE_STATUS as handed to SetServiceStatus. The checkpoint counter is unbounded here. */
  datatype StatusRecord = StatusRecord(
    serviceType: Dword,
    currentState: Dword,
    controlsAccepted: Dword,
    win32ExitCode: Dword,
    serviceSpecificExitCode: Dword,
    checkPoint: nat,
    waitHint: Dword)

  /** The arguments of one wrapper_service_report_status call. */
  datatype Request = Request(state: Dword, exitCode: Dword, waitHint: Dword)

  function RequestOf(r: StatusRecord): Request
  {
    Request(r.currentState, r.win32ExitCode, r.waitHint)
  }

  /** RUNNING and STOPPED carry checkpoint 0 and leave the counter alone. */
  predicate ResetsCheckpoint(state: Dword)
  {
    state == SERVICE_RUNNING || state == SERVICE_STOPPED
  }

  /** The record wrapper_service_report_status hands over for a request at checkpoint `cp`. */
  function RecordFor(req: Request, cp: nat): StatusRecord
  {
    var accepted := if req.state == SERVICE_START_PENDING then 0 else SERVICE_ACCEPT_STOP;
    StatusRecord(SERVICE_WIN32_OWN_PROCESS, req.state, accepted, req.exitCode, 0, cp, req.waitHint)
  }

  /** A record answers its request, and it accepts a control (STOP) exactly when the service is not starting. */
  lemma RecordAnswersRequest(req: Request, cp: nat)
    ensures RequestOf(RecordFor(req, cp)) == req
    ensures RecordFor(req, cp).controlsAccepted != 0 <==> req.state != SERVICE_START_PENDING
    ensures RecordFor(req, cp).controlsAccepted in {0, SERVICE_ACCEPT_STOP}
  {
  }

  /**
   * Record i of a trace: it answers request i; it carries checkpoint 0 exactly for
   * RUNNING and STOPPED; its checkpoint lies below `counter`; and when non-zero it is
   * above every earlier non-zero checkpoint.
   */
  ghost predicate RecordOk(rs: seq<StatusRecord>, qs: seq<Request>, i: int, counter: nat)
  {
    && 0 <= i < |rs| && i < |qs|
    && RequestOf(rs[i]) == qs[i]
    && (rs[i].checkPoint == 0 <==> ResetsCheckpoint(rs[i].currentState))
    && rs[i].checkPoint < counter
    && (rs[i].checkPoint != 0 ==>
          forall j :: 0 <= j < i && rs[j].checkPoint != 0 ==> rs[j].checkPoint < rs[i].checkPoint)
  }

  /** A trace of records and the requests they answer, with checkpoints below `counter`. */
  ghost predicate TraceValid(rs: seq<StatusRecord>, qs: seq<Request>, counter: nat)
  {
    |rs| == |qs| && forall i :: 0 <= i < |rs| ==> RecordOk(rs, qs, i, counter)
  }

  /**
   * What a valid trace means record by record: every record answers its request, the
   * checkpoint is 0 exactly for RUNNING and STOPPED, all lie below the counter, and the
   * non-zero ones strictly increase.
   */
  lemma TraceIncreases(rs: seq<StatusRecord>, qs: seq<Request>, counter: nat)
    requires TraceValid(rs, qs, counter)
    ensures forall i :: 0 <= i < |rs| ==> RequestOf(rs[i]) == qs[i]
    ensures forall i :: 0 <= i < |rs| ==> (rs[i].checkPoint == 0 <==> ResetsCheckpoint(rs[i].currentState))
    ensures forall i :: 0 <= i < |rs| ==> rs[i].checkPoint < counter
    ensures forall i, j :: 0 <= i < j < |rs| && rs[i].checkPoint != 0 && rs[j].checkPoint != 0 ==>
      rs[i].checkPoint < rs[j].checkPoint
  {
    forall i, j | 0 <= i < j < |rs| && rs[i].checkPoint != 0 && rs[j].checkPoint != 0
      ensures rs[i].checkPoint < rs[j].checkPoint
    {
      assert RecordOk(rs, qs, j, counter);
    }
    forall i | 0 <= i < |rs|
      ensures RequestOf(rs[i]) == qs[i] && rs[i].checkPoint < counter
      ensures rs[i].checkPoint == 0 <==> ResetsCheckpoint(rs[i].currentState)
    {
      assert RecordOk(rs, qs, i, counter);
    }
  }

  /** Appending a record that answers its request, with the counter as its checkpoint or 0 for RUNNING and STOPPED, keeps a trace valid. */
  lemma TraceValidAppend(rs: seq<StatusRecord>, qs: seq<Request>, counter: nat, q: Request)
    requires TraceValid(rs, qs, counter) && counter >= 1
    ensures var cp := if ResetsCheckpoint(q.state) then 0 else counter;
      TraceValid(rs + [RecordFor(q, cp)], qs + [q], if ResetsCheckpoint(q.state) then counter else counter + 1)
  {
    var cp := if ResetsCheckpoint(q.state) then 0 else counter;
    var rs', qs' := rs + [RecordFor(q, cp)], qs + [q];
    var counter' := if ResetsCheckpoint(q.state) then counter else counter + 1;
    forall i | 0 <= i < |rs'| ensures RecordOk(rs', qs', i, counter') {
      if i < |rs| {
        assert RecordOk(rs, qs, i, counter);
        assert rs'[i] == rs[i] && qs'[i] == qs[i];
        assert forall j :: 0 <= j < i ==> rs'[j] == rs[j];
      } else {
        forall j | 0 <= j < i && rs'[j].checkPoint != 0 ensures rs'[j].checkPoint < cp || cp == 0 {
          assert rs'[j] == rs[j];
          assert RecordOk(rs, qs, j, counter);
        }
      }
    }
  }

  // ---------------------------------------------------------------------------
  // The recorded error

  /** wrapper_error_t: only the code is modelled; it is the value the error was built from. */
  datatype Error = Error(code: int)

  /** The recorded error after a call that records its failure, when it fails, in place of the one before. */
  function Recorded(e: Option<Error>, failure: Option<Dword>): (r: Option<Error>)
    ensures failure.Some? ==> r == Some(Error(failure.value))
    ensures failure.None? ==> r == e
  {
    if failure.Some? then Some(Error(failure.value)) else e
  }

  /**
   * Whether a failed call stops the run: one whose GetLastError returned ERROR_SUCCESS
   * does not, since the wrapper tests the HRESULT_FROM_WIN32 of that error.
   */
  predicate Stops(failure: Option<Dword>)
  {
    failure.Some? && failure.value != NO_ERROR
  }

  /** A failure stops the run exactly when the HRESULT the wrapper derives from it fails. */
  lemma StopsExactly(failure: Option<Dword>)
    ensures Stops(failure) <==> failure.Some? && Failed(HResultFromWin32(failure.value))
  {
    if failure.Some? {
      HResultFromWin32Fails(failure.value);
    }
  }

  /** The Win32 exit code of the final STOPPED report. */
  function StoppedExitCode(recorded: Option<Error>): (r: Dword)
    ensures recorded.None? ==> r == NO_ERROR
    ensures recorded.Some? ==> (r - recorded.value.code) % TwoTo32 == 0
  {
    match recorded
    case None => NO_ERROR
    case Some(e) => ToDword(e.code)
  }

  // ---------------------------------------------------------------------------
  // Launching the child (wrapper_create_child_process)

  /** What CreateProcess reports: a process and its id, or the error GetLastError returns. */
  datatype CreateOutcome = Created(pid: Dword) | CreateFailed(lastError: Dword)

  /** The arguments of the CreateProcess call that matter to the child. */
  datatype CreateProcessCall = CreateProcessCall(
    commandLine: string,
    inheritHandles: bool,
    environment: Option<map<string, string>>,
    currentDirectory: Option<string>)

  /** The outcome of wrapper_create_child_process: the child's id, the error recorded, and the CreateProcess call made. */
  datatype Spawn = Spawn(process: Option<Dword>, error: Option<Error>, call: Option<CreateProcessCall>)

  /** The command line and its terminator fit in the 32768-byte buffer. */
  predicate CommandLineFits(commandLine: string)
  {
    Paths.CbCopy(CommandLineBufferBytes, commandLine).Ok?
  }

  function SpawnChild(commandLine: string, outcome: CreateOutcome): (r: Spawn)
    // the copy into the 32768-byte buffer is the only check before CreateProcess
    ensures r.call.Some? <==> CommandLineFits(commandLine)
    ensures !CommandLineFits(commandLine) ==> r.error == Some(Error(STRSAFE_E_INSUFFICIENT_BUFFER))
    // the child inherits the wrapper's own environment and current directory
    ensures r.call.Some? ==> r.call.value == CreateProcessCall(commandLine, false, None, None)
    ensures r.process.Some? <==> r.call.Some? && outcome.Created?
    ensures r.process.Some? ==> r.process.value == outcome.pid && r.error.None?
    ensures r.process.None? ==> r.error.Some?
  {
    match Paths.CbCopy(CommandLineBufferBytes, commandLine)
    case Err(hr) => Spawn(None, Some(Error(hr)), None)
    case Ok(line) =>
      var call := CreateProcessCall(line, false, None, None);
      match outcome
      case Created(pid) => Spawn(Some(pid), None, Some(call))
      case CreateFailed(e) => Spawn(None, Some(Error(e)), Some(call))
  }

  /** The longest command line the buffer admits is 16383 wide characters. */
  lemma CommandLineBound(commandLine: string)
    ensures CommandLineFits(commandLine) <==> |commandLine| <= 16383
  {
  }

  // ---------------------------------------------------------------------------
  // Waiting

  /** WaitForMultipleObjects with bWaitAll = FALSE: the lowest signalled slot, if any. */
  function WaitAny(signalled: seq<bool>): (r: Option<nat>)
    ensures r.Some? ==> r.value < |signalled| && signalled[r.value]
    ensures r.Some? ==> forall j :: 0 <= j < r.value ==> !signalled[j]
    ensures r.None? <==> true !in signalled
  {
    if signalled == [] then None
    else if signalled[0] then Some(0)
    else match WaitAny(signalled[1..])
      case None => None
      case Some(k) => Some(k + 1)
  }

  /** How the INFINITE wait on [child, stop event] ends: a handle is signalled, it times out, or it fails. */
  datatype MultiWait = Signalled | TimedOut | WaitFailed

  /** An INFINITE wait returns only once a handle is signalled, or on a timeout or a failure. */
  predicate WaitEnds(childExited: bool, stopSignalled: bool, wait: MultiWait)
  {
    wait.Signalled? ==> childExited || stopSignalled
  }

  /** The wait returns for the stop event: it is signalled and the child has not exited. */
  predicate StopPath(childExited: bool, stopSignalled: bool, wait: MultiWait)
  {
    wait.Signalled? && !childExited && stopSignalled
  }

  /**
   * The value WaitForMultipleObjects returns for the handles [child, stop event]:
   * WAIT_OBJECT_0 plus the slot WaitAny picks, WAIT_TIMEOUT, or WAIT_FAILED. The child
   * is slot 0, so its exit wins when both are signalled.
   */
  function MultiWaitResult(childExited: bool, stopSignalled: bool, wait: MultiWait): (r: Dword)
    requires WaitEnds(childExited, stopSignalled, wait)
    ensures r == WAIT_OBJECT_0 <==> wait.Signalled? && childExited
    ensures r == WAIT_OBJECT_0 + 1 <==> StopPath(childExited, stopSignalled, wait)
    ensures r == WAIT_TIMEOUT <==> wait.TimedOut?
  {
    match wait
    case Signalled =>
      assert [childExited, stopSignalled][1..] == [stopSignalled];
      WAIT_OBJECT_0 + WaitAny([childExited, stopSignalled]).value
    case TimedOut => WAIT_TIMEOUT
    case WaitFailed => WAIT_FAILED
  }

  /** Some single-object wait of the stop loop does not time out: the child exits or the wait fails. */
  predicate StopLoopEnds(waits: seq<Dword>)
  {
    exists k :: 0 <= k < |waits| && waits[k] != WAIT_TIMEOUT
  }

  /** The index of the wait that ends the stop loop. */
  function LoopExit(waits: seq<Dword>): (k: nat)
    requires StopLoopEnds(waits)
    ensures k < |waits| && waits[k] != WAIT_TIMEOUT
    ensures forall j :: 0 <= j < k ==> waits[j] == WAIT_TIMEOUT
  {
    if waits[0] != WAIT_TIMEOUT then 0
    else
      assert StopLoopEnds(waits[1..]) by {
        var k :| 0 <= k < |waits| && waits[k] != WAIT_TIMEOUT;
        assert waits[1..][k - 1] == waits[k];
      }
      1 + LoopExit(waits[1..])
  }

  function Repeat(req: Request, n: nat): (r: seq<Request>)
    ensures |r| == n && forall i :: 0 <= i < n ==> r[i] == req
  {
    if n == 0 then [] else Repeat(req, n - 1) + [req]
  }

  /** One more repetition is one more element at the end. */
  lemma RepeatOneMore(base: seq<Request>, req: Request, n: nat)
    ensures base + Repeat(req, n) + [req] == base + Repeat(req, n + 1)
  {
  }

  function StopPending(hint: Dword): Request
  {
    Request(SERVICE_STOP_PENDING, NO_ERROR, hint)
  }

  /**
   * The reports wrapper_wait makes. `waited` says whether it reaches the multi-object
   * wait: the stop event was opened, or opening it failed with ERROR_SUCCESS. Nothing
   * otherwise; then one STOP_PENDING with hint 0 and, on the stop path, one
   * STOP_PENDING with hint 5000 before every single-object wait.
   */
  function WaitRequests(waited: bool, multiWait: Dword, waits: seq<Dword>): seq<Request>
    requires waited && multiWait == WAIT_OBJECT_0 + 1 ==> StopLoopEnds(waits)
  {
    if !waited then []
    else if multiWait == WAIT_OBJECT_0 + 1 then [StopPending(0)] + Repeat(StopPending(StopWaitQuantum), LoopExit(waits) + 1)
    else [StopPending(0)]
  }

  /** Whether wrapper_wait returns 1: the wait ended on the child or the stop event, or failed with a zero last error. */
  predicate WaitReturnsOne(waited: bool, multiWait: Dword, lastError: Dword)
  {
    && waited
    && multiWait != WAIT_TIMEOUT
    && (multiWait == WAIT_OBJECT_0 || multiWait == WAIT_OBJECT_0 + 1 || Succeeded(HResultFromWin32(lastError)))
  }

  /**
   * The reports wrapper_service_init makes, given whether event creation let the run go
   * on, whether a child runs, whether wrapper_wait reaches its wait, and the error
   * recorded when STOPPED is reported.
   */
  function InitRequests(eventPassed: bool, spawned: bool, waited: bool, multiWait: Dword, waits: seq<Dword>,
                        stoppedWith: Option<Error>): seq<Request>
    requires waited && multiWait == WAIT_OBJECT_0 + 1 ==> StopLoopEnds(waits)
  {
    [Request(SERVICE_START_PENDING, NO_ERROR, StartWaitHint)]
    + (if eventPassed && spawned then [Request(SERVICE_RUNNING, NO_ERROR, 0)] + WaitRequests(waited, multiWait, waits) else [])
    + [Request(SERVICE_STOPPED, StoppedExitCode(stoppedWith), 0)]
  }

  /** The states the manager sees over one run: START_PENDING, then RUNNING, then STOP_PENDING reports, then one STOPPED; or a prefix of that cut short by STOPPED. */
  ghost predicate ProtocolTrace(rs: seq<Request>)
  {
    && |rs| >= 1
    && rs[|rs| - 1].state == SERVICE_STOPPED
    && (forall i :: 0 <= i < |rs| - 1 ==> rs[i].state != SERVICE_STOPPED)
    && (forall i :: 0 <= i < |rs| ==> (rs[i].state == SERVICE_START_PENDING <==> i == 0 && |rs| > 1))
    && (forall i :: 0 <= i < |rs| ==> (rs[i].state == SERVICE_RUNNING ==> i == 1))
    && (forall i :: 0 <= i < |rs| && rs[i].state == SERVICE_STOP_PENDING ==> 2 <= i && rs[1].state == SERVICE_RUNNING)
    && (forall i :: 0 <= i < |rs| ==> rs[i].state in {SERVICE_START_PENDING, SERVICE_RUNNING, SERVICE_STOP_PENDING, SERVICE_STOPPED})
  }

  /** Every run of wrapper_service_init follows the protocol, and its STOPPED carries the recorded error's code. */
  lemma {:induction false} InitRequestsFollowProtocol(eventPassed: bool, spawned: bool, waited: bool, multiWait: Dword,
                                                      waits: seq<Dword>, stoppedWith: Option<Error>)
    requires waited && multiWait == WAIT_OBJECT_0 + 1 ==> StopLoopEnds(waits)
    ensures var rs := InitRequests(eventPassed, spawned, waited, multiWait, waits, stoppedWith);
      && ProtocolTrace(rs)
      && rs[|rs| - 1].exitCode == StoppedExitCode(stoppedWith)
      && (exists i :: 0 <= i < |rs| && rs[i].state == SERVICE_RUNNING) == (eventPassed && spawned)
  {
    var rs := InitRequests(eventPassed, spawned, waited, multiWait, waits, stoppedWith);
    var stop := Request(SERVICE_STOPPED, StoppedExitCode(stoppedWith), 0);
    if eventPassed && spawned {
      var w := WaitRequests(waited, multiWait, waits);
      assert forall i :: 0 <= i < |w| ==> w[i].state == SERVICE_STOP_PENDING;
      assert rs == [Request(SERVICE_START_PENDING, NO_ERROR, StartWaitHint), Request(SERVICE_RUNNING, NO_ERROR, 0)] + w + [stop];
      forall i | 2 <= i < |rs| - 1 ensures rs[i].state == SERVICE_STOP_PENDING {
        assert rs[i] == w[i - 2];
      }
      assert rs[1].state == SERVICE_RUNNING;
    } else {
      assert rs == [Request(SERVICE_START_PENDING, NO_ERROR, StartWaitHint), stop];
    }
  }

  /** The reports of wrapper_service_main: the setup-failure branch reports STOPPED with NO_ERROR whatever failed. */
  function MainRequests(setupOk: bool, eventPassed: bool, spawned: bool, waited: bool, multiWait: Dword,
                        waits: seq<Dword>, stoppedWith: Option<Error>): seq<Request>
    requires waited && multiWait == WAIT_OBJECT_0 + 1 ==> StopLoopEnds(waits)
  {
    if setupOk then InitRequests(eventPassed, spawned, waited, multiWait, waits, stoppedWith)
    else [Request(SERVICE_STOPPED, NO_ERROR, 0)]
  }

  /** Over the whole service run STOPPED is reported exactly once, and last. */
  lemma MainRequestsFollowProtocol(setupOk: bool, eventPassed: bool, spawned: bool, waited: bool, multiWait: Dword,
                                   waits: seq<Dword>, stoppedWith: Option<Error>)
    requires waited && multiWait == WAIT_OBJECT_0 + 1 ==> StopLoopEnds(waits)
    ensures ProtocolTrace(MainRequests(setupOk, eventPassed, spawned, waited, multiWait, waits, stoppedWith))
  {
    if setupOk {
      InitRequestsFollowProtocol(eventPassed, spawned, waited, multiWait, waits, stoppedWith);
    }
  }

  /** On the stop path the wait reports 2 + n STOP_PENDING records, n being the number of timed-out waits; all but the first carry hint 5000. */
  lemma StopPathReports(waits: seq<Dword>)
    requires StopLoopEnds(waits)
    ensures var rs := WaitRequests(true, WAIT_OBJECT_0 + 1, waits);
      && |rs| == 2 + LoopExit(waits)
      && rs[0] == StopPending(0)
      && (forall i :: 1 <= i < |rs| ==> rs[i] == StopPending(StopWaitQuantum))
  {
  }

  // ---------------------------------------------------------------------------
  // The control handler's mapping

  datatype ControlAction = SetStopEvent | Ignore

  /** wrapper_service_control_handler's switch: only SERVICE_CONTROL_STOP acts. */
  function ControlActionOf(ctrl: Dword): (r: ControlAction)
    ensures r == SetStopEvent <==> ctrl == SERVICE_CONTROL_STOP
  {
    if ctrl == SERVICE_CONTROL_STOP then SetStopEvent
    else if ctrl == SERVICE_CONTROL_INTERROGATE then Ignore
    else Ignore
  }

  /** The outcome of the setup steps of wrapper_service_main, in order. */
  datatype Setup = Setup(
    pathBuffer: bool,             // allocation of the configuration-path buffer
    configPath: Option<Error>,    // wrapper_config_get_path's error, if it fails
    configAlloc: bool,            // wrapper_config_alloc
    configRead: Option<Error>,    // wrapper_config_read's error, if it fails
    register: Option<Dword>)      // RegisterServiceCtrlHandler's last error, if it fails

  /** The setup reaches wrapper_service_init: every step succeeds, or registration fails with ERROR_SUCCESS. */
  predicate SetupOk(s: Setup)
  {
    s.pathBuffer && s.configPath.None? && s.configAlloc && s.configRead.None? && !Stops(s.register)
  }

  /** The error recorded by the first failing setup step (allocation failures record none). */
  function SetupError(s: Setup): (r: Option<Error>)
    ensures SetupOk(s) ==> r == Recorded(None, s.register)
    ensures !s.pathBuffer ==> r.None?
  {
    if !s.pathBuffer then None
    else if s.configPath.Some? then s.configPath
    else if !s.configAlloc then None
    else if s.configRead.Some? then s.configRead
    else if s.register.Some? then Some(Error(s.register.value))
    else None
  }

  // ---------------------------------------------------------------------------
  // The supervisor's state

  /** Regrouping the reports of consecutive steps. */
  lemma Regroup<T>(base: seq<T>, a: seq<T>, b: seq<T>, c: seq<T>)
    ensures base + a + b + c == base + (a + b + c)
  {
  }

  class Supervisor {
    /** Whether the k-th SetServiceStatus call succeeds, and otherwise its last error. */
    const scm: nat -> Option<Dword>

    /** Every record handed to SetServiceStatus, in order. */
    var reports: seq<StatusRecord>
    /** The wrapper_service_report_status calls behind those records. */
    ghost var requests: seq<Request>
    /** The static dwCheckPoint of wrapper_service_report_status. */
    var checkpoint: nat
    /** The wrapper_error_t* that the service entry point threads through every call. */
    var error: Option<Error>
    /** Whether the manual-reset stop event is signalled. */
    var stopRequested: bool
    /** The process ids a CTRL+C event was sent to. */
    var ctrlC: seq<Dword>
    /** How often wrapper_wait opened, and closed, a handle to the stop event. */
    var eventOpens: nat
    var eventCloses: nat
    /** The child processes whose handle was closed. */
    var closedProcesses: seq<Dword>

    ghost predicate Valid()
      reads this`reports, this`requests, this`checkpoint
    {
      checkpoint >= 1 && TraceValid(reports, requests, checkpoint)
    }

    constructor (scm: nat -> Option<Dword>)
      ensures Valid()
      ensures this.scm == scm && reports == [] && requests == [] && checkpoint == 1 && error.None? && !stopRequested
      ensures ctrlC == [] && eventOpens == 0 && eventCloses == 0 && closedProcesses == []
    {
      this.scm := scm;
      reports, requests, checkpoint, error, stopRequested := [], [], 1, None, false;
      ctrlC, eventOpens, eventCloses, closedProcesses := [], 0, 0, [];
    }

    /** The recorded error after the SetServiceStatus calls numbered lo to hi - 1, starting from `e`. */
    ghost function ErrorAfterCalls(e: Option<Error>, lo: nat, hi: nat): Option<Error>
      decreases hi
    {
      if hi <= lo then e
      else match scm(hi - 1)
        case None => ErrorAfterCalls(e, lo, hi - 1)
        case Some(x) => Some(Error(x))
    }

    /** The recorded error stays unset across a series of calls exactly when it was unset and every call succeeded. */
    lemma {:induction false} ErrorAfterCallsNone(e: Option<Error>, lo: nat, hi: nat)
      requires lo <= hi
      ensures ErrorAfterCalls(e, lo, hi).None? <==> e.None? && forall k :: lo <= k < hi ==> scm(k).None?
      decreases hi
    {
      if hi > lo {
        ErrorAfterCallsNone(e, lo, hi - 1);
      }
    }

    /** The error after a run of calls is the error after its second part, starting from the error after its first part. */
    lemma {:induction false} ErrorAfterCallsCompose(e: Option<Error>, lo: nat, mid: nat, hi: nat)
      requires lo <= mid <= hi
      ensures ErrorAfterCalls(ErrorAfterCalls(e, lo, mid), mid, hi) == ErrorAfterCalls(e, lo, hi)
      decreases hi
    {
      if hi > mid {
        ErrorAfterCallsCompose(e, lo, mid, hi - 1);
      }
    }

    /**
     * wrapper_service_report_status. The record copies state, exit code and wait hint;
     * it accepts no control while START_PENDING and STOP otherwise. RUNNING and STOPPED
     * carry checkpoint 0; every other state takes the counter, which then advances, even
     * when SetServiceStatus fails. A failure replaces the recorded error.
     */
    method ReportStatus(state: Dword, exitCode: Dword, waitHint: Dword) returns (ok: bool)
      requires Valid()
      modifies this`reports, this`requests, this`checkpoint, this`error
      ensures Valid()
      ensures reports == old(reports)
        + [RecordFor(Request(state, exitCode, waitHint), if ResetsCheckpoint(state) then 0 else old(checkpoint))]
      ensures requests == old(requests) + [Request(state, exitCode, waitHint)]
      ensures checkpoint == if ResetsCheckpoint(state) then old(checkpoint) else old(checkpoint) + 1
      ensures ok <==> scm(|old(reports)|).None?
      ensures error == ErrorAfterCalls(old(error), |old(reports)|, |reports|)
    {
      var req := Request(state, exitCode, waitHint);
      var cp := 0;
      if !ResetsCheckpoint(state) {
        cp := checkpoint;
        checkpoint := checkpoint + 1;
      }
      var call := |reports|;
      TraceValidAppend(reports, requests, old(checkpoint), req);
      reports := reports + [RecordFor(req, cp)];
      requests := requests + [req];
      match scm(call)
      case None =>
        ok := true;
      case Some(lastError) =>
        error := Some(Error(lastError));
        ok := false;
    }

    /**
     * wrapper_service_control_handler: a STOP control sets the stop event when it can be
     * opened and set; any other control, and every failure, changes nothing (failures are
     * only logged). The event is manual-reset, so once set it stays set.
     */
    method ControlHandler(ctrl: Dword, openEvent: Option<Dword>, setEvent: Option<Dword>)
      modifies this`stopRequested
      ensures stopRequested == (old(stopRequested) ||
        (ControlActionOf(ctrl) == SetStopEvent && openEvent.None? && setEvent.None?))
    {
      match ControlActionOf(ctrl)
      case SetStopEvent =>
        if openEvent.None? && setEvent.None? {
          stopRequested := true;
        }
      case Ignore =>
    }

    /** A STOP_PENDING report whose outcome the stop path ignores. */
    method ReportStopPending(waitHint: Dword)
      requires Valid()
      modifies this`reports, this`requests, this`checkpoint, this`error
      ensures Valid() && |reports| == |old(reports)| + 1
      ensures requests == old(requests) + [StopPending(waitHint)]
      ensures error == ErrorAfterCalls(old(error), |old(reports)|, |reports|)
    {
      var delivered := ReportStatus(SERVICE_STOP_PENDING, NO_ERROR, waitHint);
    }

    /**
     * The stop path of wrapper_wait: one STOP_PENDING with hint 0, one CTRL+C to the child,
     * then the stop loop.
     */
    method StopChild(pid: Dword, waits: seq<Dword>)
      requires Valid() && StopLoopEnds(waits)
      modifies this`reports, this`requests, this`checkpoint, this`error, this`ctrlC
      ensures Valid()
      ensures requests == old(requests) + WaitRequests(true, WAIT_OBJECT_0 + 1, waits)
      ensures ctrlC == old(ctrlC) + [pid]
      ensures error == ErrorAfterCalls(old(error), |old(reports)|, |reports|)
    {
      ReportStopPending(0);
      // SendConsoleCtrlEvent(pid, CTRL_C_EVENT); its result is ignored
      ctrlC := ctrlC + [pid];
      ghost var mid := |reports|;
      StopLoop(waits);
      ErrorAfterCallsCompose(old(error), |old(reports)|, mid, |reports|);
    }

    /**
     * The stop loop of wrapper_wait: a STOP_PENDING with hint 5000 before every 5000 ms
     * wait on the child, repeated while the wait times out. A failed wait ends the loop
     * as a child exit does. There is no iteration bound.
     */
    method StopLoop(waits: seq<Dword>)
      requires Valid() && StopLoopEnds(waits)
      modifies this`reports, this`requests, this`checkpoint, this`error
      ensures Valid()
      ensures requests == old(requests) + Repeat(StopPending(StopWaitQuantum), LoopExit(waits) + 1)
      ensures error == ErrorAfterCalls(old(error), |old(reports)|, |reports|)
    {
      var status: Dword := WAIT_TIMEOUT;
      var i := 0;
      while status == WAIT_TIMEOUT
        invariant 0 <= i <= LoopExit(waits) + 1
        invariant if i == 0 then status == WAIT_TIMEOUT else status == waits[i - 1]
        invariant Valid() && |old(reports)| <= |reports|
        invariant requests == old(requests) + Repeat(StopPending(StopWaitQuantum), i)
        invariant error == ErrorAfterCalls(old(error), |old(reports)|, |reports|)
        decreases LoopExit(waits) + 1 - i
      {
        ReportStopPending(StopWaitQuantum);
        RepeatOneMore(old(requests), StopPending(StopWaitQuantum), i);
        ErrorAfterCallsCompose(old(error), |old(reports)|, |reports| - 1, |reports|);
        status := waits[i];
        i := i + 1;
      }
    }

    /**
     * The recorded error after wrapper_wait, starting from `e`, its reports being the
     * SetServiceStatus calls `lo` to `hi` - 1: the open failure when it stops the wait;
     * after a signalled handle, what the STOP_PENDING reports leave; after a timeout,
     * HRESULT_FROM_WIN32(ERROR_TIMEOUT); after a failure, the last error read once the
     * report is made.
     */
    ghost function WaitError(e: Option<Error>, lo: nat, hi: nat, openEvent: Option<Dword>, multiWait: Dword,
                             lastError: Dword): Option<Error>
    {
      if Stops(openEvent) then Some(Error(openEvent.value))
      else if multiWait == WAIT_OBJECT_0 || multiWait == WAIT_OBJECT_0 + 1
      then ErrorAfterCalls(Recorded(e, openEvent), lo, hi)
      else if multiWait == WAIT_TIMEOUT then Some(Error(HResultFromWin32(ERROR_TIMEOUT)))
      else Some(Error(lastError))
    }

    /**
     * The wait of wrapper_wait on [child, stop event] and its switch, once the stop event
     * is open or its opening failed with ERROR_SUCCESS. Child exit: one STOP_PENDING.
     * Stop request: the stop path. Timeout or failure: one STOP_PENDING, then an error
     * replaces the recorded one, and the HRESULT fails unless that failure's last error
     * is 0. `lastError` is what GetLastError returns after that report.
     */
    method WaitForChildOrStop(pid: Dword, childExited: bool, stopSignalled: bool, wait: MultiWait, lastError: Dword,
                              waits: seq<Dword>)
      returns (hr: HResult)
      requires Valid()
      requires WaitEnds(childExited, stopSignalled, wait)
      requires StopPath(childExited, stopSignalled, wait) ==> StopLoopEnds(waits)
      modifies this`reports, this`requests, this`checkpoint, this`error, this`ctrlC
      ensures Valid()
      ensures var multiWait := MultiWaitResult(childExited, stopSignalled, wait);
        && requests == old(requests) + WaitRequests(true, multiWait, waits)
        && Succeeded(hr) == WaitReturnsOne(true, multiWait, lastError)
        && error == (
          if multiWait == WAIT_OBJECT_0 || multiWait == WAIT_OBJECT_0 + 1
          then ErrorAfterCalls(old(error), |old(reports)|, |reports|)
          else if multiWait == WAIT_TIMEOUT then Some(Error(HResultFromWin32(ERROR_TIMEOUT)))
          else Some(Error(lastError)))
      ensures ctrlC == old(ctrlC) + (if StopPath(childExited, stopSignalled, wait) then [pid] else [])
    {
      hr := S_OK;
      var event := MultiWaitResult(childExited, stopSignalled, wait);
      if event == WAIT_OBJECT_0 + 1 {
        StopChild(pid, waits);
      } else {
        var delivered := ReportStatus(SERVICE_STOP_PENDING, NO_ERROR, 0);
        if event == WAIT_TIMEOUT {
          hr := HResultFromWin32(ERROR_TIMEOUT);
          error := Some(Error(hr));
        } else if event != WAIT_OBJECT_0 {
          error := Some(Error(lastError));
          hr := HResultFromWin32(lastError);
        }
      }
    }

    /**
     * wrapper_wait. The stop event is opened by name; when that fails with a last error
     * other than ERROR_SUCCESS nothing else happens. Otherwise the wait on [child, stop
     * event] decides the path, the event's slot being signalled only when it was opened
     * and is set. Child exit: one STOP_PENDING, return 1. Stop request: the stop path,
     * return 1. Timeout or failure of the wait: one STOP_PENDING, then an error replaces
     * the recorded one, and the result is 0 unless that failure's last error is 0. The
     * event handle is closed whenever it was opened.
     */
    method Wait(pid: Dword, openEvent: Option<Dword>, childExited: bool, wait: MultiWait, lastError: Dword, waits: seq<Dword>)
      returns (ok: bool)
      requires Valid()
      requires WaitEnds(childExited, openEvent.None? && stopRequested, wait)
      requires StopPath(childExited, openEvent.None? && stopRequested, wait) ==> StopLoopEnds(waits)
      modifies this`reports, this`requests, this`checkpoint, this`error, this`ctrlC, this`eventOpens, this`eventCloses
      ensures Valid()
      ensures var multiWait := MultiWaitResult(childExited, openEvent.None? && stopRequested, wait);
        && requests == old(requests) + WaitRequests(!Stops(openEvent), multiWait, waits)
        && ok == WaitReturnsOne(!Stops(openEvent), multiWait, lastError)
        && error == WaitError(old(error), |old(reports)|, |reports|, openEvent, multiWait, lastError)
      ensures ctrlC == old(ctrlC) + (if StopPath(childExited, openEvent.None? && stopRequested, wait) then [pid] else [])
      ensures eventOpens == old(eventOpens) + (if openEvent.None? then 1 else 0)
      ensures eventCloses == old(eventCloses) + (if openEvent.None? then 1 else 0)
    {
      var hr := S_OK;
      var isOpen := false;
      match openEvent {
        case Some(e) =>
          error := Some(Error(e));
          StopsExactly(openEvent);
          hr := HResultFromWin32(e);
        case None =>
          isOpen := true;
          eventOpens := eventOpens + 1;
      }

      if Succeeded(hr) {
        hr := WaitForChildOrStop(pid, childExited, isOpen && stopRequested, wait, lastError, waits);
      }

      if isOpen {
        eventCloses := eventCloses + 1;
      }
      ok := Succeeded(hr);
    }

    /**
     * The recorded error after the first half of wrapper_service_init, starting from `e`
     * at SetServiceStatus call `n`: the event-creation failure when it stops the run; the
     * spawn's error when no child runs; otherwise what the START_PENDING report, the
     * event-creation failure (with ERROR_SUCCESS) and the RUNNING report leave.
     */
    ghost function LaunchError(e: Option<Error>, n: nat, commandLine: string, createEvent: Option<Dword>,
                               outcome: CreateOutcome): Option<Error>
    {
      if Stops(createEvent) then Some(Error(createEvent.value))
      else if SpawnChild(commandLine, outcome).process.None? then SpawnChild(commandLine, outcome).error
      else ErrorAfterCalls(Recorded(ErrorAfterCalls(e, n, n + 1), createEvent), n + 1, n + 2)
    }

    /**
     * The first half of wrapper_service_init: START_PENDING (hint 3000), then the stop
     * event is created and, unless that fails with a real last error, the child launched;
     * RUNNING is reported once it runs.
     */
    method Launch(commandLine: string, createEvent: Option<Dword>, outcome: CreateOutcome)
      returns (process: Option<Dword>)
      requires Valid()
      modifies this`reports, this`requests, this`checkpoint, this`error
      ensures Valid()
      ensures process == (if Stops(createEvent) then None else SpawnChild(commandLine, outcome).process)
      ensures requests == old(requests) + [Request(SERVICE_START_PENDING, NO_ERROR, StartWaitHint)]
        + (if process.Some? then [Request(SERVICE_RUNNING, NO_ERROR, 0)] else [])
      ensures |reports| == |old(reports)| + (if process.Some? then 2 else 1)
      ensures error == LaunchError(old(error), |old(reports)|, commandLine, createEvent, outcome)
    {
      var delivered := ReportStatus(SERVICE_START_PENDING, NO_ERROR, StartWaitHint);
      var hr := S_OK;
      process := None;
      if createEvent.Some? {
        error := Some(Error(createEvent.value));
        StopsExactly(createEvent);
        hr := HResultFromWin32(createEvent.value);
      }
      if Succeeded(hr) {
        var spawn := SpawnChild(commandLine, outcome);
        if spawn.process.Some? {
          process := spawn.process;
          delivered := ReportStatus(SERVICE_RUNNING, NO_ERROR, 0);
        } else {
          error := spawn.error;
        }
      }
    }

    /**
     * The last step of wrapper_service_init: exactly one STOPPED carrying the recorded
     * error's code, or NO_ERROR when none was recorded; then the process handle is closed.
     */
    method Finish(process: Option<Dword>)
      requires Valid()
      modifies this`reports, this`requests, this`checkpoint, this`error, this`closedProcesses
      ensures Valid()
      ensures requests == old(requests) + [Request(SERVICE_STOPPED, StoppedExitCode(old(error)), 0)]
      ensures |reports| == |old(reports)| + 1
      ensures closedProcesses == old(closedProcesses) + (if process.Some? then [process.value] else [])
      ensures error == ErrorAfterCalls(old(error), |reports| - 1, |reports|)
    {
      var delivered;
      match error {
        case Some(e) =>
          delivered := ReportStatus(SERVICE_STOPPED, ToDword(e.code), 0);
        case None =>
          delivered := ReportStatus(SERVICE_STOPPED, NO_ERROR, 0);
      }
      if process.Some? {
        closedProcesses := closedProcesses + [process.value];
      }
    }

    /** The middle of wrapper_service_init: wrapper_wait runs only when a child was launched. */
    method WatchChild(process: Option<Dword>, openEvent: Option<Dword>, childExited: bool, wait: MultiWait,
                      lastError: Dword, waits: seq<Dword>)
      requires Valid()
      requires WaitEnds(childExited, openEvent.None? && stopRequested, wait)
      requires StopPath(childExited, openEvent.None? && stopRequested, wait) ==> StopLoopEnds(waits)
      modifies this`reports, this`requests, this`checkpoint, this`error, this`ctrlC, this`eventOpens, this`eventCloses
      ensures Valid()
      ensures var multiWait := MultiWaitResult(childExited, openEvent.None? && stopRequested, wait);
        && requests == old(requests) + (if process.Some? then WaitRequests(!Stops(openEvent), multiWait, waits) else [])
        && error == (if process.Some? then WaitError(old(error), |old(reports)|, |reports|, openEvent, multiWait, lastError)
                     else old(error))
      ensures ctrlC == old(ctrlC)
        + (if process.Some? && StopPath(childExited, openEvent.None? && stopRequested, wait) then [process.value] else [])
      ensures eventOpens - eventCloses == old(eventOpens) - old(eventCloses)
    {
      if process.Some? {
        var waited := Wait(process.value, openEvent, childExited, wait, lastError, waits);
      }
    }

    /**
     * The error wrapper_service_init reports with STOPPED, starting from `e`, its reports
     * before STOPPED being the SetServiceStatus calls `lo` to `hi` - 1: the launch's,
     * then, when a child runs, wrapper_wait's.
     */
    ghost function InitError(e: Option<Error>, lo: nat, hi: nat, commandLine: string, createEvent: Option<Dword>,
                             outcome: CreateOutcome, openEvent: Option<Dword>, multiWait: Dword, lastError: Dword): Option<Error>
    {
      var launched := LaunchError(e, lo, commandLine, createEvent, outcome);
      if Stops(createEvent) || SpawnChild(commandLine, outcome).process.None? then launched
      else WaitError(launched, lo + 2, hi, openEvent, multiWait, lastError)
    }

    /**
     * STOPPED carries NO_ERROR exactly when no error was recorded before, the event was
     * created and opened, the child started, the wait ended on the child or the stop
     * event, and every report before STOPPED succeeded.
     */
    lemma InitErrorNone(e: Option<Error>, lo: nat, hi: nat, commandLine: string, createEvent: Option<Dword>,
                        outcome: CreateOutcome, openEvent: Option<Dword>, multiWait: Dword, lastError: Dword)
      requires lo + 2 <= hi
      ensures var spawned := !Stops(createEvent) && SpawnChild(commandLine, outcome).process.Some?;
        InitError(e, lo, hi, commandLine, createEvent, outcome, openEvent, multiWait, lastError).None? <==>
          && e.None? && createEvent.None? && spawned && openEvent.None?
          && (multiWait == WAIT_OBJECT_0 || multiWait == WAIT_OBJECT_0 + 1)
          && forall k :: lo <= k < hi ==> scm(k).None?
    {
      var r := InitError(e, lo, hi, commandLine, createEvent, outcome, openEvent, multiWait, lastError);
      var spawned := !Stops(createEvent) && SpawnChild(commandLine, outcome).process.Some?;
      if !spawned {
        assert r.Some?;
      } else {
        var started := ErrorAfterCalls(e, lo, lo + 1);
        var launched := ErrorAfterCalls(Recorded(started, createEvent), lo + 1, lo + 2);
        assert r == WaitError(launched, lo + 2, hi, openEvent, multiWait, lastError);
        if !Stops(openEvent) && (multiWait == WAIT_OBJECT_0 || multiWait == WAIT_OBJECT_0 + 1) {
          assert r == ErrorAfterCalls(Recorded(launched, openEvent), lo + 2, hi);
          ErrorAfterCallsNone(e, lo, lo + 1);
          ErrorAfterCallsNone(Recorded(started, createEvent), lo + 1, lo + 2);
          ErrorAfterCallsNone(Recorded(launched, openEvent), lo + 2, hi);
        } else {
          assert r.Some?;
        }
      }
    }

    /** wrapper_service_init up to its STOPPED report: launch, then wait while the child runs. */
    method LaunchAndWatch(commandLine: string, createEvent: Option<Dword>, outcome: CreateOutcome,
                          openEvent: Option<Dword>, childExited: bool, wait: MultiWait, lastError: Dword, waits: seq<Dword>)
      returns (process: Option<Dword>)
      requires Valid()
      requires WaitEnds(childExited, openEvent.None? && stopRequested, wait)
      requires StopPath(childExited, openEvent.None? && stopRequested, wait) ==> StopLoopEnds(waits)
      modifies this`reports, this`requests, this`checkpoint, this`error, this`ctrlC, this`eventOpens, this`eventCloses
      ensures Valid()
      ensures process == (if Stops(createEvent) then None else SpawnChild(commandLine, outcome).process)
      ensures var multiWait := MultiWaitResult(childExited, openEvent.None? && stopRequested, wait);
        && requests == old(requests) + [Request(SERVICE_START_PENDING, NO_ERROR, StartWaitHint)]
           + (if process.Some? then [Request(SERVICE_RUNNING, NO_ERROR, 0)] + WaitRequests(!Stops(openEvent), multiWait, waits)
              else [])
        && error == InitError(old(error), |old(reports)|, |reports|, commandLine, createEvent, outcome, openEvent,
                              multiWait, lastError)
      ensures ctrlC == old(ctrlC)
        + (if process.Some? && StopPath(childExited, openEvent.None? && stopRequested, wait) then [process.value] else [])
      ensures eventOpens - eventCloses == old(eventOpens) - old(eventCloses)
    {
      process := Launch(commandLine, createEvent, outcome);
      ghost var afterLaunch := requests;
      WatchChild(process, openEvent, childExited, wait, lastError, waits);
      ghost var running := if process.Some? then [Request(SERVICE_RUNNING, NO_ERROR, 0)] else [];
      ghost var w := if process.Some? then WaitRequests(!Stops(openEvent), MultiWaitResult(childExited, openEvent.None? && stopRequested, wait), waits) else [];
      assert requests == old(requests) + [Request(SERVICE_START_PENDING, NO_ERROR, StartWaitHint)] + running + w;
    }

    /**
     * wrapper_service_init: launch, wait while the child runs, finish. The child's own
     * exit code is never read; the result is always 1.
     */
    method Init(commandLine: string, createEvent: Option<Dword>, outcome: CreateOutcome,
                openEvent: Option<Dword>, childExited: bool, wait: MultiWait, lastError: Dword, waits: seq<Dword>)
      returns (r: int, ghost stoppedWith: Option<Error>)
      requires Valid()
      requires WaitEnds(childExited, openEvent.None? && stopRequested, wait)
      requires StopPath(childExited, openEvent.None? && stopRequested, wait) ==> StopLoopEnds(waits)
      modifies this`reports, this`requests, this`checkpoint, this`error, this`ctrlC, this`eventOpens, this`eventCloses,
        this`closedProcesses
      ensures Valid() && r == 1
      ensures var spawned := !Stops(createEvent) && SpawnChild(commandLine, outcome).process.Some?;
        var multiWait := MultiWaitResult(childExited, openEvent.None? && stopRequested, wait);
        && requests == old(requests)
           + InitRequests(!Stops(createEvent), spawned, !Stops(openEvent), multiWait, waits, stoppedWith)
        && stoppedWith == InitError(old(error), |old(reports)|, |reports| - 1, commandLine, createEvent, outcome, openEvent,
                                    multiWait, lastError)
        && closedProcesses == old(closedProcesses) + (if spawned then [outcome.pid] else [])
        && ctrlC == old(ctrlC)
           + (if spawned && StopPath(childExited, openEvent.None? && stopRequested, wait) then [outcome.pid] else [])
      ensures error == ErrorAfterCalls(stoppedWith, |reports| - 1, |reports|)
      ensures eventOpens - eventCloses == old(eventOpens) - old(eventCloses)
    {
      var process := LaunchAndWatch(commandLine, createEvent, outcome, openEvent, childExited, wait, lastError, waits);
      ghost var multiWait := MultiWaitResult(childExited, openEvent.None? && stopRequested, wait);
      ghost var running := if process.Some? then [Request(SERVICE_RUNNING, NO_ERROR, 0)] + WaitRequests(!Stops(openEvent), multiWait, waits) else [];
      ghost var start := [Request(SERVICE_START_PENDING, NO_ERROR, StartWaitHint)];
      stoppedWith := error;
      Finish(process);
      ghost var stop := [Request(SERVICE_STOPPED, StoppedExitCode(stoppedWith), 0)];
      Regroup(old(requests), start, running, stop);
      r := 1;
    }

    /** wrapper_service_init as wrapper_service_main calls it once the setup has succeeded; its reports follow the protocol. */
    method Run(commandLine: string, createEvent: Option<Dword>, outcome: CreateOutcome,
               openEvent: Option<Dword>, childExited: bool, wait: MultiWait, lastError: Dword, waits: seq<Dword>)
      returns (ghost stoppedWith: Option<Error>)
      requires Valid()
      requires WaitEnds(childExited, openEvent.None? && stopRequested, wait)
      requires StopPath(childExited, openEvent.None? && stopRequested, wait) ==> StopLoopEnds(waits)
      modifies this`reports, this`requests, this`checkpoint, this`error, this`ctrlC, this`eventOpens, this`eventCloses,
        this`closedProcesses
      ensures Valid()
      ensures var spawned := !Stops(createEvent) && SpawnChild(commandLine, outcome).process.Some?;
        var multiWait := MultiWaitResult(childExited, openEvent.None? && stopRequested, wait);
        var run := InitRequests(!Stops(createEvent), spawned, !Stops(openEvent), multiWait, waits, stoppedWith);
        && requests == old(requests) + run && ProtocolTrace(run)
        && stoppedWith == InitError(old(error), |old(reports)|, |reports| - 1, commandLine, createEvent, outcome, openEvent,
                                    multiWait, lastError)
      ensures error == ErrorAfterCalls(stoppedWith, |reports| - 1, |reports|)
      ensures eventOpens - eventCloses == old(eventOpens) - old(eventCloses)
    {
      var r;
      r, stoppedWith := Init(commandLine, createEvent, outcome, openEvent, childExited, wait, lastError, waits);
      InitRequestsFollowProtocol(!Stops(createEvent), !Stops(createEvent) && SpawnChild(commandLine, outcome).process.Some?,
        !Stops(openEvent), MultiWaitResult(childExited, openEvent.None? && stopRequested, wait), waits, stoppedWith);
    }

    /**
     * The setup of wrapper_service_main, first failure wins: the configuration-path
     * buffer, the configuration path, the configuration object, reading it, and
     * registering the control handler. The recorded error starts unset.
     */
    method Prepare(setup: Setup) returns (hr: HResult)
      modifies this`error
      ensures Succeeded(hr) <==> SetupOk(setup)
      ensures error == SetupError(setup)
    {
      error := None;
      hr := S_OK;
      if !setup.pathBuffer {
        hr := E_OUTOFMEMORY;
      }
      if Succeeded(hr) && setup.configPath.Some? {
        error := setup.configPath;
        hr := E_FAIL;
      }
      if Succeeded(hr) && !setup.configAlloc {
        hr := E_OUTOFMEMORY;
      }
      if Succeeded(hr) && setup.configRead.Some? {
        error := setup.configRead;
        hr := E_FAIL;
      }
      if Succeeded(hr) && setup.register.Some? {
        error := Some(Error(setup.register.value));
        StopsExactly(setup.register);
        hr := HResultFromWin32(setup.register.value);
      }
    }

    /** The only report after a failed setup: STOPPED with NO_ERROR, whatever failed. */
    method ReportSetupFailure() returns (ghost stoppedWith: Option<Error>)
      requires Valid()
      modifies this`reports, this`requests, this`checkpoint, this`error
      ensures Valid() && stoppedWith == old(error) && |reports| == |old(reports)| + 1
      ensures requests == old(requests) + [Request(SERVICE_STOPPED, NO_ERROR, 0)]
      ensures ProtocolTrace([Request(SERVICE_STOPPED, NO_ERROR, 0)])
      ensures error == ErrorAfterCalls(stoppedWith, |old(reports)|, |reports|)
    {
      stoppedWith := error;
      var delivered := ReportStatus(SERVICE_STOPPED, NO_ERROR, 0);
      MainRequestsFollowProtocol(false, false, false, false, 0, [], None);
    }

    /**
     * The service entry point wrapper_service_main: the setup steps run first-failure-wins;
     * when all succeed the run is wrapper_service_init, starting from the error the setup
     * recorded; otherwise the only report is STOPPED with NO_ERROR, whatever failed.
     */
    method ServiceMain(setup: Setup, commandLine: string, createEvent: Option<Dword>, outcome: CreateOutcome,
                       openEvent: Option<Dword>, childExited: bool, wait: MultiWait, lastError: Dword, waits: seq<Dword>)
      returns (ghost stoppedWith: Option<Error>)
      requires Valid()
      requires WaitEnds(childExited, openEvent.None? && stopRequested, wait)
      requires StopPath(childExited, openEvent.None? && stopRequested, wait) ==> StopLoopEnds(waits)
      modifies this`reports, this`requests, this`checkpoint, this`error, this`ctrlC, this`eventOpens, this`eventCloses,
        this`closedProcesses
      ensures Valid()
      ensures var spawned := !Stops(createEvent) && SpawnChild(commandLine, outcome).process.Some?;
        var multiWait := MultiWaitResult(childExited, openEvent.None? && stopRequested, wait);
        var run := MainRequests(SetupOk(setup), !Stops(createEvent), spawned, !Stops(openEvent), multiWait, waits, stoppedWith);
        requests == old(requests) + run && ProtocolTrace(run)
      ensures SetupOk(setup) ==> stoppedWith == InitError(SetupError(setup), |old(reports)|, |reports| - 1, commandLine,
        createEvent, outcome, openEvent, MultiWaitResult(childExited, openEvent.None? && stopRequested, wait), lastError)
      ensures !SetupOk(setup) ==> stoppedWith == SetupError(setup) && ctrlC == old(ctrlC) && closedProcesses == old(closedProcesses)
      ensures error == ErrorAfterCalls(stoppedWith, |reports| - 1, |reports|)
      ensures eventOpens - eventCloses == old(eventOpens) - old(eventCloses)
    {
      var hr := Prepare(setup);
      ghost var spawned := !Stops(createEvent) && SpawnChild(commandLine, outcome).process.Some?;
      ghost var multiWait := MultiWaitResult(childExited, openEvent.None? && stopRequested, wait);
      if Succeeded(hr) {
        stoppedWith := Run(commandLine, createEvent, outcome, openEvent, childExited, wait, lastError, waits);
      } else {
        stoppedWith := ReportSetupFailure();
        assert requests == old(requests)
          + MainRequests(false, !Stops(createEvent), spawned, !Stops(openEvent), multiWait, waits, stoppedWith);
      }
    }
  }
}
