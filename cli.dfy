/**
 * The wrapper's entry point: four start-up steps that each set the exit code on
 * failure and are skipped once it is non-zero, then either the service run (no
 * argument) or the operation the first argument names, matched without regard to
 * case. The operations' own outcomes never reach the exit code.
 */
module Cli {
  import opened Win32

  const EXITCODE_BASE: int := 1
  const EXITCODE_CONFIG_PATH_INVALID: int := EXITCODE_BASE
  const EXITCODE_CONFIG_READ_ERROR: int := EXITCODE_BASE + 1
  const EXITCODE_OUTOFMEMORY: int := EXITCODE_BASE + 1000

  /** The service operations a verb can select. */
  datatype Operation = Install | Query | Update | Disable | Enable | Delete | Start | Dacl | Stop

  /** What the entry point does, in order. */
  datatype Call =
    | AllocatePath | GetConfigurationPath | AllocateConfig | ReadConfig
    | Perform(op: Operation) | RunService | ReportUnknownVerb

  /** The start-up steps and the exit code each one sets when it fails. */
  const StartupSteps: seq<Call> := [AllocatePath, GetConfigurationPath, AllocateConfig, ReadConfig]
  const StartupCodes: seq<int> := [EXITCODE_OUTOFMEMORY, EXITCODE_CONFIG_PATH_INVALID, EXITCODE_OUTOFMEMORY, EXITCODE_CONFIG_READ_ERROR]

  // ---------------------------------------------------------------------------
  // Verbs

  /** Case folding of the ASCII letters. */
  function Lower(c: char): (r: char)
    ensures 'A' <= c <= 'Z' ==> r as int == c as int + 32
    ensures !('A' <= c <= 'Z') ==> r == c
  {
    if 'A' <= c <= 'Z' then (c as int + 32) as char else c
  }

  function Fold(s: string): (r: string)
    ensures |r| == |s| && forall i :: 0 <= i < |s| ==> r[i] == Lower(s[i])
  {
    seq(|s|, i requires 0 <= i < |s| => Lower(s[i]))
  }

  /** lstrcmpi(a, b) == 0, for ASCII text. */
  predicate SameIgnoringCase(a: string, b: string)
  {
    Fold(a) == Fold(b)
  }

  /** The verb that selects each operation. */
  function VerbName(op: Operation): (r: string)
    ensures Fold(r) == r
  {
    var r := match op
      case Install => "install"
      case Query => "query"
      case Update => "describe"
      case Disable => "disable"
      case Enable => "enable"
      case Delete => "delete"
      case Start => "start"
      case Dacl => "dacl"
      case Stop => "stop";
    assert forall i :: 0 <= i < |r| ==> !('A' <= r[i] <= 'Z');
    r
  }

  /** The verb table, tried in order. */
  function Lookup(verb: string): Option<Operation>
  {
    if SameIgnoringCase(verb, "install") then Some(Install)
    else if SameIgnoringCase(verb, "query") then Some(Query)
    else if SameIgnoringCase(verb, "describe") then Some(Update)
    else if SameIgnoringCase(verb, "disable") then Some(Disable)
    else if SameIgnoringCase(verb, "enable") then Some(Enable)
    else if SameIgnoringCase(verb, "delete") then Some(Delete)
    else if SameIgnoringCase(verb, "start") then Some(Start)
    else if SameIgnoringCase(verb, "dacl") then Some(Dacl)
    else if SameIgnoringCase(verb, "stop") then Some(Stop)
    else None
  }

  /** A verb selects an operation exactly when, case aside, it is that operation's name. */
  lemma LookupExact(verb: string, op: Operation)
    ensures Lookup(verb) == Some(op) <==> Fold(verb) == VerbName(op)
  {
    NamesFolded();
  }

  /** The verbs are written in lower case. */
  lemma NamesFolded()
    ensures Fold("install") == "install" && Fold("query") == "query" && Fold("describe") == "describe"
    ensures Fold("disable") == "disable" && Fold("enable") == "enable" && Fold("delete") == "delete"
    ensures Fold("start") == "start" && Fold("dacl") == "dacl" && Fold("stop") == "stop"
  {
    assert Fold(VerbName(Install)) == VerbName(Install);
    assert Fold(VerbName(Query)) == VerbName(Query);
    assert Fold(VerbName(Update)) == VerbName(Update);
    assert Fold(VerbName(Disable)) == VerbName(Disable);
    assert Fold(VerbName(Enable)) == VerbName(Enable);
    assert Fold(VerbName(Delete)) == VerbName(Delete);
    assert Fold(VerbName(Start)) == VerbName(Start);
    assert Fold(VerbName(Dacl)) == VerbName(Dacl);
    assert Fold(VerbName(Stop)) == VerbName(Stop);
  }

  /** Each operation's name selects it, in any mix of cases. */
  lemma VerbRoundTrip(op: Operation, spelled: string)
    requires SameIgnoringCase(spelled, VerbName(op))
    ensures Lookup(spelled) == Some(op)
  {
    LookupExact(spelled, op);
  }

  /** Case never matters to the lookup. */
  lemma LookupIgnoresCase(a: string, b: string)
    requires SameIgnoringCase(a, b)
    ensures Lookup(a) == Lookup(b)
  {
  }

  // ---------------------------------------------------------------------------
  // The entry point

  /** The first start-up step that fails, given whether each succeeds. */
  function FirstFailure(ok: seq<bool>): (r: Option<nat>)
    ensures r.Some? ==> r.value < |ok| && !ok[r.value] && forall i :: 0 <= i < r.value ==> ok[i]
    ensures r.None? <==> forall i :: 0 <= i < |ok| ==> ok[i]
  {
    if ok == [] then None
    else if !ok[0] then Some(0)
    else match FirstFailure(ok[1..])
      case None => None
      case Some(i) => Some(i + 1)
  }

  /**
   * _tmain. `ok` says whether each start-up step succeeds (the path buffer's
   * allocation, reading the configuration path, the configuration's allocation, and
   * reading it); `argv` is the argument vector, the program's own name first.
   */
  method Entry(ok: seq<bool>, argv: seq<string>) returns (rc: int, calls: seq<Call>)
    requires |ok| == |StartupSteps|
    ensures FirstFailure(ok).Some? ==>
      rc == StartupCodes[FirstFailure(ok).value] && calls == StartupSteps[..FirstFailure(ok).value + 1]
    ensures FirstFailure(ok).None? && |argv| <= 1 ==> rc == 0 && calls == StartupSteps + [RunService]
    ensures FirstFailure(ok).None? && |argv| > 1 && Lookup(argv[1]).Some? ==>
      rc == 0 && calls == StartupSteps + [Perform(Lookup(argv[1]).value)]
    ensures FirstFailure(ok).None? && |argv| > 1 && Lookup(argv[1]).None? ==>
      rc == 1 && calls == StartupSteps + [ReportUnknownVerb]
  {
    rc := 0;
    calls := [AllocatePath];
    if !ok[0] {
      rc := EXITCODE_OUTOFMEMORY;
    }
    if rc == 0 {
      calls := calls + [GetConfigurationPath];
      if !ok[1] {
        rc := EXITCODE_CONFIG_PATH_INVALID;
      }
    }
    if rc == 0 {
      calls := calls + [AllocateConfig];
      if !ok[2] {
        rc := EXITCODE_OUTOFMEMORY;
      }
    }
    if rc == 0 {
      calls := calls + [ReadConfig];
      if !ok[3] {
        rc := EXITCODE_CONFIG_READ_ERROR;
      }
    }
    assert ok == [ok[0], ok[1], ok[2], ok[3]];
    assert FirstFailure(ok[3..]) == (if ok[3] then None else Some(0));
    if rc == 0 {
      if |argv| > 1 {
        var op := Lookup(argv[1]);
        if op.Some? {
          calls := calls + [Perform(op.value)];
        } else {
          calls := calls + [ReportUnknownVerb];
          rc := 1;
        }
      } else {
        calls := calls + [RunService];
      }
    }
  }
}
