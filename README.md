# Phaka Windows service wrapper, modelled in Dafny

Phaka runs an ordinary console program as a Windows service. It reads an INI
configuration file that sits next to the executable. Its two main parts are:

- **The service supervisor** (`src/Wrapper/service.c`). It reports START_PENDING to
  the service control manager, creates the child process and reports RUNNING. It
  then waits until the child exits or a STOP control sets the stop event. On a stop
  it sends the child one CTRL+C and keeps reporting STOP_PENDING every 5000 ms until
  the child is gone. It ends with exactly one STOPPED. Every report goes through one
  status reporter that owns a process-wide checkpoint counter.
- **The console wrapper** (`src/Wrapper/wrapper.c`). Its `Run` works out the log
  path, the command line and the working directory from the configuration. It sets
  `PHAKA_SERVICEW_BASEPATH`, merges the `[Environment]` section into its own
  environment, opens the log file and runs the child. The helpers `CreateDirectoryX`,
  `GetApplicationName` and `GetErrorMessage` belong to the same file.

The entry point (`src/Wrapper/main.c`) runs four start-up steps; the first failure
sets the exit code. It then runs the service, or the operation that the first
argument names, matched without regard to case.

Every operating-system answer is an input to the model:

- the result of each SetServiceStatus call;
- event creation and opening;
- CreateProcess and every wait result;
- what GetPrivateProfileString, GetPrivateProfileSection and GetModuleFileName would
  copy, and what GetLastError says after them;
- the existing and refused directories of the file system;
- SetEnvironmentVariable's answers;
- CreateFile's handle;
- whether allocations succeed.

The build is taken to be UNICODE, so a TCHAR is two bytes. A bound handed to a
`StringCb*` function therefore counts bytes and admits half as many characters.
The model keeps that mismatch wherever the code passes a character count or
`_MAX_PATH` as a byte bound.

Modules and files:

| file | module | what it holds |
|---|---|---|
| `win32.dfy` | `Win32` | HRESULTs, `HRESULT_FROM_WIN32`, the constants used |
| `paths.dfy` | `Paths` | strsafe copies and length checks; small definitions of the path helpers |
| `service.dfy` | `Service` | the supervisor as a class `Supervisor` with the report trace, the checkpoint counter, the recorded error and the stop flag |
| `directories.dfy` | `Directories` | `CreateDirectoryX` as a loop, and the walk that specifies it |
| `envsection.dfy` | `EnvSection` | `SetEnvironmentVariables` as nested loops over the section block and a scratch `array<char>` |
| `envfacts.dfy` | `EnvSectionFacts` | what the section merge does to the environment |
| `wrapper.dfy` | `Wrapper` | the settings, the path rules, `GetApplicationName`, `GetErrorMessage` and `Run` |
| `cli.dfy` | `Cli` | the exit-code chain and the verb table of `_tmain` |

## Model

| member | source | states |
|---|---|---|
| Win32.HResultFromWin32Fails | src/Wrapper/wrapper.c:44-47 | the HRESULT built from a Win32 error fails exactly when the error is not ERROR_SUCCESS, which maps to S_OK |
| Paths.CchCopy | src/Wrapper/wrapper.c:148 | StringCchCopy succeeds exactly when the size is non-zero and the source with its terminator fits; it then yields the source |
| Paths.CbCopy | src/Wrapper/service.c:224 | StringCbCopy succeeds exactly when the source and terminator fit in the byte bound, two bytes per character |
| Paths.CbCopyN | src/Wrapper/wrapper.c:37 | StringCbCopyN yields a prefix of the source; it fails exactly when the characters to copy and a terminator do not fit the byte bound |
| Paths.CchLength | src/Wrapper/wrapper.c:215 | StringCchLength succeeds exactly when the terminator lies within the bound, and then gives the length |
| Paths.CbLength | src/Wrapper/wrapper.c:655 | StringCbLength succeeds exactly when the string is shorter than half the byte bound, and gives its length in bytes |
| Paths.FindFrom | src/Wrapper/wrapper.c:26-29 | `_tcschr`: the first occurrence at or after a position, or none exactly when there is none |
| Paths.StripPath | src/Wrapper/wrapper.c:691 | the final component: a suffix of the path without a backslash |
| Paths.RemoveExtension | src/Wrapper/wrapper.c:692 | the path minus its extension, which put back gives the path |
| Paths.RemoveFileSpec | src/Wrapper/wrapper.c:286 | the parent of a path is a prefix of it |
| Paths.Fit | src/Wrapper/wrapper.c:157 | a PathCch* result succeeds exactly when it fits in the destination |
| Paths.AppendThenRemoveFileSpec | src/Wrapper/wrapper.c:238-242 | removing the file spec undoes appending one component to a directory |
| Paths.AppendThenStripPath | src/Wrapper/wrapper.c:691 | stripping the path of an appended component gives back that component |
| Paths.RenameExtensionSetsExtension | src/Wrapper/wrapper.c:157 | renaming to ".ext" yields exactly that extension and keeps the stem |
| Service.StatusText | src/Wrapper/service.c:22-43 | the name is "UNKNOWN" exactly for values other than the seven states |
| Service.StatusTextRoundTrip | src/Wrapper/service.c:22-43 | each of the seven states reads back from its name; every other value gets a name that reads back as no state |
| Service.StatusTextInjective | src/Wrapper/service.c:22-43 | two states with the same name are equal unless both are unknown |
| Service.RecordAnswersRequest | src/Wrapper/service.c:490-501 | the record copies state, exit code and wait hint; it accepts controls exactly when the state is not START_PENDING, and then only STOP |
| Service.TraceIncreases | src/Wrapper/service.c:503-507 | in a valid trace every record answers its request; the checkpoint is 0 exactly for RUNNING and STOPPED; non-zero checkpoints strictly increase over the whole run |
| Service.TraceValidAppend | src/Wrapper/service.c:503-507 | one more report, checkpoint 0 or the counter's next value, keeps the trace valid |
| Service.StoppedExitCode | src/Wrapper/service.c:450-460 | STOPPED carries NO_ERROR when no error was recorded, otherwise the recorded code as a DWORD |
| Service.SpawnChild | src/Wrapper/service.c:207-262 | CreateProcess is called exactly when the command line fits 32768 bytes, with no inherited handles, a NULL environment and a NULL directory; a child exists exactly when it was created; otherwise an error is recorded |
| Service.CommandLineBound | src/Wrapper/service.c:208-224 | the command line fits exactly when it has at most 16383 characters |
| Service.WaitAny | src/Wrapper/service.c:307-313 | WaitForMultipleObjects without wait-all yields the lowest signalled slot, and none exactly when none is signalled |
| Service.MultiWaitResult | src/Wrapper/service.c:305-322 | the wait on [child, stop event] returns slot 0 exactly when the child has exited, so a child exit wins over a stop request signalled with it; slot 1 exactly when only the stop event is signalled; WAIT_TIMEOUT only on a timeout |
| Service.LoopExit | src/Wrapper/service.c:331-337 | the stop loop ends at the first wait that does not time out; a failed wait ends it too |
| Service.StopPathReports | src/Wrapper/service.c:322-339 | the stop path reports one STOP_PENDING with hint 0, then one with hint 5000 per wait, timed-out waits included |
| Service.InitRequestsFollowProtocol | src/Wrapper/service.c:397-466 | START_PENDING first, RUNNING exactly when the event was created and the child started, only STOP_PENDING after it, and exactly one STOPPED, last, carrying the recorded error's code |
| Service.MainRequestsFollowProtocol | src/Wrapper/service.c:159-168 | every service run, failed setup included, follows that protocol |
| Service.ControlActionOf | src/Wrapper/service.c:543-580 | only SERVICE_CONTROL_STOP acts; INTERROGATE and every other code do nothing |
| Service.SetupError | src/Wrapper/service.c:92-157 | a setup that reaches wrapper_service_init has recorded nothing, or registration's ERROR_SUCCESS failure; a failed path allocation records nothing |
| Service.StopsExactly | src/Wrapper/service.c:144-152 | a failed call stops the run exactly when HRESULT_FROM_WIN32 of its last error fails, so a last error of ERROR_SUCCESS lets the run go on |
| Service.Supervisor.constructor | src/Wrapper/service.c:488 | the checkpoint counter starts at 1, with no reports and no error |
| Service.Supervisor.ErrorAfterCallsNone | src/Wrapper/service.c:511-526 | the recorded error stays unset over a series of reports exactly when it was unset and every SetServiceStatus succeeded |
| Service.Supervisor.ReportStatus | src/Wrapper/service.c:482-528 | appends the record for the request; RUNNING and STOPPED take checkpoint 0 and leave the counter alone; other states take the counter, which advances even when SetServiceStatus fails; returns whether it succeeded, and a failure replaces the recorded error; the trace stays valid |
| Service.Supervisor.ControlHandler | src/Wrapper/service.c:541-581 | the stop flag becomes set exactly when a STOP arrives and the event opens and is set; once set it stays set; failures are not propagated |
| Service.Supervisor.StopLoop | src/Wrapper/service.c:329-337 | one STOP_PENDING with hint 5000 before every wait, up to and including the first one that does not time out |
| Service.Supervisor.StopChild | src/Wrapper/service.c:322-339 | STOP_PENDING with hint 0, exactly one CTRL+C to the child's pid, then the stop loop |
| Service.Supervisor.WaitForChildOrStop | src/Wrapper/service.c:305-360 | the switch on WaitForMultipleObjects: the child's exit gives one STOP_PENDING and keeps the recorded error's history; the stop event gives the stop path and the one CTRL+C; a timeout records HRESULT_FROM_WIN32(ERROR_TIMEOUT) and a failure the last error, each after one STOP_PENDING; the result succeeds exactly as `WaitReturnsOne` says |
| Service.Supervisor.Wait | src/Wrapper/service.c:283-376 | the reports, the return value and the exact recorded error of every path: an open failure with a real last error records it and reports nothing; the stop path is taken exactly when the event was opened, is set and the child has not exited; a timeout records HRESULT_FROM_WIN32(ERROR_TIMEOUT); a failure records the last error; the event is closed exactly when it was opened |
| Service.Supervisor.Launch | src/Wrapper/service.c:397-436 | START_PENDING with hint 3000; a child only when event creation did not stop the run and SpawnChild succeeded; RUNNING exactly then; the recorded error is CreateEvent's last error when that stops the run, the spawn's error when no child runs, and otherwise what the reports leave |
| Service.Supervisor.WatchChild | src/Wrapper/service.c:438-448 | the wait runs only when a child exists, with exactly the reports and the recorded error `Wait` gives; without a child nothing changes |
| Service.Supervisor.LaunchAndWatch | src/Wrapper/service.c:397-448 | the reports of wrapper_service_init before STOPPED, the child it runs, and the recorded error at that point, which is exactly `InitError`; CTRL+C is sent exactly on the stop path |
| Service.Supervisor.Finish | src/Wrapper/service.c:450-466 | exactly one STOPPED carrying the recorded error's code or NO_ERROR; the process handle is closed when there is one |
| Service.Supervisor.Init | src/Wrapper/service.c:391-467 | the whole report sequence of wrapper_service_init, its final STOPPED carrying the code of `InitError`, the launch's error followed by the wait's; the child's exit code is never read; the result is always 1; the process is closed and the CTRL+C sent exactly on the stop path |
| Service.Supervisor.InitErrorNone | src/Wrapper/service.c:391-467 | STOPPED carries NO_ERROR exactly when nothing was recorded before, the event was created and opened, the child started, the wait ended on the child or the stop event, and every report before STOPPED succeeded |
| Service.Supervisor.Run | src/Wrapper/service.c:159-163 | after a successful setup the service runs wrapper_service_init: its reports follow the protocol and its STOPPED carries `InitError` started from the error recorded so far |
| Service.Supervisor.Prepare | src/Wrapper/service.c:92-157 | the setup succeeds exactly when every step does; the recorded error is the first failing step's |
| Service.Supervisor.ReportSetupFailure | src/Wrapper/service.c:164-168 | a failed setup reports only STOPPED with NO_ERROR, whatever error the setup recorded; that one report is a complete protocol trace |
| Service.Supervisor.ServiceMain | src/Wrapper/service.c:90-173 | the report sequence of the whole service run follows the protocol; after a successful setup STOPPED carries `InitError` started from the setup's error; after a failed setup nothing but STOPPED(NO_ERROR) happens |
| Directories.CreateDirectory | src/Wrapper/wrapper.c:42-49 | CreateDirectory creates a path exactly when it neither exists nor is refused; an existing path answers ERROR_ALREADY_EXISTS |
| Directories.FirstEnd | src/Wrapper/wrapper.c:26-30 | the walk starts at the second backslash, skipping the drive root |
| Directories.CopyPrefix | src/Wrapper/wrapper.c:36-37 | the prefix copy bounded by _MAX_PATH bytes takes prefixes shorter than 130 characters and refuses longer ones |
| Directories.CreatePrefix | src/Wrapper/wrapper.c:34-52 | one pass of the prefix loop continues the walk on success and ends it with its HRESULT on failure |
| Directories.CreateDirectoryX | src/Wrapper/wrapper.c:6-66 | the loop computes CreateDirectoryXSpec; an existing path returns S_OK and changes nothing |
| Directories.PrefixesForm | src/Wrapper/wrapper.c:26-52 | each prefix the walk creates is the path cut just before a backslash |
| Directories.PrefixesIncrease | src/Wrapper/wrapper.c:32-52 | the prefixes come in strictly increasing length |
| Directories.PrefixesComplete | src/Wrapper/wrapper.c:32-52 | every backslash after the start ends a prefix |
| Directories.DirectoryPrefixes | src/Wrapper/wrapper.c:26-55 | the prefixes are exactly the cuts before each backslash that has another backslash in front of it, in increasing length |
| Directories.WalkAttempts | src/Wrapper/wrapper.c:32-53 | the walk attempts an initial run of the prefixes in order; it succeeds only by attempting all; it loses no path and no refusal |
| Directories.WalkCreatesAll | src/Wrapper/wrapper.c:32-53 | when every prefix is harmless the walk succeeds and every prefix exists afterwards |
| Directories.StopCode | src/Wrapper/wrapper.c:37-47 | a prefix that stops the walk gives a failing HRESULT |
| Directories.WalkStopsAtFirstFailure | src/Wrapper/wrapper.c:32-53 | the walk stops at the first prefix that is too long or hard-refused, with that prefix's error |
| Directories.WholePathAlwaysAttempted | src/Wrapper/wrapper.c:55-62 | the whole path is attempted last, whatever happened before |
| Directories.CreatesEveryAncestor | src/Wrapper/wrapper.c:42-62 | "already exists" is never an error: with harmless prefixes the result is S_OK and the path and all its ancestors exist |
| Directories.FailureStopsWalkNotWholePath | src/Wrapper/wrapper.c:32-62 | a failing prefix ends the loop but the whole path is still attempted; the result fails, with the prefix's error unless the path's own creation fails |
| EnvSection.Overwrite | src/Wrapper/wrapper.c:114-118 | copying an entry changes only the buffer's start; the rest keeps the earlier text |
| EnvSection.CString | src/Wrapper/wrapper.c:112-114 | the text read at a position is the run of characters up to the next terminator |
| EnvSection.SkipDelimiters | src/Wrapper/wrapper.c:121 | `_tcstok_s` skips every leading "=" |
| EnvSection.TokenEnd | src/Wrapper/wrapper.c:121-122 | a token runs up to the next "=" or terminator |
| EnvSection.StrTok | src/Wrapper/wrapper.c:121-122 | a token, when there is one, is non-empty and holds neither "=" nor a terminator |
| EnvSection.SetVariable | src/Wrapper/wrapper.c:124-128 | a set succeeds exactly when the name is present and the system accepts it; a NULL value deletes and any other value sets |
| EnvSection.Assignments | src/Wrapper/wrapper.c:112-122 | one assignment per entry, each parsed from the buffer the previous ones left |
| EnvSection.FirstString | src/Wrapper/wrapper.c:104-110 | the length check sees the first entry, or nothing for an empty section |
| EnvSection.WalkStep | src/Wrapper/wrapper.c:112-129 | each entry is copied, split and set; the walk continues unless the set is refused |
| EnvSection.CopyEntry | src/Wrapper/wrapper.c:114-118 | the inner loop copies the entry over the buffer's start without a terminator |
| EnvSection.Split | src/Wrapper/wrapper.c:120-122 | the two `_tcstok_s` calls on the scratch array yield Parse's assignment and buffer |
| EnvSection.BlockAt | src/Wrapper/wrapper.c:112-118 | the walk finds the k-th entry and its terminator at the k-th offset, and the final terminator after the last |
| EnvSection.ReadEntry | src/Wrapper/wrapper.c:114-122 | copy then split, as Parse on the overwritten buffer |
| EnvSection.MergeEntry | src/Wrapper/wrapper.c:112-129 | one outer pass: a refusal ends the walk with its HRESULT; otherwise the walk goes on from the next entry |
| EnvSection.Merge | src/Wrapper/wrapper.c:110-130 | the nested loops compute the walk over all entries from a zeroed buffer |
| EnvSection.SetEnvironmentVariables | src/Wrapper/wrapper.c:68-136 | the method computes SetEnvironmentVariablesSpec |
| EnvSectionFacts.TokenAt | src/Wrapper/wrapper.c:121-122 | a token call over leading "=", a word, then "=" or a terminator yields that word |
| EnvSectionFacts.ParseNameValue | src/Wrapper/wrapper.c:121-122 | "name=value" (leading "=" allowed, anything after the next "=" dropped) sets name to value |
| EnvSectionFacts.ParseNameOnly | src/Wrapper/wrapper.c:121-124 | an entry without "=" gives a NULL value, which deletes the variable |
| EnvSectionFacts.TailInherited | src/Wrapper/wrapper.c:114-118 | an entry shorter than the text already in the buffer is read with that text's tail attached |
| EnvSectionFacts.WalkIsParseThenApply | src/Wrapper/wrapper.c:112-129 | the walk is parsing every entry, then applying the assignments in order |
| EnvSectionFacts.ApplyKeepsOthers | src/Wrapper/wrapper.c:70-73 | variables the section does not name keep their inherited values |
| EnvSectionFacts.ApplySucceeds | src/Wrapper/wrapper.c:124-128 | the merge succeeds exactly when every entry has a name and no set is refused |
| EnvSectionFacts.ApplyStopsAtFirstRefusal | src/Wrapper/wrapper.c:124-128 | the first refused set ends the merge: the environment is what the entries before it made, and the HRESULT is the refusal's (ERROR_INVALID_PARAMETER for a missing name) |
| EnvSectionFacts.ApplyLastWins | src/Wrapper/wrapper.c:112-129 | after a successful merge the last entry that names a variable decides it, a NULL value deleting it |
| EnvSectionFacts.EmptySectionSetsNothing | src/Wrapper/wrapper.c:93-110 | an empty section changes nothing; it is an error exactly when GetLastError names one other than a missing file |
| EnvSectionFacts.SectionMerges | src/Wrapper/wrapper.c:104-130 | a non-empty section is the inherited environment with the parsed assignments applied |
| Wrapper.Copied | src/Wrapper/wrapper.c:201 | a copy-out call yields a prefix of the text that leaves room for the terminator, the whole text when it fits |
| Wrapper.ReadSetting | src/Wrapper/wrapper.c:199-209 | a read fails exactly when nothing was copied and GetLastError is neither a missing file nor ERROR_SUCCESS; the HRESULT is then built from that error |
| Wrapper.PathChangeExtensionResult | src/Wrapper/wrapper.c:138-161 | the result for every input: the copy's failure, the extension length check, the copied path for an empty extension, or the renamed path when it fits |
| Wrapper.ChangeToLogExtension | src/Wrapper/wrapper.c:225-228 | the default log path has extension ".log" and the configuration path's stem |
| Wrapper.GetDirectoryName | src/Wrapper/wrapper.c:272-290 | succeeds exactly when the path fits, giving its parent |
| Wrapper.DirectoryOfFileInDirectory | src/Wrapper/wrapper.c:272-290 | the directory name of a file inside a directory is that directory |
| Wrapper.LogPathWhenEmpty | src/Wrapper/wrapper.c:223-228 | with no Logging.Path the log is the configuration path with extension ".log", and nothing is created |
| Wrapper.LogPathReadFailure | src/Wrapper/wrapper.c:199-209 | an empty read with a real GetLastError error fails with that error and creates nothing |
| Wrapper.LogPathWhenRelative | src/Wrapper/wrapper.c:229-259 | a relative path is joined to the configuration directory; the log's directory is created and CreateDirectoryX's outcome is the result |
| Wrapper.RelativeLogFileCreatesConfigurationDirectory | src/Wrapper/wrapper.c:245-258 | for a plain file name the directory created is the configuration file's own |
| Wrapper.LogPathWhenAbsolute | src/Wrapper/wrapper.c:260-263 | an absolute path is copied as it is, failing only when it does not fit; nothing is created |
| Wrapper.WorkingDirectoryFallback | src/Wrapper/wrapper.c:381-413 | a non-empty setting is returned unchanged; an empty one falls back to the configuration directory; a read failure is reported |
| Wrapper.GetCommandLineSetting | src/Wrapper/wrapper.c:415-432 | the command line is the setting as copied into the buffer, a prefix that fits it and the whole setting when it fits; an empty setting is accepted unless GetLastError reports a real error, whose HRESULT is then returned |
| Wrapper.ReadDisplayName | src/Wrapper/wrapper.c:644-656 | an accepted display name is what was read, and is shorter than half the buffer |
| Wrapper.ApplicationNameRules | src/Wrapper/wrapper.c:623-697 | E_INVALIDARG without a buffer; a first-read display name that passes the length check is the name; when both reads are empty, the executable's name without directory and extension |
| Wrapper.LongDisplayNameRefused | src/Wrapper/wrapper.c:655 | a display name copied whole but at least half the buffer long fails the byte-count check |
| Wrapper.SecondReadDecides | src/Wrapper/wrapper.c:659-676 | after an empty first read the second read decides: its failure, its name, or the fallback when it is empty too |
| Wrapper.SecondReadRedundant | src/Wrapper/wrapper.c:642-676 | when the file does not change between the two reads, an empty first read leads to the fallback |
| Wrapper.FallbackName | src/Wrapper/wrapper.c:679-694 | the fallback has no backslash, and with its extension it is the executable's file name |
| Wrapper.OpenLogFileNeverFails | src/Wrapper/wrapper.c:434-463 | only a NULL handle counts as failure, so a failing CreateFile (INVALID_HANDLE_VALUE) still returns S_OK |
| Wrapper.ExecuteChildProcess | src/Wrapper/wrapper.c:292-379 | the child is launched exactly when allocation succeeds and the directory is shorter than _MAX_PATH bytes; an empty directory becomes NULL; handles are inherited and output goes to the given handle |
| Wrapper.ExecuteChildProcessOutcome | src/Wrapper/wrapper.c:340-361 | it fails exactly when creation fails or the wait fails with a non-zero last error |
| Wrapper.MessageSourceOf | src/Wrapper/wrapper.c:470-519 | the MSMQ facility first, then the signed NERR range, then the system table |
| Wrapper.ConvertedNetworkErrorsUseSystemTable | src/Wrapper/wrapper.c:488 | a network error passed through HRESULT_FROM_WIN32 is negative and so is looked up in the system table |
| Wrapper.GetErrorMessage | src/Wrapper/wrapper.c:521-525 | the result is always S_OK, because a zero count converts to S_OK |
| Wrapper.StepBaseDirectory | src/Wrapper/wrapper.c:567-570 | runs only while Run succeeds and then records itself |
| Wrapper.StepBasePath | src/Wrapper/wrapper.c:572-578 | runs only while Run succeeds and then records itself |
| Wrapper.StepLogPath | src/Wrapper/wrapper.c:580-583 | runs only while Run succeeds and then records itself |
| Wrapper.StepCommandLine | src/Wrapper/wrapper.c:585-588 | runs only while Run succeeds and then records itself |
| Wrapper.StepSectionVariables | src/Wrapper/wrapper.c:590-593 | runs only while Run succeeds and then records itself |
| Wrapper.StepWorkingDirectory | src/Wrapper/wrapper.c:595-598 | runs only while Run succeeds and then records itself |
| Wrapper.StepLogFile | src/Wrapper/wrapper.c:600-603 | runs only while Run succeeds and then records itself |
| Wrapper.StepChild | src/Wrapper/wrapper.c:605-608 | runs only while Run succeeds and then records itself |
| Wrapper.Advance | src/Wrapper/wrapper.c:567-608 | a guarded step keeps the chain: nothing after a failure, one more step otherwise |
| Wrapper.PrepareChained | src/Wrapper/wrapper.c:567-588 | the first four steps form a chain |
| Wrapper.ExecuteChained | src/Wrapper/wrapper.c:590-608 | the last four steps extend it |
| Wrapper.RunFirstFailureWins | src/Wrapper/wrapper.c:528-621 | the steps run in the fixed order and stop at the first failure, whose HRESULT Run returns; success means all eight ran; no step runs for a NULL path (E_INVALIDARG) or a failed allocation (E_OUTOFMEMORY) |
| Wrapper.LaunchIgnoresWorkingDirectory | src/Wrapper/wrapper.c:595-608 | the child is launched with a NULL current directory whatever the setting, with the command line read earlier, writing to the log handle |
| Wrapper.BasePathInPrepare | src/Wrapper/wrapper.c:567-578 | after the first four steps PHAKA_SERVICEW_BASEPATH is the configuration directory and nothing else changed |
| Wrapper.BasePathSetBeforeSection | src/Wrapper/wrapper.c:572-593 | PHAKA_SERVICEW_BASEPATH keeps the configuration directory unless the section names it; the last section entry that names it wins |
| Cli.VerbName | src/Wrapper/main.c:53-88 | every verb is written in lower case |
| Cli.LookupExact | src/Wrapper/main.c:51-93 | a verb selects an operation exactly when, case aside, it is that operation's name ("describe" selects update) |
| Cli.VerbRoundTrip | src/Wrapper/main.c:53-88 | each operation's name, in any mix of cases, selects that operation |
| Cli.LookupIgnoresCase | src/Wrapper/main.c:53-88 | case never changes the lookup |
| Cli.FirstFailure | src/Wrapper/main.c:15-47 | the first start-up step that fails, with every step before it succeeding; none exactly when all succeed |
| Cli.Entry | src/Wrapper/main.c:13-105 | the first failing start-up step sets 1001, 1, 1001 or 2 and nothing later runs; with no argument the service runs; a known verb runs its operation with exit code 0; an unknown one sets 1 and runs nothing |

## Behaviour of the code that the model keeps

- **Checkpoint.** The checkpoint counter is never reset. It starts at 1 and each
  pending report takes the next value, across state changes
  (`src/Wrapper/service.c:488`, `503-507`).
- **Child's exit code.** The child's own exit code is never read. STOPPED carries
  the recorded error's code, or NO_ERROR (`src/Wrapper/service.c:450-460`).
- **Empty command line.** `GetCommandLineSetting` accepts an empty setting
  (`src/Wrapper/wrapper.c:415-432`).
- **Stop loop.** A failed single-object wait ends the stop loop as a child exit
  does (`src/Wrapper/service.c:331-337`).
- **ERROR_SUCCESS after a failure.** Registration, event creation, event opening
  and child creation test `HRESULT_FROM_WIN32(GetLastError())`. When that last
  error is 0 the HRESULT is S_OK, so the run goes on with the error recorded
  (`src/Wrapper/service.c:144-152`, `401-412`, `290-302`, `252-260`).
- **Section entries overrun the scratch buffer.** `SetEnvironmentVariables` copies
  each section entry into the 260-character `pszText` with no bound
  (`src/Wrapper/wrapper.c:79`, `114-118`). An entry of 260 characters or more
  leaves no terminator or writes past the buffer. The model admits only shorter
  entries.

## Left out

- `SendConsoleCtrlEvent` (console attach and detach): the model records the pid the CTRL+C goes to; the result is ignored, as the source ignores it.
- The service-registry operations (install, query, update, enable, disable, delete, start, dacl, stop), `wrapper_service_run` and `wrapper_log_get_path`: they are thin service-manager calls. The verb table records which operation is selected, not what it does.
- The configuration loader (`wrapper_config_get_path`, `wrapper_config_read`) and wrapper-error.c are not part of this model. Their success or failure is an input, and an error's code is taken to be the value it was built from.
- INI parsing: what GetPrivateProfileString and GetPrivateProfileSection return is an input. Section entries are taken to be non-empty and shorter than 260 characters, the scratch buffer's size. A longer entry overruns the buffer in the source, and that memory error is not modelled.
- Environment names are compared exactly; the system compares them without regard to case.
- S_FALSE and other success codes are not produced. Every success is S_OK.
- Allocation failure is one flag per operation. Inside `Run`, the buffers of the callees are taken to be allocated, and so is CreateDirectoryX's.
- The allocations of `wrapper_create_child_process` are taken to succeed.
- The CreateEvent handle of `wrapper_service_init` and its lifetime are not modelled.
- Concurrency: the control handler runs on the service manager's thread. Here it is a separate method call that sets the stop flag. The stop event's slot of the wait counts as signalled exactly when the event was opened and the flag is set at the time of the wait.
- A wait with an INFINITE timeout that never returns, because nothing is signalled and it neither times out nor fails, is not modelled (`WaitEnds`).
- The stop loop consumes a finite sequence of wait results, one of which does not time out. A child that never exits, so that the loop never ends, is not modelled.
- The path helpers are simple definitions over backslash-separated strings. UNC prefixes, `\\?\` paths, `.` and `..`, and forward slashes are not interpreted.
- `lstrcmpi` is modelled as ASCII case folding. Locale-specific comparison is not modelled.
- `FormatMessage` and `LoadLibrary` in `GetErrorMessage`: only the choice of message table and the returned HRESULT are modelled. FormatMessage's character count is an input.
- `OpenLogFile`'s CreateFile call and `Run`'s CloseHandle of the log handle: the handle is a value, and closing it is not modelled.
- `PrintLogo`, wrapper.c's own `_tmain`, and the logging macros: console output only.
- Service.Supervisor.ReportStatus: the checkpoint is an unbounded `nat`, so the 32-bit wrap-around of `dwCheckPoint` after 2^32 pending reports is not modelled.
- Service.Supervisor.ControlHandler: the failures of OpenEvent and SetEvent are inputs and are only logged. The event handle the handler opens and closes is not counted.
- EnvSection.SetVariable: SetEnvironmentVariable with a NULL name (an entry made only of "=") is taken to fail with ERROR_INVALID_PARAMETER. The system's own answer to that call is not modelled.
- `Win32Error` is never 0. A failing CreateDirectory, SetEnvironmentVariable or CreateProcess outside the service supervisor is taken to leave a non-zero last error, and the model does not follow what the source does with a last error of 0:
  - in `CreateDirectoryX` the HRESULT stays S_OK and the walk goes on with that directory not created;
  - in `SetEnvironmentVariables` the merge stops at that entry and still returns S_OK, so later entries are skipped and the run goes on with a partly merged environment;
  - the PHAKA_SERVICEW_BASEPATH set goes on without the variable;
  - in `ExecuteChildProcess` the zero-filled process information leaves a NULL process handle, and the wait on it fails.

  The service supervisor's calls do model that case.
